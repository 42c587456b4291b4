/**
 * The Realm message and room tables (`MessageDBModel`, `RoomDBModel`) and
 * the operations of `MessageStorageManager`.
 */
module MessageStorage {
  import opened Wrappers
  import opened Entities
  import opened Ordering
  import ContactStorage

  /** A row of the message table; `room` is the jid of the linked room, `status` the raw string. */
  datatype MessageRecord = MessageRecord(
    id: string,
    room: Option<string>,
    senderID: string,
    text: string,
    mediaPath: Option<string>,
    timestamp: Date,
    status: string)
  {
    /** The `statusType` getter: unknown raw strings read as `.outgoing`. */
    function StatusType(): (s: MessageStatus)
      ensures StatusFromRaw(status).Some? ==> StatusRaw(s) == status
      ensures StatusFromRaw(status).None? ==> s == Outgoing
    {
      match StatusFromRaw(status)
      case Some(s) => s
      case None => Outgoing
    }

    /** The `statusType` setter: stores the raw string of the new value. */
    function WithStatusType(s: MessageStatus): (r: MessageRecord)
      ensures r.id == id && r.room == room && r.senderID == senderID && r.text == text
      ensures r.mediaPath == mediaPath && r.timestamp == timestamp
    {
      this.(status := StatusRaw(s))
    }
  }

  /** `MessageDBModel()` created at time `now`: status "outgoing", everything else empty. */
  function NewMessageRecord(now: Date): MessageRecord
  {
    MessageRecord("", None, "", "", None, now, StatusRaw(Outgoing))
  }

  /** A fresh message reads as `.outgoing`. */
  lemma NewMessageIsOutgoing(now: Date)
    ensures NewMessageRecord(now).StatusType() == Outgoing
  {
  }

  /** Any raw string that is not a case name reads as `.outgoing`. */
  lemma UnknownStatusReadsOutgoing(m: MessageRecord)
    requires forall s: MessageStatus :: StatusRaw(s) != m.status
    ensures m.StatusType() == Outgoing
  {
  }

  /** Setting `statusType` and reading it back gives the value set. */
  lemma StatusSetGet(m: MessageRecord, s: MessageStatus)
    ensures m.WithStatusType(s).StatusType() == s
  {
    StatusRawRoundTrip(s);
  }

  /** A row of the room table; `messages` lists the ids of the linked messages in insertion order. */
  datatype RoomRecord = RoomRecord(jid: string, displayName: string, unreadCount: int, memberIDs: seq<string>, messages: seq<string>)

  /** `RoomDBModel()` with its primary key set. */
  function NewRoom(jid: string): RoomRecord
  {
    RoomRecord(jid, "", 0, [], [])
  }

  /** The properties `RoomDBModel` declares; a query may only name these. */
  const RoomProperties: set<string> := {"jid", "displayName", "unreadCount", "memberIDs", "messages"}

  /** The status a saved message gets: the given one, unless the sender is the room itself. */
  function StoredStatus(status: MessageStatus, senderID: string, roomID: string): (s: MessageStatus)
    ensures senderID != roomID ==> s == status
    ensures senderID == roomID ==> s == ReceivedUnread
  {
    if senderID != roomID then status else ReceivedUnread
  }

  /** `ChateeMessage.convert(dbMessage:)`: the room's display name is the sender name. */
  function ConvertMessage(m: MessageRecord, roomName: Option<string>): (c: ChateeMessage)
    ensures c.id == m.id && c.senderID == m.senderID && c.text == m.text
    ensures c.timestamp == m.timestamp && c.status == m.StatusType() && c.senderName == roomName
    ensures c.extraBody.None?
  {
    ChateeMessage(m.id, m.senderID, roomName, m.text, None, m.timestamp, m.StatusType())
  }

  /** The error Realm raises for a query on a property the object type does not declare. */
  datatype QueryError = InvalidPropertyName(name: string)

  /** `realm.objects(RoomDBModel.self).filter("<property> = '<value>'").first`. */
  function FirstRoomWhere(rooms: map<string, RoomRecord>, property: string, value: string): (r: Result<Option<RoomRecord>, QueryError>)
    ensures property !in RoomProperties ==> r == Failure(InvalidPropertyName(property))
    ensures property == "jid" ==> r == Success(if value in rooms then Some(rooms[value]) else None)
  {
    if property !in RoomProperties then Failure(InvalidPropertyName(property))
    else if property == "jid" then Success(if value in rooms then Some(rooms[value]) else None)
    else Success(None)
  }

  predicate NoDuplicates<T(==)>(s: seq<T>)
  {
    forall i, j :: 0 <= i < j < |s| ==> s[i] != s[j]
  }

  /**
   * Rows are stored under their primary keys, and the message-room link is
   * kept in both directions: a room lists each of its messages once, and a
   * message linked to a room is listed by it.
   */
  ghost predicate LinkedTables(messages: map<string, MessageRecord>, rooms: map<string, RoomRecord>)
  {
    (forall id :: id in messages ==> messages[id].id == id) &&
    (forall j :: j in rooms ==> rooms[j].jid == j && NoDuplicates(rooms[j].messages)) &&
    (forall j, i :: j in rooms && 0 <= i < |rooms[j].messages| ==>
      rooms[j].messages[i] in messages && messages[rooms[j].messages[i]].room == Some(j)) &&
    (forall id :: id in messages && messages[id].room.Some? ==>
      messages[id].room.value in rooms && id in rooms[messages[id].room.value].messages)
  }

  /**
   * `sorted(byKeyPath: "timestamp", ascending: true).suffix(70)`: at most
   * the 70 latest messages, in ascending timestamp order; every message left
   * out is no later than any message kept.
   */
  function LatestPage(all: seq<ChateeMessage>): (page: seq<ChateeMessage>)
    ensures |page| == if |all| < RoomPageSize then |all| else RoomPageSize
    ensures SortedBy(page, MessageKey)
    ensures exists dropped: seq<ChateeMessage> ::
      multiset(dropped + page) == multiset(all) &&
      forall y, x :: y in dropped && x in page ==> y.timestamp <= x.timestamp
  {
    var sorted := SortBy(all, MessageKey);
    SuffixOfSortedKeepsLargest(sorted, RoomPageSize, MessageKey);
    var page := Suffix(sorted, RoomPageSize);
    var dropped := sorted[..|sorted| - |page|];
    assert multiset(dropped + page) == multiset(all);
    assert forall y, x :: y in dropped && x in page ==> y.timestamp <= x.timestamp;
    page
  }

  /** Adding an empty room under its own jid keeps the tables linked. */
  lemma NewRoomKeepsLinks(messages: map<string, MessageRecord>, rooms: map<string, RoomRecord>, roomID: string)
    requires LinkedTables(messages, rooms) && roomID !in rooms
    ensures LinkedTables(messages, rooms[roomID := NewRoom(roomID)])
  {
    var rs := rooms[roomID := NewRoom(roomID)];
    forall id | id in messages && messages[id].room.Some?
      ensures messages[id].room.value in rs && id in rs[messages[id].room.value].messages
    {
      assert messages[id].room.value in rooms;
    }
  }

  /** Storing a new message linked to an existing room, and appending it to the room's list, keeps the tables linked. */
  lemma LinkKeepsLinks(messages: map<string, MessageRecord>, rooms: map<string, RoomRecord>, row: MessageRecord, roomID: string)
    requires LinkedTables(messages, rooms) && row.id !in messages && roomID in rooms && row.room == Some(roomID)
    ensures LinkedTables(messages[row.id := row], rooms[roomID := rooms[roomID].(messages := rooms[roomID].messages + [row.id])])
  {
    var id := row.id;
    var room := rooms[roomID];
    var ms := messages[id := row];
    var rs := rooms[roomID := room.(messages := room.messages + [id])];
    assert id !in room.messages by {
      forall i | 0 <= i < |room.messages| ensures room.messages[i] != id {
        assert room.messages[i] in messages;
      }
    }
    SavedMessageListedOnce(room.messages, id);
    forall j, i | j in rs && 0 <= i < |rs[j].messages|
      ensures rs[j].messages[i] in ms && ms[rs[j].messages[i]].room == Some(j)
    {
      if j == roomID && i < |room.messages| {
        assert rs[j].messages[i] == room.messages[i];
      } else if j != roomID {
        assert rs[j].messages[i] == rooms[j].messages[i];
      }
    }
    forall x | x in ms && ms[x].room.Some?
      ensures ms[x].room.value in rs && x in rs[ms[x].room.value].messages
    {
      if x != id {
        var j := messages[x].room.value;
        assert x in rooms[j].messages;
        if j == roomID {
          assert rs[j].messages == room.messages + [id];
        }
      }
    }
  }

  function MessageKey(m: ChateeMessage): int { m.timestamp }

  function RecentKey(r: RecentConversation): int { -r.lastMessage.timestamp }

  /** The number of messages `loadRoom` returns at most. */
  const RoomPageSize := 70

  /** No two entries share a jid. */
  ghost predicate DistinctJids(found: seq<RecentConversation>)
  {
    forall i, k :: 0 <= i < k < |found| ==> found[i].contact.jid != found[k].contact.jid
  }

  /** Every room outside `rest` that has a message has an entry in `found`. */
  ghost predicate CoversVisited(found: seq<RecentConversation>, rest: set<string>, rooms: map<string, RoomRecord>)
  {
    forall jid :: jid in rooms && jid !in rest && |rooms[jid].messages| > 0 ==>
      exists i :: 0 <= i < |found| && found[i].contact.jid == jid
  }

  lemma AppendKeepsDistinct(found: seq<RecentConversation>, e: RecentConversation)
    requires DistinctJids(found)
    requires forall i :: 0 <= i < |found| ==> found[i].contact.jid != e.contact.jid
    ensures DistinctJids(found + [e])
  {
    var next := found + [e];
    forall i, k | 0 <= i < k < |next|
      ensures next[i].contact.jid != next[k].contact.jid
    {
      assert next[i] == found[i];
    }
  }

  lemma AppendCovers(found: seq<RecentConversation>, rest: set<string>, rooms: map<string, RoomRecord>, e: RecentConversation)
    requires CoversVisited(found, rest, rooms)
    ensures CoversVisited(found + [e], rest - {e.contact.jid}, rooms)
  {
    var next := found + [e];
    forall j | j in rooms && j !in rest - {e.contact.jid} && |rooms[j].messages| > 0
      ensures exists i :: 0 <= i < |next| && next[i].contact.jid == j
    {
      if j == e.contact.jid {
        assert next[|found|].contact.jid == j;
      } else {
        var i :| 0 <= i < |found| && found[i].contact.jid == j;
        assert next[i].contact.jid == j;
      }
    }
  }

  lemma SkipCovers(found: seq<RecentConversation>, rest: set<string>, rooms: map<string, RoomRecord>, jid: string)
    requires CoversVisited(found, rest, rooms)
    requires jid in rooms ==> |rooms[jid].messages| == 0
    ensures CoversVisited(found, rest - {jid}, rooms)
  {
  }

  /**
   * What `saveMessage` does to the two tables (`messages`, `rooms` before,
   * `messages'`, `rooms'` after) and what it reports: a message whose id is
   * stored already changes nothing and has no completion; any other message
   * gets its row, linked to the room, which is created first when missing
   * and gains the id at the end of its list.
   */
  ghost predicate Saves(messages: map<string, MessageRecord>, rooms: map<string, RoomRecord>,
                        messages': map<string, MessageRecord>, rooms': map<string, RoomRecord>, completion: Option<ChateeMessage>,
                        id: string, text: string, mediaPath: Option<string>, roomID: string, senderID: string,
                        status: MessageStatus, date: Date)
  {
    if id in messages then completion.None? && messages' == messages && rooms' == rooms
    else
      var row := MessageRecord(id, Some(roomID), senderID, text, mediaPath, date, StatusRaw(StoredStatus(status, senderID, roomID)));
      var room := if roomID in rooms then rooms[roomID] else NewRoom(roomID);
      messages' == messages[id := row] &&
      rooms' == rooms[roomID := room.(messages := room.messages + [id])] &&
      completion == Some(ConvertMessage(row, Some(room.displayName)))
  }

  /** The message table and the room table of one account. */
  class MessageStorageManager {
    const userBareJid: string
    var messages: map<string, MessageRecord>
    var rooms: map<string, RoomRecord>

    /** The two tables are keyed and linked as `LinkedTables` says. */
    ghost predicate Valid()
      reads this
    {
      LinkedTables(messages, rooms)
    }

    constructor (userBareJid: string)
      ensures Valid() && this.userBareJid == userBareJid && messages == map[] && rooms == map[]
    {
      this.userBareJid := userBareJid;
      messages := map[];
      rooms := map[];
    }

    /** `checkIfMessageExists`: a primary-key lookup. */
    function CheckIfMessageExists(id: string): (r: bool)
      reads this
      ensures r <==> id in messages
    {
      id in messages
    }

    /**
     * `saveMessage`: a message whose id is stored already is dropped without a
     * completion. Otherwise a missing room is created first (jid only) and the
     * save is repeated; the message is then linked to the room, appended to
     * its list, and reported.
     */
    method SaveMessage(id: string, text: string, mediaPath: Option<string>, roomID: string, senderID: string,
                       status: MessageStatus, date: Date) returns (completion: Option<ChateeMessage>)
      requires Valid()
      modifies this
      ensures Valid()
      ensures Saves(old(messages), old(rooms), messages, rooms, completion, id, text, mediaPath, roomID, senderID, status, date)
      decreases if roomID in rooms then 0 else 1
    {
      if id in messages {
        return None;
      }
      var row := NewMessageRecord(date).(id := id, text := text, mediaPath := mediaPath, senderID := senderID)
        .WithStatusType(StoredStatus(status, senderID, roomID));
      if roomID in rooms {
        var room := rooms[roomID];
        row := row.(room := Some(roomID));
        LinkKeepsLinks(messages, rooms, row, roomID);
        messages := messages[id := row];
        rooms := rooms[roomID := room.(messages := room.messages + [id])];
        completion := Some(ConvertMessage(row, Some(room.displayName)));
      } else {
        NewRoomKeepsLinks(messages, rooms, roomID);
        rooms := rooms[roomID := NewRoom(roomID)];
        completion := SaveMessage(id, text, mediaPath, roomID, senderID, status, date);
      }
    }

    /** `markMessageAs`: changes the status of a stored message and nothing else. */
    method MarkMessageAs(status: MessageStatus, id: string, date: Date) returns (ok: bool, err: Option<DatabaseError>)
      requires Valid()
      modifies this
      ensures Valid() && rooms == old(rooms)
      ensures id in old(messages) ==> ok && err.None? && messages == old(messages)[id := old(messages)[id].(status := StatusRaw(status))]
      ensures id !in old(messages) ==> !ok && err == Some(NoMessageWithId) && messages == old(messages)
    {
      if id !in messages {
        return false, Some(NoMessageWithId);
      }
      messages := messages[id := messages[id].WithStatusType(status)];
      ok, err := true, None;
    }

    /** `changeArchivedMessageTimestamp`: changes the timestamp of a stored message and nothing else. */
    method ChangeArchivedMessageTimestamp(id: string, newTimestamp: Date) returns (ok: bool, err: Option<DatabaseError>)
      requires Valid()
      modifies this
      ensures Valid() && rooms == old(rooms)
      ensures id in old(messages) ==> ok && err.None? && messages == old(messages)[id := old(messages)[id].(timestamp := newTimestamp)]
      ensures id !in old(messages) ==> !ok && err == Some(NoMessageWithId) && messages == old(messages)
    {
      if id !in messages {
        return false, Some(NoMessageWithId);
      }
      messages := messages[id := messages[id].(timestamp := newTimestamp)];
      ok, err := true, None;
    }

    /**
     * `getRoomID(otherUserJID:)`: an existing room is reported together with
     * `noRoomWithId`; a missing one is created with members [account, other]
     * and reported without error.
     */
    method GetRoomID(otherUserJID: string) returns (jid: string, err: Option<DatabaseError>)
      requires Valid()
      modifies this
      ensures Valid() && messages == old(messages) && jid == otherUserJID
      ensures otherUserJID in old(rooms) ==> err == Some(NoRoomWithId) && rooms == old(rooms)
      ensures otherUserJID !in old(rooms) ==>
        err.None? && rooms == old(rooms)[otherUserJID := NewRoom(otherUserJID).(memberIDs := [userBareJid, otherUserJID])]
    {
      if otherUserJID in rooms {
        return otherUserJID, Some(NoRoomWithId);
      }
      rooms := rooms[otherUserJID := NewRoom(otherUserJID).(memberIDs := [userBareJid, otherUserJID])];
      jid, err := otherUserJID, None;
    }

    /** `removeRoom`: deletes the room; Realm clears the room link of its messages, which stay stored. */
    method RemoveRoom(roomID: string) returns (ok: bool, err: Option<DatabaseError>)
      requires Valid()
      modifies this
      ensures Valid() && messages.Keys == old(messages).Keys
      ensures roomID !in old(rooms) ==> !ok && err == Some(NoRoomWithId) && rooms == old(rooms) && messages == old(messages)
      ensures roomID in old(rooms) ==>
        ok && err.None? && rooms == old(rooms) - {roomID} &&
        forall id :: id in messages ==>
          messages[id] == if old(messages)[id].room == Some(roomID) then old(messages)[id].(room := None) else old(messages)[id]
    {
      if roomID !in rooms {
        return false, Some(NoRoomWithId);
      }
      rooms := rooms - {roomID};
      messages := map id | id in messages :: if messages[id].room == Some(roomID) then messages[id].(room := None) else messages[id];
      ok, err := true, None;
    }

    /** The messages of a stored room, converted, in the room's list order. */
    function RoomMessages(jid: string): (r: seq<ChateeMessage>)
      requires Valid() && jid in rooms
      reads this
      ensures |r| == |rooms[jid].messages|
      ensures forall i :: 0 <= i < |r| ==> r[i] == ConvertMessage(messages[rooms[jid].messages[i]], Some(rooms[jid].displayName))
    {
      var room := rooms[jid];
      seq(|room.messages|, i requires 0 <= i < |room.messages| && Valid() && jid in rooms && room == rooms[jid] reads this =>
        ConvertMessage(messages[room.messages[i]], Some(room.displayName)))
    }

    /**
     * `loadRoom(withID:)` with the room looked up by its primary key: the room
     * name and at most the 70 latest messages in ascending timestamp order;
     * `noRoomWithId` for a missing room.
     */
    method LoadRoom(roomID: string) returns (r: Result<ChateeConversation, DatabaseError>)
      requires Valid()
      ensures roomID !in rooms ==> r == Failure(NoRoomWithId)
      ensures roomID in rooms ==>
        r.Success? &&
        r.value.roomID == roomID && r.value.name == rooms[roomID].displayName &&
        |r.value.messages| == (if |rooms[roomID].messages| < RoomPageSize then |rooms[roomID].messages| else RoomPageSize) &&
        SortedBy(r.value.messages, MessageKey) &&
        exists dropped: seq<ChateeMessage> ::
          multiset(dropped + r.value.messages) == multiset(RoomMessages(roomID)) &&
          forall y, x :: y in dropped && x in r.value.messages ==> y.timestamp <= x.timestamp
    {
      var found := FirstRoomWhere(rooms, "jid", roomID);
      if !found.Success? || found.value.None? {
        return Failure(NoRoomWithId);
      }
      var room := found.value.value;
      r := Success(ChateeConversation(roomID, room.displayName, LatestPage(RoomMessages(roomID))));
    }

    /**
     * `loadRoom(withID:)` as written: its query names the property `id`,
     * which `RoomDBModel` does not declare, so Realm raises before any room
     * is looked up.
     */
    method LoadRoomAsWritten(roomID: string) returns (r: Result<ChateeConversation, QueryError>)
      requires Valid()
      ensures r == Failure(InvalidPropertyName("id"))
    {
      var found := FirstRoomWhere(rooms, "id", roomID);
      if found.Failure? {
        return Failure(found.error);
      }
      assert false;
      r := Failure(InvalidPropertyName("id"));
    }

    /**
     * `loadOutgoingMessages`: one entry per stored message whose raw status
     * is "outgoing" and that is linked to a room; `toJid` is the room's jid.
     */
    method LoadOutgoingMessages() returns (out: seq<OutgoingMessage>)
      requires Valid()
      ensures forall i :: 0 <= i < |out| ==>
        var id := out[i].remoteMessageId;
        id in messages && messages[id].status == StatusRaw(Outgoing) && messages[id].room == Some(out[i].toJid) &&
        out[i].messageText == Some(messages[id].text)
      ensures forall id :: id in messages && messages[id].status == StatusRaw(Outgoing) && messages[id].room.Some? ==>
        exists i :: 0 <= i < |out| && out[i].remoteMessageId == id
      ensures forall i, k :: 0 <= i < k < |out| ==> out[i].remoteMessageId != out[k].remoteMessageId
    {
      out := [];
      var rest := messages.Keys;
      while rest != {}
        invariant rest <= messages.Keys
        invariant forall i :: 0 <= i < |out| ==>
          var id := out[i].remoteMessageId;
          id in messages && id !in rest && messages[id].status == StatusRaw(Outgoing) && messages[id].room == Some(out[i].toJid) &&
          out[i].messageText == Some(messages[id].text)
        invariant forall id :: id in messages && id !in rest && messages[id].status == StatusRaw(Outgoing) && messages[id].room.Some? ==>
          exists i :: 0 <= i < |out| && out[i].remoteMessageId == id
        invariant forall i, k :: 0 <= i < k < |out| ==> out[i].remoteMessageId != out[k].remoteMessageId
        decreases rest
      {
        var id :| id in rest;
        var m := messages[id];
        if m.status == StatusRaw(Outgoing) && m.room.Some? {
          var before := out;
          out := out + [OutgoingMessage(id, m.room.value, Some(m.text))];
          assert forall i :: 0 <= i < |before| ==> out[i] == before[i];
          assert out[|out| - 1].remoteMessageId == id;
        }
        rest := rest - {id};
      }
    }

    /** The latest message of a non-empty list of converted messages (Realm's pick among equal timestamps is unspecified). */
    static function Latest(ms: seq<ChateeMessage>): (m: ChateeMessage)
      requires |ms| > 0
      ensures m in ms && forall x :: x in ms ==> x.timestamp <= m.timestamp
    {
      if |ms| == 1 then ms[0]
      else
        var rest := Latest(ms[1..]);
        assert forall x :: x in ms ==> x == ms[0] || x in ms[1..];
        if ms[0].timestamp >= rest.timestamp then ms[0] else rest
    }

    /** An entry `loadRecent` reports: the entry of a room that has a message. */
    ghost predicate IsRecentEntry(e: RecentConversation, contactStore: ContactStorage.ContactStorageManager)
      requires Valid()
      reads this, contactStore
    {
      var jid := e.contact.jid;
      jid in rooms && |rooms[jid].messages| > 0 && e == RecentEntryFor(jid, contactStore)
    }

    /**
     * `loadRecent`: one entry per room that has a message, carrying its
     * latest message and a contact built from the contact table, newest first.
     */
    method LoadRecent(contactStore: ContactStorage.ContactStorageManager) returns (recent: seq<RecentConversation>)
      requires Valid()
      ensures SortedBy(recent, RecentKey)
      ensures forall i :: 0 <= i < |recent| ==> IsRecentEntry(recent[i], contactStore)
      ensures forall jid :: jid in rooms && |rooms[jid].messages| > 0 ==> exists i :: 0 <= i < |recent| && recent[i].contact.jid == jid
      ensures forall i, k :: 0 <= i < k < |recent| ==> recent[i].contact.jid != recent[k].contact.jid
    {
      var found := CollectRecent(contactStore);
      recent := SortBy(found, RecentKey);
      SameEntries(found, recent);
      forall jid | jid in rooms && |rooms[jid].messages| > 0
        ensures exists i :: 0 <= i < |recent| && recent[i].contact.jid == jid
      {
        var a :| 0 <= a < |found| && found[a].contact.jid == jid;
        assert found[a] in recent;
      }
    }

    /**
     * The entry `loadRecent` builds for a room with at least one message: its
     * latest message and a contact built from the contact table with
     * subscription `.both`.
     */
    function RecentEntryFor(jid: string, contactStore: ContactStorage.ContactStorageManager): (e: RecentConversation)
      requires Valid() && jid in rooms && |rooms[jid].messages| > 0
      reads this, contactStore
      ensures e.contact == NewContact(jid, contactStore.GetName(jid), contactStore.GetAvatar(jid), Both)
      ensures e.lastMessage in RoomMessages(jid)
      ensures forall x :: x in RoomMessages(jid) ==> x.timestamp <= e.lastMessage.timestamp
      ensures e.presenceStatus == Offline
    {
      var contact := NewContact(jid, contactStore.GetName(jid), contactStore.GetAvatar(jid), Both);
      RecentConversation(contact, Latest(RoomMessages(jid)), Offline)
    }

    /** The `forEach` over the rooms that collects the entries of `loadRecent`, before sorting. */
    method CollectRecent(contactStore: ContactStorage.ContactStorageManager) returns (found: seq<RecentConversation>)
      requires Valid()
      ensures forall i :: 0 <= i < |found| ==> IsRecentEntry(found[i], contactStore)
      ensures forall jid :: jid in rooms && |rooms[jid].messages| > 0 ==> exists i :: 0 <= i < |found| && found[i].contact.jid == jid
      ensures forall i, k :: 0 <= i < k < |found| ==> found[i].contact.jid != found[k].contact.jid
    {
      found := [];
      var rest := rooms.Keys;
      while rest != {}
        invariant Collected(found, rest, contactStore)
        decreases rest
      {
        var jid :| jid in rest;
        CollectStep(found, rest, jid, contactStore);
        if |rooms[jid].messages| > 0 {
          found := found + [RecentEntryFor(jid, contactStore)];
        }
        rest := rest - {jid};
      }
    }

    /** The entries collected once the rooms outside `rest` have been visited. */
    ghost predicate Collected(found: seq<RecentConversation>, rest: set<string>, contactStore: ContactStorage.ContactStorageManager)
      requires Valid()
      reads this, contactStore
    {
      rest <= rooms.Keys && EntriesOutside(found, rest, contactStore) &&
      CoversVisited(found, rest, rooms) && DistinctJids(found)
    }

    /** Every collected entry is a `loadRecent` entry of an already visited room. */
    ghost predicate EntriesOutside(found: seq<RecentConversation>, rest: set<string>, contactStore: ContactStorage.ContactStorageManager)
      requires Valid()
      reads this, contactStore
    {
      forall i :: 0 <= i < |found| ==> IsRecentEntry(found[i], contactStore) && found[i].contact.jid !in rest
    }

    /** Visiting one more room keeps `Collected`, appending the room's entry when it has a message. */
    lemma CollectStep(found: seq<RecentConversation>, rest: set<string>, jid: string, contactStore: ContactStorage.ContactStorageManager)
      requires Valid() && Collected(found, rest, contactStore) && jid in rest
      ensures |rooms[jid].messages| > 0 ==> Collected(found + [RecentEntryFor(jid, contactStore)], rest - {jid}, contactStore)
      ensures |rooms[jid].messages| == 0 ==> Collected(found, rest - {jid}, contactStore)
    {
      if |rooms[jid].messages| > 0 {
        var e := RecentEntryFor(jid, contactStore);
        EntriesStep(found, rest, jid, contactStore);
        AppendCovers(found, rest, rooms, e);
        AppendKeepsDistinct(found, e);
      } else {
        SkipCovers(found, rest, rooms, jid);
      }
    }

    /** Appending the entry of a visited room keeps `EntriesOutside`. */
    lemma EntriesStep(found: seq<RecentConversation>, rest: set<string>, jid: string, contactStore: ContactStorage.ContactStorageManager)
      requires Valid() && EntriesOutside(found, rest, contactStore) && jid in rooms && |rooms[jid].messages| > 0
      ensures EntriesOutside(found + [RecentEntryFor(jid, contactStore)], rest - {jid}, contactStore)
    {
      var next := found + [RecentEntryFor(jid, contactStore)];
      forall i | 0 <= i < |next|
        ensures IsRecentEntry(next[i], contactStore) && next[i].contact.jid !in rest - {jid}
      {
        if i < |found| {
          assert next[i] == found[i];
        }
      }
    }

    /** A permutation of a list of entries with distinct jids holds the same entries, with distinct jids. */
    static lemma SameEntries(found: seq<RecentConversation>, recent: seq<RecentConversation>)
      requires multiset(recent) == multiset(found)
      requires forall a, b :: 0 <= a < b < |found| ==> found[a].contact.jid != found[b].contact.jid
      ensures forall i :: 0 <= i < |recent| ==> recent[i] in found
      ensures forall a :: 0 <= a < |found| ==> found[a] in recent
      ensures forall i, k :: 0 <= i < k < |recent| ==> recent[i].contact.jid != recent[k].contact.jid
    {
      forall i | 0 <= i < |recent|
        ensures recent[i] in found
      {
        assert recent[i] in multiset(recent);
      }
      forall a | 0 <= a < |found|
        ensures found[a] in recent
      {
        assert found[a] in multiset(found);
      }
      forall i, k | 0 <= i < k < |recent|
        ensures recent[i].contact.jid != recent[k].contact.jid
      {
        if recent[i].contact.jid == recent[k].contact.jid {
          var a :| 0 <= a < |found| && found[a] == recent[i];
          var b :| 0 <= b < |found| && found[b] == recent[k];
          MultiplicityOfDistinct(found, a);
          TwiceInSequence(recent, i, k);
          assert false;
        }
      }
    }

    /** An element of a sequence whose jids are distinct occurs in it once. */
    static lemma {:induction false} MultiplicityOfDistinct(s: seq<RecentConversation>, a: int)
      requires forall x, y :: 0 <= x < y < |s| ==> s[x].contact.jid != s[y].contact.jid
      requires 0 <= a < |s|
      ensures multiset(s)[s[a]] == 1
      decreases |s|
    {
      var last := |s| - 1;
      assert s == s[..last] + [s[last]];
      if a == last {
        assert s[a] !in s[..last];
        assert s[a] !in multiset(s[..last]);
      } else {
        MultiplicityOfDistinct(s[..last], a);
        assert s[last] != s[a];
      }
    }

    /** An element at two positions occurs at least twice. */
    static lemma TwiceInSequence<T>(s: seq<T>, i: int, k: int)
      requires 0 <= i < k < |s| && s[i] == s[k]
      ensures multiset(s)[s[i]] >= 2
    {
      assert s == s[..i] + [s[i]] + s[i + 1..k] + [s[k]] + s[k + 1..];
    }
  }

  /**
   * Saving a message of a new id makes it stored and listed by its room
   * exactly once, whether or not the room existed before.
   */
  lemma SavedMessageListedOnce(roomMessages: seq<string>, id: string)
    requires NoDuplicates(roomMessages) && id !in roomMessages
    ensures NoDuplicates(roomMessages + [id])
    ensures multiset(roomMessages + [id])[id] == 1
  {
    assert id !in multiset(roomMessages);
  }
}
