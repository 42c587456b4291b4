/** The public value types of the library and the storage errors. */
module Entities {
  import opened Wrappers
  import opened Text

  /** Dates are modelled as integer timestamps. */
  type Date = int

  /** `ChateeMessageStatus`, a string-backed enumeration. */
  datatype MessageStatus = Outgoing | NotSent | Sent | Delivered | DeliveredRead | ReceivedRead | ReceivedUnread

  /** The raw string Swift derives from each case name. */
  function StatusRaw(s: MessageStatus): string
  {
    match s
    case Outgoing => "outgoing"
    case NotSent => "notSent"
    case Sent => "sent"
    case Delivered => "delivered"
    case DeliveredRead => "deliveredRead"
    case ReceivedRead => "receivedRead"
    case ReceivedUnread => "receivedUnread"
  }

  /** `ChateeMessageStatus(rawValue:)`. */
  function StatusFromRaw(raw: string): (r: Option<MessageStatus>)
    ensures r.Some? ==> StatusRaw(r.value) == raw
    ensures r.None? ==> forall s: MessageStatus :: StatusRaw(s) != raw
  {
    if raw == "outgoing" then Some(Outgoing)
    else if raw == "notSent" then Some(NotSent)
    else if raw == "sent" then Some(Sent)
    else if raw == "delivered" then Some(Delivered)
    else if raw == "deliveredRead" then Some(DeliveredRead)
    else if raw == "receivedRead" then Some(ReceivedRead)
    else if raw == "receivedUnread" then Some(ReceivedUnread)
    else None
  }

  /** Every status survives encoding to its raw string and decoding again. */
  lemma StatusRawRoundTrip(s: MessageStatus)
    ensures StatusFromRaw(StatusRaw(s)) == Some(s)
  {
  }

  /** `ChateeContactSubscription`, a string-backed enumeration. */
  datatype ContactSubscription = NoSubscription | RequestReceived | RequestSent | To | From | Both

  function SubscriptionRaw(s: ContactSubscription): string
  {
    match s
    case NoSubscription => "none"
    case RequestReceived => "requestReceived"
    case RequestSent => "requestSent"
    case To => "to"
    case From => "from"
    case Both => "both"
  }

  /** `ChateeContactSubscription(rawValue:)`. */
  function SubscriptionFromRaw(raw: string): (r: Option<ContactSubscription>)
    ensures r.Some? ==> SubscriptionRaw(r.value) == raw
    ensures r.None? ==> forall s: ContactSubscription :: SubscriptionRaw(s) != raw
  {
    if raw == "none" then Some(NoSubscription)
    else if raw == "requestReceived" then Some(RequestReceived)
    else if raw == "requestSent" then Some(RequestSent)
    else if raw == "to" then Some(To)
    else if raw == "from" then Some(From)
    else if raw == "both" then Some(Both)
    else None
  }

  lemma SubscriptionRawRoundTrip(s: ContactSubscription)
    ensures SubscriptionFromRaw(SubscriptionRaw(s)) == Some(s)
  {
  }

  /** `ChateePresenceStatus`; only its `.offline` case is used by the modelled code. */
  datatype PresenceStatus = Offline | OtherPresence(name: string)

  /** `ChateeContact`. */
  datatype ChateeContact = ChateeContact(
    jid: string,
    name: Option<string>,
    status: Option<string>,
    lastActive: Option<string>,
    avatar: Option<Bytes>,
    presenceStatus: PresenceStatus,
    subscription: ContactSubscription)
  {
    /** `isSubscribedTo`: the account receives this contact's presence. */
    predicate IsSubscribedTo()
    {
      subscription == Both || subscription == To
    }

    /** `isPendingRequest`: the account asked for a subscription that is not answered yet. */
    predicate IsPendingRequest()
    {
      subscription == RequestSent
    }
  }

  /** The memberwise initialiser with `presenceStatus` left at its default. */
  function NewContact(jid: string, name: Option<string>, avatar: Option<Bytes>, subscription: ContactSubscription): (c: ChateeContact)
    ensures c.presenceStatus == Offline
    ensures c.jid == jid && c.name == name && c.avatar == avatar && c.subscription == subscription
    ensures c.status.None? && c.lastActive.None?
  {
    ChateeContact(jid, name, None, None, avatar, Offline, subscription)
  }

  /**
   * For a contact whose subscription was decoded from a stored raw value,
   * the two predicates read off that raw value.
   */
  lemma PredicatesFromRaw(c: ChateeContact, raw: string)
    requires SubscriptionFromRaw(raw) == Some(c.subscription)
    ensures c.IsSubscribedTo() <==> raw == "both" || raw == "to"
    ensures c.IsPendingRequest() <==> raw == "requestSent"
  {
  }

  /** No contact is both subscribed to and pending. */
  lemma SubscribedIsNotPending(c: ChateeContact)
    ensures !(c.IsSubscribedTo() && c.IsPendingRequest())
  {
  }

  /** `ChateeMessage`. */
  datatype ChateeMessage = ChateeMessage(
    id: string,
    senderID: string,
    senderName: Option<string>,
    text: string,
    extraBody: Option<Bytes>,
    timestamp: Date,
    status: MessageStatus)

  /** `ChateeConversation`. */
  datatype ChateeConversation = ChateeConversation(roomID: string, name: string, messages: seq<ChateeMessage>)

  /** `ChateeRecentConversation`. */
  datatype RecentConversation = RecentConversation(contact: ChateeContact, lastMessage: ChateeMessage, presenceStatus: PresenceStatus)

  /** The message that is (re)sent by the OMEMO manager. */
  datatype OutgoingMessage = OutgoingMessage(remoteMessageId: string, toJid: string, messageText: Option<string>)

  /** `DatabaseError`. */
  datatype DatabaseError = NoRooms | NoRoomWithId | NoMessageWithId | NoContactWithJid | WriteFailed
}
