/**
 * A Realm table with an integer primary key, as the Signal store uses it:
 * `realm.add(_, update:)` upserts by primary key, `realm.delete` removes a
 * row, and the unsorted `realm.objects(…)` results are read with `first`
 * and `last`. The model keeps the rows in insertion order: an upsert of a
 * stored key keeps its position, a new key goes to the end, and a delete
 * closes the gap.
 */
module KeyedTable {
  import opened Wrappers

  datatype Table<V> = Table(rows: map<int, V>, order: seq<int>)
  {
    /** The order lists every stored key exactly once. */
    ghost predicate Valid()
    {
      (forall i :: 0 <= i < |order| ==> order[i] in rows) &&
      (forall k :: k in rows ==> k in order) &&
      Distinct(order)
    }

    /** `realm.object(ofType:forPrimaryKey:)`. */
    function Get(k: int): (r: Option<V>)
      ensures r.Some? <==> k in rows
      ensures r.Some? ==> r.value == rows[k]
    {
      if k in rows then Some(rows[k]) else None
    }

    /** `realm.add(row, update:)`: overwrite a stored row in place, or append a new one. */
    function Put(k: int, v: V): (t: Table<V>)
      requires Valid()
      ensures t.Valid()
      ensures t.rows == rows[k := v]
      ensures k in rows ==> t.order == order
      ensures k !in rows ==> t.order == order + [k]
    {
      Table(rows[k := v], if k in rows then order else order + [k])
    }

    /** `realm.delete(row)` for the row with key `k`, if there is one. */
    function Delete(k: int): (t: Table<V>)
      requires Valid()
      ensures t.Valid()
      ensures t.rows == rows - {k}
      ensures forall x :: x in t.order <==> x in order && x != k
    {
      var o := Without(order, k);
      WithoutDistinct(order, k);
      assert forall i :: 0 <= i < |o| ==> o[i] in o;
      Table(rows - {k}, o)
    }

    /** The key of `results.first`. */
    function First(): (r: Option<int>)
      requires Valid()
      ensures r.None? <==> forall k :: k !in rows
      ensures r.Some? ==> |order| > 0 && r.value in rows && r.value == order[0]
    {
      if |order| == 0 then None
      else
        var k0 := order[0];
        assert k0 in rows;
        assert !(forall k :: k !in rows);
        Some(k0)
    }

    /** The key of `results.last`. */
    function Last(): (r: Option<int>)
      requires Valid()
      ensures r.None? <==> forall k :: k !in rows
      ensures r.Some? ==> |order| > 0 && r.value in rows && r.value == order[|order| - 1]
    {
      if |order| == 0 then None
      else
        var k0 := order[|order| - 1];
        assert k0 in rows;
        assert !(forall k :: k !in rows);
        Some(k0)
    }
  }

  /** The empty table. */
  function EmptyTable<V>(): (t: Table<V>)
    ensures t.Valid() && t.rows == map[]
  {
    Table(map[], [])
  }

  /** `s` without the occurrences of `k`, order kept. */
  function Without(s: seq<int>, k: int): (r: seq<int>)
    ensures forall x :: x in r <==> x in s && x != k
  {
    if |s| == 0 then []
    else if s[0] == k then Without(s[1..], k)
    else
      assert forall x :: x in s[1..] ==> x in s;
      [s[0]] + Without(s[1..], k)
  }

  predicate Distinct(s: seq<int>)
  {
    forall i, j :: 0 <= i < j < |s| ==> s[i] != s[j]
  }

  lemma {:induction false} WithoutDistinct(s: seq<int>, k: int)
    requires Distinct(s)
    ensures Distinct(Without(s, k))
  {
    if |s| > 0 {
      assert Distinct(s[1..]);
      WithoutDistinct(s[1..], k);
      if s[0] != k {
        var r := Without(s, k);
        assert r == [s[0]] + Without(s[1..], k);
        assert s[0] !in s[1..];
        forall i, j | 0 <= i < j < |r| ensures r[i] != r[j] {
          if i == 0 {
            assert r[j] in Without(s[1..], k);
          }
        }
      }
    }
  }

  // ------------------------------------------------------------- lemmas

  /** A lookup after an upsert finds the new value under its key and the old rows elsewhere. */
  lemma PutThenGet<V>(t: Table<V>, k: int, v: V, j: int)
    requires t.Valid()
    ensures t.Put(k, v).Get(j) == if j == k then Some(v) else t.Get(j)
  {
  }

  /** Storing twice under one key leaves only the second value, in the first one's position. */
  lemma PutOverwrites<V>(t: Table<V>, k: int, v: V, w: V)
    requires t.Valid()
    ensures t.Put(k, v).Put(k, w) == t.Put(k, w)
  {
    assert t.rows[k := v][k := w] == t.rows[k := w];
  }

  /** Deleting a key that is not stored changes nothing. */
  lemma {:induction false} DeleteAbsent<V>(t: Table<V>, k: int)
    requires t.Valid() && k !in t.rows
    ensures t.Delete(k) == t
  {
    assert k !in t.order;
    WithoutAbsent(t.order, k);
    assert t.rows - {k} == t.rows;
  }

  lemma {:induction false} WithoutAbsent(s: seq<int>, k: int)
    requires k !in s
    ensures Without(s, k) == s
  {
    if |s| > 0 {
      assert k !in s[1..];
      WithoutAbsent(s[1..], k);
      assert [s[0]] + s[1..] == s;
    }
  }

  /** Keys appended in increasing order keep the table's order increasing. */
  predicate Increasing(s: seq<int>)
  {
    forall i, j :: 0 <= i < j < |s| ==> s[i] < s[j]
  }

  /**
   * When the keys were stored in increasing order, the last row holds the
   * largest key, so `last` is the maximum.
   */
  lemma LastIsMaxWhenIncreasing<V>(t: Table<V>)
    requires t.Valid() && Increasing(t.order) && t.Last().Some?
    ensures forall k :: k in t.rows ==> k <= t.Last().value
  {
    forall k | k in t.rows ensures k <= t.Last().value {
      assert k in t.order;
      var i :| 0 <= i < |t.order| && t.order[i] == k;
      if i < |t.order| - 1 {
        assert t.order[i] < t.order[|t.order| - 1];
      }
    }
  }

  /** Storing a new key larger than every stored one keeps the order increasing. */
  lemma PutLargerKeepsIncreasing<V>(t: Table<V>, k: int, v: V)
    requires t.Valid() && Increasing(t.order)
    requires forall x :: x in t.rows ==> x < k
    ensures Increasing(t.Put(k, v).order)
  {
    var o := t.Put(k, v).order;
    forall i, j | 0 <= i < j < |o| ensures o[i] < o[j] {
      if j == |t.order| {
        assert o[i] == t.order[i] && t.order[i] in t.rows;
      }
    }
  }

  /** Storing key 5 and then key 3: the last row is 3, though 5 is the largest key. */
  lemma LastCanBeBelowMax<V>(v: V)
    ensures var t := EmptyTable<V>().Put(5, v).Put(3, v);
      5 in t.rows && t.Last() == Some(3)
  {
    var t1 := EmptyTable<V>().Put(5, v);
    assert t1.order == [5];
    var t := t1.Put(3, v);
    assert t.order == [5, 3];
  }
}
