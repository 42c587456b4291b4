/**
 * `map { … }.compactMap { $0 }` and the `forEach { guard … else { return }; append }`
 * folds of the source: keep, in order, the elements a conversion accepts.
 */
module Sequences {
  import opened Wrappers

  /** The converted elements of `s` that `f` accepts, in the order of `s`. */
  function FilterMap<A, B>(s: seq<A>, f: A -> Option<B>): (r: seq<B>)
    ensures |r| <= |s|
  {
    if |s| == 0 then []
    else FilterMap(s[..|s| - 1], f) + (match f(s[|s| - 1]) case Some(b) => [b] case None => [])
  }

  /** Converting a concatenation converts each part, in order. */
  lemma {:induction false} FilterMapAppend<A, B>(a: seq<A>, b: seq<A>, f: A -> Option<B>)
    ensures FilterMap(a + b, f) == FilterMap(a, f) + FilterMap(b, f)
    decreases |b|
  {
    if |b| == 0 {
      assert a + b == a;
    } else {
      var b' := b[..|b| - 1];
      assert (a + b)[..|a + b| - 1] == a + b';
      assert (a + b)[|a + b| - 1] == b[|b| - 1];
      FilterMapAppend(a, b', f);
    }
  }

  /** Every output element is the conversion of some input element. */
  lemma {:induction false} FilterMapFrom<A, B>(s: seq<A>, f: A -> Option<B>, j: int)
    requires 0 <= j < |FilterMap(s, f)|
    ensures exists i :: 0 <= i < |s| && f(s[i]) == Some(FilterMap(s, f)[j])
    decreases |s|
  {
    var init := s[..|s| - 1];
    if j < |FilterMap(init, f)| {
      FilterMapFrom(init, f, j);
      var i :| 0 <= i < |init| && f(init[i]) == Some(FilterMap(init, f)[j]);
      assert s[i] == init[i];
    } else {
      assert f(s[|s| - 1]) == Some(FilterMap(s, f)[j]);
    }
  }

  /** Every accepted input element reaches the output. */
  lemma {:induction false} FilterMapKeeps<A, B>(s: seq<A>, f: A -> Option<B>, i: int)
    requires 0 <= i < |s| && f(s[i]).Some?
    ensures f(s[i]).value in FilterMap(s, f)
    decreases |s|
  {
    var init := s[..|s| - 1];
    if i < |s| - 1 {
      assert init[i] == s[i];
      FilterMapKeeps(init, f, i);
    }
  }

  /** Nothing is dropped exactly when every element is accepted; then element `i` becomes output `i`. */
  lemma {:induction false} FilterMapTotal<A, B>(s: seq<A>, f: A -> Option<B>)
    ensures |FilterMap(s, f)| == |s| <==> forall i :: 0 <= i < |s| ==> f(s[i]).Some?
    ensures (forall i :: 0 <= i < |s| ==> f(s[i]).Some?) ==>
      forall i :: 0 <= i < |s| ==> FilterMap(s, f)[i] == f(s[i]).value
    decreases |s|
  {
    if |s| > 0 {
      var init := s[..|s| - 1];
      FilterMapTotal(init, f);
      if forall i :: 0 <= i < |s| ==> f(s[i]).Some? {
        assert forall i :: 0 <= i < |init| ==> f(init[i]).Some? by {
          forall i | 0 <= i < |init| ensures f(init[i]).Some? {
            assert init[i] == s[i];
          }
        }
      }
      if |FilterMap(s, f)| == |s| {
        assert |FilterMap(init, f)| == |init|;
        forall i | 0 <= i < |s| ensures f(s[i]).Some? {
          if i < |init| {
            assert init[i] == s[i];
          }
        }
      }
    }
  }
}
