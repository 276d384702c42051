/**
 * The two scanning patterns the trade store uses, stated once for any element type:
 * an order-preserving filter (a loop that appends every element passing a test to a
 * fresh list) and a first-match search (a loop that returns on the first element
 * passing a test).
 */
module Selection {
  import opened Wrappers

  /** The elements of `s` that satisfy `p`, in the order they appear in `s`. */
  function Keep<T>(s: seq<T>, p: T -> bool): (r: seq<T>)
    ensures |r| <= |s|
    ensures forall k :: 0 <= k < |r| ==> p(r[k])
  {
    if s == [] then []
    else Keep(s[..|s| - 1], p) + (if p(s[|s| - 1]) then [s[|s| - 1]] else [])
  }

  /**
   * `idx` lists, in strictly increasing order, exactly the positions of `s` whose
   * elements satisfy `p`, and `r` holds those elements in that order.
   */
  ghost predicate SelectsAt<T>(r: seq<T>, s: seq<T>, p: T -> bool, idx: seq<nat>)
  {
    && |idx| == |r|
    && (forall k :: 0 <= k < |idx| ==> idx[k] < |s| && r[k] == s[idx[k]])
    && (forall k :: 0 <= k < |idx| ==> p(s[idx[k]]))
    && (forall k, l :: 0 <= k < l < |idx| ==> idx[k] < idx[l])
    && (forall j :: 0 <= j < |s| && p(s[j]) ==> j in idx)
  }

  /** `r` is the subsequence of `s` made of all elements satisfying `p`. */
  ghost predicate SelectedInOrder<T>(r: seq<T>, s: seq<T>, p: T -> bool)
  {
    exists idx: seq<nat> :: SelectsAt(r, s, p, idx)
  }

  lemma KeepSnoc<T>(s: seq<T>, x: T, p: T -> bool)
    ensures Keep(s + [x], p) == Keep(s, p) + (if p(x) then [x] else [])
  {
    assert (s + [x])[..|s|] == s;
  }

  /** Appending a passing element to the input appends it to a selection. */
  lemma SelectsAtSnocKept<T>(r: seq<T>, s: seq<T>, p: T -> bool, idx: seq<nat>, x: T)
    requires SelectsAt(r, s, p, idx)
    requires p(x)
    ensures SelectsAt(r + [x], s + [x], p, idx + [|s|])
  {
    var t, r', idx' := s + [x], r + [x], idx + [|s|];
    assert forall j :: 0 <= j < |s| ==> t[j] == s[j];
    assert forall k :: 0 <= k < |idx| ==> idx'[k] == idx[k] && r'[k] == r[k];
    assert forall k :: 0 <= k < |idx'| ==> idx'[k] < |t| && r'[k] == t[idx'[k]];
    assert forall k, l :: 0 <= k < l < |idx'| ==> idx'[k] < idx'[l];
    forall j | 0 <= j < |t| && p(t[j]) ensures j in idx' {
      if j < |s| {
        assert p(s[j]) && j in idx;
      }
    }
  }

  /** Appending a failing element to the input leaves a selection as it is. */
  lemma SelectsAtSnocDropped<T>(r: seq<T>, s: seq<T>, p: T -> bool, idx: seq<nat>, x: T)
    requires SelectsAt(r, s, p, idx)
    requires !p(x)
    ensures SelectsAt(r, s + [x], p, idx)
  {
    var t := s + [x];
    assert forall j :: 0 <= j < |s| ==> t[j] == s[j];
  }

  /** Keep picks out exactly the satisfying positions, preserving their order. */
  lemma {:induction false} KeepSelectsInOrder<T>(s: seq<T>, p: T -> bool)
    ensures SelectedInOrder(Keep(s, p), s, p)
  {
    if s == [] {
      assert SelectsAt(Keep(s, p), s, p, []);
    } else {
      var n := |s| - 1;
      var front, last := s[..n], s[n];
      assert front + [last] == s;
      KeepSelectsInOrder(front, p);
      var idx :| SelectsAt(Keep(front, p), front, p, idx);
      KeepSnoc(front, last, p);
      if p(last) {
        SelectsAtSnocKept(Keep(front, p), front, p, idx, last);
        assert SelectsAt(Keep(s, p), s, p, idx + [n]);
      } else {
        SelectsAtSnocDropped(Keep(front, p), front, p, idx, last);
        assert SelectsAt(Keep(s, p), s, p, idx);
      }
    }
  }

  /** An element occurs in the result exactly when it occurs in the input and passes. */
  lemma {:induction false} KeepMember<T>(s: seq<T>, p: T -> bool, x: T)
    ensures x in Keep(s, p) <==> x in s && p(x)
  {
    if s != [] {
      var n := |s| - 1;
      KeepMember(s[..n], p, x);
      assert s == s[..n] + [s[n]];
      assert x in s <==> x in s[..n] || x == s[n];
    }
  }

  /** When every element passes, nothing is dropped and the order is kept. */
  lemma {:induction false} KeepAll<T>(s: seq<T>, p: T -> bool)
    requires forall k :: 0 <= k < |s| ==> p(s[k])
    ensures Keep(s, p) == s
  {
    if s != [] {
      var n := |s| - 1;
      KeepAll(s[..n], p);
      assert s[..n] + [s[n]] == s;
    }
  }

  /** Filtering by a conjunction is filtering by one conjunct and then by the other. */
  lemma {:induction false} KeepConjunction<T>(s: seq<T>, p: T -> bool, q: T -> bool, pq: T -> bool)
    requires forall x :: pq(x) == (p(x) && q(x))
    ensures Keep(s, pq) == Keep(Keep(s, p), q)
  {
    if s != [] {
      var n := |s| - 1;
      KeepConjunction(s[..n], p, q, pq);
      var front := s[..n];
      if p(s[n]) {
        assert Keep(s, p) == Keep(front, p) + [s[n]];
        KeepSnoc(Keep(front, p), s[n], q);
      } else {
        assert Keep(s, p) == Keep(front, p);
      }
    }
  }

  /** The position of the first element of `s` that satisfies `p`, if there is one. */
  function FirstIndex<T>(s: seq<T>, p: T -> bool): (k: Option<nat>)
    ensures k.None? <==> forall j :: 0 <= j < |s| ==> !p(s[j])
    ensures k.Some? ==> k.value < |s| && p(s[k.value]) && forall j :: 0 <= j < k.value ==> !p(s[j])
  {
    if s == [] then None
    else if p(s[0]) then Some(0)
    else match FirstIndex(s[1..], p)
      case None => None
      case Some(k) => Some(k + 1)
  }

  /** Any position that passes and is preceded only by failing positions is the first one. */
  lemma FirstIndexAt<T>(s: seq<T>, p: T -> bool, i: nat)
    requires i < |s| && p(s[i])
    requires forall j :: 0 <= j < i ==> !p(s[j])
    ensures FirstIndex(s, p) == Some(i)
  {
  }

  /** Appending an element never moves an existing first match. */
  lemma FirstIndexSnoc<T>(s: seq<T>, x: T, p: T -> bool)
    ensures FirstIndex(s + [x], p) ==
      if FirstIndex(s, p).Some? then FirstIndex(s, p)
      else if p(x) then Some(|s|)
      else None
  {
    var t := s + [x];
    assert forall j :: 0 <= j < |s| ==> t[j] == s[j];
    var k := FirstIndex(s, p);
    if k.Some? {
      FirstIndexAt(t, p, k.value);
    } else if p(x) {
      FirstIndexAt(t, p, |s|);
    }
  }
}
