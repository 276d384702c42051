/** Python's `needle in hay` on strings: case-sensitive substring containment. */
module Substring {

  /** `needle` occurs in `hay` starting at position `k`. */
  ghost predicate OccursAt(needle: string, hay: string, k: nat)
  {
    k + |needle| <= |hay| && hay[k..k + |needle|] == needle
  }

  /** The reference meaning of containment: some position where `needle` occurs. */
  ghost predicate IsSubstring(needle: string, hay: string)
  {
    exists k: nat :: OccursAt(needle, hay, k)
  }

  /** Computable containment test, trying each starting position from the left. */
  function Contains(needle: string, hay: string): bool
    decreases |hay|
  {
    if |needle| > |hay| then false
    else if hay[..|needle|] == needle then true
    else Contains(needle, hay[1..])
  }

  lemma {:induction false} ContainsIsSubstring(needle: string, hay: string)
    ensures Contains(needle, hay) <==> IsSubstring(needle, hay)
    decreases |hay|
  {
    if |needle| > |hay| {
    } else if hay[..|needle|] == needle {
      assert OccursAt(needle, hay, 0);
    } else {
      var tail := hay[1..];
      ContainsIsSubstring(needle, tail);
      if IsSubstring(needle, tail) {
        var k: nat :| OccursAt(needle, tail, k);
        assert hay[k + 1..k + 1 + |needle|] == tail[k..k + |needle|];
        assert OccursAt(needle, hay, k + 1);
      }
      if IsSubstring(needle, hay) {
        var k: nat :| OccursAt(needle, hay, k);
        assert k != 0;
        assert tail[k - 1..k - 1 + |needle|] == hay[k..k + |needle|];
        assert OccursAt(needle, tail, k - 1);
      }
    }
  }

  /** The empty string is contained in every string. */
  lemma EmptyContained(hay: string)
    ensures Contains("", hay)
  {
    assert hay[..0] == "";
  }
}
