/**
 * The string operations the middleware relies on: Rust's `str::contains` and
 * `str::starts_with` with a string pattern, and `Iterator::any` over a list.
 * Strings are sequences of characters; matching is exact and case-sensitive.
 */
module Text {

  /** `t` occurs in `s` as a contiguous block starting at index `i`. */
  predicate OccursAt(s: string, t: string, i: nat)
  {
    i + |t| <= |s| && s[i..i + |t|] == t
  }

  /** `str::starts_with`: compares `p` with the start of `s`, character by character. */
  function StartsWith(s: string, p: string): bool
  {
    if p == [] then true
    else if s == [] then false
    else s[0] == p[0] && StartsWith(s[1..], p[1..])
  }

  /** `s` starts with `p` exactly when `p` is a prefix of `s`. */
  lemma {:induction false} StartsWithSpec(s: string, p: string)
    ensures StartsWith(s, p) <==> p <= s
  {
    if p != [] && s != [] {
      StartsWithSpec(s[1..], p[1..]);
      assert p <= s <==> s[0] == p[0] && p[1..] <= s[1..];
    }
  }

  /** `str::contains`: scans `s` from the left for an occurrence of `t`. */
  function Contains(s: string, t: string): bool
    decreases |s|
  {
    if StartsWith(s, t) then true
    else if |s| == 0 then false
    else Contains(s[1..], t)
  }

  /** The scan finds `t` exactly when `t` occurs somewhere in `s`. */
  lemma {:induction false} ContainsSpec(s: string, t: string)
    ensures Contains(s, t) <==> exists i: nat :: OccursAt(s, t, i)
    decreases |s|
  {
    StartsWithSpec(s, t);
    if t <= s {
      assert OccursAt(s, t, 0);
    } else if |s| == 0 {
      forall i: nat | OccursAt(s, t, i) ensures false {
      }
    } else {
      ContainsSpec(s[1..], t);
      if Contains(s[1..], t) {
        var i: nat :| OccursAt(s[1..], t, i);
        assert s[1..][i..i + |t|] == s[i + 1..i + 1 + |t|];
        assert OccursAt(s, t, i + 1);
      } else {
        forall i: nat | OccursAt(s, t, i) ensures false {
          if i > 0 {
            assert s[1..][i - 1..i - 1 + |t|] == s[i..i + |t|];
            assert OccursAt(s[1..], t, i - 1);
          }
        }
      }
    }
  }

  /** An occurrence of a pattern of two or more characters starts with its first two. */
  lemma OccursAtStart(s: string, t: string, i: nat)
    requires OccursAt(s, t, i) && |t| >= 2
    ensures s[i] == t[0] && s[i + 1] == t[1]
  {
    assert s[i..i + |t|][1] == s[i + 1];
  }

  /** A pattern whose first two characters never stand side by side in `s` is not contained in `s`. */
  lemma AbsentPairNotContained(s: string, t: string)
    requires |t| >= 2
    requires forall i :: 0 <= i < |s| - 1 ==> !(s[i] == t[0] && s[i + 1] == t[1])
    ensures !Contains(s, t)
  {
    ContainsSpec(s, t);
    forall i: nat | OccursAt(s, t, i) ensures false {
      OccursAtStart(s, t, i);
    }
  }

  /** `Iterator::any`: does some element of `xs` satisfy `p`? Stops at the first that does. */
  function Any<T>(xs: seq<T>, p: T -> bool): (b: bool)
    ensures b <==> exists k :: 0 <= k < |xs| && p(xs[k])
  {
    if xs == [] then false
    else if p(xs[0]) then true
    else
      var b := Any(xs[1..], p);
      assert forall k :: 1 <= k < |xs| ==> xs[1..][k - 1] == xs[k];
      b
  }
}
