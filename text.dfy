/**
 * Substring occurrence on strings, and the facts needed to show that a
 * pattern does or does not occur in a string assembled by concatenation.
 */
module Text {

  /** Pattern t occurs in s starting at position i. */
  predicate OccursAt(t: string, s: string, i: int) {
    0 <= i && i + |t| <= |s| && s[i..i + |t|] == t
  }

  /** Pattern t occurs somewhere in s. */
  predicate Occurs(t: string, s: string) {
    exists i | 0 <= i <= |s| - |t| :: OccursAt(t, s, i)
  }

  /** s begins with x. */
  predicate StartsWith(s: string, x: string) {
    |x| <= |s| && s[..|x|] == x
  }

  /** s ends with x. */
  predicate EndsWith(s: string, x: string) {
    |x| <= |s| && s[|s| - |x|..] == x
  }

  /**
   * A match of t in a + b cannot straddle the seam: either the last
   * character of a is not among the first |t| - 1 characters of t, or the
   * first character of b is not among the last |t| - 1.
   */
  predicate Separated(t: string, a: string, b: string) {
    |t| > 0 && (a == [] || b == [] || a[|a| - 1] !in t[..|t| - 1] || b[0] !in t[1..])
  }

  lemma OccursInLeft(t: string, a: string, b: string)
    requires Occurs(t, a)
    ensures Occurs(t, a + b)
  {
    var i :| 0 <= i <= |a| - |t| && OccursAt(t, a, i);
    assert (a + b)[i..i + |t|] == a[i..i + |t|];
    assert OccursAt(t, a + b, i);
  }

  lemma OccursInRight(t: string, a: string, b: string)
    requires Occurs(t, b)
    ensures Occurs(t, a + b)
  {
    var i :| 0 <= i <= |b| - |t| && OccursAt(t, b, i);
    assert (a + b)[|a| + i..|a| + i + |t|] == b[i..i + |t|];
    assert OccursAt(t, a + b, |a| + i);
  }

  /** A pattern cannot occur where one of its characters never appears. */
  lemma AbsentCharacter(t: string, s: string, c: char)
    requires c in t && c !in s
    ensures !Occurs(t, s)
  {
    var k :| 0 <= k < |t| && t[k] == c;
    forall i | 0 <= i <= |s| - |t|
      ensures !OccursAt(t, s, i)
    {
      assert s[i..i + |t|][k] == s[i + k] != c;
    }
  }

  /** With the seam guarded, a + b holds t only if a or b does. */
  lemma NoOccurrenceAcross(t: string, a: string, b: string)
    requires !Occurs(t, a) && !Occurs(t, b) && Separated(t, a, b)
    ensures !Occurs(t, a + b)
  {
    var s := a + b;
    forall i | 0 <= i <= |s| - |t|
      ensures !OccursAt(t, s, i)
    {
      if i + |t| <= |a| {
        assert s[i..i + |t|] == a[i..i + |t|];
        assert !OccursAt(t, a, i);
      } else if i >= |a| {
        assert s[i..i + |t|] == b[i - |a|..i - |a| + |t|];
        assert !OccursAt(t, b, i - |a|);
      } else {
        // the window covers both a[|a| - 1] and b[0], away from its ends
        var w := s[i..i + |t|];
        assert w[..|t| - 1][|a| - 1 - i] == a[|a| - 1];
        assert w[1..][|a| - i - 1] == b[0];
      }
    }
  }

  /** The middle piece of a three-part concatenation sits right after the first. */
  lemma MiddlePiece(a: string, b: string, c: string)
    ensures (a + b + c)[|a|..|a| + |b|] == b
    ensures (a + b + c)[|a| + |b|..] == c
  {
    assert (a + b + c)[|a|..|a| + |b|] == (a + b)[|a|..];
  }

  /** Equal strings with a common prefix have equal remainders. */
  lemma CancelPrefix(h: string, x: string, y: string)
    requires h + x == h + y
    ensures x == y
  {
    assert x == (h + x)[|h|..];
  }

  /** Concatenating six pieces left to right is concatenating them right to left. */
  lemma Reassociate(a: string, b: string, c: string, d: string, e: string, f: string)
    ensures a + b + c + d + e + f == a + (b + (c + (d + (e + f))))
  {
  }

  /** A head concatenated before four pieces, with or without the grouping. */
  lemma HeadBeforeFour(h: string, a: string, b: string, c: string, d: string)
    ensures h + a + b + c + d == h + (a + b + c + d)
    ensures "" + a + b + c + d == a + b + c + d
  {
  }

  /** A string that starts with x still does once more text follows. */
  lemma StartsWithExtended(s: string, x: string, r: string)
    requires StartsWith(s, x)
    ensures StartsWith(s + r, x)
  {
    assert (s + r)[..|x|] == s[..|x|];
  }

  /** a + b + c starts with a and ends with b + c. */
  lemma ThreeParts(a: string, b: string, c: string)
    ensures StartsWith(a + b + c, a) && EndsWith(a + b + c, b + c)
  {
    assert a + b + c == a + (b + c);
  }

  /** A prefix that lacks the first character of t cannot hold the start of a match. */
  lemma NoOccurrenceAfterHead(t: string, a: string, b: string)
    requires |t| > 0 && t[0] !in a && !Occurs(t, b)
    ensures !Occurs(t, a + b)
  {
    var s := a + b;
    forall i | 0 <= i <= |s| - |t|
      ensures !OccursAt(t, s, i)
    {
      if i < |a| {
        assert s[i..i + |t|][0] == a[i];
      } else {
        assert s[i..i + |t|] == b[i - |a|..i - |a| + |t|];
        assert !OccursAt(t, b, i - |a|);
      }
    }
  }
}
