/**
 * The string operations the widget relies on: lower-casing, `indexOf`, and the
 * `<` comparison of two strings.
 */
module Text {

  /** Lower-cases one character; only the ASCII letters A-Z are mapped. */
  function LowerChar(c: char): char
  {
    if 'A' <= c <= 'Z' then (c as int + 32) as char else c
  }

  /**
   * `s.toLowerCase()`, restricted to ASCII letters: each capital becomes the
   * lower-case letter at the same place in the alphabet, no capital is left,
   * and every other character is kept as it is.
   */
  function ToLower(s: string): (r: string)
    ensures |r| == |s|
    ensures forall i :: 0 <= i < |r| ==> !('A' <= r[i] <= 'Z')
    ensures forall i :: 0 <= i < |s| && !('A' <= s[i] <= 'Z') ==> r[i] == s[i]
    ensures forall i :: 0 <= i < |s| && 'A' <= s[i] <= 'Z' ==> r[i] as int - 'a' as int == s[i] as int - 'A' as int
  {
    seq(|s|, i requires 0 <= i < |s| => LowerChar(s[i]))
  }

  /** Lower-casing twice is lower-casing once. */
  lemma ToLowerIdempotent(s: string)
    ensures ToLower(ToLower(s)) == ToLower(s)
  {
  }

  /** `sub` occurs in `s` starting at position `j`. */
  predicate OccursAt(s: string, sub: string, j: int)
  {
    0 <= j && j + |sub| <= |s| && s[j..j + |sub|] == sub
  }

  /** `sub` is a substring of `s`. */
  ghost predicate Occurs(s: string, sub: string)
  {
    exists j :: OccursAt(s, sub, j)
  }

  /** The search behind `indexOf`, starting at position `from`. */
  function IndexFrom(s: string, sub: string, from: nat): (r: int)
    requires from <= |s|
    ensures r == -1 || (from <= r && OccursAt(s, sub, r))
    ensures r == -1 ==> forall j :: from <= j ==> !OccursAt(s, sub, j)
    ensures r != -1 ==> forall j :: from <= j < r ==> !OccursAt(s, sub, j)
    decreases |s| - from
  {
    if from + |sub| > |s| then -1
    else if s[from..from + |sub|] == sub then from
    else IndexFrom(s, sub, from + 1)
  }

  /** `s.indexOf(sub)`: the first position where `sub` occurs in `s`, or -1. */
  function IndexOf(s: string, sub: string): (r: int)
    ensures r == -1 <==> !Occurs(s, sub)
    ensures r != -1 ==> OccursAt(s, sub, r) && forall j :: 0 <= j < r ==> !OccursAt(s, sub, j)
  {
    IndexFrom(s, sub, 0)
  }

  /** A substring of a substring is a substring. */
  lemma OccursTransitive(a: string, b: string, c: string)
    requires Occurs(a, b) && Occurs(b, c)
    ensures Occurs(a, c)
  {
    var i :| OccursAt(a, b, i);
    var j :| OccursAt(b, c, j);
    assert forall k :: 0 <= k < |b| ==> a[i + k] == b[k] by {
      assert a[i..i + |b|] == b;
    }
    assert forall k :: 0 <= k < |c| ==> b[j + k] == c[k] by {
      assert b[j..j + |c|] == c;
    }
    assert a[i + j..i + j + |c|] == c;
    assert OccursAt(a, c, i + j);
  }

  /** Every string occurs in itself. */
  lemma OccursReflexive(a: string)
    ensures Occurs(a, a)
  {
    assert OccursAt(a, a, 0);
  }

  /**
   * JavaScript's `a < b` on strings: a proper prefix is smaller, a string is
   * never smaller than its own prefix, and otherwise the first position where
   * the two differ decides (`LessFirstDifference`).
   */
  predicate Less(a: string, b: string)
    ensures |a| < |b| && b[..|a|] == a ==> Less(a, b)
    ensures |b| <= |a| && a[..|b|] == b ==> !Less(a, b)
  {
    if a == [] then b != []
    else if b == [] then false
    else if a[0] != b[0] then a[0] < b[0]
    else
      assert |a| < |b| && b[..|a|] == a ==> b[1..][..|a| - 1] == a[1..];
      assert |b| <= |a| && a[..|b|] == b ==> a[1..][..|b| - 1] == b[1..];
      Less(a[1..], b[1..])
  }

  /** At the first position where two strings differ, their characters decide `<`. */
  lemma {:induction false} LessFirstDifference(a: string, b: string, k: nat)
    requires k < |a| && k < |b| && a[..k] == b[..k] && a[k] != b[k]
    ensures Less(a, b) <==> a[k] < b[k]
  {
    if k > 0 {
      assert a[0] == a[..k][0] && b[0] == b[..k][0];
      assert a[1..][..k - 1] == a[..k][1..] && b[1..][..k - 1] == b[..k][1..];
      LessFirstDifference(a[1..], b[1..], k - 1);
    }
  }

  /** `a <= b`. */
  predicate LessEq(a: string, b: string)
  {
    a == b || Less(a, b)
  }

  lemma {:induction false} LessIrreflexive(a: string)
    ensures !Less(a, a)
  {
    if a != [] {
      LessIrreflexive(a[1..]);
    }
  }

  lemma {:induction false} LessAsymmetric(a: string, b: string)
    requires Less(a, b)
    ensures !Less(b, a)
  {
    if a != [] && b != [] && a[0] == b[0] {
      LessAsymmetric(a[1..], b[1..]);
    }
  }

  lemma {:induction false} LessTransitive(a: string, b: string, c: string)
    requires Less(a, b) && Less(b, c)
    ensures Less(a, c)
  {
    if a != [] && a[0] == b[0] && b[0] == c[0] {
      LessTransitive(a[1..], b[1..], c[1..]);
    }
  }

  /** Two different strings are always ordered one way or the other. */
  lemma {:induction false} LessTotal(a: string, b: string)
    ensures a == b || Less(a, b) || Less(b, a)
  {
    if a != [] && b != [] && a[0] == b[0] {
      LessTotal(a[1..], b[1..]);
      if a[1..] == b[1..] {
        assert a == [a[0]] + a[1..] && b == [b[0]] + b[1..];
      }
    }
  }

  /** "Not greater" is transitive: the property a sort needs from its order. */
  lemma NotLessTransitive(a: string, b: string, c: string)
    requires !Less(b, a) && !Less(c, b)
    ensures !Less(c, a)
  {
    LessTotal(a, b);
    LessTotal(b, c);
    if Less(a, b) && Less(b, c) {
      LessTransitive(a, b, c);
      LessAsymmetric(a, c);
    } else if Less(a, b) {
      LessAsymmetric(a, b);
    } else {
      LessIrreflexive(a);
      if Less(b, c) {
        LessAsymmetric(b, c);
      } else {
        LessIrreflexive(c);
      }
    }
  }
}
