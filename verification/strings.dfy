/** Literal substring search and replacement, as the exporter uses them from
    Go's `strings` package: `Contains`, `Index`, `Replace(s, old, new, 1)` and
    `Replace(s, old, new, -1)`. Strings are sequences of characters; Go's
    byte/rune distinction plays no role for the literal patterns used here. */
module Strings {

  datatype Option<+T> = None | Some(value: T)

  /** `p` is a prefix of `s`. */
  predicate IsPrefix(p: string, s: string)
  {
    |p| <= |s| && s[..|p|] == p
  }

  /** `p` occurs in `s` starting at index `i`. */
  ghost predicate OccursAt(s: string, p: string, i: int)
  {
    0 <= i && i + |p| <= |s| && s[i..i + |p|] == p
  }

  /** `p` occurs somewhere in `s`. */
  ghost predicate Occurs(s: string, p: string)
  {
    exists i :: OccursAt(s, p, i)
  }

  /** `i` is the leftmost occurrence of `p` in `s`. */
  ghost predicate IsLeftmost(s: string, p: string, i: int)
  {
    OccursAt(s, p, i) && forall j :: 0 <= j < i ==> !OccursAt(s, p, j)
  }

  /** Go's `strings.Index`: the leftmost occurrence of `p`, if any. */
  function IndexOf(s: string, p: string): (r: Option<nat>)
    ensures r.Some? ==> IsLeftmost(s, p, r.value)
    ensures r.None? ==> !Occurs(s, p)
    decreases |s|
  {
    if |s| < |p| then None
    else if IsPrefix(p, s) then Some(0)
    else
      match IndexOf(s[1..], p)
      case None =>
        IndexAfterHead(s, p);
        None
      case Some(i) =>
        LeftmostAfterHead(s, p, i);
        Some(i + 1)
  }

  /** Without an occurrence at the front or in the tail, there is none. */
  lemma IndexAfterHead(s: string, p: string)
    requires |s| > 0 && !OccursAt(s, p, 0) && !Occurs(s[1..], p)
    ensures !Occurs(s, p)
  {
    forall i | 0 < i
      ensures !OccursAt(s, p, i)
    {
      OccursAtTail(s, p, i - 1);
    }
  }

  /** The leftmost occurrence in the tail, one place further on, is the
      leftmost one when there is none at the front. */
  lemma LeftmostAfterHead(s: string, p: string, i: nat)
    requires |s| > 0 && !OccursAt(s, p, 0) && IsLeftmost(s[1..], p, i)
    ensures IsLeftmost(s, p, i + 1)
  {
    OccursAtTail(s, p, i);
    forall j | 0 < j <= i
      ensures !OccursAt(s, p, j)
    {
      OccursAtTail(s, p, j - 1);
    }
  }

  /** Go's `strings.Contains`. */
  function Contains(s: string, p: string): (b: bool)
    ensures b <==> Occurs(s, p)
  {
    IndexOf(s, p).Some?
  }

  /** Go's `strings.Replace(s, old, new, 1)`: only the leftmost occurrence of
      `pat` is replaced; without an occurrence the string is returned as is. */
  function ReplaceFirst(s: string, pat: string, rep: string): (r: string)
    ensures !Occurs(s, pat) ==> r == s
    ensures forall i :: IsLeftmost(s, pat, i) ==> r == s[..i] + rep + s[i + |pat|..]
  {
    match IndexOf(s, pat)
    case None => s
    case Some(i) => s[..i] + rep + s[i + |pat|..]
  }

  /** Go's `strings.Replace(s, old, new, -1)` for a non-empty `pat`: every
      non-overlapping occurrence, scanning from left to right, is replaced;
      the replacement text is never rescanned. */
  function ReplaceAll(s: string, pat: string, rep: string): string
    requires |pat| > 0
    decreases |s|
  {
    if |s| < |pat| then s
    else if IsPrefix(pat, s) then rep + ReplaceAll(s[|pat|..], pat, rep)
    else [s[0]] + ReplaceAll(s[1..], pat, rep)
  }

  /** Occurrences in the tail are occurrences one place further on. */
  lemma OccursAtTail(s: string, pat: string, j: nat)
    requires |s| > 0
    ensures OccursAt(s[1..], pat, j) <==> OccursAt(s, pat, j + 1)
  {
    if j + |pat| <= |s| - 1 {
      assert s[1..][j..j + |pat|] == s[j + 1..j + 1 + |pat|];
    }
  }

  /** Without an occurrence at the front, the first character is kept. */
  lemma ReplaceAllStep(s: string, pat: string, rep: string)
    requires |pat| > 0 && |s| >= |pat| && !OccursAt(s, pat, 0)
    ensures ReplaceAll(s, pat, rep) == [s[0]] + ReplaceAll(s[1..], pat, rep)
  {
    assert s[0..|pat|] == s[..|pat|];
  }

  /** Text before the first occurrence passes through unchanged. */
  lemma {:induction false} ReplaceAllSkip(s: string, pat: string, rep: string, i: nat)
    requires |pat| > 0 && i <= |s|
    requires forall j :: 0 <= j < i ==> !OccursAt(s, pat, j)
    ensures ReplaceAll(s, pat, rep) == s[..i] + ReplaceAll(s[i..], pat, rep)
    decreases i
  {
    if i > 0 {
      if |s| < |pat| {
        assert ReplaceAll(s[i..], pat, rep) == s[i..];
        assert s[..i] + s[i..] == s;
      } else {
        ReplaceAllStep(s, pat, rep);
        var t := s[1..];
        forall j | 0 <= j < i - 1
          ensures !OccursAt(t, pat, j)
        {
          OccursAtTail(s, pat, j);
        }
        ReplaceAllSkip(t, pat, rep, i - 1);
        assert t[i - 1..] == s[i..];
        assert [s[0]] + t[..i - 1] == s[..i];
      }
    }
  }

  /** A missing pattern is a silent no-op: the content comes back unchanged. */
  lemma ReplaceAllAbsent(s: string, pat: string, rep: string)
    requires |pat| > 0 && !Occurs(s, pat)
    ensures ReplaceAll(s, pat, rep) == s
  {
    ReplaceAllSkip(s, pat, rep, |s|);
    assert s[..|s|] == s;
  }

  /** The leftmost occurrence is replaced and scanning resumes after it. */
  lemma ReplaceAllLeftmost(s: string, pat: string, rep: string, i: nat)
    requires |pat| > 0 && IsLeftmost(s, pat, i)
    ensures ReplaceAll(s, pat, rep) == s[..i] + rep + ReplaceAll(s[i + |pat|..], pat, rep)
  {
    ReplaceAllSkip(s, pat, rep, i);
    var t := s[i..];
    assert t[..|pat|] == s[i..i + |pat|];
    ReplaceAllFront(t, pat, rep);
    assert t[|pat|..] == s[i + |pat|..];
    Assoc(s[..i], rep, ReplaceAll(s[i + |pat|..], pat, rep));
  }

  /** An occurrence at the front is replaced and scanning resumes after it. */
  lemma ReplaceAllFront(t: string, pat: string, rep: string)
    requires |pat| > 0 && IsPrefix(pat, t)
    ensures ReplaceAll(t, pat, rep) == rep + ReplaceAll(t[|pat|..], pat, rep)
  {
  }

  lemma Assoc<T>(a: seq<T>, b: seq<T>, c: seq<T>)
    ensures a + (b + c) == a + b + c
  {
  }

  /** The middle of a sequence with a known prefix and suffix determines it. */
  lemma MiddleCancel<T>(a: seq<T>, x: seq<T>, y: seq<T>, c: seq<T>)
    requires a + (x + c) == a + (y + c)
    ensures x == y
  {
    var s := a + (x + c);
    assert |x| == |y|;
    assert x == s[|a|..|a| + |x|];
    assert y == (a + (y + c))[|a|..|a| + |y|];
  }

  /** Go's own algorithm for `Replace(s, old, new, -1)`: find the leftmost
      occurrence with `Index`, emit the text before it and the replacement,
      and continue after the occurrence. `ReplaceAll` computes the same. */
  lemma ReplaceAllByIndex(s: string, pat: string, rep: string)
    requires |pat| > 0
    ensures IndexOf(s, pat).None? ==> ReplaceAll(s, pat, rep) == s
    ensures IndexOf(s, pat).Some? ==>
      var i := IndexOf(s, pat).value;
      ReplaceAll(s, pat, rep) == s[..i] + rep + ReplaceAll(s[i + |pat|..], pat, rep)
  {
    var r := IndexOf(s, pat);
    if r.None? {
      ReplaceAllAbsent(s, pat, rep);
    } else {
      ReplaceAllLeftmost(s, pat, rep, r.value);
    }
  }

  /** Replacing a pattern by itself changes nothing. */
  lemma {:induction false} ReplaceAllIdentity(s: string, pat: string)
    requires |pat| > 0
    ensures ReplaceAll(s, pat, pat) == s
    decreases |s|
  {
    if |s| < |pat| {
    } else if IsPrefix(pat, s) {
      ReplaceAllIdentity(s[|pat|..], pat);
      assert s == pat + s[|pat|..];
    } else {
      ReplaceAllIdentity(s[1..], pat);
      assert s == [s[0]] + s[1..];
    }
  }

  /** A text that is exactly the pattern becomes exactly the replacement. */
  lemma ReplaceAllWhole(pat: string, rep: string)
    requires |pat| > 0
    ensures ReplaceAll(pat, pat, rep) == rep
  {
    assert IsLeftmost(pat, pat, 0);
    ReplaceAllLeftmost(pat, pat, rep, 0);
    assert pat[|pat|..] == [];
  }

  /** A pattern holding a character that the text lacks cannot occur in it. */
  lemma NotOccursByChar(s: string, p: string, c: char)
    requires c in p && c !in s
    ensures !Occurs(s, p)
  {
    var k :| 0 <= k < |p| && p[k] == c;
    forall i | OccursAt(s, p, i)
      ensures false
    {
    }
  }

  /** A pattern longer than the text cannot occur in it. */
  lemma NotOccursByLength(s: string, p: string)
    requires |p| > |s|
    ensures !Occurs(s, p)
  {
  }

  /** If character `c` appears exactly once in `s`, right after `x`, then any
      occurrence of a pattern with `c` at offset `k` is anchored there. */
  lemma OccursAnchored(x: string, c: char, y: string, p: string, k: nat, i: int)
    requires c !in x && c !in y
    requires k < |p| && p[k] == c
    requires OccursAt(x + [c] + y, p, i)
    ensures i + k == |x|
  {
    var s := x + [c] + y;
    assert s[i + k] == p[k];
  }

  /** A prefix without the pattern's first character adds no occurrence. */
  lemma OccursBehindPrefix(d: string, s: string, pat: string)
    requires |pat| > 0 && pat[0] !in d
    ensures Occurs(d + s, pat) <==> Occurs(s, pat)
  {
    var t := d + s;
    if Occurs(s, pat) {
      var i :| OccursAt(s, pat, i);
      assert t[i + |d|..i + |d| + |pat|] == s[i..i + |pat|];
      assert OccursAt(t, pat, i + |d|);
    }
    if Occurs(t, pat) {
      var i :| OccursAt(t, pat, i);
      assert t[i] == pat[0];
      assert i >= |d|;
      assert s[i - |d|..i - |d| + |pat|] == t[i..i + |pat|];
      assert OccursAt(s, pat, i - |d|);
    }
  }

  /** An occurrence that no earlier position can start is the leftmost one:
      the text before it survives and scanning resumes after it. */
  lemma ReplaceAllSplice(x: string, pat: string, rep: string, y: string)
    requires |pat| > 0 && !Occurs(x + pat[..|pat| - 1], pat)
    ensures ReplaceAll(x + pat + y, pat, rep) == x + rep + ReplaceAll(y, pat, rep)
  {
    var s := x + pat + y;
    var w := x + pat[..|pat| - 1];
    assert forall j :: 0 <= j < |x| && OccursAt(s, pat, j) ==> s[j..j + |pat|] == w[j..j + |pat|];
    assert forall j :: 0 <= j < |x| && OccursAt(s, pat, j) ==> OccursAt(w, pat, j);
    assert s[|x|..|x| + |pat|] == pat;
    ReplaceAllLeftmost(s, pat, rep, |x|);
    assert s[..|x|] == x && s[|x| + |pat|..] == y;
  }

  /** Text without the pattern comes back unchanged, as an implication
      that holds for every text. */
  lemma ReplaceAllUnchanged(s: string, pat: string, rep: string)
    requires |pat| > 0
    ensures !Occurs(s, pat) ==> ReplaceAll(s, pat, rep) == s
  {
    if !Occurs(s, pat) {
      ReplaceAllAbsent(s, pat, rep);
    }
  }

  // ---------------------------------------------------------------------
  // Cutting a text in two

  /** No occurrence of `pat` in `a + b` straddles the cut between `a` and `b`. */
  ghost predicate NoStraddle(a: string, b: string, pat: string)
  {
    forall i :: 0 <= i < |a| < i + |pat| ==> !OccursAt(a + b, pat, i)
  }

  /** Dropping a prefix of the left part keeps the cut clean. */
  lemma NoStraddleShift(a: string, b: string, pat: string, k: nat)
    requires k <= |a| && NoStraddle(a, b, pat)
    ensures NoStraddle(a[k..], b, pat)
  {
    var s := a + b;
    var t := a[k..] + b;
    assert t == s[k..];
    forall i | 0 <= i < |a[k..]| < i + |pat|
      ensures !OccursAt(t, pat, i)
    {
      if i + |pat| <= |t| {
        SliceOfDrop(s, k, i, i + |pat|);
        assert !OccursAt(s, pat, i + k);
      }
    }
  }

  lemma SliceOfDrop<T>(s: seq<T>, k: nat, i: nat, j: nat)
    requires k <= |s| && i <= j <= |s| - k
    ensures s[k..][i..j] == s[k + i..k + j]
  {
  }

  /** Replacement distributes over a cut that no occurrence straddles: each
      side is rewritten on its own. */
  lemma {:induction false} ReplaceAllSeam(a: string, b: string, pat: string, rep: string)
    requires |pat| > 0 && NoStraddle(a, b, pat)
    ensures ReplaceAll(a + b, pat, rep) == ReplaceAll(a, pat, rep) + ReplaceAll(b, pat, rep)
    decreases |a|
  {
    var s := a + b;
    if |a| < |pat| {
      SeamShort(a, b, pat, rep);
    } else {
      var k := if OccursAt(s, pat, 0) then |pat| else 1;
      var head := if OccursAt(s, pat, 0) then rep else [a[0]];
      SeamStep(a, b, pat, rep);
      NoStraddleShift(a, b, pat, k);
      ReplaceAllSeam(a[k..], b, pat, rep);
      Assoc(head, ReplaceAll(a[k..], pat, rep), ReplaceAll(b, pat, rep));
    }
  }

  /** The left part is shorter than the pattern: it passes through whole. */
  lemma SeamShort(a: string, b: string, pat: string, rep: string)
    requires |pat| > 0 && NoStraddle(a, b, pat) && |a| < |pat|
    ensures ReplaceAll(a + b, pat, rep) == a + ReplaceAll(b, pat, rep)
    ensures ReplaceAll(a, pat, rep) == a
  {
    var s := a + b;
    ReplaceAllSkip(s, pat, rep, |a|);
    assert s[..|a|] == a && s[|a|..] == b;
  }

  /** One scanning step on a left part at least as long as the pattern
      takes the same step on the whole text. */
  lemma SeamStep(a: string, b: string, pat: string, rep: string)
    requires |pat| > 0 && |a| >= |pat|
    ensures var k := if OccursAt(a + b, pat, 0) then |pat| else 1;
      var head := if OccursAt(a + b, pat, 0) then rep else [a[0]];
      ReplaceAll(a + b, pat, rep) == head + ReplaceAll(a[k..] + b, pat, rep)
      && ReplaceAll(a, pat, rep) == head + ReplaceAll(a[k..], pat, rep)
  {
    var s := a + b;
    assert a[0..|pat|] == s[0..|pat|];
    if OccursAt(s, pat, 0) {
      SeamHit(a, b, pat, rep);
    } else {
      SeamMiss(a, b, pat, rep);
    }
  }

  lemma SeamHit(a: string, b: string, pat: string, rep: string)
    requires |pat| > 0 && |a| >= |pat| && OccursAt(a, pat, 0)
    ensures ReplaceAll(a + b, pat, rep) == rep + ReplaceAll(a[|pat|..] + b, pat, rep)
    ensures ReplaceAll(a, pat, rep) == rep + ReplaceAll(a[|pat|..], pat, rep)
  {
    var s := a + b;
    assert s[..|pat|] == a[..|pat|];
    ReplaceAllFront(a, pat, rep);
    ReplaceAllFront(s, pat, rep);
    assert s[|pat|..] == a[|pat|..] + b;
  }

  lemma SeamMiss(a: string, b: string, pat: string, rep: string)
    requires |pat| > 0 && |a| >= |pat| && !OccursAt(a, pat, 0)
    ensures ReplaceAll(a + b, pat, rep) == [a[0]] + ReplaceAll(a[1..] + b, pat, rep)
    ensures ReplaceAll(a, pat, rep) == [a[0]] + ReplaceAll(a[1..], pat, rep)
  {
    var s := a + b;
    assert s[0..|pat|] == a[0..|pat|];
    ReplaceAllStep(s, pat, rep);
    ReplaceAllStep(a, pat, rep);
    assert s[1..] == a[1..] + b;
  }

  /** A character the pattern does not hold can sit on neither side of a
      straddling occurrence. */
  lemma NoStraddleAtMark(a: string, b: string, pat: string, c: char)
    requires c !in pat
    requires (|a| > 0 && a[|a| - 1] == c) || (|b| > 0 && b[0] == c)
    ensures NoStraddle(a, b, pat)
  {
    var s := a + b;
    forall i | 0 <= i < |a| < i + |pat|
      ensures !OccursAt(s, pat, i)
    {
      var k := if |a| > 0 && a[|a| - 1] == c then |a| - 1 else |a|;
      assert s[k] == c;
    }
  }

  /** A lone character the pattern does not hold is left alone. */
  lemma MarkAlone(c: char, pat: string, rep: string)
    requires |pat| > 0 && c !in pat
    ensures ReplaceAll([c], pat, rep) == [c]
  {
    forall i | 0 <= i
      ensures !OccursAt([c], pat, i)
    {
      assert [c][0] == c;
    }
    ReplaceAllAbsent([c], pat, rep);
  }

  /** A trailing character the pattern does not hold passes through. */
  lemma ReplaceAllBeforeMark(a: string, c: char, pat: string, rep: string)
    requires |pat| > 0 && c !in pat
    ensures ReplaceAll(a + [c], pat, rep) == ReplaceAll(a, pat, rep) + [c]
  {
    NoStraddleAtMark(a, [c], pat, c);
    ReplaceAllSeam(a, [c], pat, rep);
    MarkAlone(c, pat, rep);
  }

  /** A leading character the pattern does not hold passes through. */
  lemma ReplaceAllAfterMark(c: char, b: string, pat: string, rep: string)
    requires |pat| > 0 && c !in pat
    ensures ReplaceAll([c] + b, pat, rep) == [c] + ReplaceAll(b, pat, rep)
  {
    NoStraddleAtMark([c], b, pat, c);
    ReplaceAllSeam([c], b, pat, rep);
    MarkAlone(c, pat, rep);
  }
}
