/** Every pattern of the link-rewrite table is a piece of HTML holding at
    least two double quotes. Cutting a text at its double quotes gives its
    quoted segments; an occurrence of a pattern in a text must line up the
    pattern's inner segments with consecutive segments of the text. This is
    how the proofs show that a long literal pattern does NOT occur in a
    long literal text. */
module Quotes {
  import opened Strings

  const Quote: char := '"'

  /** The pieces of `s` between double quotes, in order (one more piece
      than there are quotes). */
  function Split(s: string): (parts: seq<string>)
    ensures |parts| >= 1
    ensures forall k :: 0 <= k < |parts| ==> Quote !in parts[k]
    decreases |s|
  {
    if |s| == 0 then [[]]
    else if s[0] == Quote then [[]] + Split(s[1..])
    else
      var rest := Split(s[1..]);
      [[s[0]] + rest[0]] + rest[1..]
  }

  /** The pieces glued back together with double quotes. */
  function Join(parts: seq<string>): string
    requires |parts| >= 1
    decreases |parts|
  {
    if |parts| == 1 then parts[0]
    else parts[0] + [Quote] + Join(parts[1..])
  }

  /** A quote-free text is a single segment. */
  lemma {:induction false} SplitPlain(s: string)
    requires Quote !in s
    ensures Split(s) == [s]
    decreases |s|
  {
    if |s| > 0 {
      SplitPlain(s[1..]);
      assert s == [s[0]] + s[1..];
    }
  }

  /** Cutting at a quote splits the segment lists apart. */
  lemma {:induction false} SplitAtQuote(x: string, y: string)
    ensures Split(x + [Quote] + y) == Split(x) + Split(y)
    decreases |x|
  {
    var s := x + [Quote] + y;
    if |x| == 0 {
      assert s[1..] == y;
    } else {
      assert s[1..] == x[1..] + [Quote] + y;
      SplitAtQuote(x[1..], y);
    }
  }

  /** Splitting undoes joining quote-free pieces. */
  lemma {:induction false} SplitJoin(parts: seq<string>)
    requires |parts| >= 1
    requires forall k :: 0 <= k < |parts| ==> Quote !in parts[k]
    ensures Split(Join(parts)) == parts
    decreases |parts|
  {
    if |parts| == 1 {
      SplitPlain(parts[0]);
    } else {
      SplitJoin(parts[1..]);
      SplitAtQuote(parts[0], Join(parts[1..]));
      SplitPlain(parts[0]);
      assert [parts[0]] + parts[1..] == parts;
    }
  }

  /** Joining undoes splitting. */
  lemma {:induction false} JoinSplit(s: string)
    ensures Join(Split(s)) == s
    decreases |s|
  {
    if |s| > 0 {
      JoinSplit(s[1..]);
      var rest := Split(s[1..]);
      if s[0] == Quote {
        assert Split(s)[1..] == rest;
      } else {
        var parts := Split(s);
        if |rest| == 1 {
          assert parts == [[s[0]] + rest[0]];
        } else {
          assert parts[1..] == rest[1..];
          assert Join(rest) == rest[0] + [Quote] + Join(rest[1..]);
        }
      }
      assert s == [s[0]] + s[1..];
    }
  }

  /** A text with at least two quotes is its first segment, a quote, its
      inner segments joined, a quote and its last segment. */
  lemma {:induction false} JoinOuter(parts: seq<string>)
    requires |parts| >= 3
    ensures Join(parts) == parts[0] + [Quote] + Join(parts[1..|parts| - 1]) + [Quote] + parts[|parts| - 1]
    decreases |parts|
  {
    var n := |parts|;
    var rest := parts[1..];
    assert Join(parts) == parts[0] + [Quote] + Join(rest);
    if n == 3 {
      assert rest[1..] == [parts[2]];
      assert Join(rest) == parts[1] + [Quote] + parts[2];
      assert parts[1..2] == [parts[1]];
    } else {
      JoinOuter(rest);
      var inner := parts[1..n - 1];
      assert rest[1..|rest| - 1] == parts[2..n - 1];
      assert inner[0] == parts[1] && inner[1..] == parts[2..n - 1];
      assert Join(inner) == parts[1] + [Quote] + Join(parts[2..n - 1]);
      assert Join(rest) == parts[1] + [Quote] + Join(parts[2..n - 1]) + [Quote] + parts[n - 1];
    }
  }

  /** The inner segments of `p` form a block of the segments of `s`
      starting at segment `k`, strictly inside the first and last one. */
  ghost predicate InnerBlockAt(s: string, p: string, k: int)
  {
    var ss, ps := Split(s), Split(p);
    |ps| >= 2 && 1 <= k && k + |ps| - 2 <= |ss| - 1 && ss[k..k + |ps| - 2] == ps[1..|ps| - 1]
  }

  /** Quote-free segments framed by two quotes stay separate segments. */
  lemma SplitFramed(left: string, mid: seq<string>, right: string)
    requires |mid| >= 1
    requires forall k :: 0 <= k < |mid| ==> Quote !in mid[k]
    ensures Split(left + [Quote] + Join(mid) + [Quote] + right) == Split(left) + mid + Split(right)
  {
    var m := Join(mid);
    assert left + [Quote] + m + [Quote] + right == left + [Quote] + (m + [Quote] + right);
    SplitAtQuote(left, m + [Quote] + right);
    SplitAtQuote(m, right);
    SplitJoin(mid);
  }

  /** An occurrence of a pattern with at least two quotes aligns the
      pattern's inner segments with consecutive segments of the text. */
  lemma OccursAligned(s: string, p: string, i: int)
    requires |Split(p)| >= 3 && OccursAt(s, p, i)
    ensures exists k :: InnerBlockAt(s, p, k)
  {
    var ps := Split(p);
    var n := |ps|;
    var mid := ps[1..n - 1];
    var left, right := s[..i] + ps[0], ps[n - 1] + s[i + |p|..];
    OccursFramed(s, p, i);
    assert forall j :: 0 <= j < |mid| ==> Quote !in mid[j];
    SplitFramed(left, mid, right);
    var k := |Split(left)|;
    var ss := Split(s);
    assert ss == Split(left) + mid + Split(right);
    assert ss[k..k + |mid|] == mid;
    assert InnerBlockAt(s, p, k);
  }

  /** An occurrence of `p` exposes the pattern's inner segments, framed by
      quotes, inside the text. */
  lemma OccursFramed(s: string, p: string, i: int)
    requires |Split(p)| >= 3 && OccursAt(s, p, i)
    ensures var ps := Split(p); var n := |ps|;
      s == (s[..i] + ps[0]) + [Quote] + Join(ps[1..n - 1]) + [Quote] + (ps[n - 1] + s[i + |p|..])
  {
    var ps := Split(p);
    var n := |ps|;
    JoinSplit(p);
    JoinOuter(ps);
    assert s == s[..i] + p + s[i + |p|..];
    Regroup(s[..i], ps[0], Join(ps[1..n - 1]), ps[n - 1], s[i + |p|..]);
  }

  lemma Regroup(x: string, a: string, m: string, b: string, y: string)
    ensures x + (a + [Quote] + m + [Quote] + b) + y == (x + a) + [Quote] + m + [Quote] + (b + y)
  {
  }

  /** Refutation form: a pattern whose inner segments do not form such a
      block cannot occur. */
  lemma NotOccursBySegments(s: string, p: string)
    requires |Split(p)| >= 3
    requires forall k :: !InnerBlockAt(s, p, k)
    ensures !Occurs(s, p)
  {
    forall i | OccursAt(s, p, i)
      ensures false
    {
      OccursAligned(s, p, i);
    }
  }

  /** A character other than the quote that no piece holds is not in the
      joined text. */
  lemma {:induction false} JoinLacks(parts: seq<string>, c: char)
    requires |parts| >= 1 && c != Quote
    requires forall k :: 0 <= k < |parts| ==> c !in parts[k]
    ensures c !in Join(parts)
    decreases |parts|
  {
    if |parts| > 1 {
      JoinLacks(parts[1..], c);
    }
  }

  /** A character of any piece is in the joined text. */
  lemma {:induction false} JoinHas(parts: seq<string>, k: nat, c: char)
    requires k < |parts| && c in parts[k]
    ensures c in Join(parts)
    decreases |parts|
  {
    if k > 0 {
      JoinHas(parts[1..], k - 1, c);
    }
  }

  /** Two or more pieces are joined by at least one quote. */
  lemma JoinHasQuote(parts: seq<string>)
    requires |parts| >= 2
    ensures Quote in Join(parts)
  {
    assert Join(parts)[|parts[0]|] == Quote;
  }

  lemma Join3(a: string, b: string, c: string)
    ensures Join([a, b, c]) == a + [Quote] + b + [Quote] + c
  {
    var ps := [a, b, c];
    assert ps[1..] == [b, c] && ps[1..][1..] == [c];
    assert Join([b, c]) == b + [Quote] + c;
    assert Join(ps) == a + [Quote] + (b + [Quote] + c);
  }

  lemma Join4(a: string, b: string, c: string, d: string)
    ensures Join([a, b, c, d]) == a + [Quote] + b + [Quote] + c + [Quote] + d
  {
    var ps := [a, b, c, d];
    assert ps[1..] == [b, c, d];
    Join3(b, c, d);
    assert Join(ps) == a + [Quote] + (b + [Quote] + c + [Quote] + d);
  }

  lemma Join5(a: string, b: string, c: string, d: string, e: string)
    ensures Join([a, b, c, d, e]) == a + [Quote] + b + [Quote] + c + [Quote] + d + [Quote] + e
  {
    var ps := [a, b, c, d, e];
    assert ps[1..] == [b, c, d, e];
    Join4(b, c, d, e);
    assert Join(ps) == a + [Quote] + (b + [Quote] + c + [Quote] + d + [Quote] + e);
  }
}
