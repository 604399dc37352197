/**
 * The path handling of the request callback: the pathname is split on '/'
 * keeping at most 16 pieces (JavaScript's `split('/', 16)`), and requests are
 * classified by piece [1], the first segment after the leading slash.
 */
module Paths {
  import opened Results

  /** The most pieces the request callback keeps from a split pathname. */
  const MAX_PIECES := 16

  /** Number of '/' characters in s. */
  function Slashes(s: string): nat {
    if s == [] then 0 else (if s[0] == '/' then 1 else 0) + Slashes(s[1..])
  }

  /**
   * `s.split('/')` without a limit: every '/' ends a piece, the pieces are the
   * text between the separators, and the empty string yields one empty piece.
   */
  function Split(s: string): (r: seq<string>)
    ensures |r| == Slashes(s) + 1
    ensures |r| == 1 <==> '/' !in s
    ensures forall i :: 0 <= i < |r| ==> '/' !in r[i]
  {
    if s == [] then [[]]
    else
      var rest := Split(s[1..]);
      if s[0] == '/' then [[]] + rest
      else [[s[0]] + rest[0]] + rest[1..]
  }

  /** `pieces.join('/')`, the inverse direction of Split. */
  function Join(pieces: seq<string>): string
    requires |pieces| >= 1
  {
    if |pieces| == 1 then pieces[0] else pieces[0] + "/" + Join(pieces[1..])
  }

  lemma JoinPrependChar(c: char, pieces: seq<string>)
    requires |pieces| >= 1
    ensures Join([[c] + pieces[0]] + pieces[1..]) == [c] + Join(pieces)
  {
    var q := [[c] + pieces[0]] + pieces[1..];
    if |pieces| > 1 {
      assert q[1..] == pieces[1..];
      assert Join(q) == ([c] + pieces[0]) + "/" + Join(pieces[1..]);
    }
  }

  /** Joining the pieces again restores the pathname exactly. */
  lemma {:induction false} JoinSplit(s: string)
    ensures Join(Split(s)) == s
  {
    if s != [] {
      var rest := Split(s[1..]);
      JoinSplit(s[1..]);
      if s[0] == '/' {
        var p := [[]] + rest;
        assert p[1..] == rest;
        assert Join(p) == [] + "/" + Join(rest);
      } else {
        JoinPrependChar(s[0], rest);
      }
      assert [s[0]] + s[1..] == s;
    }
  }

  /** `s.split('/', limit)`: the first `limit` pieces of the full split. */
  function SplitLimit(s: string, limit: nat): (r: seq<string>)
    ensures |r| == if Slashes(s) + 1 <= limit then Slashes(s) + 1 else limit
    ensures forall i :: 0 <= i < |r| ==> r[i] == Split(s)[i]
  {
    var pieces := Split(s);
    if |pieces| <= limit then pieces else pieces[..limit]
  }

  /**
   * `path[1]` after `path = pathname.split('/', 16)`: the segment the
   * dispatcher switches on, or None when the array has no element 1
   * (JavaScript's `undefined`), which no case label matches.
   */
  function Segment(pathname: string): (r: Option<string>)
    ensures r.None? <==> '/' !in pathname
    ensures r.Some? ==> '/' !in r.value
    ensures r.Some? ==> r.value == Split(pathname)[1]
  {
    var path := SplitLimit(pathname, MAX_PIECES);
    if |path| > 1 then Some(path[1]) else None
  }

  lemma {:induction false} SplitNoSlash(x: string)
    requires '/' !in x
    ensures Split(x) == [x]
  {
    if x != [] {
      SplitNoSlash(x[1..]);
      assert [x[0]] + x[1..] == x;
    }
  }

  lemma {:induction false} SplitAfterPiece(a: string, rest: string)
    requires '/' !in a
    ensures Split(a + "/" + rest) == [a] + Split(rest)
  {
    if a == [] {
      assert a + "/" + rest == "/" + rest;
      SplitCons('/', rest);
    } else {
      var t := a[1..] + "/" + rest;
      assert a + "/" + rest == [a[0]] + t;
      SplitCons(a[0], t);
      SplitAfterPiece(a[1..], rest);
      assert [a[0]] + a[1..] == a;
    }
  }

  /** One character in front: a '/' starts a new piece, anything else joins the first. */
  lemma SplitCons(c: char, t: string)
    ensures c == '/' ==> Split([c] + t) == [[]] + Split(t)
    ensures c != '/' ==> Split([c] + t) == [[c] + Split(t)[0]] + Split(t)[1..]
  {
    assert ([c] + t)[0] == c && ([c] + t)[1..] == t;
  }

  /**
   * The segment is the text between the first and the second '/', whatever
   * precedes the first and whatever follows the second.
   */
  lemma SegmentBetweenSlashes(a: string, x: string, b: string)
    requires '/' !in a && '/' !in x
    ensures Segment(a + "/" + x) == Some(x)
    ensures Segment(a + "/" + x + "/" + b) == Some(x)
  {
    SegmentOfPiece(a, x);
    SplitNoSlash(x);
    assert a + "/" + x + "/" + b == a + "/" + (x + "/" + b);
    SegmentOfPiece(a, x + "/" + b);
    SplitAfterPiece(x, b);
  }

  lemma SegmentOfPiece(a: string, rest: string)
    requires '/' !in a
    ensures Segment(a + "/" + rest) == Some(Split(rest)[0])
  {
    var s := a + "/" + rest;
    assert s[|a|] == '/';
    SplitAfterPiece(a, rest);
  }
}
