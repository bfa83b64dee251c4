/** Models of the few java.lang.String operations the core relies on:
    split with a one-character delimiter, trim, ASCII lower-casing and
    decimal rendering of integers. */
module Strings {

  /** True when `c` occurs in `s`. */
  predicate Contains(s: string, c: char) {
    c in s
  }

  /** Index of the first occurrence of `c` in `s`. */
  function IndexOf(s: string, c: char): (i: nat)
    requires Contains(s, c)
    ensures i < |s| && s[i] == c
    ensures forall k :: 0 <= k < i ==> s[k] != c
  {
    if s[0] == c then 0 else IndexOf(s[1..], c) + 1
  }

  /** All pieces of `s` between occurrences of `c`, empty pieces included
      (what a split yields before trailing empty pieces are removed). */
  function Pieces(s: string, c: char): (r: seq<string>)
    ensures |r| >= 1
    ensures forall k :: 0 <= k < |r| ==> !Contains(r[k], c)
    decreases |s|
  {
    if !Contains(s, c) then [s]
    else
      var i := IndexOf(s, c);
      assert !Contains(s[..i], c);
      [s[..i]] + Pieces(s[i + 1..], c)
  }

  /** Removes the empty strings at the end of `ps`. */
  function DropTrailingEmpty(ps: seq<string>): (r: seq<string>)
    ensures |r| <= |ps| && r == ps[..|r|]
    ensures |r| > 0 ==> r[|r| - 1] != ""
    ensures forall k :: |r| <= k < |ps| ==> ps[k] == ""
  {
    if |ps| > 0 && ps[|ps| - 1] == "" then DropTrailingEmpty(ps[..|ps| - 1]) else ps
  }

  /** Java's `s.split(c)` for a delimiter that is one plain character: with no
      occurrence the whole string comes back (even when empty); otherwise the
      pieces come back with trailing empty pieces removed, so the result may
      be empty. */
  function Split(s: string, c: char): (r: seq<string>)
    ensures !Contains(s, c) ==> r == [s]
    ensures Contains(s, c) ==> r == DropTrailingEmpty(Pieces(s, c))
    ensures forall k :: 0 <= k < |r| ==> !Contains(r[k], c)
  {
    if !Contains(s, c) then [s] else DropTrailingEmpty(Pieces(s, c))
  }

  /** Concatenation of `ps` with `sep` between neighbours only; "" for no pieces. */
  function Join(ps: seq<string>, sep: string): string {
    if |ps| == 0 then "" else if |ps| == 1 then ps[0] else ps[0] + sep + Join(ps[1..], sep)
  }

  /** Appending one more piece adds the separator and the piece at the end. */
  lemma {:induction false} JoinAppend(ps: seq<string>, x: string, sep: string)
    requires |ps| > 0
    ensures Join(ps + [x], sep) == Join(ps, sep) + sep + x
  {
    if |ps| > 1 {
      JoinAppend(ps[1..], x, sep);
      assert (ps + [x])[1..] == ps[1..] + [x];
    }
  }

  /** Splitting into pieces loses nothing: gluing the pieces back with the
      delimiter restores the string. */
  lemma {:induction false} PiecesRestore(s: string, c: char)
    ensures Join(Pieces(s, c), [c]) == s
    decreases |s|
  {
    if Contains(s, c) {
      var i := IndexOf(s, c);
      var front, rest := s[..i], s[i + 1..];
      var tail := Pieces(rest, c);
      PiecesRestore(rest, c);
      assert Pieces(s, c) == [front] + tail;
      JoinCons(front, tail, [c]);
      assert s == front + [c] + rest;
    }
  }

  /** Joining a first piece onto at least one more puts the separator
      between them. */
  lemma JoinCons(x: string, ps: seq<string>, sep: string)
    requires |ps| > 0
    ensures Join([x] + ps, sep) == x + sep + Join(ps, sep)
  {
    assert ([x] + ps)[1..] == ps;
  }

  /** The first piece ends at the first delimiter. */
  lemma PiecesCons(a: string, c: char, b: string)
    requires !Contains(a, c)
    ensures Pieces(a + [c] + b, c) == [a] + Pieces(b, c)
  {
    var s := a + [c] + b;
    assert s[|a|] == c;
    var i := IndexOf(s, c);
    assert i == |a|;
    assert s[..i] == a && s[i + 1..] == b;
  }

  /** Joining delimiter-free pieces with the delimiter and cutting them apart
      again gives the same pieces back. */
  lemma {:induction false} PiecesOfJoin(ps: seq<string>, c: char)
    requires |ps| > 0
    requires forall k :: 0 <= k < |ps| ==> !Contains(ps[k], c)
    ensures Pieces(Join(ps, [c]), c) == ps
  {
    if |ps| > 1 {
      PiecesOfJoin(ps[1..], c);
      PiecesCons(ps[0], c, Join(ps[1..], [c]));
      assert ps == [ps[0]] + ps[1..];
    }
  }

  /** The pieces of `Join(ps) + tail` begin with `ps` when the last piece is
      not empty and `tail` is empty or starts a new piece. */
  lemma {:induction false} PiecesStartWith(ps: seq<string>, tail: string, c: char)
    requires |ps| > 0 && forall k :: 0 <= k < |ps| ==> !Contains(ps[k], c)
    requires tail == "" || tail[0] == c
    ensures |Pieces(Join(ps, [c]) + tail, c)| >= |ps|
    ensures Pieces(Join(ps, [c]) + tail, c)[..|ps|] == ps
  {
    if |ps| == 1 {
      PiecesOfSingle(ps, tail, c);
    } else {
      PiecesStartWith(ps[1..], tail, c);
      PiecesJoinPrepend(ps, tail, c);
    }
  }

  /** The base case of `PiecesStartWith`: a single piece. */
  lemma PiecesOfSingle(ps: seq<string>, tail: string, c: char)
    requires |ps| == 1 && !Contains(ps[0], c)
    requires tail == "" || tail[0] == c
    ensures |Pieces(Join(ps, [c]) + tail, c)| >= 1
    ensures Pieces(Join(ps, [c]) + tail, c)[..1] == ps
  {
    assert Join(ps, [c]) == ps[0];
    PiecesOfLastWithTail(ps[0], tail, c);
    var r := Pieces(ps[0] + tail, c);
    assert r[..1] == [r[0]];
  }

  /** The step of `PiecesStartWith`: one more piece in front. */
  lemma PiecesJoinPrepend(ps: seq<string>, tail: string, c: char)
    requires |ps| > 1 && !Contains(ps[0], c)
    requires |Pieces(Join(ps[1..], [c]) + tail, c)| >= |ps| - 1
    requires Pieces(Join(ps[1..], [c]) + tail, c)[..|ps| - 1] == ps[1..]
    ensures |Pieces(Join(ps, [c]) + tail, c)| >= |ps|
    ensures Pieces(Join(ps, [c]) + tail, c)[..|ps|] == ps
  {
    var first, rest := ps[0], ps[1..];
    var joined := Join(rest, [c]);
    assert ps == [first] + rest;
    JoinCons(first, rest, [c]);
    assert Join(ps, [c]) + tail == first + [c] + (joined + tail);
    PiecesPrepend(first, joined + tail, c, rest);
  }

  /** A piece and a delimiter in front of a text whose pieces begin with
      `more` give pieces beginning with that piece and then `more`. */
  lemma PiecesPrepend(front: string, rest: string, c: char, more: seq<string>)
    requires !Contains(front, c)
    requires |Pieces(rest, c)| >= |more| && Pieces(rest, c)[..|more|] == more
    ensures |Pieces(front + [c] + rest, c)| >= |more| + 1
    ensures Pieces(front + [c] + rest, c)[..|more| + 1] == [front] + more
  {
    PiecesCons(front, c, rest);
    var r := Pieces(rest, c);
    assert ([front] + r)[..|more| + 1] == [front] + r[..|more|];
  }

  /** The first piece of `p + tail` is `p` when `tail` is empty or starts a
      new piece. */
  lemma PiecesOfLastWithTail(p: string, tail: string, c: char)
    requires !Contains(p, c)
    requires tail == "" || tail[0] == c
    ensures |Pieces(p + tail, c)| >= 1 && Pieces(p + tail, c)[0] == p
  {
    if tail == "" {
      assert p + tail == p;
    } else {
      assert p + tail == p + [c] + tail[1..];
      PiecesCons(p, c, tail[1..]);
    }
  }

  /** `split` of `Join(ps) + tail` begins with `ps` when the last piece is
      not empty and `tail` is empty or starts a new piece: further parts are
      only appended. */
  lemma SplitStartsWith(ps: seq<string>, tail: string, c: char)
    requires |ps| > 0 && forall k :: 0 <= k < |ps| ==> !Contains(ps[k], c)
    requires ps[|ps| - 1] != ""
    requires tail == "" || tail[0] == c
    ensures |Split(Join(ps, [c]) + tail, c)| >= |ps|
    ensures Split(Join(ps, [c]) + tail, c)[..|ps|] == ps
  {
    var s := Join(ps, [c]) + tail;
    PiecesStartWith(ps, tail, c);
    var pieces := Pieces(s, c);
    if Contains(s, c) {
      var d := DropTrailingEmpty(pieces);
      assert pieces[|ps| - 1] != "";
      assert |d| >= |ps|;
      assert d[..|ps|] == pieces[..|ps|];
    } else {
      assert |ps| == 1;
      assert pieces == [s];
    }
  }

  /** Index of the last occurrence of `c` in `s`, or -1 (Java's `lastIndexOf`). */
  function LastIndexOf(s: string, c: char): (i: int)
    ensures -1 <= i < |s|
    ensures i == -1 <==> !Contains(s, c)
    ensures i >= 0 ==> s[i] == c && !Contains(s[i + 1..], c)
  {
    if |s| == 0 then -1
    else if s[|s| - 1] == c then |s| - 1
    else
      var i := LastIndexOf(s[..|s| - 1], c);
      assert i >= 0 ==> s[i] == s[..|s| - 1][i] && s[i + 1..] == s[..|s| - 1][i + 1..] + [s[|s| - 1]];
      i
  }

  /** Java's `Character` whitespace test used by `String.trim`: code point at most U+0020. */
  predicate IsTrimmed(ch: char) {
    ch <= ' '
  }

  /** `s` without its leading characters at or below U+0020. */
  function TrimStart(s: string): (r: string)
    ensures |r| <= |s| && r == s[|s| - |r|..]
    ensures |r| > 0 ==> !IsTrimmed(r[0])
    ensures forall k :: 0 <= k < |s| - |r| ==> IsTrimmed(s[k])
  {
    if |s| > 0 && IsTrimmed(s[0]) then
      var r := TrimStart(s[1..]);
      assert s[1..][|s| - 1 - |r|..] == s[|s| - |r|..];
      assert forall k :: 1 <= k < |s| - |r| ==> s[k] == s[1..][k - 1];
      r
    else s
  }

  /** `s` without its trailing characters at or below U+0020. */
  function TrimEnd(s: string): (r: string)
    ensures |r| <= |s| && r == s[..|r|]
    ensures |r| > 0 ==> !IsTrimmed(r[|r| - 1])
    ensures forall k :: |r| <= k < |s| ==> IsTrimmed(s[k])
  {
    if |s| > 0 && IsTrimmed(s[|s| - 1]) then TrimEnd(s[..|s| - 1]) else s
  }

  /** `r` is `s[i..i + |r|]` and everything of `s` around it is trimmable. */
  predicate CoreAt(s: string, r: string, i: int) {
    && 0 <= i <= |s| - |r|
    && r == s[i..i + |r|]
    && (forall k :: 0 <= k < i ==> IsTrimmed(s[k]))
    && (forall k :: i + |r| <= k < |s| ==> IsTrimmed(s[k]))
  }

  /** Java's `String.trim`: the substring left once leading and trailing
      characters at or below U+0020 are removed. */
  function Trim(s: string): (r: string)
    ensures |r| <= |s|
    ensures |r| > 0 ==> !IsTrimmed(r[0]) && !IsTrimmed(r[|r| - 1])
    ensures exists i :: CoreAt(s, r, i)
  {
    var a := TrimStart(s);
    var r := TrimEnd(a);
    var i := |s| - |a|;
    assert CoreAt(s, r, i);
    r
  }

  /** Lower-cases the ASCII letters of `s`, leaving every other character alone. */
  function ToLowerAscii(s: string): (r: string)
    ensures |r| == |s|
    ensures forall k :: 0 <= k < |s| ==>
      r[k] == if 'A' <= s[k] <= 'Z' then (s[k] as int + 32) as char else s[k]
  {
    if |s| == 0 then "" else
      var ch := if 'A' <= s[0] <= 'Z' then (s[0] as int + 32) as char else s[0];
      [ch] + ToLowerAscii(s[1..])
  }

  /** True when `s` ends with `suffix` (Java's `endsWith`). */
  predicate EndsWith(s: string, suffix: string) {
    |suffix| <= |s| && s[|s| - |suffix|..] == suffix
  }

  /** Decimal digits of a natural number, most significant first. */
  function NatDigits(n: nat): (r: string)
    ensures |r| > 0
    ensures forall k :: 0 <= k < |r| ==> '0' <= r[k] <= '9'
  {
    var d := ['0' + (n % 10) as char];
    if n < 10 then d else NatDigits(n / 10) + d
  }

  /** `Long.toString`: an optional minus sign followed by decimal digits. */
  function IntText(n: int): (r: string)
    ensures |r| > 0
    ensures (r[0] == '-') <==> n < 0
  {
    if n < 0 then "-" + NatDigits(-n) else NatDigits(n)
  }
}
