/** `replacein` of util.h: replace every occurrence of one string by another. */
module Substitution {
  /** `s.find(sub, b)`: the first occurrence from b on; |s| + 1 stands for npos. */
  function FindString(s: string, sub: string, b: nat): (pos: nat)
    requires b <= |s|
    ensures b <= pos <= |s| + 1
    ensures pos <= |s| ==> Occurs(s, sub, pos)
    ensures forall i :: b <= i < pos && i <= |s| ==> !Occurs(s, sub, i)
    decreases |s| - b
  {
    if Occurs(s, sub, b) then b
    else if b == |s| then |s| + 1
    else FindString(s, sub, b + 1)
  }

  predicate Occurs(s: string, sub: string, i: int) {
    0 <= i && i + |sub| <= |s| && s[i..i + |sub|] == sub
  }

  /** The pieces of s between its occurrences of sub, taken from the left without overlap. */
  function Pieces(s: string, sub: string): (p: seq<string>)
    requires sub != ""
    ensures p != []
    decreases |s|
  {
    var pos := FindString(s, sub, 0);
    if pos > |s| then [s] else [s[..pos]] + Pieces(s[pos + |sub|..], sub)
  }

  function JoinWith(pieces: seq<string>, glue: string): string {
    if pieces == [] then ""
    else if |pieces| == 1 then pieces[0]
    else pieces[0] + glue + JoinWith(pieces[1..], glue)
  }

  /** In no piece does sub begin, nor across its end before the occurrence that follows. */
  ghost predicate Leftmost(pieces: seq<string>, sub: string) {
    pieces == [] ||
    (&& FindString(JoinWith(pieces, sub), sub, 0) == (if |pieces| == 1 then |pieces[0]| + 1 else |pieces[0]|)
     && Leftmost(pieces[1..], sub))
  }

  lemma {:induction false} PiecesJoin(s: string, sub: string)
    requires sub != ""
    ensures JoinWith(Pieces(s, sub), sub) == s
    decreases |s|
  {
    var pos := FindString(s, sub, 0);
    if pos <= |s| {
      PiecesJoin(s[pos + |sub|..], sub);
      FirstPiece(s, sub, sub, pos);
      assert s == s[..pos] + (sub + s[pos + |sub|..]);
    }
  }

  lemma {:induction false} PiecesLeftmost(s: string, sub: string)
    requires sub != ""
    ensures Leftmost(Pieces(s, sub), sub)
    decreases |s|
  {
    var pos := FindString(s, sub, 0);
    PiecesJoin(s, sub);
    var p := Pieces(s, sub);
    if pos <= |s| {
      var rest := Pieces(s[pos + |sub|..], sub);
      assert p[0] == s[..pos] && p[1..] == rest && |p| > 1;
      PiecesLeftmost(s[pos + |sub|..], sub);
    } else {
      assert p[1..] == [];
    }
  }

  /** Substitution theorem: the pieces are what the occurrences leave. Put together again
      with sub they are s, and each occurrence is the first one after the one before it. */
  lemma PiecesAreLeftmost(s: string, sub: string)
    requires sub != ""
    ensures JoinWith(Pieces(s, sub), sub) == s
    ensures Leftmost(Pieces(s, sub), sub)
  {
    PiecesJoin(s, sub);
    PiecesLeftmost(s, sub);
  }

  /** Searching from b on is searching the rest of the string. */
  lemma {:induction false} FindInSuffix(s: string, sub: string, b: nat, k: nat)
    requires b + k <= |s|
    ensures FindString(s[b..], sub, k) == FindString(s, sub, b + k) - b
    decreases |s| - k
  {
    if k + |sub| <= |s[b..]| {
      assert s[b..][k..k + |sub|] == s[b + k..b + k + |sub|];
    }
    if b + k < |s| { FindInSuffix(s, sub, b, k + 1); }
  }

  /** The result for a string whose first occurrence is known. */
  lemma FirstPiece(s: string, sub: string, other: string, pos: nat)
    requires sub != "" && pos == FindString(s, sub, 0) <= |s|
    ensures JoinWith(Pieces(s, sub), other) == s[..pos] + (other + JoinWith(Pieces(s[pos + |sub|..], sub), other))
  {
    var rest := Pieces(s[pos + |sub|..], sub);
    var p := [s[..pos]] + rest;
    assert p[0] == s[..pos] && p[1..] == rest;
    assert s[..pos] + other + JoinWith(rest, other) == s[..pos] + (other + JoinWith(rest, other));
  }

  /** One replacement, in the part of the string still to be searched: `front` is what comes
      before it, replacement included, and `rest` what the search goes on with. */
  lemma ReplaceStep(passed: string, u: string, sub: string, other: string, k: nat, front: string, rest: string)
    requires sub != "" && k == FindString(u, sub, 0) <= |u|
    requires front == (passed + u[..k]) + other && rest == u[k + |sub|..]
    ensures front + JoinWith(Pieces(rest, sub), other) == passed + JoinWith(Pieces(u, sub), other)
  {
    FirstPiece(u, sub, other, k);
    PutTogether(passed, u[..k], other, JoinWith(Pieces(rest, sub), other), front, JoinWith(Pieces(u, sub), other));
  }

  lemma CutAt(s: string, b: nat, pos: nat, n: nat, other: string, next: string)
    requires b <= pos && pos + n <= |s|
    requires next == s[..pos] + other + s[pos + n..]
    ensures s[b..][pos - b + n..] == next[pos + |other|..]
    ensures next[..pos + |other|] == (s[..b] + s[b..][..pos - b]) + other
  {
  }

  lemma PutTogether(a: string, b: string, c: string, d: string, front: string, whole: string)
    requires front == (a + b) + c && whole == b + (c + d)
    ensures front + d == a + whole
  {
    assert ((a + b) + c) + d == a + (b + (c + d));
  }

  /** `replacein` for a nonempty sub. It ends even if the replacement contains sub. */
  method ReplaceIn(s: string, sub: string, other: string) returns (res: string)
    requires sub != ""
    ensures res == JoinWith(Pieces(s, sub), other)
  {
    res := s;
    var b := 0;
    while true
      invariant 0 <= b <= |res|
      invariant res[..b] + JoinWith(Pieces(res[b..], sub), other) == JoinWith(Pieces(s, sub), other)
      decreases |res| - b
    {
      var pos := FindString(res, sub, b);
      FindInSuffix(res, sub, b, 0);
      if pos > |res| {
        assert Pieces(res[b..], sub) == [res[b..]];
        assert res[..b] + res[b..] == res;
        return;
      }
      assert Occurs(res, sub, pos);
      var next := res[..pos] + other + res[pos + |sub|..];
      CutAt(res, b, pos, |sub|, other, next);
      ReplaceStep(res[..b], res[b..], sub, other, pos - b, next[..pos + |other|], next[pos + |other|..]);
      res := next;
      b := pos + |other|;
    }
  }
}
