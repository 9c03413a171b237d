/** `Tokenize` of util.cc. */
module Tokens {
  /** `buffer.find(c, from)`; |buffer| stands for npos. */
  function FindChar(buffer: string, c: char, from: nat): (pos: nat)
    requires from <= |buffer|
    ensures from <= pos <= |buffer|
    ensures pos < |buffer| ==> buffer[pos] == c
    ensures forall i :: from <= i < pos ==> buffer[i] != c
    decreases |buffer| - from
  {
    if from == |buffer| || buffer[from] == c then from else FindChar(buffer, c, from + 1)
  }

  ghost predicate Without(s: string, c: char) {
    forall i :: 0 <= i < |s| ==> s[i] != c
  }

  /** The tokens from position `from` on. */
  function SplitFrom(buffer: string, c: char, from: nat): (tokens: seq<string>)
    requires from <= |buffer|
    ensures |tokens| > 0
    decreases |buffer| - from
  {
    var pos := FindChar(buffer, c, from);
    if pos == |buffer| then [buffer[from..]]
    else [buffer[from..pos]] + SplitFrom(buffer, c, pos + 1)
  }

  /** An empty buffer has no tokens at all. */
  function Split(buffer: string, c: char): seq<string> {
    if buffer == "" then [] else SplitFrom(buffer, c, 0)
  }

  function Join(tokens: seq<string>, c: char): string {
    if tokens == [] then ""
    else if |tokens| == 1 then tokens[0]
    else tokens[0] + [c] + Join(tokens[1..], c)
  }

  lemma {:induction false} SplitFromJoins(buffer: string, c: char, from: nat)
    requires from <= |buffer|
    ensures Join(SplitFrom(buffer, c, from), c) == buffer[from..]
    decreases |buffer| - from
  {
    var pos := FindChar(buffer, c, from);
    if pos < |buffer| {
      SplitFromJoins(buffer, c, pos + 1);
      JoinFirst(buffer[from..pos], SplitFrom(buffer, c, pos + 1), c);
      CutAtDelimiter(buffer, c, from, pos);
    }
  }

  lemma JoinFirst(token: string, rest: seq<string>, c: char)
    requires rest != []
    ensures Join([token] + rest, c) == token + [c] + Join(rest, c)
  {
    assert ([token] + rest)[1..] == rest;
  }

  lemma CutAtDelimiter(buffer: string, c: char, from: nat, pos: nat)
    requires from <= pos < |buffer| && buffer[pos] == c
    ensures buffer[from..] == buffer[from..pos] + [c] + buffer[pos + 1..]
  {
  }

  lemma {:induction false} SplitFromFree(buffer: string, c: char, from: nat)
    requires from <= |buffer|
    ensures forall t :: t in SplitFrom(buffer, c, from) ==> Without(t, c)
    decreases |buffer| - from
  {
    var pos := FindChar(buffer, c, from);
    assert Without(buffer[from..pos], c);
    if pos < |buffer| { SplitFromFree(buffer, c, pos + 1); }
  }

  /** Delimiter-free lists that join to the same string are the same. */
  lemma {:induction false} JoinDetermines(a: seq<string>, b: seq<string>, c: char)
    requires a != [] && b != [] && Join(a, c) == Join(b, c)
    requires forall i :: 0 <= i < |a| ==> Without(a[i], c)
    requires forall i :: 0 <= i < |b| ==> Without(b[i], c)
    ensures a == b
    decreases |a|
  {
    var text := Join(a, c);
    FirstToken(a, c);
    FirstToken(b, c);
    assert a[0] == text[..FindChar(text, c, 0)] == b[0];
    if |a| > 1 {
      assert text[|a[0]|] == c;
      assert Join(a[1..], c) == text[|a[0]| + 1..] == Join(b[1..], c);
      JoinDetermines(a[1..], b[1..], c);
      assert a == [a[0]] + a[1..] && b == [b[0]] + b[1..];
    } else {
      assert |b| == 1;
    }
  }

  lemma FirstToken(a: seq<string>, c: char)
    requires a != [] && Without(a[0], c)
    ensures var text := Join(a, c);
            && FindChar(text, c, 0) == |a[0]| && a[0] == text[..|a[0]|]
            && (|a| > 1 ==> |a[0]| < |text| && text[|a[0]|] == c && text[|a[0]| + 1..] == Join(a[1..], c))
            && (|a| == 1 ==> |a[0]| == |text|)
  {
    var text := Join(a, c);
    var n := |a[0]|;
    assert forall i :: 0 <= i < n ==> text[i] == a[0][i];
    if |a| > 1 {
      assert text[n] == c;
    }
  }

  /** Tokenizing theorem: the tokens are the one list of delimiter-free strings that the
      delimiter joins to the buffer. */
  lemma SplitIsUnique(buffer: string, c: char, tokens: seq<string>)
    requires buffer != ""
    ensures tokens == Split(buffer, c) <==>
              && tokens != [] && Join(tokens, c) == buffer
              && forall i :: 0 <= i < |tokens| ==> Without(tokens[i], c)
  {
    SplitFromJoins(buffer, c, 0);
    SplitFromFree(buffer, c, 0);
    assert buffer[0..] == buffer;
    if tokens != [] && Join(tokens, c) == buffer && forall i :: 0 <= i < |tokens| ==> Without(tokens[i], c) {
      JoinDetermines(tokens, Split(buffer, c), c);
    }
  }

  /** `Tokenize`: the tokens are added to those already there. */
  method Tokenize(buffer: string, before: seq<string>, delimiter: char) returns (tokens: seq<string>)
    ensures tokens == before + Split(buffer, delimiter)
  {
    tokens := before;
    var posAnt := 0;
    var pos := FindChar(buffer, delimiter, posAnt);
    while pos != |buffer|
      invariant posAnt <= pos <= |buffer| && pos == FindChar(buffer, delimiter, posAnt)
      invariant posAnt == 0 ==> tokens == before
      invariant tokens + SplitFrom(buffer, delimiter, posAnt) == before + SplitFrom(buffer, delimiter, 0)
      decreases |buffer| - posAnt
    {
      var token := buffer[posAnt..pos];
      assert tokens + ([token] + SplitFrom(buffer, delimiter, pos + 1)) == (tokens + [token]) + SplitFrom(buffer, delimiter, pos + 1);
      tokens := tokens + [token];
      posAnt := pos + 1;
      pos := FindChar(buffer, delimiter, posAnt);
    }
    if buffer != "" {
      tokens := tokens + [buffer[posAnt..]];
    }
  }
}
