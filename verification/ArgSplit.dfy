/** `arg_split` of util.cc: cut a command line into arguments, in place. */
module ArgSplit {
  predicate Blank(c: char) {
    c == ' ' || c == '\t'
  }

  /** Whether position i of the line lies between double quotes. */
  function InQuotes(s: string, i: nat): bool
    requires i <= |s|
  {
    if i == 0 then false else InQuotes(s, i - 1) != (s[i - 1] == '"')
  }

  /** A blank outside quotes. */
  predicate Gap(s: string, i: nat)
    requires i < |s|
  {
    Blank(s[i]) && !InQuotes(s, i)
  }

  /** The line with its gaps overwritten. */
  function Cut(s: string): (r: string)
    ensures |r| == |s|
    ensures forall i :: 0 <= i < |s| ==> r[i] == if Gap(s, i) then '\0' else s[i]
  {
    seq(|s|, i requires 0 <= i < |s| => if Gap(s, i) then '\0' else s[i])
  }

  /** The first gap from i on, or the end of the line. */
  function WordEnd(s: string, i: nat): (e: nat)
    requires i <= |s|
    ensures i <= e <= |s|
    ensures e < |s| ==> Gap(s, e)
    ensures forall j :: i <= j < e ==> !Gap(s, j)
    decreases |s| - i
  {
    if i == |s| || Gap(s, i) then i else WordEnd(s, i + 1)
  }

  /** Where the words from i on begin. */
  function WordStarts(s: string, i: nat): (r: seq<nat>)
    requires i <= |s|
    ensures forall k :: 0 <= k < |r| ==> i <= r[k] < |s| && !Gap(s, r[k]) && (r[k] > i ==> Gap(s, r[k] - 1))
    decreases |s| - i
  {
    if i == |s| then []
    else if Gap(s, i) then WordStarts(s, i + 1)
    else if WordEnd(s, i + 1) == |s| then [i]
    else [i] + WordStarts(s, WordEnd(s, i + 1) + 1)
  }

  /** The words of the line: its maximal stretches without a gap. */
  function Words(s: string, i: nat): seq<string>
    requires i <= |s|
    decreases |s| - i
  {
    if i == |s| then []
    else if Gap(s, i) then Words(s, i + 1)
    else
      var e := WordEnd(s, i + 1);
      [s[i..e]] + if e == |s| then [] else Words(s, e + 1)
  }

  predicate EndsInGap(s: string) {
    s != "" && Gap(s, |s| - 1)
  }

  /** The pointers recorded: a line that ends in a gap leaves one to its terminating NUL. */
  function Pointers(s: string): seq<nat> {
    WordStarts(s, 0) + if EndsInGap(s) then [|s|] else []
  }

  /** What a program sees that reads from position i up to the next NUL. */
  function Reads(memory: string, i: nat): string
    requires i <= |memory|
    decreases |memory| - i
  {
    if i == |memory| || memory[i] == '\0' then "" else [memory[i]] + Reads(memory, i + 1)
  }

  lemma {:induction false} ReadsToEnd(s: string, i: nat)
    requires i <= |s| && forall j :: 0 <= j < |s| ==> s[j] != '\0'
    ensures Reads(Cut(s) + ['\0'], i) == s[i..WordEnd(s, i)]
    decreases |s| - i
  {
    var memory := Cut(s) + ['\0'];
    if i < |s| && !Gap(s, i) {
      ReadsToEnd(s, i + 1);
      assert memory[i] == s[i];
      assert s[i..WordEnd(s, i)] == [s[i]] + s[i + 1..WordEnd(s, i)];
    }
  }

  /** The pointers show these words. */
  ghost predicate Show(memory: string, pointers: seq<nat>, words: seq<string>) {
    && |pointers| == |words|
    && forall k :: 0 <= k < |words| ==> pointers[k] <= |memory| && Reads(memory, pointers[k]) == words[k]
  }

  lemma ShowCons(memory: string, pointer: nat, word: string, pointers: seq<nat>, words: seq<string>)
    requires Show(memory, pointers, words) && pointer <= |memory| && Reads(memory, pointer) == word
    ensures Show(memory, [pointer] + pointers, [word] + words)
  {
  }

  lemma ShowSnoc(memory: string, pointers: seq<nat>, words: seq<string>, pointer: nat, word: string)
    requires Show(memory, pointers, words) && pointer <= |memory| && Reads(memory, pointer) == word
    ensures Show(memory, pointers + [pointer], words + [word])
  {
  }

  lemma {:induction false} WordStartsRead(s: string, i: nat)
    requires i <= |s| && forall j :: 0 <= j < |s| ==> s[j] != '\0'
    ensures Show(Cut(s) + ['\0'], WordStarts(s, i), Words(s, i))
    decreases |s| - i
  {
    if i < |s| {
      if Gap(s, i) {
        WordStartsRead(s, i + 1);
      } else {
        var e := WordEnd(s, i + 1);
        ReadsToEnd(s, i);
        if e < |s| {
          WordStartsRead(s, e + 1);
          ShowCons(Cut(s) + ['\0'], i, s[i..e], WordStarts(s, e + 1), Words(s, e + 1));
        } else {
          ShowCons(Cut(s) + ['\0'], i, s[i..e], [], []);
          assert [i] + [] == [i] && [s[i..e]] + [] == [s[i..e]];
        }
      }
    }
  }

  /** Splitting theorem: read through the pointers, the cut line shows its words in order,
      and an empty word at the end when it ended in a gap. */
  lemma PointersReadWords(s: string)
    requires forall j :: 0 <= j < |s| ==> s[j] != '\0'
    ensures Show(Cut(s) + ['\0'], Pointers(s), Words(s, 0) + if EndsInGap(s) then [""] else [])
  {
    var memory := Cut(s) + ['\0'];
    WordStartsRead(s, 0);
    if EndsInGap(s) {
      assert Reads(memory, |s|) == "";
      ShowSnoc(memory, WordStarts(s, 0), Words(s, 0), |s|, "");
    } else {
      assert Pointers(s) == WordStarts(s, 0) && Words(s, 0) + [] == Words(s, 0);
    }
  }

  /** A blank or tab after an even number of double quotes. */
  ghost predicate Unquoted(s: string, i: nat) {
    i < |s| && (s[i] == ' ' || s[i] == '\t') && multiset(s[..i])['"'] % 2 == 0
  }

  lemma {:induction false} QuotesCounted(s: string, i: nat)
    requires i <= |s|
    ensures InQuotes(s, i) <==> multiset(s[..i])['"'] % 2 == 1
  {
    if i > 0 {
      QuotesCounted(s, i - 1);
      assert s[..i] == s[..i - 1] + [s[i - 1]];
    }
  }

  lemma GapIsUnquoted(s: string, i: nat)
    requires i < |s|
    ensures Gap(s, i) <==> Unquoted(s, i)
  {
    QuotesCounted(s, i);
  }

  lemma {:induction false} StartsAreAll(s: string, i: nat, j: nat)
    requires i <= j < |s| && !Gap(s, j) && (j == i || Gap(s, j - 1))
    ensures j in WordStarts(s, i)
    decreases |s| - i
  {
    if Gap(s, i) {
      StartsAreAll(s, i + 1, j);
    } else if i < j {
      var e := WordEnd(s, i + 1);
      assert e < j;
      StartsAreAll(s, e + 1, j);
    }
  }

  lemma {:induction false} StartsIncrease(s: string, i: nat)
    requires i <= |s|
    ensures forall k, l :: 0 <= k < l < |WordStarts(s, i)| ==> WordStarts(s, i)[k] < WordStarts(s, i)[l]
    decreases |s| - i
  {
    if i < |s| {
      if Gap(s, i) {
        StartsIncrease(s, i + 1);
      } else if WordEnd(s, i + 1) < |s| {
        StartsIncrease(s, WordEnd(s, i + 1) + 1);
      }
    }
  }

  /** A word begins at j: no unquoted blank, and nothing or one before it. */
  ghost predicate Begins(s: string, j: nat) {
    j < |s| && !Unquoted(s, j) && (j == 0 || Unquoted(s, j - 1))
  }

  lemma PointerIs(s: string, j: nat)
    ensures j in Pointers(s) <==> Begins(s, j) || (j == |s| > 0 && Unquoted(s, |s| - 1))
  {
    if j < |s| {
      GapIsUnquoted(s, j);
      if j > 0 { GapIsUnquoted(s, j - 1); }
      if Begins(s, j) { StartsAreAll(s, 0, j); }
    }
    if s != "" { GapIsUnquoted(s, |s| - 1); }
  }

  /** What is read from a pointer: everything up to the next unquoted blank. */
  lemma PointerReads(s: string, j: nat) returns (e: nat)
    requires j in Pointers(s) && forall i :: 0 <= i < |s| ==> s[i] != '\0'
    ensures j <= e <= |s| && Reads(Cut(s) + ['\0'], j) == s[j..e]
    ensures (forall i :: j <= i < e ==> !Unquoted(s, i)) && (e < |s| ==> Unquoted(s, e))
  {
    ReadsToEnd(s, j);
    e := WordEnd(s, j);
    forall i | j <= i < |s| ensures Gap(s, i) <==> Unquoted(s, i) { GapIsUnquoted(s, i); }
  }

  /** Cutting theorem, by the quotes alone: exactly the unquoted blanks are overwritten, and the
      pointers are in rising order exactly the places where a word begins, and the end of a line
      that ends in an unquoted blank. */
  lemma LineIsCut(s: string)
    ensures |Cut(s)| == |s| && forall i :: 0 <= i < |s| ==> Cut(s)[i] == if Unquoted(s, i) then '\0' else s[i]
    ensures forall j: nat :: j in Pointers(s) <==> Begins(s, j) || (j == |s| > 0 && Unquoted(s, |s| - 1))
    ensures forall k, l :: 0 <= k < l < |Pointers(s)| ==> Pointers(s)[k] < Pointers(s)[l]
  {
    forall i: nat | i < |s| ensures Gap(s, i) <==> Unquoted(s, i) { GapIsUnquoted(s, i); }
    forall j: nat ensures j in Pointers(s) <==> Begins(s, j) || (j == |s| > 0 && Unquoted(s, |s| - 1)) { PointerIs(s, j); }
    StartsIncrease(s, 0);
  }

  // ---------------------------------------------------------------- the code

  /** `text` is the C string in the buffer. */
  ghost predicate Holds(buf: array<char>, text: string)
    reads buf
  {
    && |text| < buf.Length
    && buf[..|text|] == text && buf[|text|] == '\0'
    && forall j :: 0 <= j < |text| ==> text[j] != '\0'
  }

  /** The buffer is cut up to i and still the text from there on. */
  ghost predicate CutTo(buf: array<char>, text: string, i: nat)
    reads buf
  {
    && CutMemory(buf[..], text, i)
    && forall j :: 0 <= j < |text| ==> text[j] != '\0'
  }

  ghost predicate CutMemory(memory: string, text: string, i: nat) {
    && |text| < |memory| && i <= |text|
    && (forall j :: 0 <= j < i ==> memory[j] == Cut(text)[j])
    && (forall j :: i <= j < |text| ==> memory[j] == text[j])
    && memory[|text|] == '\0'
  }

  /** The inner loop over blanks. */
  method SkipBlanks(buf: array<char>, first: nat, ghost text: string) returns (i: nat)
    requires CutTo(buf, text, first) && !InQuotes(text, first)
    modifies buf
    ensures first <= i <= |text| && CutTo(buf, text, i) && !InQuotes(text, i)
    ensures forall j :: |text| < j < buf.Length ==> buf[j] == old(buf[j])
    ensures forall j :: first <= j < i ==> Gap(text, j)
    ensures i < |text| ==> !Gap(text, i)
    ensures WordStarts(text, first) == WordStarts(text, i)
  {
    i := first;
    ghost var orig := buf[..];
    while buf[i] == ' ' || buf[i] == '\t'
      invariant Skipped(orig, buf[..], text, first, i)
      decreases |text| - i
    {
      ghost var memory := buf[..];
      SkipOne(orig, memory, text, first, i);
      buf[i] := '\0';
      assert buf[..] == memory[i := '\0'];
      i := i + 1;
    }
  }

  /** Everything from `first` to i was a gap and has been overwritten. */
  ghost predicate Skipped(orig: string, memory: string, text: string, first: nat, i: nat) {
    && |memory| == |orig| && first <= i && CutMemory(memory, text, i) && !InQuotes(text, i)
    && (forall j :: |text| < j < |memory| ==> memory[j] == orig[j])
    && (forall j :: first <= j < i ==> Gap(text, j))
    && WordStarts(text, first) == WordStarts(text, i)
  }

  lemma SkipOne(orig: string, memory: string, text: string, first: nat, i: nat)
    requires Skipped(orig, memory, text, first, i) && Blank(memory[i])
    ensures i < |text| && Skipped(orig, memory[i := '\0'], text, first, i + 1)
  {
    assert memory[|text|] == '\0';
    assert Gap(text, i);
  }

  lemma {:induction false} QuotesClose(s: string, i: nat)
    requires i <= |s| && InQuotes(s, i) && !InQuotes(s, |s|)
    ensures i < |s|
  {
  }

  /** The loop over a word, quoted blanks included. */
  method SkipWord(buf: array<char>, first: nat, ghost text: string) returns (i: nat)
    requires CutTo(buf, text, first) && !InQuotes(text, first) && !InQuotes(text, |text|)
    requires first < |text| ==> !Gap(text, first)
    ensures first <= i <= |text| && CutTo(buf, text, i) && !InQuotes(text, i)
    ensures i == WordEnd(text, first)
  {
    i := first;
    var inString := false;
    while inString || (buf[i] != '\0' && buf[i] != ' ' && buf[i] != '\t')
      invariant first <= i <= |text| && CutTo(buf, text, i)
      invariant inString == InQuotes(text, i)
      invariant WordEnd(text, first) == WordEnd(text, i)
      decreases |text| - i
    {
      if inString { QuotesClose(text, i); }
      assert i < |text| && !Gap(text, i);
      if buf[i] == '"' {
        inString := !inString;
      }
      i := i + 1;
    }
  }

  /** How far the split has got: `args` are the pointers to the words before i. */
  ghost predicate Progress(text: string, i: nat, args: seq<nat>)
    requires i <= |text|
  {
    && !InQuotes(text, i)
    && (i == 0 ==> args == [])
    && (0 < i < |text| ==> Gap(text, i))
    && if i < |text| then args + WordStarts(text, i) == WordStarts(text, 0) else args == Pointers(text)
  }

  /** The words from `start` on, when the first of them ends at e. */
  lemma WordStartsStep(s: string, start: nat, e: nat)
    requires start < |s| && !Gap(s, start) && e == WordEnd(s, start)
    ensures start < e && !Gap(s, e - 1)
    ensures e == |s| ==> WordStarts(s, start) == [start]
    ensures e < |s| ==> WordStarts(s, start) == [start] + WordStarts(s, e)
  {
    assert WordEnd(s, start + 1) == e;
    if e < |s| { assert WordStarts(s, e) == WordStarts(s, e + 1); }
  }

  /** A word that begins at `start`, after the gaps from `before` on, and ends at e. */
  lemma ProgressWord(s: string, before: nat, start: nat, e: nat, args: seq<nat>)
    requires before < |s| && before <= start <= |s| && Progress(s, before, args)
    requires forall j :: before <= j < start ==> Gap(s, j)
    requires start < |s| ==> !Gap(s, start)
    requires WordStarts(s, before) == WordStarts(s, start) && e == WordEnd(s, start) && !InQuotes(s, e)
    ensures Progress(s, e, args + [start])
  {
    if start == |s| {
      assert args + [] == args;
      assert Gap(s, |s| - 1);
    } else {
      WordStartsStep(s, start, e);
      if e == |s| {
        assert WordStarts(s, 0) + [] == WordStarts(s, 0);
      } else {
        assert args + ([start] + WordStarts(s, e)) == (args + [start]) + WordStarts(s, e);
      }
    }
  }

  /** `arg_split`, for a line with balanced double quotes: exactly the gaps are overwritten
      and nothing else in the buffer. */
  method SplitArguments(buf: array<char>, ghost text: string) returns (args: seq<nat>)
    requires Holds(buf, text) && !InQuotes(text, |text|)
    modifies buf
    ensures args == Pointers(text)
    ensures buf[..|text|] == Cut(text) && buf[|text|] == '\0'
    ensures forall j :: |text| < j < buf.Length ==> buf[j] == old(buf[j])
  {
    assert forall j :: 0 <= j < |text| ==> buf[j] == buf[..|text|][j];
    args := [];
    var i := 0;
    while buf[i] != '\0'
      invariant 0 <= i <= |text| && CutTo(buf, text, i) && Progress(text, i, args)
      invariant forall j :: |text| < j < buf.Length ==> buf[j] == old(buf[j])
      decreases |text| - i
    {
      ghost var before := i;
      i := SkipBlanks(buf, i, text);
      args := args + [i];
      ghost var start := i;
      i := SkipWord(buf, i, text);
      ProgressWord(text, before, start, i, args[..|args| - 1]);
      assert args[..|args| - 1] + [start] == args;
    }
    assert buf[..|text|] == Cut(text);
  }
}
