/** The `result` and `signal` lists of an `<exit>` element, as `read_config` registers them. */
module RangeLists {
  import opened Options
  import opened System
  import opened Supervisor
  import opened Decimal
  import opened Tokens

  type ActionMap = map<int, seq<Action>>

  /** Registration of one value after another, from a to b. */
  function RegisterRange(m: ActionMap, a: int, b: int, al: seq<Action>): (r: ActionMap)
    ensures forall k :: k in r <==> k in m || a <= k <= b
    ensures forall k :: k in r ==> r[k] == if a <= k <= b then al else m[k]
    decreases b - a
  {
    if a > b then m else RegisterRange(m[a := al], a + 1, b, al)
  }

  /** What is registered so far, and whether no exception has been thrown. */
  datatype Registration = Registration(m: ActionMap, ok: bool)

  /** A token with a hyphen has a part on either side of it. */
  lemma TwoParts(token: string)
    requires FindChar(token, '-', 0) < |token|
    ensures |Split(token, '-')| >= 2
  {
  }

  function RegisterToken(m: ActionMap, token: string, al: seq<Action>): Registration {
    if FindChar(token, '-', 0) < |token| then
      TwoParts(token);
      var parts := Split(token, '-');
      if Stoi(parts[0]).None? || Stoi(parts[1]).None? then Registration(m, false)
      else Registration(RegisterRange(m, Stoi(parts[0]).value, Stoi(parts[1]).value, al), true)
    else if Stoi(token).None? then Registration(m, false)
    else Registration(m[Stoi(token).value := al], true)
  }

  /** The loop over the tokens, which an exception ends. */
  function RegisterTokens(m: ActionMap, tokens: seq<string>, i: nat, al: seq<Action>): Registration
    requires i <= |tokens|
    decreases |tokens| - i
  {
    if i == |tokens| then Registration(m, true)
    else
      var r := RegisterToken(m, tokens[i], al);
      if r.ok then RegisterTokens(r.m, tokens, i + 1, al) else r
  }

  // ------------------------------------------------------ lists as they are meant

  datatype ListItem = One(v: nat) | Range(a: nat, b: nat)

  predicate Fits(item: ListItem) {
    match item
    case One(v) => v <= INT_MAX
    case Range(a, b) => a <= INT_MAX && b < INT_MAX
  }

  function Written(item: ListItem): (s: string)
  {
    match item
    case One(v) => Digits(v)
    case Range(a, b) => Digits(a) + "-" + Digits(b)
  }

  function WrittenAll(items: seq<ListItem>): seq<string> {
    seq(|items|, i requires 0 <= i < |items| => Written(items[i]))
  }

  predicate Covers(item: ListItem, k: int) {
    match item
    case One(v) => k == v
    case Range(a, b) => a <= k <= b
  }

  ghost predicate Covered(items: seq<ListItem>, k: int) {
    exists i :: 0 <= i < |items| && Covers(items[i], k)
  }

  lemma FindNone(s: string, c: char)
    requires Without(s, c)
    ensures FindChar(s, c, 0) == |s|
  {
  }

  lemma RangeTokens(a: nat, b: nat)
    ensures Split(Digits(a) + "-" + Digits(b), '-') == [Digits(a), Digits(b)]
    ensures FindChar(Digits(a) + "-" + Digits(b), '-', 0) < |Digits(a) + "-" + Digits(b)|
  {
    var text := Digits(a) + "-" + Digits(b);
    var parts := [Digits(a), Digits(b)];
    assert parts[1..] == [Digits(b)];
    assert Join(parts, '-') == text;
    SplitIsUnique(text, '-', parts);
    assert text[|Digits(a)|] == '-';
  }

  /** One item registers exactly what it covers. */
  lemma ItemRegisters(m: ActionMap, item: ListItem, al: seq<Action>)
    requires Fits(item)
    ensures var r := RegisterToken(m, Written(item), al);
            && r.ok
            && (forall k :: k in r.m <==> k in m || Covers(item, k))
            && (forall k :: k in r.m ==> r.m[k] == if Covers(item, k) then al else m[k])
  {
    match item
    case One(v) =>
      FindNone(Digits(v), '-');
      StoiOfDigits(v);
    case Range(a, b) =>
      RangeTokens(a, b);
      StoiOfDigits(a);
      StoiOfDigits(b);
  }

  lemma {:induction false} ItemsRegister(m: ActionMap, items: seq<ListItem>, i: nat, al: seq<Action>)
    requires i <= |items| && forall j :: 0 <= j < |items| ==> Fits(items[j])
    ensures var r := RegisterTokens(m, WrittenAll(items), i, al);
            && r.ok
            && (forall k :: k in r.m <==> k in m || Covered(items[i..], k))
            && (forall k :: k in r.m ==> r.m[k] == if Covered(items[i..], k) then al else m[k])
    decreases |items| - i
  {
    if i < |items| {
      ItemRegisters(m, items[i], al);
      var next := RegisterToken(m, Written(items[i]), al).m;
      ItemsRegister(next, items, i + 1, al);
      forall k ensures Covered(items[i..], k) <==> Covers(items[i], k) || Covered(items[i + 1..], k) {
        CoveredStep(items, i, k);
      }
    }
  }

  lemma CoveredStep(items: seq<ListItem>, i: nat, k: int)
    requires i < |items|
    ensures Covered(items[i..], k) <==> Covers(items[i], k) || Covered(items[i + 1..], k)
  {
    if Covers(items[i], k) { assert Covers(items[i..][0], k); }
    if Covered(items[i + 1..], k) {
      var j :| 0 <= j < |items[i + 1..]| && Covers(items[i + 1..][j], k);
      assert Covers(items[i..][j + 1], k);
    }
    if Covered(items[i..], k) && !Covers(items[i], k) {
      var j :| 0 <= j < |items[i..]| && Covers(items[i..][j], k);
      assert Covers(items[i + 1..][j - 1], k);
    }
  }

  lemma WrittenIsPlain(item: ListItem)
    ensures Written(item) != "" && Without(Written(item), ',')
  {
  }

  lemma {:induction false} JoinNonempty(tokens: seq<string>, c: char)
    requires tokens != [] && tokens[0] != ""
    ensures Join(tokens, c) != ""
  {
  }

  /** Range theorem: a comma list of values and ranges registers the new actions for exactly
      the numbers it covers and leaves every other number as it was. */
  lemma ListRegisters(m: ActionMap, items: seq<ListItem>, al: seq<Action>)
    requires forall j :: 0 <= j < |items| ==> Fits(items[j])
    ensures var text := Join(WrittenAll(items), ',');
            var r := RegisterTokens(m, Split(text, ','), 0, al);
            && r.ok
            && (forall k :: k in r.m <==> k in m || Covered(items, k))
            && (forall k :: k in r.m ==> r.m[k] == if Covered(items, k) then al else m[k])
  {
    var tokens := WrittenAll(items);
    var text := Join(tokens, ',');
    forall j | 0 <= j < |tokens| ensures tokens[j] != "" && Without(tokens[j], ',') {
      WrittenIsPlain(items[j]);
    }
    if items == [] {
      assert Split(text, ',') == tokens == [];
    } else {
      JoinNonempty(tokens, ',');
      SplitIsUnique(text, ',', tokens);
    }
    assert items[0..] == items;
    ItemsRegister(m, items, 0, al);
  }

  /** The first token that is no number or range ends the registration, and what was registered
      before it stays. */
  lemma {:induction false} BadTokenEnds(m: ActionMap, tokens: seq<string>, i: nat, al: seq<Action>, sofar: ActionMap, bad: nat)
    requires i <= bad < |tokens|
    requires RegisterTokens(m, tokens[..bad], i, al) == Registration(sofar, true)
    requires !RegisterToken(sofar, tokens[bad], al).ok
    ensures RegisterTokens(m, tokens, i, al) == Registration(sofar, false)
    decreases bad - i
  {
    if i == bad {
      BadTokenChangesNothing(m, tokens[i], al);
    } else {
      var next := RegisterToken(m, tokens[i], al);
      assert tokens[..bad][i] == tokens[i];
      BadTokenEnds(next.m, tokens, i + 1, al, sofar, bad);
    }
  }

  lemma BadTokenChangesNothing(m: ActionMap, token: string, al: seq<Action>)
    ensures RegisterToken(m, token, al).ok || RegisterToken(m, token, al).m == m
  {
  }

  /** The registry after a list has been registered. */
  function RegisteredFor(m: ActionMap, items: seq<ListItem>, al: seq<Action>): ActionMap {
    RegisterTokens(m, Split(Join(WrittenAll(items), ','), ','), 0, al).m
  }

  /** Lookups of a result see the last registration. */
  lemma ResultSeesLast(conf: Settings, items: seq<ListItem>, al: seq<Action>, res: int, sig: int)
    requires forall j :: 0 <= j < |items| ==> Fits(items[j])
    ensures sig <= 0 ==>
              GetActions(conf.(exitActions := RegisteredFor(conf.exitActions, items, al)), res, sig)
              == if Covered(items, res) then Some(al) else GetActions(conf, res, sig)
    ensures sig > 0 ==>
              GetActions(conf.(exitActions := RegisteredFor(conf.exitActions, items, al)), res, sig) == GetActions(conf, res, sig)
  {
    ListRegisters(conf.exitActions, items, al);
  }

  /** Lookups of a signal see the last registration; a signal without a list of its own sees
      the last one for signal 0. */
  lemma SignalSeesLast(conf: Settings, items: seq<ListItem>, al: seq<Action>, res: int, sig: int)
    requires forall j :: 0 <= j < |items| ==> Fits(items[j])
    ensures sig > 0 ==>
              GetActions(conf.(signalActions := RegisteredFor(conf.signalActions, items, al)), res, sig)
              == if Covered(items, sig) then Some(al)
                 else if sig in conf.signalActions then Some(conf.signalActions[sig])
                 else if Covered(items, 0) then Some(al)
                 else GetActions(conf, res, sig)
    ensures sig <= 0 ==>
              GetActions(conf.(signalActions := RegisteredFor(conf.signalActions, items, al)), res, sig) == GetActions(conf, res, sig)
  {
    ListRegisters(conf.signalActions, items, al);
  }

  // ---------------------------------------------------------------- the code

  /** `exit_xml` with a `result` attribute. False is the exception that `stoi` throws. */
  method RegisterResults(p: Program, results: string, al: seq<Action>) returns (ok: bool)
    modifies p`exitActions
    ensures Registration(p.exitActions, ok) == RegisterTokens(old(p.exitActions), Split(results, ','), 0, al)
  {
    var parts := Tokenize(results, [], ',');
    assert parts == Split(results, ',');
    var i := 0;
    while i < |parts|
      invariant i <= |parts|
      invariant RegisterTokens(p.exitActions, parts, i, al) == RegisterTokens(old(p.exitActions), parts, 0, al)
    {
      ok := RegisterResult(p, parts[i], al);
      if !ok {
        return;
      }
      i := i + 1;
    }
    ok := true;
  }

  method RegisterResult(p: Program, tmp: string, al: seq<Action>) returns (ok: bool)
    modifies p`exitActions
    ensures Registration(p.exitActions, ok) == RegisterToken(old(p.exitActions), tmp, al)
  {
    if FindChar(tmp, '-', 0) != |tmp| {
      var rangeParts := Tokenize(tmp, [], '-');
      TwoParts(tmp);
      assert rangeParts == Split(tmp, '-');
      var begin, end := Stoi(rangeParts[0]), Stoi(rangeParts[1]);
      if begin == None || end == None {
        return false;
      }
      var res := begin.value;
      while res <= end.value
        invariant RegisterRange(p.exitActions, res, end.value, al)
               == RegisterRange(old(p.exitActions), begin.value, end.value, al)
        decreases end.value - res
      {
        p.AddResAction(res, al);
        res := res + 1;
      }
    } else {
      var res := Stoi(tmp);
      if res == None {
        return false;
      }
      p.AddResAction(res.value, al);
    }
    ok := true;
  }

  /** The same for a `signal` attribute. */
  method RegisterSignals(p: Program, signals: string, al: seq<Action>) returns (ok: bool)
    modifies p`signalActions
    ensures Registration(p.signalActions, ok) == RegisterTokens(old(p.signalActions), Split(signals, ','), 0, al)
  {
    var parts := Tokenize(signals, [], ',');
    assert parts == Split(signals, ',');
    var i := 0;
    while i < |parts|
      invariant i <= |parts|
      invariant RegisterTokens(p.signalActions, parts, i, al) == RegisterTokens(old(p.signalActions), parts, 0, al)
    {
      ok := RegisterSignal(p, parts[i], al);
      if !ok {
        return;
      }
      i := i + 1;
    }
    ok := true;
  }

  method RegisterSignal(p: Program, tmp: string, al: seq<Action>) returns (ok: bool)
    modifies p`signalActions
    ensures Registration(p.signalActions, ok) == RegisterToken(old(p.signalActions), tmp, al)
  {
    if FindChar(tmp, '-', 0) != |tmp| {
      var rangeParts := Tokenize(tmp, [], '-');
      TwoParts(tmp);
      assert rangeParts == Split(tmp, '-');
      var begin, end := Stoi(rangeParts[0]), Stoi(rangeParts[1]);
      if begin == None || end == None {
        return false;
      }
      var sig := begin.value;
      while sig <= end.value
        invariant RegisterRange(p.signalActions, sig, end.value, al)
               == RegisterRange(old(p.signalActions), begin.value, end.value, al)
        decreases end.value - sig
      {
        p.AddSigAction(sig, al);
        sig := sig + 1;
      }
    } else {
      var sig := Stoi(tmp);
      if sig == None {
        return false;
      }
      p.AddSigAction(sig.value, al);
    }
    ok := true;
  }
}
