/** How the command client and the server share one key file: which bytes of it each request
    and each reply uses, and that both sides read what the other wrote. */
module KeyProtocol {
  import opened Options
  import opened Otp

  /** A stretch of the key file, from `lo` up to but not including `hi`. */
  datatype Stretch = Stretch(lo: nat, hi: nat)

  /** A C++ string without a NUL in it, so that `c_str()` shows all of it. */
  type Text = t: seq<Byte> | forall i :: 0 <= i < |t| ==> t[i] != 0

  /** `otp_e`: None is the error "no data", when the key file ends too early. */
  function OtpE(file: seq<Byte>, of: nat, pt: Text): (ct: Option<seq<Byte>>)
    ensures ct.Some? <==> pt == [] || of + |pt| <= |file|
    ensures ct.Some? ==> |ct.value| == 2 * |pt| && Wellformed(ct.value)
  {
    if pt == [] then Some([])
    else if of + |pt| <= |file| then
      EncodeShape(pt, file[of..of + |pt|], |pt|);
      Some(Encode(pt, file[of..of + |pt|], |pt|))
    else None
  }

  /** `otp_d`: of the key bytes read, as many as there are pairs of codes are used. */
  function OtpD(file: seq<Byte>, of: nat, ct: seq<Byte>): seq<Byte>
    requires Wellformed(ct) && (ct == [] || of + |ct| / 2 <= |file|)
  {
    if ct == [] then [] else Decode(ct, file[of..of + |ct| / 2], |ct| / 2)
  }

  /** With the key and offset of its sender a ciphertext is read as it was meant. */
  lemma ReadAsWritten(file: seq<Byte>, of: nat, pt: Text)
    requires OtpE(file, of, pt).Some?
    ensures var ct := OtpE(file, of, pt).value;
            (ct == [] || of + |ct| / 2 <= |file|) && OtpD(file, of, ct) == pt
  {
    if pt != [] {
      var key := file[of..of + |pt|];
      RoundTrip(pt, key);
    }
  }

  /** What the server makes of a request it has read: a reply to encipher, an error sent in
      the clear, or nothing at all for what does not parse. */
  datatype Answered = Reply(text: Text) | Clear | Silence

  /** How an exchange ends for the client. `Refused` is the server's "2". */
  datatype Outcome = NoKeyLeft | Refused | Unanswered | Lost | Done(text: seq<Byte>)

  /** An exchange, when the key file is the same on both sides: the position it leaves in the
      position file, the stretches of key it used, the ciphertexts sent and its outcome. */
  datatype Exchange = Exchange(of: nat, used: seq<Stretch>, wire: seq<seq<Byte>>, outcome: Outcome)

  /** A request line, what the server answered to it, and whether the reply was lost. */
  datatype Talk = Talk(request: Text, answered: Answered, lost: bool)

  function Exchanged(file: seq<Byte>, of: nat, talk: Talk): (e: Exchange)
  {
    var sent := Stretch(of, of + |talk.request|);
    var at := of + 2 * |talk.request|;
    var cy := OtpE(file, of, talk.request);
    if cy.None? then Exchange(of, [], [], NoKeyLeft)
    else if !talk.answered.Reply? then Exchange(sent.hi, [sent], [cy.value], Unanswered)
    else
      var text := talk.answered.text;
      var reply := OtpE(file, at, text);
      if reply.None? then Exchange(sent.hi, [sent], [cy.value], if talk.lost then Lost else Refused)
      else
        var used, wire := [sent, Stretch(at, at + |text|)], [cy.value, reply.value];
        if talk.lost then Exchange(sent.hi, used, wire, Lost)
        else Exchange(at + 2 * |text|, used, wire, Done(text))
  }

  // ------------------------------------------------------- which bytes are used

  /** Two key files hold the same bytes in all the stretches. */
  ghost predicate AgreeOn(a: seq<Byte>, b: seq<Byte>, used: seq<Stretch>) {
    forall i, x :: 0 <= i < |used| && used[i].lo <= x < used[i].hi && x < |a| && x < |b| ==> a[x] == b[x]
  }

  /** A ciphertext shows every byte of its key. */
  lemma CipherShowsKey(a: seq<Byte>, b: seq<Byte>, of: nat, pt: Text)
    requires |a| == |b| && OtpE(a, of, pt).Some?
    ensures OtpE(b, of, pt).Some?
    ensures OtpE(a, of, pt) == OtpE(b, of, pt) <==> AgreeOn(a, b, [Stretch(of, of + |pt|)])
  {
    var one := [Stretch(of, of + |pt|)];
    if pt != [] {
      var k, l := a[of..of + |pt|], b[of..of + |pt|];
      EncodeShape(pt, k, |pt|);
      if Encode(pt, k, |pt|) == Encode(pt, l, |pt|) {
        KeyIsForced(pt, Encode(pt, k, |pt|), k);
        KeyIsForced(pt, Encode(pt, k, |pt|), l);
        forall x | of <= x < of + |pt| ensures a[x] == b[x] { assert a[x] == k[x - of] && b[x] == l[x - of]; }
      }
      if AgreeOn(a, b, one) {
        forall x | 0 <= x < |pt| ensures k[x] == l[x] { assert one[0].lo <= of + x < one[0].hi; }
        assert k == l;
      }
    }
  }

  lemma AgreeOnBoth(a: seq<Byte>, b: seq<Byte>, u: seq<Stretch>, v: seq<Stretch>)
    ensures AgreeOn(a, b, u + v) <==> AgreeOn(a, b, u) && AgreeOn(a, b, v)
  {
    var all := u + v;
    if AgreeOn(a, b, all) {
      forall i, x | 0 <= i < |u| && u[i].lo <= x < u[i].hi && x < |a| && x < |b| ensures a[x] == b[x] {
        assert all[i] == u[i];
      }
      forall i, x | 0 <= i < |v| && v[i].lo <= x < v[i].hi && x < |a| && x < |b| ensures a[x] == b[x] {
        assert all[|u| + i] == v[i];
      }
    }
  }

  /** Two exchanges that differ in what was sent, if at all, and in that exactly when the key
      files differ where the first used them. */
  ghost predicate Alike(a: seq<Byte>, b: seq<Byte>, e: Exchange, f: Exchange) {
    && f.of == e.of && f.used == e.used && f.outcome == e.outcome
    && (f.wire == e.wire <==> AgreeOn(a, b, e.used))
  }

  /** What an exchange uses of the key is exactly what its ciphertexts depend on: under another
      key file of the same length they are the same if and only if that file holds the same
      bytes there. Nothing else of the exchange depends on the bytes of the key at all. */
  lemma UsedIsWhatShows(a: seq<Byte>, b: seq<Byte>, of: nat, talk: Talk)
    requires |a| == |b|
    ensures Alike(a, b, Exchanged(a, of, talk), Exchanged(b, of, talk))
  {
    if OtpE(a, of, talk.request).Some? {
      CipherShowsKey(a, b, of, talk.request);
      var at := of + 2 * |talk.request|;
      if talk.answered.Reply? && OtpE(a, at, talk.answered.text).Some? {
        BothShow(a, b, of, talk);
      }
    }
  }

  lemma BothShow(a: seq<Byte>, b: seq<Byte>, of: nat, talk: Talk)
    requires |a| == |b| && talk.answered.Reply?
    requires OtpE(a, of, talk.request).Some? && OtpE(a, of + 2 * |talk.request|, talk.answered.text).Some?
    ensures Alike(a, b, Exchanged(a, of, talk), Exchanged(b, of, talk))
  {
    var at := of + 2 * |talk.request|;
    CipherShowsKey(a, b, of, talk.request);
    CipherShowsKey(a, b, at, talk.answered.text);
    var u, v := [Stretch(of, of + |talk.request|)], [Stretch(at, at + |talk.answered.text|)];
    AgreeOnBoth(a, b, u, v);
    assert u + v == [u[0], v[0]];
    var e, f := Exchanged(a, of, talk), Exchanged(b, of, talk);
    assert e.used == u + v && f.used == e.used;
    assert e.wire == [OtpE(a, of, talk.request).value, OtpE(a, at, talk.answered.text).value];
    assert f.wire == [OtpE(b, of, talk.request).value, OtpE(b, at, talk.answered.text).value];
  }

  // ------------------------------------------------------------------ sessions

  /** The position that exchanges lead to from `of`. */
  function EndOf(of: nat, exchanges: seq<Exchange>): nat {
    if exchanges == [] then of else exchanges[|exchanges| - 1].of
  }

  /** The first n exchanges of a session, each at the position the one before it left. */
  function Exchanges(file: seq<Byte>, of: nat, talks: seq<Talk>, n: nat): (e: seq<Exchange>)
    requires n <= |talks|
    ensures |e| == n
  {
    if n == 0 then []
    else
      var before := Exchanges(file, of, talks, n - 1);
      before + [Exchanged(file, EndOf(of, before), talks[n - 1])]
  }

  /** All key stretches used, and the ciphertexts of each exchange. */
  function UsedIn(exchanges: seq<Exchange>): seq<Stretch> {
    if exchanges == [] then []
    else UsedIn(exchanges[..|exchanges| - 1]) + exchanges[|exchanges| - 1].used
  }

  function WiresIn(exchanges: seq<Exchange>): (wires: seq<seq<seq<Byte>>>)
    ensures |wires| == |exchanges|
  {
    seq(|exchanges|, i requires 0 <= i < |exchanges| => exchanges[i].wire)
  }

  lemma {:induction false} ExchangesAlike(a: seq<Byte>, b: seq<Byte>, of: nat, talks: seq<Talk>, n: nat)
    requires |a| == |b| && n <= |talks|
    ensures forall i :: 0 <= i < n ==> Alike(a, b, Exchanges(a, of, talks, n)[i], Exchanges(b, of, talks, n)[i])
  {
    if n > 0 {
      ExchangesAlike(a, b, of, talks, n - 1);
      var e, f := Exchanges(a, of, talks, n - 1), Exchanges(b, of, talks, n - 1);
      assert EndOf(of, f) == EndOf(of, e) by {
        if n > 1 { assert Alike(a, b, e[n - 2], f[n - 2]); }
      }
      UsedIsWhatShows(a, b, EndOf(of, e), talks[n - 1]);
    }
  }

  lemma {:induction false} AlikeShow(a: seq<Byte>, b: seq<Byte>, e: seq<Exchange>, f: seq<Exchange>)
    requires |e| == |f| && forall i :: 0 <= i < |e| ==> Alike(a, b, e[i], f[i])
    ensures UsedIn(f) == UsedIn(e)
    ensures (forall i :: 0 <= i < |e| ==> f[i].wire == e[i].wire) <==> AgreeOn(a, b, UsedIn(e))
  {
    if e != [] {
      var n := |e| - 1;
      AlikeShow(a, b, e[..n], f[..n]);
      AgreeOnBoth(a, b, UsedIn(e[..n]), e[n].used);
      assert Alike(a, b, e[n], f[n]);
    }
  }

  /** The same over a session: two key files of the same length lead to the same positions,
      and to the same ciphertexts if and only if they agree on every stretch used. */
  lemma SessionShows(a: seq<Byte>, b: seq<Byte>, of: nat, talks: seq<Talk>)
    requires |a| == |b|
    ensures var e, f := Exchanges(a, of, talks, |talks|), Exchanges(b, of, talks, |talks|);
            && EndOf(of, f) == EndOf(of, e) && UsedIn(f) == UsedIn(e)
            && (WiresIn(f) == WiresIn(e) <==> AgreeOn(a, b, UsedIn(e)))
  {
    ExchangesAlike(a, b, of, talks, |talks|);
    AlikeEnds(a, b, of, Exchanges(a, of, talks, |talks|), Exchanges(b, of, talks, |talks|));
  }

  lemma AlikeEnds(a: seq<Byte>, b: seq<Byte>, of: nat, e: seq<Exchange>, f: seq<Exchange>)
    requires |e| == |f| && forall i :: 0 <= i < |e| ==> Alike(a, b, e[i], f[i])
    ensures EndOf(of, f) == EndOf(of, e) && UsedIn(f) == UsedIn(e)
    ensures WiresIn(f) == WiresIn(e) <==> AgreeOn(a, b, UsedIn(e))
  {
    AlikeShow(a, b, e, f);
    assert e != [] ==> Alike(a, b, e[|e| - 1], f[|e| - 1]);
    assert WiresIn(f) == WiresIn(e) ==> forall i :: 0 <= i < |e| ==> WiresIn(f)[i] == WiresIn(e)[i];
  }

  /** Each stretch ends before the next one that comes after it begins. */
  ghost predicate Increasing(used: seq<Stretch>) {
    && (forall i :: 0 <= i < |used| ==> used[i].lo <= used[i].hi)
    && (forall i, j :: 0 <= i < j < |used| ==> used[i].hi <= used[j].lo)
  }

  ghost predicate UpTo(used: seq<Stretch>, of: nat) {
    forall i :: 0 <= i < |used| ==> used[i].hi <= of
  }

  /** A completed exchange uses stretches between the old position and the new one. */
  lemma ExchangeAdvances(file: seq<Byte>, of: nat, talk: Talk)
    requires !talk.lost
    ensures var e := Exchanged(file, of, talk);
            && of <= e.of
            && Increasing(e.used) && UpTo(e.used, e.of)
            && forall i :: 0 <= i < |e.used| ==> of <= e.used[i].lo
  {
  }

  lemma IncreasingJoin(a: seq<Stretch>, b: seq<Stretch>, of: nat, next: nat)
    requires Increasing(a) && UpTo(a, of) && Increasing(b) && UpTo(b, next) && of <= next
    requires forall i :: 0 <= i < |b| ==> of <= b[i].lo
    ensures Increasing(a + b) && UpTo(a + b, next)
  {
  }

  /** Key theorem: over any session without a lost reply the stretches of key used for all
      requests and replies are disjoint and increasing, and end before the saved position. */
  lemma {:induction false} KeyNeverReused(file: seq<Byte>, of: nat, talks: seq<Talk>, n: nat)
    requires n <= |talks| && forall i :: 0 <= i < n ==> !talks[i].lost
    ensures var e := Exchanges(file, of, talks, n);
            Increasing(UsedIn(e)) && UpTo(UsedIn(e), EndOf(of, e))
  {
    if n > 0 {
      KeyNeverReused(file, of, talks, n - 1);
      var before := Exchanges(file, of, talks, n - 1);
      var e := Exchanged(file, EndOf(of, before), talks[n - 1]);
      ExchangeAdvances(file, EndOf(of, before), talks[n - 1]);
      IncreasingJoin(UsedIn(before), e.used, EndOf(of, before), e.of);
      assert (before + [e])[..n - 1] == before;
    }
  }

  predicate Within(x: nat, s: Stretch) {
    s.lo <= x < s.hi
  }

  /** No byte of the key file is used twice. */
  lemma KeyBytesUsedOnce(file: seq<Byte>, of: nat, talks: seq<Talk>, i: nat, j: nat, x: nat)
    requires forall t :: 0 <= t < |talks| ==> !talks[t].lost
    requires var used := UsedIn(Exchanges(file, of, talks, |talks|));
             i < |used| && j < |used| && Within(x, used[i]) && Within(x, used[j])
    ensures i == j
  {
    KeyNeverReused(file, of, talks, |talks|);
  }

  /** How many bytes of the key the stretches take. */
  function KeySpent(used: seq<Stretch>): int {
    if used == [] then 0 else KeySpent(used[..|used| - 1]) + (used[|used| - 1].hi - used[|used| - 1].lo)
  }

  lemma {:induction false} KeySpentBoth(a: seq<Stretch>, b: seq<Stretch>)
    ensures KeySpent(a + b) == KeySpent(a) + KeySpent(b)
  {
    if b == [] {
      assert a + b == a;
    } else {
      assert (a + b)[..|a + b| - 1] == a + b[..|b| - 1];
      KeySpentBoth(a, b[..|b| - 1]);
    }
  }

  /** An exchange spends what its texts are long, and moves on by twice that if it is completed. */
  lemma ExchangeSpends(file: seq<Byte>, of: nat, talk: Talk)
    ensures var e := Exchanged(file, of, talk);
            match e.outcome
            case NoKeyLeft => KeySpent(e.used) == 0 && e.of == of
            case Done(text) => KeySpent(e.used) == |talk.request| + |text| && e.of == of + 2 * KeySpent(e.used)
            case _ => KeySpent(e.used) >= |talk.request| && e.of == of + |talk.request|
  {
    var e := Exchanged(file, of, talk);
    if |e.used| == 2 {
      assert e.used == [e.used[0]] + [e.used[1]];
      KeySpentBoth([e.used[0]], [e.used[1]]);
      assert [e.used[0]][..0] == [] && [e.used[1]][..0] == [];
    } else if |e.used| == 1 {
      assert e.used[..0] == [];
    }
  }

  /** Thrift theorem: a session of which every exchange is answered takes twice as much of the key
      file as it uses: one byte is skipped for each byte used. */
  lemma {:induction false} HalfIsUsed(file: seq<Byte>, of: nat, talks: seq<Talk>, n: nat)
    requires n <= |talks| && forall i :: 0 <= i < n ==> Exchanges(file, of, talks, n)[i].outcome.Done?
    ensures var e := Exchanges(file, of, talks, n);
            EndOf(of, e) - of == 2 * KeySpent(UsedIn(e))
  {
    if n > 0 {
      var all, before := Exchanges(file, of, talks, n), Exchanges(file, of, talks, n - 1);
      forall i | 0 <= i < n - 1 ensures before[i].outcome.Done? { assert all[i] == before[i]; }
      HalfIsUsed(file, of, talks, n - 1);
      ExchangeSpends(file, EndOf(of, before), talks[n - 1]);
      KeySpentBoth(UsedIn(before), all[n - 1].used);
      assert all[..n - 1] == before;
    }
  }

  ghost predicate Overlap(a: Stretch, b: Stretch) {
    exists x: nat :: Within(x, a) && Within(x, b)
  }

  lemma OverlapIs(a: Stretch, b: Stretch)
    requires a.lo < a.hi
    ensures Overlap(a, b) <==> b.lo < b.hi && a.lo < b.hi && b.lo < a.hi
  {
    if b.lo < b.hi && a.lo < b.hi && b.lo < a.hi {
      var x: nat := if a.lo < b.lo then b.lo else a.lo;
      assert Within(x, a) && Within(x, b);
    }
  }

  /** Why completed: the key of a reply that was lost is used again by the next request if and
      only if that is longer than the request before it, and by the reply to it if and only if
      the two replies' stretches meet. */
  lemma LostReplyOverlaps(file: seq<Byte>, of: nat, first: Talk, next: Talk)
    requires first.lost && first.answered.Reply? && first.answered.text != []
    requires |Exchanged(file, of, first).used| == 2
    ensures var e := Exchanged(file, of, first);
            var f := Exchanged(file, e.of, next);
            var r, t, q := |first.request|, |first.answered.text|, |next.request|;
            && (f.used != [] ==> (Overlap(e.used[1], f.used[0]) <==> q > r))
            && (|f.used| == 2 && next.answered.text != [] ==>
                  (Overlap(e.used[1], f.used[1]) <==> 2 * q < r + t && r < 2 * q + |next.answered.text|))
  {
    var e := Exchanged(file, of, first);
    var f := Exchanged(file, e.of, next);
    if f.used != [] { OverlapIs(e.used[1], f.used[0]); }
    if |f.used| == 2 { OverlapIs(e.used[1], f.used[1]); }
  }

  // ------------------------------------------------------------------ the code

  /** `otp_e`: read as many key bytes as the plaintext has, if the file holds them. */
  method Encipher(file: seq<Byte>, of: nat, pt: Text) returns (ct: Option<seq<Byte>>)
    ensures ct == OtpE(file, of, pt)
  {
    var len := |pt|;
    if len > 0 && of + len > |file| {
      return None;
    }
    var buffer := if len > 0 then file[of..of + len] else [];
    var coded := OtpEChar(pt + [0], buffer, [], pt);
    assert coded == Encode(pt, buffer, |pt|);
    ct := Some(coded);
  }

  /** `otp_d`. */
  method Decipher(file: seq<Byte>, of: nat, ct: seq<Byte>) returns (pt: seq<Byte>)
    requires Wellformed(ct) && (ct == [] || of + |ct| / 2 <= |file|)
    ensures pt == OtpD(file, of, ct)
  {
    var buffer := if ct == [] then [] else file[of..of + |ct| / 2];
    pt := OtpDChar(ct + [0], buffer, [], ct);
  }

  /** The server's side: decipher, skip the ciphertext's length in the key, encipher. */
  method ServeRequest(file: seq<Byte>, cyphertext: seq<Byte>, sent: nat, answer: seq<Byte> -> Answered)
    returns (answered: Answered, reply: Option<seq<Byte>>, offset: nat)
    requires Wellformed(cyphertext) && (cyphertext == [] || sent + |cyphertext| / 2 <= |file|)
    ensures answered == answer(OtpD(file, sent, cyphertext))
    ensures offset == sent + |cyphertext|
    ensures reply == if answered.Reply? then OtpE(file, offset, answered.text) else None
  {
    offset := sent;
    var plaintext := Decipher(file, offset, cyphertext);
    offset := offset + |cyphertext|;
    answered := answer(plaintext);
    reply := None;
    if answered.Reply? {
      reply := Encipher(file, offset, answered.text);
    }
  }

  function TalksOf(requests: seq<Text>, answers: seq<seq<Byte> -> Answered>, losses: seq<bool>): seq<Talk>
    requires |requests| == |answers| == |losses|
  {
    seq(|requests|, i requires 0 <= i < |requests| => Talk(requests[i], answers[i](requests[i]), losses[i]))
  }

  /** The command client with its position file. */
  class Client {
    var pos: nat

    constructor (pos: nat)
      ensures this.pos == pos
    {
      this.pos := pos;
    }

    /** One run of the client against the server. The server reads the request as it was
        typed and the client reads the reply as it was written. */
    method Command(file: seq<Byte>, request: Text, answer: seq<Byte> -> Answered, lost: bool)
      returns (outcome: Outcome, ghost wire: seq<seq<Byte>>)
      modifies this
      ensures var e := Exchanged(file, old(pos), Talk(request, answer(request), lost));
              pos == e.of && outcome == e.outcome && wire == e.wire
    {
      wire := [];
      var of := pos;
      var cy := Encipher(file, of, request);
      if cy == None {
        return NoKeyLeft, wire;
      }
      wire := [cy.value];
      ReadAsWritten(file, of, request);
      pos := of + |request|;
      ghost var reply;
      outcome, reply := Await(file, of, request, cy.value, answer, lost);
      wire := if reply.None? then wire else wire + [reply.value];
    }

    /** From the moment the request has been sent. */
    method Await(file: seq<Byte>, sent: nat, request: Text, cyphertext: seq<Byte>, answer: seq<Byte> -> Answered, lost: bool)
      returns (outcome: Outcome, ghost answeredWith: Option<seq<Byte>>)
      requires OtpE(file, sent, request) == Some(cyphertext) && pos == sent + |request|
      requires cyphertext == [] || sent + |cyphertext| / 2 <= |file|
      requires OtpD(file, sent, cyphertext) == request
      modifies this
      ensures answeredWith == if answer(request).Reply? then OtpE(file, sent + 2 * |request|, answer(request).text) else None
      ensures if outcome.Done? then
                !lost && answer(request).Reply? && answeredWith.Some? && outcome.text == answer(request).text
                && pos == sent + 2 * |request| + 2 * |answer(request).text|
              else
                && pos == old(pos)
                && outcome == (if !answer(request).Reply? then Unanswered else if lost then Lost else Refused)
                && (outcome.Refused? ==> answeredWith.None?)
    {
      var answered, reply, offset := ServeRequest(file, cyphertext, sent, answer);
      answeredWith := reply;
      if !answered.Reply? {
        return Unanswered, reply;
      }
      if lost {
        return Lost, reply;
      }
      if reply == None {
        return Refused, reply;
      }
      ReadAsWritten(file, offset, answered.text);
      var text := Decipher(file, offset, reply.value);
      pos := offset + |reply.value|;
      outcome := Done(text);
    }

    /** The client run for one request after another. */
    method Session(file: seq<Byte>, requests: seq<Text>, answers: seq<seq<Byte> -> Answered>, losses: seq<bool>)
      returns (ghost wires: seq<seq<seq<Byte>>>)
      requires |requests| == |answers| == |losses|
      modifies this
      ensures var e := Exchanges(file, old(pos), TalksOf(requests, answers, losses), |requests|);
              pos == EndOf(old(pos), e) && wires == WiresIn(e)
    {
      wires := [];
      ghost var begun, talks := pos, TalksOf(requests, answers, losses);
      for i := 0 to |requests|
        invariant pos == EndOf(begun, Exchanges(file, begun, talks, i))
        invariant wires == WiresIn(Exchanges(file, begun, talks, i))
      {
        assert talks[i] == Talk(requests[i], answers[i](requests[i]), losses[i]);
        var outcome, wire := Command(file, requests[i], answers[i], losses[i]);
        wires := wires + [wire];
      }
    }
  }
}
