/** The one-time pad of otp.cc: a byte is added to a byte of the key modulo 256 and written
    as two characters of four bits each, 64 added. */
module Otp {
  import opened Arith

  type Byte = b: int | 0 <= b < 256

  function LAdd(i: int, j: int): int {
    (i + j) % 256
  }

  function LSub(i: int, j: int): int {
    var r := i - j;
    if r < 0 then r + 256 else r
  }

  function HighCode(i: int): int {
    (i / 16) % 16 + 64
  }

  function LowCode(i: int): int {
    i % 16 + 64
  }

  function BinDInt(c1: int, c2: int): int {
    (c1 - 64) * 16 + (c2 - 64)
  }

  /** Splitting a byte and joining it again. */
  lemma CodesRoundTrip(b: Byte)
    ensures BinDInt(HighCode(b), LowCode(b)) == b
    ensures 64 <= HighCode(b) < 80 && 64 <= LowCode(b) < 80
  {
  }

  /** One byte through the pad and back. */
  lemma ByteRoundTrip(p: Byte, k: Byte)
    ensures 0 <= LAdd(p, k) < 256
    ensures LSub(BinDInt(HighCode(LAdd(p, k)), LowCode(LAdd(p, k))), k) == p
  {
    if p + k < 256 { DivMod(p + k, 256, 0, p + k); } else { DivMod(p + k, 256, 1, p + k - 256); }
    CodesRoundTrip(LAdd(p, k));
  }

  // -------------------------------------------------------- the specification

  /** The ciphertext of the first n bytes. */
  function Encode(pt: seq<Byte>, key: seq<Byte>, n: nat): (ct: seq<Byte>)
    requires n <= |pt| && n <= |key|
  {
    if n == 0 then []
    else
      var c := LAdd(pt[n - 1], key[n - 1]);
      CodesRoundTrip(c);
      Encode(pt, key, n - 1) + [HighCode(c), LowCode(c)]
  }

  /** What the decoder can be given: pairs of codes for bytes. */
  ghost predicate Wellformed(ct: seq<Byte>) {
    |ct| % 2 == 0 && forall i :: 0 <= i < |ct| ==> 64 <= ct[i] < 80
  }

  function Decode(ct: seq<Byte>, key: seq<Byte>, n: nat): (pt: seq<Byte>)
    requires Wellformed(ct) && 2 * n <= |ct| && n <= |key|
    ensures |pt| == n
  {
    if n == 0 then []
    else Decode(ct, key, n - 1) + [LSub(BinDInt(ct[2 * n - 2], ct[2 * n - 1]), key[n - 1])]
  }

  // ------------------------------------------------------------- the theorems

  lemma TwoMore(ct: seq<Byte>, c1: Byte, c2: Byte, n: nat)
    requires |ct| == 2 * n && Wellformed(ct) && 64 <= c1 < 80 && 64 <= c2 < 80
    ensures |ct + [c1, c2]| == 2 * (n + 1) && Wellformed(ct + [c1, c2])
  {
  }

  lemma {:induction false} EncodeShape(pt: seq<Byte>, key: seq<Byte>, n: nat)
    requires n <= |pt| && n <= |key|
    ensures |Encode(pt, key, n)| == 2 * n && Wellformed(Encode(pt, key, n))
  {
    if n > 0 {
      EncodeShape(pt, key, n - 1);
      var c := LAdd(pt[n - 1], key[n - 1]);
      CodesRoundTrip(c);
      TwoMore(Encode(pt, key, n - 1), HighCode(c), LowCode(c), n - 1);
    }
  }

  lemma {:induction false} EncodeAt(pt: seq<Byte>, key: seq<Byte>, n: nat, i: nat)
    requires i < n <= |pt| && n <= |key|
    ensures |Encode(pt, key, n)| == 2 * n
    ensures Encode(pt, key, n)[2 * i] == HighCode(LAdd(pt[i], key[i]))
    ensures Encode(pt, key, n)[2 * i + 1] == LowCode(LAdd(pt[i], key[i]))
  {
    EncodeShape(pt, key, n - 1);
    if i < n - 1 { EncodeAt(pt, key, n - 1, i); }
  }

  lemma CodesAdd(p: Byte, k: Byte)
    ensures var sum: int := p as int + k as int;
            16 * (HighCode(LAdd(p, k)) - 64) + (LowCode(LAdd(p, k)) - 64) == if sum < 256 then sum else sum - 256
  {
    ByteRoundTrip(p, k);
  }

  /** Each byte of the plaintext shows in two codes, the higher half first, as its sum with the
      key's byte modulo 256. */
  lemma CiphertextAdds(pt: seq<Byte>, key: seq<Byte>, i: nat)
    requires i < |pt| <= |key|
    ensures var ct := Encode(pt, key, |pt|);
            |ct| == 2 * |pt|
            && var high: int, low: int, sum: int := ct[2 * i], ct[2 * i + 1], pt[i] as int + key[i] as int;
               16 * (high - 64) + (low - 64) == if sum < 256 then sum else sum - 256
  {
    EncodeAt(pt, key, |pt|, i);
    CodesAdd(pt[i], key[i]);
  }

  /** Deciphering gives the plaintext back; the ciphertext has twice its length and uses only
      the codes 64 to 79, none of which is NUL or needs escaping in XML character data. */
  lemma RoundTrip(pt: seq<Byte>, key: seq<Byte>)
    requires |pt| <= |key|
    ensures var ct := Encode(pt, key, |pt|);
            && |ct| == 2 * |pt| && Wellformed(ct)
            && Decode(ct, key, |pt|) == pt
            && forall i :: 0 <= i < |ct| ==> ct[i] !in {0, '&' as int, '<' as int, '>' as int, ']' as int}
  {
    EncodeShape(pt, key, |pt|);
    DecodeEncode(pt, key, |pt|);
    assert pt[..|pt|] == pt;
  }

  lemma {:induction false} DecodePrefix(ct: seq<Byte>, more: seq<Byte>, key: seq<Byte>, m: nat)
    requires Wellformed(ct) && Wellformed(ct + more) && 2 * m <= |ct| && m <= |key|
    ensures Decode(ct + more, key, m) == Decode(ct, key, m)
  {
    if m > 0 { DecodePrefix(ct, more, key, m - 1); }
  }

  lemma {:induction false} DecodeEncode(pt: seq<Byte>, key: seq<Byte>, n: nat)
    requires n <= |pt| && n <= |key|
    ensures |Encode(pt, key, n)| == 2 * n && Wellformed(Encode(pt, key, n))
    ensures Decode(Encode(pt, key, n), key, n) == pt[..n]
  {
    EncodeShape(pt, key, n);
    if n > 0 {
      var c := LAdd(pt[n - 1], key[n - 1]);
      ByteRoundTrip(pt[n - 1], key[n - 1]);
      DecodeEncode(pt, key, n - 1);
      DecodePrefix(Encode(pt, key, n - 1), [HighCode(c), LowCode(c)], key, n - 1);
      assert pt[..n] == pt[..n - 1] + [pt[n - 1]];
    }
  }

  /** The key that turns pt into ct. */
  function KeyFor(pt: seq<Byte>, ct: seq<Byte>): (key: seq<Byte>)
    requires Wellformed(ct) && |ct| == 2 * |pt|
    ensures |key| == |pt|
  {
    seq(|pt|, i requires 0 <= i < |pt| => LSub(BinDInt(ct[2 * i], ct[2 * i + 1]), pt[i]))
  }

  lemma KeyByte(p: Byte, k: Byte, c1: Byte, c2: Byte)
    requires c1 == HighCode(LAdd(p, k)) && c2 == LowCode(LAdd(p, k))
    ensures LSub(BinDInt(c1, c2), p) == k
  {
    assert LAdd(p, k) == LAdd(k, p);
    ByteRoundTrip(k, p);
  }

  lemma KeyByteAt(pt: seq<Byte>, ct: seq<Byte>, key: seq<Byte>, i: nat)
    requires |ct| == 2 * |pt| == 2 * |key| && Encode(pt, key, |pt|) == ct && i < |pt|
    ensures LSub(BinDInt(ct[2 * i], ct[2 * i + 1]), pt[i]) == key[i]
  {
    EncodeAt(pt, key, |pt|, i);
    KeyByte(pt[i], key[i], ct[2 * i], ct[2 * i + 1]);
  }

  lemma KeyForAt(pt: seq<Byte>, ct: seq<Byte>, i: nat)
    requires Wellformed(ct) && |ct| == 2 * |pt| && i < |pt|
    ensures KeyFor(pt, ct)[i] == LSub(BinDInt(ct[2 * i], ct[2 * i + 1]), pt[i])
  {
  }

  lemma KeyIsForced(pt: seq<Byte>, ct: seq<Byte>, key: seq<Byte>)
    requires Wellformed(ct) && |ct| == 2 * |pt| == 2 * |key| && Encode(pt, key, |pt|) == ct
    ensures key == KeyFor(pt, ct)
  {
    forall i: nat | i < |pt| ensures key[i] == KeyFor(pt, ct)[i] {
      KeyByteAt(pt, ct, key, i);
      KeyForAt(pt, ct, i);
    }
  }

  lemma KeyWorks(pt: seq<Byte>, ct: seq<Byte>)
    requires Wellformed(ct) && |ct| == 2 * |pt|
    ensures Encode(pt, KeyFor(pt, ct), |pt|) == ct
  {
    var key := KeyFor(pt, ct);
    EncodeShape(pt, key, |pt|);
    var e := Encode(pt, key, |pt|);
    forall i: nat | i < |pt| ensures e[2 * i] == ct[2 * i] && e[2 * i + 1] == ct[2 * i + 1] {
      KeyWorksAt(pt, ct, i);
    }
    PairsAgree(e, ct, |pt|);
  }

  lemma PairsAgree(a: seq<Byte>, b: seq<Byte>, n: nat)
    requires |a| == |b| == 2 * n
    requires forall i: nat :: i < n ==> a[2 * i] == b[2 * i] && a[2 * i + 1] == b[2 * i + 1]
    ensures a == b
  {
    forall j | 0 <= j < |a| ensures a[j] == b[j] {
      var i := j / 2;
      assert j == 2 * i || j == 2 * i + 1;
    }
  }

  lemma KeyWorksAt(pt: seq<Byte>, ct: seq<Byte>, i: nat)
    requires Wellformed(ct) && |ct| == 2 * |pt| && i < |pt|
    ensures var e := Encode(pt, KeyFor(pt, ct), |pt|);
            |e| == |ct| && e[2 * i] == ct[2 * i] && e[2 * i + 1] == ct[2 * i + 1]
  {
    var key := KeyFor(pt, ct);
    EncodeAt(pt, key, |pt|, i);
    KeyForAt(pt, ct, i);
    PairOf(ct[2 * i], ct[2 * i + 1], pt[i]);
  }

  /** The pad hides everything but the length: between any plaintext and any ciphertext of
      twice its length there is exactly one key. */
  lemma EveryPlaintextFits(pt: seq<Byte>, ct: seq<Byte>, key: seq<Byte>)
    requires Wellformed(ct) && |ct| == 2 * |pt| == 2 * |key|
    ensures Encode(pt, key, |pt|) == ct <==> key == KeyFor(pt, ct)
  {
    KeyWorks(pt, ct);
    if Encode(pt, key, |pt|) == ct {
      KeyIsForced(pt, ct, key);
    }
  }

  lemma PairOf(c1: Byte, c2: Byte, p: Byte)
    requires 64 <= c1 < 80 && 64 <= c2 < 80
    ensures var c := LAdd(p, LSub(BinDInt(c1, c2), p)); HighCode(c) == c1 && LowCode(c) == c2
  {
    var b := BinDInt(c1, c2);
    assert LAdd(p, LSub(b, p)) == b;
    DivMod(b, 16, c1 - 64, c2 - 64);
  }

  // ---------------------------------------------------------------- the code

  method BinEInt(i: int, r: array<int>)
    requires r.Length == 2
    modifies r
    ensures r[0] == HighCode(i) && r[1] == LowCode(i)
  {
    var cl := (i / 16) % 16;
    var cr := i % 16;
    r[0] := cl + 64;
    r[1] := cr + 64;
  }

  method CreateEMatrix(m: array2<int>)
    requires m.Length0 == 256 && m.Length1 == 256
    modifies m
    ensures forall i, j :: 0 <= i < 256 && 0 <= j < 256 ==> m[i, j] == LAdd(i, j)
  {
    for i := 0 to 256
      invariant forall x, y :: 0 <= x < i && 0 <= y < 256 ==> m[x, y] == LAdd(x, y)
    {
      for j := 0 to 256
        invariant forall x, y :: 0 <= x < i && 0 <= y < 256 ==> m[x, y] == LAdd(x, y)
        invariant forall y :: 0 <= y < j ==> m[i, y] == LAdd(i, y)
      {
        m[i, j] := LAdd(i, j);
      }
    }
  }

  method CreateDMatrix(m: array2<int>)
    requires m.Length0 == 256 && m.Length1 == 256
    modifies m
    ensures forall i, j :: 0 <= i < 256 && 0 <= j < 256 ==> m[i, j] == LSub(i, j)
  {
    for i := 0 to 256
      invariant forall x, y :: 0 <= x < i && 0 <= y < 256 ==> m[x, y] == LSub(x, y)
    {
      for j := 0 to 256
        invariant forall x, y :: 0 <= x < i && 0 <= y < 256 ==> m[x, y] == LSub(x, y)
        invariant forall y :: 0 <= y < j ==> m[i, y] == LSub(i, y)
      {
        m[i, j] := LSub(i, j);
      }
    }
  }

  /** A C string in memory: `text`, then NUL, then anything. */
  ghost predicate CString(memory: seq<Byte>, text: seq<Byte>) {
    && |text| < |memory| && memory[..|text|] == text && memory[|text|] == 0
    && forall i :: 0 <= i < |text| ==> text[i] != 0
  }

  lemma EncodeNext(before: seq<Byte>, pt: seq<Byte>, key: seq<Byte>, i: nat, h: Byte, l: Byte)
    requires i < |pt| && i < |key| && h == HighCode(LAdd(pt[i], key[i])) && l == LowCode(LAdd(pt[i], key[i]))
    ensures (before + Encode(pt, key, i)) + [h, l] == before + Encode(pt, key, i + 1)
  {
    assert (before + Encode(pt, key, i)) + [h, l] == before + (Encode(pt, key, i) + [h, l]);
  }

  /** Append the two codes of the enciphered byte i. */
  method AppendCodes(c: Byte, tmp: array<int>, sofar: seq<Byte>,
                     ghost before: seq<Byte>, ghost pt: seq<Byte>, ghost key: seq<Byte>, ghost i: nat)
    returns (res: seq<Byte>)
    requires tmp.Length == 2 && i < |pt| && i < |key|
    requires c == LAdd(pt[i], key[i]) && sofar == before + Encode(pt, key, i)
    modifies tmp
    ensures res == before + Encode(pt, key, i + 1)
  {
    CodesRoundTrip(c);
    BinEInt(c, tmp);
    EncodeNext(before, pt, key, i, tmp[0], tmp[1]);
    res := sofar + [tmp[0]];
    res := res + [tmp[1]];
    assert res == sofar + [tmp[0], tmp[1]];
  }

  /** `otp_e_char`: the ciphertext is appended to what `res` held. */
  method OtpEChar(pt: seq<Byte>, otp: seq<Byte>, before: seq<Byte>, ghost text: seq<Byte>) returns (res: seq<Byte>)
    requires CString(pt, text) && |text| <= |otp|
    ensures res == before + Encode(text, otp, |text|)
  {
    var m := new int[256, 256];
    CreateEMatrix(m);
    var tmp := new int[2];
    res := before;
    var i := 0;
    while pt[i] != 0
      invariant i <= |text|
      invariant res == before + Encode(text, otp, i)
      invariant forall x, y :: 0 <= x < 256 && 0 <= y < 256 ==> m[x, y] == LAdd(x, y)
      decreases |text| - i
    {
      assert pt[i] == pt[..|text|][i] == text[i];
      ByteRoundTrip(text[i], otp[i]);
      var c: Byte := m[pt[i], otp[i]];
      res := AppendCodes(c, tmp, res, before, text, otp, i);
      i := i + 1;
    }
  }

  /** `otp_d_char`: the plaintext is appended to what `res` held. */
  method OtpDChar(ct: seq<Byte>, otp: seq<Byte>, before: seq<Byte>, ghost text: seq<Byte>) returns (res: seq<Byte>)
    requires CString(ct, text) && Wellformed(text) && |text| / 2 <= |otp|
    ensures res == before + Decode(text, otp, |text| / 2)
  {
    var m := new int[256, 256];
    CreateDMatrix(m);
    res := before;
    var i, j := 0, 0;
    while ct[i] != 0
      invariant i == 2 * j && i <= |text|
      invariant res == before + Decode(text, otp, j)
      invariant forall x, y :: 0 <= x < 256 && 0 <= y < 256 ==> m[x, y] == LSub(x, y)
      decreases |text| - i
    {
      assert ct[i] == ct[..|text|][i] == text[i];
      assert ct[i + 1] == ct[..|text|][i + 1] == text[i + 1];
      var c := BinDInt(ct[i], ct[i + 1]);
      res := res + [m[c, otp[j]]];
      i := i + 2;
      j := j + 1;
    }
  }
}
