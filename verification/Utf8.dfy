/** UTF-8 as Go's unicode/utf8 reads and writes it: any byte string decodes, an
    invalid byte becoming U+FFFD of width one. */
module Utf8 {
  import opened Bytes

  const REPLACEMENT := 0xFFFD

  /** A Unicode scalar value. */
  type rune = r: int | 0 <= r < 0xD800 || 0xE000 <= r < 0x11_0000

  datatype Decoded = Decoded(r: rune, width: nat)

  predicate Cont(b: byte) { 0x80 <= b < 0xC0 }

  /** The second byte's range, given the first (Table 3-7 of the Unicode Standard). */
  predicate Second(b0: byte, b1: byte) {
    (if b0 == 0xE0 then 0xA0 else if b0 == 0xF0 then 0x90 else 0x80) <= b1 <=
    (if b0 == 0xED then 0x9F else if b0 == 0xF4 then 0x8F else 0xBF)
  }

  /** The value of a lead byte's payload bits followed by continuation bytes. */
  function Join(hi: int, b: byte): int { hi * 64 + (b as int - 0x80) }

  /** utf8.DecodeRune. */
  function DecodeRune(s: bytes): (d: Decoded)
    requires s != []
    ensures 1 <= d.width <= |s| && d.width <= 4
  {
    var b: int := s[0];
    if b < 0x80 then Decoded(b, 1)
    else if 0xC2 <= b < 0xE0 && |s| >= 2 && Cont(s[1]) then
      Decoded(Join(b - 0xC0, s[1]), 2)
    else if 0xE0 <= b < 0xF0 && |s| >= 3 && Second(b, s[1]) && Cont(s[2]) then
      Decoded(Join(Join(b - 0xE0, s[1]), s[2]), 3)
    else if 0xF0 <= b < 0xF5 && |s| >= 4 && Second(b, s[1]) && Cont(s[2]) && Cont(s[3]) then
      Decoded(Join(Join(Join(b - 0xF0, s[1]), s[2]), s[3]), 4)
    else Decoded(REPLACEMENT, 1)
  }

  predicate ValidStep(s: bytes)
    requires s != []
  {
    s[0] < 0x80 || DecodeRune(s).width > 1
  }

  /** A continuation byte carrying six bits. */
  function Tail(n: int): byte { 0x80 + n % 64 }

  /** utf8.AppendRune. */
  function EncodeRune(r: rune): (b: bytes)
    ensures 1 <= |b| <= 4
    ensures r < 0x80 ==> b == [r as byte]
    ensures r >= 0x80 ==> |b| >= 2 && forall i :: 0 <= i < |b| ==> b[i] >= 0x80
  {
    if r < 0x80 then [r as byte]
    else if r < 0x800 then [(0xC0 + r / 64) as byte, Tail(r)]
    else if r < 0x1_0000 then [(0xE0 + r / 64 / 64) as byte, Tail(r / 64), Tail(r)]
    else [(0xF0 + r / 64 / 64 / 64) as byte, Tail(r / 64 / 64), Tail(r / 64), Tail(r)]
  }

  lemma JoinTail(r: int)
    ensures Join(r / 64, Tail(r)) == r
  {
  }

  lemma TailJoin(hi: int, b: byte)
    requires Cont(b)
    ensures Join(hi, b) / 64 == hi && Tail(Join(hi, b)) == b
  {
  }

  lemma DecodeTwo(r: rune, s: bytes)
    requires 0x80 <= r < 0x800 && |s| >= 2 && s[..2] == EncodeRune(r)
    ensures DecodeRune(s) == Decoded(r, 2)
  {
    assert s[0] == s[..2][0] && s[1] == s[..2][1];
    JoinTail(r);
  }

  lemma DecodeThree(r: rune, s: bytes)
    requires 0x800 <= r < 0x1_0000 && |s| >= 3 && s[..3] == EncodeRune(r)
    ensures DecodeRune(s) == Decoded(r, 3)
  {
    assert s[0] == s[..3][0] && s[1] == s[..3][1] && s[2] == s[..3][2];
    JoinTail(r);
    JoinTail(r / 64);
  }

  lemma DecodeFour(r: rune, s: bytes)
    requires 0x1_0000 <= r && |s| >= 4 && s[..4] == EncodeRune(r)
    ensures DecodeRune(s) == Decoded(r, 4)
  {
    assert s[0] == s[..4][0] && s[1] == s[..4][1] && s[2] == s[..4][2] && s[3] == s[..4][3];
    JoinTail(r);
    JoinTail(r / 64);
    JoinTail(r / 64 / 64);
  }

  lemma Prefix(e: bytes, t: bytes)
    ensures (e + t)[..|e|] == e && (e + t)[|e|..] == t
  {
  }

  lemma DecodeEncoded(r: rune, t: bytes)
    ensures var s := EncodeRune(r) + t;
            DecodeRune(s) == Decoded(r, |EncodeRune(r)|) && ValidStep(s) && s[|EncodeRune(r)|..] == t
  {
    var s := EncodeRune(r) + t;
    Prefix(EncodeRune(r), t);
    if 0x80 <= r < 0x800 {
      DecodeTwo(r, s);
    } else if 0x800 <= r < 0x1_0000 {
      DecodeThree(r, s);
    } else if 0x1_0000 <= r {
      DecodeFour(r, s);
    }
  }

  lemma EncodeTwo(b0: byte, b1: byte)
    requires 0xC2 <= b0 < 0xE0 && Cont(b1)
    ensures var r := Join(b0 - 0xC0, b1); 0x80 <= r < 0x800 && EncodeRune(r) == [b0, b1]
  {
    TailJoin(b0 - 0xC0, b1);
  }

  lemma ThreeInRange(b0: byte, b1: byte, b2: byte)
    requires 0xE0 <= b0 < 0xF0 && Second(b0, b1) && Cont(b2)
    ensures var r := Join(Join(b0 - 0xE0, b1), b2); 0x800 <= r < 0x1_0000 && !(0xD800 <= r < 0xE000)
  {
  }

  lemma EncodeThree(b0: byte, b1: byte, b2: byte)
    requires 0xE0 <= b0 < 0xF0 && Second(b0, b1) && Cont(b2)
    ensures var r := Join(Join(b0 - 0xE0, b1), b2);
            0x800 <= r < 0x1_0000 && !(0xD800 <= r < 0xE000) && EncodeRune(r) == [b0, b1, b2]
  {
    ThreeInRange(b0, b1, b2);
    var m := Join(b0 - 0xE0, b1);
    var r := Join(m, b2);
    assert r / 64 == m && Tail(r) == b2 by { TailJoin(m, b2); }
    assert m / 64 == b0 - 0xE0 && Tail(m) == b1 by { TailJoin(b0 - 0xE0, b1); }
    assert EncodeRune(r) == [(0xE0 + m / 64) as byte, Tail(m), Tail(r)];
  }

  lemma EncodeFour(b0: byte, b1: byte, b2: byte, b3: byte)
    requires 0xF0 <= b0 < 0xF5 && Second(b0, b1) && Cont(b2) && Cont(b3)
    ensures var r := Join(Join(Join(b0 - 0xF0, b1), b2), b3);
            0x1_0000 <= r < 0x11_0000 && EncodeRune(r) == [b0, b1, b2, b3]
  {
    TailJoin(b0 - 0xF0, b1);
    TailJoin(Join(b0 - 0xF0, b1), b2);
    TailJoin(Join(Join(b0 - 0xF0, b1), b2), b3);
  }

  lemma EncodeDecoded(s: bytes)
    requires s != [] && ValidStep(s)
    ensures EncodeRune(DecodeRune(s).r) == s[..DecodeRune(s).width]
  {
    var d := DecodeRune(s);
    if d.width == 2 {
      EncodeTwo(s[0], s[1]);
    } else if d.width == 3 {
      EncodeThree(s[0], s[1], s[2]);
    } else if d.width == 4 {
      EncodeFour(s[0], s[1], s[2], s[3]);
    }
  }

  /** A valid step looks only at the bytes it consumes. */
  lemma StepIsLocal(s: bytes, t: bytes)
    requires s != [] && ValidStep(s)
    ensures DecodeRune(s[..DecodeRune(s).width] + t) == DecodeRune(s)
    ensures ValidStep(s[..DecodeRune(s).width] + t)
  {
  }

  // ----------------------------------------------------------- whole strings

  function Runes(s: bytes): (rs: seq<rune>)
  {
    if s == [] then [] else [DecodeRune(s).r] + Runes(s[DecodeRune(s).width..])
  }

  function Encode(rs: seq<rune>): bytes
  {
    if rs == [] then [] else EncodeRune(rs[0]) + Encode(rs[1..])
  }

  predicate Valid(s: bytes)
  {
    s == [] || (ValidStep(s) && Valid(s[DecodeRune(s).width..]))
  }

  /** What a round trip through runes makes of a string. */
  function Sanitize(s: bytes): bytes { Encode(Runes(s)) }

  lemma {:induction false} RunesOfEncode(rs: seq<rune>)
    ensures Runes(Encode(rs)) == rs && Valid(Encode(rs))
  {
    if rs != [] {
      DecodeEncoded(rs[0], Encode(rs[1..]));
      RunesOfEncode(rs[1..]);
    }
  }

  lemma SanitizeStep(s: bytes)
    requires s != []
    ensures Sanitize(s) == EncodeRune(DecodeRune(s).r) + Sanitize(s[DecodeRune(s).width..])
  {
    assert Runes(s)[1..] == Runes(s[DecodeRune(s).width..]);
  }

  /** Exactly the valid strings survive: an invalid byte grows to three. */
  lemma {:induction false} SanitizeLength(s: bytes)
    ensures |Sanitize(s)| >= |s|
    ensures |Sanitize(s)| == |s| <==> Valid(s)
  {
    if s != [] {
      SanitizeStep(s);
      SanitizeLength(s[DecodeRune(s).width..]);
      if ValidStep(s) { EncodeDecoded(s); }
    }
  }

  lemma Cut(s: bytes, k: nat)
    requires k <= |s|
    ensures s == s[..k] + s[k..]
  {
  }

  lemma {:induction false} SanitizeValid(s: bytes)
    requires Valid(s)
    ensures Sanitize(s) == s
  {
    if s != [] {
      var d := DecodeRune(s);
      SanitizeStep(s);
      EncodeDecoded(s);
      SanitizeValid(s[d.width..]);
      Cut(s, d.width);
    }
  }

  lemma SanitizeFixes(s: bytes)
    ensures Sanitize(s) == s <==> Valid(s)
  {
    SanitizeLength(s);
    if Valid(s) { SanitizeValid(s); }
  }

  lemma {:induction false} RunesAppend(a: bytes, b: bytes)
    requires Valid(a)
    ensures Runes(a + b) == Runes(a) + Runes(b)
    ensures Valid(a + b) <==> Valid(b)
  {
    if a == [] {
      assert a + b == b;
    } else {
      var d := DecodeRune(a);
      var t := a[d.width..];
      StepIsLocal(a, t + b);
      assert a + b == a[..d.width] + (t + b);
      assert (a + b)[d.width..] == t + b;
      RunesAppend(t, b);
      Assoc([d.r], Runes(t), Runes(b));
    }
  }

  lemma ValidConcat(a: bytes, b: bytes)
    requires Valid(a) && Valid(b)
    ensures Valid(a + b)
  {
    RunesAppend(a, b);
  }

  lemma {:induction false} EncodeAppend(a: seq<rune>, b: seq<rune>)
    ensures Encode(a + b) == Encode(a) + Encode(b)
  {
    if a == [] {
      assert a + b == b;
    } else {
      assert (a + b)[1..] == a[1..] + b;
      EncodeAppend(a[1..], b);
      Assoc(EncodeRune(a[0]), Encode(a[1..]), Encode(b));
    }
  }

  predicate Ascii(s: bytes) { forall i :: 0 <= i < |s| ==> s[i] < 0x80 }

  lemma {:induction false} AsciiValid(s: bytes)
    requires Ascii(s)
    ensures Valid(s)
  {
    if s != [] { AsciiValid(s[1..]); }
  }
}
