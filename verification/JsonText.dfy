/** JSON strings as Go's encoding/json writes and reads them: section 7 of
    RFC 8259, with HTML-sensitive characters and U+2028/9 escaped and invalid
    UTF-8 replaced. */
module JsonText {
  import opened Bytes
  import opened Utf8

  const QUOTE: byte := 34
  const BACKSLASH: byte := 92

  function HexDigit(n: nat): byte
    requires n < 16
  {
    if n < 10 then 48 + n else 87 + n
  }

  /** Either case is read. */
  function HexValue(b: byte): (v: int)
    ensures -1 <= v < 16
  {
    if 48 <= b <= 57 then b - 48
    else if 97 <= b <= 102 then b - 87
    else if 65 <= b <= 70 then b - 55
    else -1
  }

  /** A four-digit escape. */
  function U4(n: nat): (e: bytes)
    requires n < 0x1_0000
    ensures |e| == 6
  {
    [BACKSLASH, 117, HexDigit(n / 4096), HexDigit(n / 256 % 16), HexDigit(n / 16 % 16), HexDigit(n % 16)]
  }

  function EscapeAscii(b: byte): (e: bytes)
    requires b < 0x80
    ensures 1 <= |e| <= 6
  {
    if b == QUOTE || b == BACKSLASH then [BACKSLASH, b]
    else if b == 8 then [BACKSLASH, 98]
    else if b == 12 then [BACKSLASH, 102]
    else if b == 10 then [BACKSLASH, 110]
    else if b == 13 then [BACKSLASH, 114]
    else if b == 9 then [BACKSLASH, 116]
    else if b < 32 || b == 60 || b == 62 || b == 38 then U4(b)
    else [b]
  }

  /** What the first rune of a string is written as. */
  function EscapeFirst(s: bytes): (e: bytes)
    requires s != []
    ensures 1 <= |e| <= 6 * DecodeRune(s).width
  {
    if s[0] < 0x80 then EscapeAscii(s[0])
    else
      var d := DecodeRune(s);
      if d.width == 1 then U4(REPLACEMENT)
      else if d.r == 0x2028 || d.r == 0x2029 then U4(d.r)
      else s[..d.width]
  }

  function Escape(s: bytes): bytes {
    if s == [] then [] else EscapeFirst(s) + Escape(s[DecodeRune(s).width..])
  }

  // ---------------------------------------------------------------- reading

  datatype Piece = Piece(chunk: bytes, used: nat)

  /** A four-digit escape's value, or -1. */
  function GetU4(s: bytes): (v: int)
    ensures -1 <= v < 0x1_0000
  {
    if |s| < 6 || s[0] != BACKSLASH || s[1] != 117 then -1
    else
      var a, b, c, d := HexValue(s[2]), HexValue(s[3]), HexValue(s[4]), HexValue(s[5]);
      if a < 0 || b < 0 || c < 0 || d < 0 then -1 else ((a * 16 + b) * 16 + c) * 16 + d
  }

  predicate Surrogate(v: int) { 0xD800 <= v < 0xE000 }

  function UnescapeU(s: bytes): (p: Option<Piece>)
    ensures p.Some? ==> 0 < p.value.used <= |s|
  {
    var v := GetU4(s);
    if v < 0 then None
    else if !Surrogate(v) then Some(Piece(EncodeRune(v), 6))
    else
      var w := GetU4(s[6..]);
      if v < 0xDC00 && 0xDC00 <= w < 0xE000 then
        Some(Piece(EncodeRune((v - 0xD800) * 1024 + (w - 0xDC00) + 0x1_0000), 12))
      else Some(Piece(EncodeRune(REPLACEMENT), 6))
  }

  /** The first character of a string's text, decoded. */
  function UnescapeFirst(s: bytes): (p: Option<Piece>)
    requires s != []
    ensures p.Some? ==> 0 < p.value.used <= |s|
  {
    if s[0] == BACKSLASH then
      if |s| < 2 then None
      else if s[1] == QUOTE || s[1] == BACKSLASH || s[1] == 47 then Some(Piece([s[1]], 2))
      else if s[1] == 98 then Some(Piece([8], 2))
      else if s[1] == 102 then Some(Piece([12], 2))
      else if s[1] == 110 then Some(Piece([10], 2))
      else if s[1] == 114 then Some(Piece([13], 2))
      else if s[1] == 116 then Some(Piece([9], 2))
      else if s[1] == 117 then UnescapeU(s)
      else None
    else if s[0] < 32 then None
    else var d := DecodeRune(s); Some(Piece(EncodeRune(d.r), d.width))
  }

  datatype Text = Text(value: bytes, rest: bytes)

  /** The text up to the closing quote, and what follows it. */
  function Unquote(s: bytes): (t: Option<Text>)
    ensures t.Some? ==> |t.value.rest| < |s|
    decreases |s|
  {
    if s == [] then None
    else if s[0] == QUOTE then Some(Text([], s[1..]))
    else
      match UnescapeFirst(s)
      case None => None
      case Some(p) =>
        match Unquote(s[p.used..])
        case None => None
        case Some(t) => Some(Text(p.chunk + t.value, t.rest))
  }

  // --------------------------------------------------------------- theorems

  lemma HexRoundTrip(n: nat)
    requires n < 16
    ensures HexValue(HexDigit(n)) == n
  {
  }

  lemma GetU4Inverse(n: nat, t: bytes)
    requires n < 0x1_0000
    ensures GetU4(U4(n) + t) == n
  {
    HexRoundTrip(n / 4096);
    HexRoundTrip(n / 256 % 16);
    HexRoundTrip(n / 16 % 16);
    HexRoundTrip(n % 16);
    assert n / 16 / 16 / 16 == n / 4096;
    assert n / 16 / 16 == n / 256;
  }

  lemma UnescapeU4(n: nat, t: bytes)
    requires n < 0x1_0000 && !Surrogate(n)
    ensures UnescapeFirst(U4(n) + t) == Some(Piece(EncodeRune(n), 6))
  {
    GetU4Inverse(n, t);
  }

  lemma UnescapeAscii(b: byte, t: bytes)
    requires b < 0x80
    ensures UnescapeFirst(EscapeAscii(b) + t) == Some(Piece([b], |EscapeAscii(b)|))
    ensures EscapeAscii(b)[0] != QUOTE
  {
    if EscapeAscii(b) == U4(b) {
      UnescapeU4(b, t);
    }
  }

  /** Reading back one escaped rune gives that rune, re-encoded. */
  lemma UnescapeEscaped(s: bytes, t: bytes)
    requires s != []
    ensures UnescapeFirst(EscapeFirst(s) + t) == Some(Piece(EncodeRune(DecodeRune(s).r), |EscapeFirst(s)|))
    ensures EscapeFirst(s)[0] != QUOTE
  {
    var d := DecodeRune(s);
    if s[0] < 0x80 {
      UnescapeAscii(s[0], t);
    } else if d.width == 1 {
      UnescapeU4(REPLACEMENT, t);
    } else if d.r == 0x2028 || d.r == 0x2029 {
      UnescapeU4(d.r, t);
    } else {
      StepIsLocal(s, t);
    }
  }

  /** Writing then reading a string gives it back with every invalid byte
      replaced: exactly itself when it was valid UTF-8. */
  lemma {:induction false} QuoteRoundTrip(s: bytes, t: bytes)
    ensures Unquote(Escape(s) + [QUOTE] + t) == Some(Text(Sanitize(s), t))
    decreases |s|
  {
    if s == [] {
      assert Escape(s) + [QUOTE] + t == [QUOTE] + t;
      assert ([QUOTE] + t)[1..] == t;
    } else {
      var e, rest := EscapeFirst(s), s[DecodeRune(s).width..];
      var u := Escape(rest) + [QUOTE] + t;
      assert Escape(s) + [QUOTE] + t == e + u by {
        Assoc(e, Escape(rest), [QUOTE]);
        Assoc(e, Escape(rest) + [QUOTE], t);
      }
      UnescapeEscaped(s, u);
      assert (e + u)[|e|..] == u;
      QuoteRoundTrip(rest, t);
      SanitizeStep(s);
    }
  }

  /** The expansion bound: no byte string grows by more than a factor of six. */
  lemma {:induction false} EscapeExpansion(s: bytes)
    ensures |Escape(s)| <= 6 * |s|
  {
    if s != [] { EscapeExpansion(s[DecodeRune(s).width..]); }
  }

  predicate Printable(s: bytes) { forall i :: 0 <= i < |s| ==> s[i] >= 32 }

  /** Nothing below a space, so no newline, comes out. */
  lemma {:induction false} EscapePrintable(s: bytes)
    ensures Printable(Escape(s))
  {
    if s != [] {
      var d := DecodeRune(s);
      EscapePrintable(s[d.width..]);
      if s[0] >= 0x80 && d.width > 1 { EncodeDecoded(s); }
      assert Printable(EscapeFirst(s));
    }
  }

  // ------------------------------------------------- escaping concatenations

  /** A byte that cannot continue a rune ends the decoding of what precedes it. */
  lemma StepBeforeAscii(a: bytes, b: bytes)
    requires a != [] && b != [] && b[0] < 0x80
    ensures DecodeRune(a + b) == DecodeRune(a)
  {
  }

  lemma {:induction false} SplitBeforeAscii(a: bytes, b: bytes)
    requires b == [] || b[0] < 0x80
    ensures Escape(a + b) == Escape(a) + Escape(b)
    ensures Runes(a + b) == Runes(a) + Runes(b)
    ensures Sanitize(a + b) == Sanitize(a) + Sanitize(b)
    decreases |a|
  {
    if a == [] {
      assert a + b == b;
    } else if b == [] {
      assert a + b == a;
      assert Escape(a) + [] == Escape(a) && Runes(a) + [] == Runes(a) && Sanitize(a) + [] == Sanitize(a);
    } else {
      StepBeforeAscii(a, b);
      var w := DecodeRune(a).width;
      var t := a[w..];
      assert (a + b)[w..] == t + b;
      assert EscapeFirst(a + b) == EscapeFirst(a) by { assert (a + b)[..w] == a[..w]; }
      SplitBeforeAscii(t, b);
      Assoc(EscapeFirst(a), Escape(t), Escape(b));
      Assoc([DecodeRune(a).r], Runes(t), Runes(b));
      EncodeAppend(Runes(a), Runes(b));
    }
  }

  lemma EscapeOne(b: byte)
    requires b < 0x80
    ensures Escape([b]) == EscapeAscii(b)
  {
    assert [b][1..] == [];
  }

  /** Characters JSON writes as they are. */
  predicate Plain(s: bytes) { forall i :: 0 <= i < |s| ==> s[i] < 0x80 && EscapeAscii(s[i]) == [s[i]] }

  lemma {:induction false} EscapePlain(s: bytes)
    requires Plain(s)
    ensures Escape(s) == s
  {
    if s != [] {
      EscapePlain(s[1..]);
      assert s == [s[0]] + s[1..];
    }
  }

  /** What each ASCII character costs: two bytes for those with a short escape, six
      for the other control characters and the three that HTML minds, one for the rest. */
  lemma AsciiCost(b: byte)
    requires b < 0x80
    ensures |Escape([b])| == if b in {8, 9, 10, 12, 13, 34, 92} then 2 else if b < 32 || b in {38, 60, 62} then 6 else 1
  {
    EscapeOne(b);
  }

  /** And beyond ASCII: six for an invalid byte and for the two line separators, else no more than it is. */
  lemma WideCost(s: bytes)
    requires s != [] && s[0] >= 0x80
    ensures var d := DecodeRune(s);
            |EscapeFirst(s)| == if d.width == 1 || d.r in {0x2028, 0x2029} then 6 else d.width
  {
  }

  /** A character beyond the basic plane may come as two escapes, high half first. */
  lemma PairRead(r: rune, t: bytes)
    requires r >= 0x1_0000
    ensures var x := r - 0x1_0000;
            UnescapeFirst(U4(0xD800 + x / 1024) + (U4(0xDC00 + x % 1024) + t)) == Some(Piece(EncodeRune(r), 12))
  {
    var v, w := 0xD800 + (r - 0x1_0000) / 1024, 0xDC00 + (r - 0x1_0000) % 1024;
    GetU4Inverse(v, U4(w) + t);
    GetU4Inverse(w, t);
    AfterEscape(U4(v), U4(w) + t);
    PairFrom(U4(v) + (U4(w) + t), v, w);
  }

  lemma PairFrom(s: bytes, v: nat, w: nat)
    requires |s| >= 12 && s[0] == BACKSLASH && s[1] == 117 && GetU4(s) == v && GetU4(s[6..]) == w
    requires 0xD800 <= v < 0xDC00 && 0xDC00 <= w < 0xE000
    ensures UnescapeFirst(s) == Some(Piece(EncodeRune((v - 0xD800) * 1024 + (w - 0xDC00) + 0x1_0000), 12))
  {
  }

  lemma AfterEscape(e: bytes, t: bytes)
    requires |e| == 6
    ensures (e + t)[6..] == t
  {
  }

  /** Half a pair reads as U+FFFD, and what follows it is read for itself. */
  lemma LoneHalfRead(v: nat, t: bytes)
    requires Surrogate(v) && !(v < 0xDC00 && 0xDC00 <= GetU4(t) < 0xE000)
    ensures UnescapeFirst(U4(v) + t) == Some(Piece(EncodeRune(REPLACEMENT), 6))
  {
    GetU4Inverse(v, t);
    AfterEscape(U4(v), t);
  }

  /** The eight short escapes and no other, and hexadecimal digits of either case. */
  lemma EscapesRead(c: byte, t: bytes)
    requires c != 117
    ensures var m: map<byte, byte> := map[34 := 34, 92 := 92, 47 := 47, 98 := 8, 102 := 12, 110 := 10, 114 := 13, 116 := 9];
            UnescapeFirst([BACKSLASH, c] + t) == if c in m then Some(Piece([m[c]], 2)) else None
  {
  }

  lemma HexCases(n: nat)
    requires 10 <= n < 16
    ensures HexValue('a' as int + n - 10) == n && HexValue('A' as int + n - 10) == n
  {
  }
}
