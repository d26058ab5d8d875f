/** UUIDs as the two packages build them (codexmsg/uuid.go, udsmsg/session.go):
    version 7 from a millisecond clock, version 4 from random bytes. */
module Uuid {
  import opened Bytes
  import Bits
  import JsonText

  const DASH: byte := 45
  const TWO48: nat := 0x1_0000_0000_0000
  const TWO64: nat := 0x1_0000_0000_0000_0000

  function Hex(b: bytes): (h: bytes)
    ensures |h| == 2 * |b|
  {
    seq(2 * |b|, j requires 0 <= j < 2 * |b| => JsonText.HexDigit(if j % 2 == 0 then b[j / 2] / 16 else b[j / 2] % 16))
  }

  /** Eight, four, four, four and twelve digits. */
  function Dashed(h: bytes): (s: bytes)
    requires |h| == 32
    ensures |s| == 36
  {
    h[0..8] + [DASH] + h[8..12] + [DASH] + h[12..16] + [DASH] + h[16..20] + [DASH] + h[20..32]
  }

  function Format(b: bytes): (s: bytes)
    requires |b| == 16
    ensures |s| == 36
  {
    Dashed(Hex(b))
  }

  predicate IsHex(b: byte) { 48 <= b <= 57 || 97 <= b <= 102 }

  /** msgIDPattern. */
  predicate IsUUID(s: bytes) {
    |s| == 36 &&
    forall i :: 0 <= i < 36 ==> if i == 8 || i == 13 || i == 18 || i == 23 then s[i] == DASH else IsHex(s[i])
  }

  /** Where hex digit `i` stands in the formatted id. */
  function Place(i: nat): nat {
    if i < 8 then i else if i < 12 then i + 1 else if i < 16 then i + 2 else if i < 20 then i + 3 else i + 4
  }

  lemma DashedPlaces(h: bytes, i: nat)
    requires |h| == 32 && i < 32
    ensures Dashed(h)[Place(i)] == h[i]
  {
  }

  lemma Dashes(h: bytes)
    requires |h| == 32
    ensures var s := Dashed(h); s[8] == DASH && s[13] == DASH && s[18] == DASH && s[23] == DASH
  {
  }

  /** The digit a non-dash position shows. */
  function Digit(j: nat): nat
    requires j < 36 && j !in {8, 13, 18, 23}
  {
    if j < 8 then j else if j < 13 then j - 1 else if j < 18 then j - 2 else if j < 23 then j - 3 else j - 4
  }

  lemma HexIsHex(b: bytes, i: nat)
    requires i < 2 * |b|
    ensures IsHex(Hex(b)[i])
  {
  }

  /** Whatever the sixteen bytes, the formatted id passes the pattern. */
  lemma FormatIsUUID(b: bytes)
    requires |b| == 16
    ensures IsUUID(Format(b))
  {
    var h := Hex(b);
    Dashes(h);
    forall j | 0 <= j < 36 && j !in {8, 13, 18, 23} ensures IsHex(Dashed(h)[j]) {
      DashedPlaces(h, Digit(j));
      HexIsHex(b, Digit(j));
    }
  }

  // ------------------------------------------------------------------ makers

  /** The sixteen bytes of a version 7 id. */
  function V7(ms: nat, rnd: bytes): (b: bytes)
    requires |rnd| == 16
    ensures |b| == 16
  {
    BigEndian(ms % TWO48, 6) + [0x70 + rnd[6] % 16, rnd[7], 0x80 + rnd[8] % 64] + rnd[9..]
  }

  function V4(rnd: bytes): (b: bytes)
    requires |rnd| == 16
    ensures |b| == 16
  {
    rnd[6 := 0x40 + rnd[6] % 16][8 := 0x80 + rnd[8] % 64]
  }

  /** The version nibble: (x & 0x0f) | high. */
  method StampVersion(x: byte, high: byte) returns (r: byte)
    requires high == 0x70 || high == 0x40
    ensures r == high + x % 16
  {
    var low := Bits.And(x, 0x0F);
    Bits.And15(x);
    Bits.OrNibble(low, high / 16);
    r := Bits.Or(low, high);
  }

  /** The variant bits: (x & 0x3f) | 0x80. */
  method StampVariant(x: byte) returns (r: byte)
    ensures r == 0x80 + x % 64
  {
    var low, top := Bits.And(x, 0x3F), 0x80;
    assert low == x % 64 by { Bits.And63(x); }
    assert Bits.Or(low, top) == top + low by { Bits.OrLow(low, top); }
    r := Bits.Or(low, top);
  }

  /** The clock shifted up sixteen bits fills the first six of eight big-endian bytes. */
  lemma ShiftedClock(ms: nat)
    ensures BigEndian(ms * 0x1_0000 % TWO64, 8)[..6] == BigEndian(ms % TWO48, 6)
  {
    var x := ms * 0x1_0000 % TWO64;
    var b := BigEndian(x, 8);
    assert b == BigEndian(x / 256, 7) + [x % 256];
    assert BigEndian(x / 256, 7) == BigEndian(x / 256 / 256, 6) + [x / 256 % 256];
    assert x / 256 / 256 == ms % TWO48 by { ShiftArithmetic(ms); }
    assert b[..6] == BigEndian(x / 256, 7)[..6];
  }

  lemma ShiftArithmetic(ms: nat)
    ensures ms * 0x1_0000 % TWO64 / 256 / 256 == ms % TWO48
  {
    var q, r := ms / TWO48, ms % TWO48;
    assert ms * 0x1_0000 == q * TWO64 + r * 0x1_0000;
    Bits.ModUnique(ms * 0x1_0000, q, TWO64, r * 0x1_0000);
  }

  /** NewUUIDv7: random bytes, overwritten in place. */
  method NewUUIDv7(ms: nat, rnd: bytes) returns (id: bytes)
    requires |rnd| == 16
    ensures id == Format(V7(ms, rnd)) && IsUUID(id)
  {
    var b := new byte[16](i requires 0 <= i < 16 => rnd[i]);
    var ts := BigEndian(ms * 0x1_0000 % TWO64, 8);
    ShiftedClock(ms);
    for i := 0 to 6
      invariant forall j :: 0 <= j < 16 ==> b[j] == if j < i then ts[j] else rnd[j]
    {
      b[i] := ts[i];
    }
    b[6] := StampVersion(b[6], 0x70);
    b[8] := StampVariant(b[8]);
    assert b[..] == V7(ms, rnd) by {
      forall j | 0 <= j < 6 ensures b[j] == V7(ms, rnd)[j] { assert ts[..6][j] == ts[j]; }
    }
    id := Format(b[..]);
    FormatIsUUID(b[..]);
  }

  /** newUUID: every id it makes is one BuildUserFrame accepts. */
  method NewUUID(rnd: bytes) returns (id: bytes)
    requires |rnd| == 16
    ensures id == Format(V4(rnd)) && IsUUID(id)
  {
    var b := new byte[16](i requires 0 <= i < 16 => rnd[i]);
    b[6] := StampVersion(b[6], 0x40);
    b[8] := StampVariant(b[8]);
    assert b[..] == V4(rnd);
    id := Format(b[..]);
    FormatIsUUID(b[..]);
  }

  // ------------------------------------------------------------------ ordering

  /** `a` and `b` first differ at `p`, where `a` is smaller. */
  predicate LessAt(a: bytes, b: bytes, p: nat) {
    p < |a| && p < |b| && a[..p] == b[..p] && a[p] < b[p]
  }

  /** Lexicographic order on bytes. */
  ghost predicate Less(a: bytes, b: bytes) { exists p: nat :: LessAt(a, b, p) }

  lemma {:induction false} BigEndianOrder(n: nat, m: nat, k: nat) returns (p: nat)
    requires n < m < Pow256(k)
    ensures LessAt(BigEndian(n, k), BigEndian(m, k), p)
  {
    var a, b := BigEndian(n, k), BigEndian(m, k);
    var c, d := BigEndian(n / 256, k - 1), BigEndian(m / 256, k - 1);
    if n / 256 < m / 256 {
      p := BigEndianOrder(n / 256, m / 256, k - 1);
      assert a[..p] == c[..p] && b[..p] == d[..p];
    } else {
      p := k - 1;
      assert a[..p] == c && b[..p] == d;
    }
  }

  /** Hex keeps the order: the first differing digit is in the first differing byte. */
  lemma HexOrder(a: bytes, b: bytes, p: nat) returns (i: nat)
    requires LessAt(a, b, p)
    ensures i < 2 * p + 2 && LessAt(Hex(a), Hex(b), i)
  {
    i := if a[p] / 16 < b[p] / 16 then 2 * p else 2 * p + 1;
    forall j | 0 <= j < i ensures Hex(a)[j] == Hex(b)[j] {
      if j / 2 < p { assert a[..p][j / 2] == b[..p][j / 2]; }
    }
    assert Hex(a)[..i] == Hex(b)[..i];
  }

  lemma DashedOrder(h: bytes, g: bytes, i: nat)
    requires |h| == 32 && |g| == 32 && i < 12 && LessAt(h, g, i)
    ensures LessAt(Dashed(h), Dashed(g), Place(i))
  {
    DashedPlaces(h, i);
    DashedPlaces(g, i);
    Dashes(h);
    Dashes(g);
    var s, t := Dashed(h), Dashed(g);
    forall j | 0 <= j < Place(i) ensures s[j] == t[j] {
      if j != 8 {
        var k := Digit(j);
        DashedPlaces(h, k);
        DashedPlaces(g, k);
        assert h[..i][k] == g[..i][k];
      }
    }
    assert s[..Place(i)] == t[..Place(i)];
  }

  lemma V7Clock(ms: nat, r: bytes, p: nat)
    requires |r| == 16 && p < 6
    ensures var c := BigEndian(ms % TWO48, 6); V7(ms, r)[..p] == c[..p] && V7(ms, r)[p] == c[p]
  {
    assert V7(ms, r)[..6] == BigEndian(ms % TWO48, 6);
    assert V7(ms, r)[..p] == V7(ms, r)[..6][..p];
  }

  /** Ids sort by the 48-bit clock field, whatever the random bits of either. */
  lemma V7OrderedByField(ms: nat, other: nat, r: bytes, r': bytes)
    requires ms % TWO48 < other % TWO48 && |r| == 16 && |r'| == 16
    ensures Less(Format(V7(ms, r)), Format(V7(other, r')))
  {
    assert Pow256(6) == TWO48 by { assert Pow256(4) == 0x1_0000_0000; }
    var p := BigEndianOrder(ms % TWO48, other % TWO48, 6);
    V7Clock(ms, r, p);
    V7Clock(other, r', p);
    var i := HexOrder(V7(ms, r), V7(other, r'), p);
    DashedOrder(Hex(V7(ms, r)), Hex(V7(other, r')), i);
  }

  lemma LessAsymmetric(a: bytes, b: bytes)
    requires Less(a, b)
    ensures !Less(b, a)
  {
    var p: nat :| LessAt(a, b, p);
    forall q: nat ensures !LessAt(b, a, q) {
      if q < p {
        assert a[..p][q] == b[..p][q];
      } else if p < q <= |a| && q <= |b| {
        assert a[..q][p] != b[..q][p];
      }
    }
  }

  /** An id of `ms` sorts before an id of `other` whatever their random bits. */
  ghost predicate AlwaysBefore(ms: nat, other: nat) {
    forall r: bytes, r': bytes :: |r| == 16 && |r'| == 16 ==> Less(Format(V7(ms, r)), Format(V7(other, r')))
  }

  const NO_BITS: bytes := seq(16, _ => 0)

  /** Ids made at two times are ordered by time, exactly when the times are in
      that order once reduced to the clock field. */
  lemma V7OrderExactly(ms: nat, other: nat)
    ensures AlwaysBefore(ms, other) <==> ms % TWO48 < other % TWO48
  {
    if ms % TWO48 < other % TWO48 {
      forall r: bytes, r': bytes | |r| == 16 && |r'| == 16 ensures Less(Format(V7(ms, r)), Format(V7(other, r'))) {
        V7OrderedByField(ms, other, r, r');
      }
    } else {
      var a, b := Format(V7(ms, NO_BITS)), Format(V7(other, NO_BITS));
      if other % TWO48 < ms % TWO48 { V7OrderedByField(other, ms, NO_BITS, NO_BITS); }
      if Less(a, b) { LessAsymmetric(a, b); }
    }
  }

  /** So an id sorts after the ids of every earlier millisecond if and only if its
      own time fits the clock field. */
  lemma V7Ordered(later: nat)
    ensures (forall ms: nat :: ms < later ==> AlwaysBefore(ms, later)) <==> later < TWO48
  {
    if later < TWO48 {
      forall ms: nat | ms < later ensures AlwaysBefore(ms, later) { FieldInRange(ms, later); }
    } else {
      FieldComesRound(later);
    }
  }

  lemma FieldInRange(ms: nat, later: nat)
    requires ms < later < TWO48
    ensures AlwaysBefore(ms, later)
  {
    assert ms % TWO48 == ms && later % TWO48 == later;
    V7OrderExactly(ms, later);
  }

  lemma FieldComesRound(later: nat)
    requires later >= TWO48
    ensures !AlwaysBefore(later - TWO48, later)
  {
    var ms := later - TWO48;
    Bits.ModUnique(ms, later / TWO48 - 1, TWO48, later % TWO48);
    V7OrderExactly(ms, later);
  }

  /** The digit that shows a byte's high nibble. */
  lemma NibblePlace(b: bytes, k: nat)
    requires |b| == 16 && k < 16
    ensures Format(b)[Place(2 * k)] == JsonText.HexDigit(b[k] / 16)
  {
    DashedPlaces(Hex(b), 2 * k);
  }

  predicate VariantDigit(b: byte) { b == '8' as int || b == '9' as int || b == 'a' as int || b == 'b' as int }

  /** The formatted id shows its version and RFC 9562's variant, whatever the random bits. */
  lemma VersionShown(ms: nat, rnd: bytes)
    requires |rnd| == 16
    ensures var s := Format(V7(ms, rnd)); s[14] == '7' as int && VariantDigit(s[19])
    ensures var s := Format(V4(rnd)); s[14] == '4' as int && VariantDigit(s[19])
  {
    NibblePlace(V7(ms, rnd), 6);
    NibblePlace(V7(ms, rnd), 8);
    NibblePlace(V4(rnd), 6);
    NibblePlace(V4(rnd), 8);
  }

  lemma HexInjective(a: bytes, b: bytes)
    requires |a| == |b| && Hex(a) == Hex(b)
    ensures a == b
  {
    forall i | 0 <= i < |a| ensures a[i] == b[i] {
      assert Hex(a)[2 * i] == Hex(b)[2 * i] && Hex(a)[2 * i + 1] == Hex(b)[2 * i + 1];
      DigitInjective(a[i] / 16, b[i] / 16);
      DigitInjective(a[i] % 16, b[i] % 16);
    }
  }

  lemma DigitInjective(n: nat, m: nat)
    requires n < 16 && m < 16 && JsonText.HexDigit(n) == JsonText.HexDigit(m)
    ensures n == m
  {
  }

  lemma FormatInjective(a: bytes, b: bytes)
    requires |a| == |b| == 16 && Format(a) == Format(b)
    ensures a == b
  {
    var h, g := Hex(a), Hex(b);
    forall i | 0 <= i < 32 ensures h[i] == g[i] {
      DashedPlaces(h, i);
      DashedPlaces(g, i);
    }
    HexInjective(a, b);
  }

  /** The random bits an id carries: all but the version's four and the variant's two. */
  predicate SameBits(r: bytes, q: bytes, from: nat)
    requires |r| == |q| == 16
  {
    r[6] % 16 == q[6] % 16 && r[8] % 64 == q[8] % 64
    && forall i :: from <= i < 16 && i != 6 && i != 8 ==> r[i] == q[i]
  }

  /** Two ids are the same exactly when every bit that was to go into them is: the
      clock's 48 and 74 random ones, or 122 random ones. */
  lemma SameIdExactly(ms: nat, other: nat, r: bytes, q: bytes)
    requires |r| == |q| == 16
    ensures Format(V7(ms, r)) == Format(V7(other, q)) <==> ms % TWO48 == other % TWO48 && SameBits(r, q, 6)
    ensures Format(V4(r)) == Format(V4(q)) <==> SameBits(r, q, 0)
  {
    V7SameExactly(ms, other, r, q);
    if Format(V4(r)) == Format(V4(q)) { FormatInjective(V4(r), V4(q)); }
    V4SameExactly(r, q);
  }

  lemma V4SameExactly(r: bytes, q: bytes)
    requires |r| == |q| == 16
    ensures V4(r) == V4(q) <==> SameBits(r, q, 0)
  {
    if V4(r) == V4(q) {
      forall i | 0 <= i < 16 && i != 6 && i != 8 ensures r[i] == q[i] { assert V4(r)[i] == V4(q)[i]; }
      assert V4(r)[6] == V4(q)[6] && V4(r)[8] == V4(q)[8];
    }
  }

  lemma ClockSame(n: nat, m: nat)
    requires BigEndian(n, 6) == BigEndian(m, 6) && n < TWO48 && m < TWO48
    ensures n == m
  {
    assert Pow256(6) == TWO48;
    BigEndianInverse(n, 6);
    BigEndianInverse(m, 6);
  }

  lemma V7Parts(ms: nat, other: nat, r: bytes, q: bytes)
    requires |r| == |q| == 16 && V7(ms, r) == V7(other, q)
    ensures BigEndian(ms % TWO48, 6) == BigEndian(other % TWO48, 6) && SameBits(r, q, 6)
  {
    var a, b := V7(ms, r), V7(other, q);
    assert BigEndian(ms % TWO48, 6) == a[..6] && BigEndian(other % TWO48, 6) == b[..6];
    V7Tail(ms, r);
    V7Tail(other, q);
    forall i | 9 <= i < 16 ensures r[i] == q[i] { assert a[i] == b[i]; }
  }

  lemma SameTail(r: bytes, q: bytes)
    requires |r| == |q| == 16 && SameBits(r, q, 6)
    ensures r[7] == q[7] && r[9..] == q[9..]
  {
  }

  lemma V7SameExactly(ms: nat, other: nat, r: bytes, q: bytes)
    requires |r| == |q| == 16
    ensures Format(V7(ms, r)) == Format(V7(other, q)) <==> ms % TWO48 == other % TWO48 && SameBits(r, q, 6)
  {
    if Format(V7(ms, r)) == Format(V7(other, q)) {
      FormatInjective(V7(ms, r), V7(other, q));
      V7Parts(ms, other, r, q);
      ClockSame(ms % TWO48, other % TWO48);
    }
    if ms % TWO48 == other % TWO48 && SameBits(r, q, 6) { V7Same(ms, other, r, q); }
  }

  lemma V7Same(ms: nat, other: nat, r: bytes, q: bytes)
    requires |r| == |q| == 16 && ms % TWO48 == other % TWO48 && SameBits(r, q, 6)
    ensures V7(ms, r) == V7(other, q)
  {
    SameTail(r, q);
  }

  lemma V7Tail(ms: nat, r: bytes)
    requires |r| == 16
    ensures var b := V7(ms, r);
            b[6] == 0x70 + r[6] % 16 && b[7] == r[7] && b[8] == 0x80 + r[8] % 64 && forall i :: 9 <= i < 16 ==> b[i] == r[i]
  {
  }
}
