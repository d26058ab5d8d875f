/** The frame layer of RFC 6455 as codexmsg/ws.go implements it: one frame out
    (sections 5.2 and 5.3), one frame in, on bytes. */
module WebSocket {
  import opened Bytes
  import Bits

  const MAX_FRAME: nat := 0x100_0000
  const MAX_LEN: nat := 0x7FFF_FFFF_FFFF_FFFF  // a Go slice length

  const OP_CONTINUATION := 0x0
  const OP_TEXT := 0x1
  const OP_BINARY := 0x2
  const OP_CLOSE := 0x8
  const OP_PING := 0x9
  const OP_PONG := 0xA

  // ---------------------------------------------------------------- layout

  /** The three length encodings of section 5.2. */
  datatype LengthForm = Tiny | Medium | Long

  /** Everything section 5.2 lets a sender choose about one frame. */
  datatype WireFrame = WireFrame(
    fin: bool, rsv: nat, opcode: nat, key: Option<bytes>, form: LengthForm, payload: bytes)

  predicate FormFits(form: LengthForm, n: nat) {
    match form
    case Tiny => n < 126
    case Medium => n < 0x1_0000
    case Long => n < 0x1_0000_0000_0000_0000
  }

  predicate WellFormed(w: WireFrame) {
    w.rsv < 8 && w.opcode < 16 && (w.key.Some? ==> |w.key.value| == 4) && FormFits(w.form, |w.payload|)
  }

  /** FIN, RSV and opcode, the mask bit and the length, in that order. */
  function Header(fin: bool, rsv: nat, opcode: nat, masked: bool, form: LengthForm, n: nat): (h: bytes)
    requires rsv < 8 && opcode < 16 && FormFits(form, n)
    ensures |h| == match form case Tiny => 2 case Medium => 4 case Long => 10
  {
    var first: byte := (if fin then 128 else 0) + 16 * rsv + opcode;
    var m := if masked then 128 else 0;
    match form
    case Tiny => [first, m + n]
    case Medium => [first, m + 126] + BigEndian(n, 2)
    case Long => [first, m + 127] + BigEndian(n, 8)
  }

  /** Section 5.3: byte i is combined with key byte i mod 4. */
  function Mask(p: bytes, key: bytes): (r: bytes)
    requires |key| == 4
    ensures |r| == |p|
  {
    seq(|p|, i requires 0 <= i < |p| => Bits.Xor(p[i], key[i % 4]))
  }

  function Encode(w: WireFrame): bytes
    requires WellFormed(w)
  {
    Header(w.fin, w.rsv, w.opcode, w.key.Some?, w.form, |w.payload|) +
    match w.key
    case None => w.payload
    case Some(k) => k + Mask(w.payload, k)
  }

  function Shortest(n: nat): LengthForm {
    if n < 126 then Tiny else if n <= 0xFFFF then Medium else Long
  }

  /** The frame writeFrame puts on the wire. The reserved bits are zero for
      every opcode below 16, which is every opcode the client sends. */
  function Outgoing(opcode: byte, payload: bytes, key: bytes): (w: WireFrame)
    requires |payload| <= MAX_LEN && |key| == 4
    ensures WellFormed(w)
  {
    WireFrame(true, opcode / 16 % 8, opcode % 16, Some(key), Shortest(|payload|), payload)
  }

  // ------------------------------------------------------------- reading

  datatype FrameResult =
    | Frame(opcode: nat, payload: bytes, fin: bool, rest: bytes)
    | Truncated
    | Oversized(length: nat, rest: bytes)

  /** How many extra length bytes the seven-bit code announces. */
  function Extra(code: nat): nat {
    if code == 126 then 2 else if code == 127 then 8 else 0
  }

  function Length(s: bytes): nat
    requires |s| >= 2 && |s| >= 2 + Extra(s[1] % 128)
  {
    var code := s[1] % 128;
    if code < 126 then code else FromBigEndian(s[2..2 + Extra(code)])
  }

  /** What follows a header: an optional key, then the payload. */
  function ReadBody(u: bytes, opcode: nat, fin: bool, masked: bool, n: nat): (r: FrameResult)
    ensures r.Frame? ==> |r.rest| <= |u| && |r.payload| == n && r.opcode == opcode && r.fin == fin
    ensures !r.Oversized?
  {
    if !masked then (if |u| < n then Truncated else Frame(opcode, u[..n], fin, u[n..]))
    else if |u| < 4 + n then Truncated
    else Frame(opcode, Mask(u[4..][..n], u[..4]), fin, u[4..][n..])
  }

  /** What one readFrame makes of the unread bytes. */
  function ReadFrame(s: bytes): (r: FrameResult)
    ensures r.Frame? ==> |r.rest| + 2 <= |s| && |r.payload| <= MAX_FRAME && r.opcode < 16
  {
    if |s| < 2 || |s| < 2 + Extra(s[1] % 128) then Truncated
    else
      var ext := Extra(s[1] % 128);
      var n := Length(s);
      if n > MAX_FRAME then Oversized(n, s[2 + ext..])
      else
        ReadBody(s[2 + ext..], s[0] % 16, s[0] >= 128, s[1] >= 128, n)
  }

  // ------------------------------------------------------------ theorems

  lemma MaskInvolution(p: bytes, key: bytes)
    requires |key| == 4
    ensures Mask(Mask(p, key), key) == p
  {
    forall i | 0 <= i < |p| ensures Mask(Mask(p, key), key)[i] == p[i] {
      Bits.XorInvolution(p[i], key[i % 4]);
    }
  }

  /** The two multi-byte length fields hold any length their form admits. */
  lemma LengthBytes(n: nat, k: nat)
    requires (k == 2 && n < 0x1_0000) || (k == 8 && n < 0x1_0000_0000_0000_0000)
    ensures FromBigEndian(BigEndian(n, k)) == n
  {
    assert Pow256(2) == 0x1_0000;
    assert Pow256(4) == 0x1_0000_0000;
    assert Pow256(6) == 0x1_0000_0000_0000;
    BigEndianInverse(n, k);
  }

  lemma LengthBound(b: bytes)
    ensures |b| == 2 ==> FromBigEndian(b) < 0x1_0000
    ensures |b| == 8 ==> FromBigEndian(b) < 0x1_0000_0000_0000_0000
    ensures BigEndian(FromBigEndian(b), |b|) == b
  {
    assert Pow256(2) == 0x1_0000;
    assert Pow256(4) == 0x1_0000_0000;
    assert Pow256(6) == 0x1_0000_0000_0000;
    FromBigEndianInverse(b);
  }

  /** A complete header: its own length agrees with the code it carries. */
  predicate IsHeader(h: bytes, n: nat) {
    |h| >= 2 && |h| == 2 + Extra(h[1] % 128) && Length(h) == n
  }

  /** The header alone determines opcode, FIN, mask bit and length. */
  lemma HeaderDecodes(fin: bool, rsv: nat, opcode: nat, masked: bool, form: LengthForm, n: nat)
    requires rsv < 8 && opcode < 16 && FormFits(form, n)
    ensures var h := Header(fin, rsv, opcode, masked, form, n);
            IsHeader(h, n) && h[0] % 16 == opcode && (h[0] >= 128 <==> fin) && (h[1] >= 128 <==> masked)
  {
    FirstByte(fin, rsv, opcode);
    var first: byte := (if fin then 128 else 0) + 16 * rsv + opcode;
    match form
    case Tiny => TinyHeader(first, masked, n);
    case Medium => MediumHeader(first, masked, n);
    case Long => LongHeader(first, masked, n);
  }

  /** The mask bit over a seven-bit length code. */
  function SecondByte(masked: bool, code: nat): byte
    requires code < 128
  {
    (if masked then 128 else 0) + code
  }

  lemma SecondByteSplits(masked: bool, code: nat)
    requires code < 128
    ensures SecondByte(masked, code) % 128 == code && (SecondByte(masked, code) >= 128 <==> masked)
  {
  }

  lemma TinyHeader(first: byte, masked: bool, n: nat)
    requires n < 126
    ensures var h := [first, SecondByte(masked, n)]; IsHeader(h, n) && h[0] == first && (h[1] >= 128 <==> masked)
  {
    SecondByteSplits(masked, n);
  }

  lemma MediumHeader(first: byte, masked: bool, n: nat)
    requires n < 0x1_0000
    ensures var h := [first, SecondByte(masked, 126)] + BigEndian(n, 2);
            IsHeader(h, n) && h[0] == first && (h[1] >= 128 <==> masked)
  {
    SecondByteSplits(masked, 126);
    LengthBytes(n, 2);
    ExtendedHeader(first, SecondByte(masked, 126), n, 2);
  }

  lemma LongHeader(first: byte, masked: bool, n: nat)
    requires n < 0x1_0000_0000_0000_0000
    ensures var h := [first, SecondByte(masked, 127)] + BigEndian(n, 8);
            IsHeader(h, n) && h[0] == first && (h[1] >= 128 <==> masked)
  {
    SecondByteSplits(masked, 127);
    LengthBytes(n, 8);
    ExtendedHeader(first, SecondByte(masked, 127), n, 8);
  }

  lemma FirstByte(fin: bool, rsv: nat, opcode: nat)
    requires rsv < 8 && opcode < 16
    ensures var b := (if fin then 128 else 0) + 16 * rsv + opcode; b < 256 && b % 16 == opcode && (b >= 128 <==> fin)
  {
  }

  lemma ExtendedHeader(first: byte, second: byte, n: nat, k: nat)
    requires k == Extra(second % 128) && k > 0 && FromBigEndian(BigEndian(n, k)) == n
    ensures var h := [first, second] + BigEndian(n, k); IsHeader(h, n) && h[0] == first && h[1] == second
  {
    var h := [first, second] + BigEndian(n, k);
    assert h[2..2 + k] == BigEndian(n, k);
  }

  lemma HeaderPrefix(h: bytes, n: nat, t: bytes)
    requires IsHeader(h, n)
    ensures var s := h + t;
            |s| >= 2 + Extra(s[1] % 128) && s[0] == h[0] && s[1] == h[1] && Length(s) == n && s[|h|..] == t
  {
    assert (h + t)[2..|h|] == h[2..|h|];
  }

  lemma ReadPlain(h: bytes, p: bytes, t: bytes)
    requires |p| <= MAX_FRAME && IsHeader(h, |p|) && h[1] < 128
    ensures ReadFrame(h + (p + t)) == Frame(h[0] % 16, p, h[0] >= 128, t)
  {
    HeaderPrefix(h, |p|, p + t);
    CutAfter(p, t);
  }

  lemma ReadMasked(h: bytes, k: bytes, p: bytes, t: bytes)
    requires |p| <= MAX_FRAME && IsHeader(h, |p|) && h[1] >= 128 && |k| == 4
    ensures ReadFrame(h + (k + p + t)) == Frame(h[0] % 16, Mask(p, k), h[0] >= 128, t)
  {
    HeaderPrefix(h, |p|, k + p + t);
    Assoc(k, p, t);
    CutAfter(k, p + t);
    CutAfter(p, t);
  }

  lemma CutAfter(a: bytes, b: bytes)
    ensures (a + b)[..|a|] == a && (a + b)[|a|..] == b
  {
  }

  /** readFrame recovers any well-formed frame, in any length form, masked or
      not, and leaves exactly what follows it. */
  lemma ReadEncoded(w: WireFrame, t: bytes)
    requires WellFormed(w) && |w.payload| <= MAX_FRAME
    ensures ReadFrame(Encode(w) + t) == Frame(w.opcode, w.payload, w.fin, t)
  {
    var h := Header(w.fin, w.rsv, w.opcode, w.key.Some?, w.form, |w.payload|);
    HeaderDecodes(w.fin, w.rsv, w.opcode, w.key.Some?, w.form, |w.payload|);
    match w.key
    case None =>
      assert Encode(w) + t == h + (w.payload + t);
      ReadPlain(h, w.payload, t);
    case Some(k) =>
      var p := Mask(w.payload, k);
      assert Encode(w) + t == h + (k + p + t);
      ReadMasked(h, k, p, t);
      MaskInvolution(w.payload, k);
  }

  /** The length form a header's seven-bit code selects. */
  function FormOf(code: nat): LengthForm {
    if code == 126 then Medium else if code == 127 then Long else Tiny
  }

  lemma HeaderOrigin(s: bytes)
    requires |s| >= 2 && |s| >= 2 + Extra(s[1] % 128)
    ensures FormFits(FormOf(s[1] % 128), Length(s))
    ensures s[..2 + Extra(s[1] % 128)]
         == Header(s[0] >= 128, s[0] / 16 % 8, s[0] % 16, s[1] >= 128, FormOf(s[1] % 128), Length(s))
  {
    var ext := Extra(s[1] % 128);
    LengthBound(s[2..2 + ext]);
    FirstByteOrigin(s[0]);
    SecondByteOrigin(s[1]);
    assert s[..2 + ext] == [s[0], s[1]] + s[2..2 + ext];
  }

  lemma FirstByteOrigin(b: byte)
    ensures (if b >= 128 then 128 else 0) + 16 * (b / 16 % 8) + b % 16 == b
  {
  }

  lemma SecondByteOrigin(b: byte)
    ensures (if b >= 128 then 128 else 0) + b % 128 == b
  {
  }

  /** Where an accepted frame's bytes lie in the stream. */
  lemma FramePieces(s: bytes) returns (h: bytes, key: bytes, raw: bytes)
    requires ReadFrame(s).Frame?
    ensures h == s[..2 + Extra(s[1] % 128)] && |raw| == Length(s) && |key| == (if s[1] >= 128 then 4 else 0)
    ensures s == h + key + raw + ReadFrame(s).rest
    ensures ReadFrame(s).payload == if s[1] >= 128 then Mask(raw, key) else raw
  {
    var at, n := 2 + Extra(s[1] % 128), Length(s);
    var u, k := s[at..], if s[1] >= 128 then 4 else 0;
    h, key, raw := s[..at], u[..k], u[k..][..n];
    CutIn(s, at);
    CutIn(u, k);
    CutIn(u[k..], n);
    Pieces(h, key, raw, u[k..][n..]);
    if k == 0 { assert u[0..] == u; }
  }

  lemma CutIn(s: bytes, k: nat)
    requires k <= |s|
    ensures s == s[..k] + s[k..]
  {
  }

  lemma Pieces(h: bytes, key: bytes, raw: bytes, rest: bytes)
    ensures h + key + raw + rest == h + (key + (raw + rest))
  {
  }

  lemma EncodePieces(w: WireFrame, h: bytes, key: bytes, raw: bytes)
    requires WellFormed(w) && h == Header(w.fin, w.rsv, w.opcode, w.key.Some?, w.form, |w.payload|)
    requires w.key == None ==> key == [] && w.payload == raw
    requires w.key.Some? ==> w.key.value == key && w.payload == Mask(raw, key)
    ensures Encode(w) == h + key + raw
  {
    if w.key.Some? {
      MaskInvolution(raw, key);
      assert h + (key + raw) == h + key + raw;
    } else {
      assert h + key == h;
    }
  }

  /** Conversely, every frame readFrame accepts is the encoding of a well-formed one. */
  lemma FrameOrigin(s: bytes) returns (w: WireFrame)
    requires ReadFrame(s).Frame?
    ensures WellFormed(w) && s == Encode(w) + ReadFrame(s).rest
    ensures w.opcode == ReadFrame(s).opcode && w.fin == ReadFrame(s).fin && w.payload == ReadFrame(s).payload
  {
    var h, key, raw := FramePieces(s);
    HeaderOrigin(s);
    w := FrameFrom(s, key, ReadFrame(s).payload);
    ReadFrameFields(s);
    EncodePieces(w, h, key, raw);
  }

  function FrameFrom(s: bytes, key: bytes, payload: bytes): WireFrame
    requires |s| >= 2
  {
    WireFrame(s[0] >= 128, s[0] / 16 % 8, s[0] % 16, if s[1] >= 128 then Some(key) else None, FormOf(s[1] % 128), payload)
  }

  lemma ReadFrameFields(s: bytes)
    requires ReadFrame(s).Frame?
    ensures |s| >= 2 && ReadFrame(s).opcode == s[0] % 16 && ReadFrame(s).fin == (s[0] >= 128)
  {
  }

  /** A length over the cap is refused on the header alone: the verdict is the
      same whatever follows, and nothing after the header has been consumed. */
  lemma OversizedRefusedOnHeader(fin: bool, rsv: nat, opcode: nat, masked: bool, form: LengthForm, n: nat, t: bytes)
    requires rsv < 8 && opcode < 16 && FormFits(form, n) && n > MAX_FRAME
    ensures ReadFrame(Header(fin, rsv, opcode, masked, form, n) + t) == Oversized(n, t)
  {
    HeaderDecodes(fin, rsv, opcode, masked, form, n);
    HeaderPrefix(Header(fin, rsv, opcode, masked, form, n), n, t);
  }

  /** writeFrame's bytes, read back: the same opcode, payload and FIN, and the
      suffix untouched; over the cap, refused. */
  lemma WriteReadRoundTrip(opcode: byte, payload: bytes, key: bytes, t: bytes)
    requires opcode < 16 && |key| == 4 && |payload| <= MAX_LEN
    ensures |payload| <= MAX_FRAME ==>
              ReadFrame(Encode(Outgoing(opcode, payload, key)) + t) == Frame(opcode, payload, true, t)
    ensures |payload| > MAX_FRAME ==>
              ReadFrame(Encode(Outgoing(opcode, payload, key)) + t) == Oversized(|payload|, key + Mask(payload, key) + t)
  {
    var w := Outgoing(opcode, payload, key);
    if |payload| <= MAX_FRAME {
      ReadEncoded(w, t);
    } else {
      var h, m := Header(true, 0, opcode, true, w.form, |payload|), Mask(payload, key);
      OversizedRefusedOnHeader(true, 0, opcode, true, w.form, |payload|, key + m + t);
      Assoc(h, key + m, t);
    }
  }

  /** No other length form gives a shorter frame. */
  lemma ShortestIsShortest(w: WireFrame, form: LengthForm)
    requires WellFormed(w) && w.form == Shortest(|w.payload|) && FormFits(form, |w.payload|)
    ensures |Encode(w)| <= |Encode(w.(form := form))|
    ensures |Encode(w)| == |Encode(w.(form := form))| ==> w.form == form
  {
  }

  /** Encodings are prefix-free: two frames that start one stream are the same
      frame up to the sender's choice of key, form and reserved bits. */
  lemma FramesDelimitThemselves(a: WireFrame, b: WireFrame, s: bytes, t: bytes)
    requires WellFormed(a) && WellFormed(b) && |a.payload| <= MAX_FRAME && |b.payload| <= MAX_FRAME
    requires Encode(a) + s == Encode(b) + t
    ensures s == t && a.opcode == b.opcode && a.payload == b.payload && a.fin == b.fin
  {
    ReadEncoded(a, s);
    ReadEncoded(b, t);
  }

  lemma XorH()
    ensures Bits.XorBits(0x7F, 0x37, 8) == 0x48
  {
    assert Bits.XorBits(0x1, 0x0, 2) == 0x1;
    assert Bits.XorBits(0x7, 0x3, 4) == 0x4;
    assert Bits.XorBits(0x1F, 0xD, 6) == 0x12;
  }

  lemma XorE()
    ensures Bits.XorBits(0x9F, 0xFA, 8) == 0x65
  {
    assert Bits.XorBits(0x2, 0x3, 2) == 0x1;
    assert Bits.XorBits(0x9, 0xF, 4) == 0x6;
    assert Bits.XorBits(0x27, 0x3E, 6) == 0x19;
  }

  lemma XorL()
    ensures Bits.XorBits(0x4D, 0x21, 8) == 0x6C
  {
    assert Bits.XorBits(0x1, 0x0, 2) == 0x1;
    assert Bits.XorBits(0x4, 0x2, 4) == 0x6;
    assert Bits.XorBits(0x13, 0x8, 6) == 0x1B;
  }

  lemma XorSecondL()
    ensures Bits.XorBits(0x51, 0x3D, 8) == 0x6C
  {
    assert Bits.XorBits(0x1, 0x0, 2) == 0x1;
    assert Bits.XorBits(0x5, 0x3, 4) == 0x6;
    assert Bits.XorBits(0x14, 0xF, 6) == 0x1B;
  }

  lemma XorO()
    ensures Bits.XorBits(0x58, 0x37, 8) == 0x6F
  {
    assert Bits.XorBits(0x1, 0x0, 2) == 0x1;
    assert Bits.XorBits(0x5, 0x3, 4) == 0x6;
    assert Bits.XorBits(0x16, 0xD, 6) == 0x1B;
  }

  lemma HelloBytes()
    ensures Bits.Xor(0x7F, 0x37) == 0x48 && Bits.Xor(0x9F, 0xFA) == 0x65 && Bits.Xor(0x4D, 0x21) == 0x6C
    ensures Bits.Xor(0x51, 0x3D) == 0x6C && Bits.Xor(0x58, 0x37) == 0x6F
  {
    XorH();
    XorE();
    XorL();
    XorSecondL();
    XorO();
  }

  /** The masked text frame of section 5.7 of RFC 6455 reads as its "Hello". */
  lemma MaskedHello(t: bytes)
    ensures ReadFrame([0x81, 0x85, 0x37, 0xFA, 0x21, 0x3D, 0x7F, 0x9F, 0x4D, 0x51, 0x58] + t)
         == Frame(OP_TEXT, [0x48, 0x65, 0x6C, 0x6C, 0x6F], true, t)
  {
    var key, raw: bytes := [0x37, 0xFA, 0x21, 0x3D], [0x7F, 0x9F, 0x4D, 0x51, 0x58];
    HelloUnmasked(key, raw);
    var s := [0x81, 0x85, 0x37, 0xFA, 0x21, 0x3D, 0x7F, 0x9F, 0x4D, 0x51, 0x58] + t;
    HelloPieces(s, key, raw, t);
  }

  lemma MaskFive(raw: bytes, key: bytes, out: bytes)
    requires |key| == 4 && |raw| == |out| == 5
    requires Bits.Xor(raw[0], key[0]) == out[0] && Bits.Xor(raw[1], key[1]) == out[1] && Bits.Xor(raw[2], key[2]) == out[2]
    requires Bits.Xor(raw[3], key[3]) == out[3] && Bits.Xor(raw[4], key[0]) == out[4]
    ensures Mask(raw, key) == out
  {
    forall i | 0 <= i < 5 ensures Mask(raw, key)[i] == out[i] { assert i in {0, 1, 2, 3, 4}; }
  }

  lemma HelloUnmasked(key: bytes, raw: bytes)
    requires key == [0x37, 0xFA, 0x21, 0x3D] && raw == [0x7F, 0x9F, 0x4D, 0x51, 0x58]
    ensures Mask(raw, key) == [0x48, 0x65, 0x6C, 0x6C, 0x6F]
  {
    HelloBytes();
    MaskFive(raw, key, [0x48, 0x65, 0x6C, 0x6C, 0x6F]);
  }

  lemma HelloPieces(s: bytes, key: bytes, raw: bytes, t: bytes)
    requires |key| == 4 && |raw| == 5 && s == [0x81, 0x85] + key + raw + t
    ensures ReadFrame(s) == Frame(OP_TEXT, Mask(raw, key), true, t)
  {
    var u := s[2..];
    assert u[..4] == key && u[4..][..5] == raw && u[4..][5..] == t;
  }
}
