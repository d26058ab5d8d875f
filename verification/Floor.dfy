/** The size floor (deliver/claude.go): the exact length of the line a delivery
    makes, what Fits says of it, and for which senders a body within
    MaxIntactBytes is always carried. */
module Floor {
  import opened Bytes
  import opened Frames
  import opened JsonText
  import opened Delivery
  import opened Sizes
  import Utf8
  import Envelope
  import Inbox
  import Uuid
  import Decimal

  // ---------------------------------------------------------- exact lengths

  function AddressCost(from: bytes): nat {
    FieldCost(4, from) + if Envelope.FromOk(from) then 10 + |from| else 0
  }

  function NameCost(name: bytes): nat {
    if Envelope.Scrub(name) == [] then 0 else 15 + E(Envelope.Scrub(name))
  }

  function ModeCost(fieldMode: bytes, mode: bytes): nat {
    FieldCost(9, fieldMode) + if mode == PROMPTING then 24 else 0
  }

  /** A delivery's line: its skeleton, then each thing the sender chose. */
  function LineLength(b: Backend, fieldMode: bytes, d: Delivery): nat {
    201 + AddressCost(b.replyTo) + NameCost(b.name) + ModeCost(fieldMode, b.mode) + E(Compose(d))
  }

  lemma UuidPlain(id: bytes)
    requires Uuid.IsUUID(id)
    ensures E(id) == 36
  {
    EscapePlain(id);
  }

  lemma VersionCost()
    ensures |Decimal.PrintNat(1)| == 1
  {
  }

  lemma BuiltSize(b: Backend, d: Delivery, fieldMode: bytes, id: bytes, f: Frames.Frame)
    requires BuildUserFrame(Sent(b, d).(fromMode := fieldMode), id) == Ready(f)
    ensures LineSize(f) == LineLength(b, fieldMode, d)
  {
    FrameSize(f);
    UuidPlain(id);
    VersionCost();
    PlainUser();
    PlainNext();
    WrapSize(Attribution(b), Compose(d));
  }

  predicate Answerable(b: Backend) { b.replyTo == [] || ValidAddress(b.replyTo) }

  /** Deliver's frame and the one Fits measures are built or refused together,
      and each has exactly the length claimed for it. */
  lemma ExactSizes(b: Backend, d: Delivery, newId: bytes)
    requires Uuid.IsUUID(newId)
    ensures BuildUserFrame(Sent(b, d), newId).Ready? <==> Answerable(b)
    ensures Answerable(b) ==> LineSize(BuildUserFrame(Sent(b, d), newId).f) == LineLength(b, b.mode, d)
    ensures Fits(b, d, newId) == if Answerable(b) then Measure(LineLength(b, [], d) <= MAX_LINE, LineLength(b, [], d))
                                 else Unbuildable
  {
    if Answerable(b) {
      BuiltSize(b, d, b.mode, newId, BuildUserFrame(Sent(b, d), newId).f);
      BuiltSize(b, d, [], newId, BuildUserFrame(Measured(b, d), newId).f);
    }
  }

  // ------------------------------------------------------ Fits and the line

  /** How far Fits falls short of the line: nothing without a posture, and with
      one, the member that only Deliver writes. */
  lemma FitsShortfall(b: Backend, d: Delivery, newId: bytes)
    requires Uuid.IsUUID(newId) && Answerable(b)
    ensures var line := LineSize(BuildUserFrame(Sent(b, d), newId).f);
            line == Fits(b, d, newId).size + FieldCost(9, b.mode)
            && (b.mode == [] ==> line == Fits(b, d, newId).size)
            && (b.mode == PROMPTING ==> line == Fits(b, d, newId).size + 24)
  {
    ExactSizes(b, d, newId);
    PlainPrompting();
  }

  /** The line without its mode member ends within that member's length of the cap. */
  predicate InTheGap(b: Backend, d: Delivery) {
    MAX_LINE - FieldCost(9, b.mode) < LineLength(b, [], d) <= MAX_LINE
  }

  /** Fits answers as encodeFrame would, except where only the mode's own bytes
      take the line over the cap: there it says yes and is wrong. */
  lemma FitsAgreesExactly(b: Backend, d: Delivery, newId: bytes)
    requires Uuid.IsUUID(newId) && Answerable(b)
    ensures var f := BuildUserFrame(Sent(b, d), newId).f;
            var fits := Fits(b, d, newId).fits;
            ((fits <==> EncodeFrame(f).Some?) <==> !InTheGap(b, d)) && (EncodeFrame(f).Some? ==> fits)
  {
    ExactSizes(b, d, newId);
    ModeAdds(b, d);
    AcceptedBySize(BuildUserFrame(Sent(b, d), newId).f);
  }

  lemma ModeAdds(b: Backend, d: Delivery)
    ensures LineLength(b, b.mode, d) == LineLength(b, [], d) + FieldCost(9, b.mode)
  {
  }

  lemma AcceptedBySize(f: Frames.Frame)
    ensures EncodeFrame(f).Some? <==> LineSize(f) <= MAX_LINE
  {
  }

  /** That happens: prose that Fits measures at exactly the cap, from a sender
      that asserts a posture. */
  lemma FitsIsWrong(b: Backend, newId: bytes, k: nat)
    requires Uuid.IsUUID(newId) && b == Backend([1], [], PROMPTING, []) && k == MAX_LINE - 275
    ensures var d := Delivery([], Repeat(120, k), false);
            Answerable(b) && InTheGap(b, d) && Fits(b, d, newId) == Measure(true, MAX_LINE)
            && EncodeFrame(BuildUserFrame(Sent(b, d), newId).f).None?
  {
    var d := Delivery([], Repeat(120, k), false);
    ProseLine(b, k);
    ExactSizes(b, d, newId);
  }

  lemma ProseLine(b: Backend, k: nat)
    requires b == Backend([1], [], PROMPTING, []) && k > 0
    ensures var d := Delivery([], Repeat(120, k), false);
            LineLength(b, [], d) == k + 275 && LineLength(b, b.mode, d) == k + 299
  {
    ProseSize(k);
    SolidScrub([]);
    PlainPrompting();
  }

  // ----------------------------------------------------------- composed text

  /** A trailer of `front` (whose first eight bytes are plain), then perhaps MORE. */
  lemma MoreSize(front: bytes, more: bytes)
    requires E(front) + 40 <= 6 * |front| && (more == [] || more[0] < 0x80)
    ensures E(front + more) + 40 <= 6 * |front + more|
  {
    EscapeBeforeAscii(front, more);
    EscapeExpansion(more);
  }

  lemma CursorSize(tag: bytes, cursor: bytes)
    requires Utf8.Valid(tag) && E(tag) == 8 && |tag| == 8
    ensures E(tag + cursor) == 8 + E(cursor) && E(tag + cursor) + 40 <= 6 * |tag + cursor|
  {
    EscapeAfterValid(tag, cursor);
    EscapeExpansion(cursor);
  }

  lemma NoCursorLength()
    ensures |NO_CURSOR| == 44
  {
  }

  lemma AnchorSize(d: Delivery)
    ensures E(Anchor(d)) + 40 <= 6 * |Anchor(d)|
    ensures d.cursor != [] ==> E(Anchor(d)) == 8 + E(d.cursor)
  {
    if d.cursor != [] {
      PlainCursor();
      CursorAscii();
      CursorSize(CURSOR, d.cursor);
    } else {
      PlainNoCursor();
      NoCursorLength();
    }
  }

  lemma WaitingAscii(d: Delivery)
    ensures Waiting(d) != [] ==> Waiting(d)[0] < 0x80
  {
  }

  lemma TrailerSize(d: Delivery)
    ensures E(Trailer(d)) + 40 <= 6 * |Trailer(d)|
    ensures d.cursor != [] && !d.more ==> E(Trailer(d)) == 8 + E(d.cursor)
  {
    AnchorSize(d);
    WaitingAscii(d);
    MoreSize(Anchor(d), Waiting(d));
    if !d.more { assert Anchor(d) + Waiting(d) == Anchor(d); }
  }

  lemma CursorAscii()
    ensures Utf8.Valid(CURSOR)
  {
    LitAscii("cursor: ");
    Utf8.AsciiValid(CURSOR);
  }

  lemma ComposeShape(body: bytes, gap: bytes, trailer: bytes)
    requires gap == [] || gap[0] < 0x80
    ensures E(body + gap + [L_BRACKET] + trailer + [R_BRACKET]) == E(body + gap) + 2 + E(trailer)
    ensures E(body + gap) == E(body) + E(gap)
  {
    EscapeBeforeAscii(body, gap);
    Bracketed(trailer);
    var u := [L_BRACKET] + trailer + [R_BRACKET];
    assert body + gap + [L_BRACKET] + trailer + [R_BRACKET] == (body + gap) + u by {
      Assoc(body + gap, [L_BRACKET], trailer);
      Assoc(body + gap, [L_BRACKET] + trailer, [R_BRACKET]);
    }
    EscapeBeforeAscii(body + gap, u);
  }

  lemma Bracketed(t: bytes)
    ensures E([L_BRACKET] + t + [R_BRACKET]) == E(t) + 2
  {
    EscapeOne(L_BRACKET);
    EscapeOne(R_BRACKET);
    EscapeBeforeAscii([L_BRACKET] + t, [R_BRACKET]);
    BracketValid();
    EscapeAfterValid([L_BRACKET], t);
  }

  lemma BracketValid()
    ensures Utf8.Valid([L_BRACKET])
  {
    Utf8.AsciiValid([L_BRACKET]);
  }

  /** At least ten bytes of every composed text are never inflated. */
  lemma ComposedSize(d: Delivery)
    ensures E(Compose(d)) + 50 <= 6 * |Compose(d)|
    ensures d.body == [] && d.cursor != [] && !d.more ==> E(Compose(d)) == 10 + E(d.cursor)
  {
    ComposeShape(d.body, Gap(d), Trailer(d));
    TrailerSize(d);
    EscapeExpansion(d.body);
    EscapeExpansion(Gap(d));
  }

  // -------------------------------------------------------------- the floor

  const WORST_ADDRESS: nat := 656

  /** No reply address, spelled out twice or inflated once, costs more. */
  lemma AddressBound(from: bytes)
    requires from == [] || ValidAddress(from)
    ensures AddressCost(from) <= WORST_ADDRESS
  {
    if Envelope.FromOk(from) {
      AddressPlain(from);
    } else if from != [] {
      SchemeAscii();
      assert from == UDS + from[4..];
      PlainScheme();
      EscapeAfterValid(UDS, from[4..]);
      EscapePerRune(from[4..]);
    }
  }

  lemma SchemeAscii()
    ensures Utf8.Valid(UDS) && |UDS| == 4
  {
    LitAscii("uds:");
    Utf8.AsciiValid(UDS);
  }

  /** What is left of the cap for the sender's name and mode, once the largest
      text within the floor and the worst address are in. */
  const RESERVE: nat := MAX_LINE - 201 - (6 * MAX_INTACT - 50) - WORST_ADDRESS

  lemma ReserveIs()
    ensures MAX_INTACT == 173397 && RESERVE == 7387
  {
  }

  predicate Carried(b: Backend, d: Delivery) { LineLength(b, b.mode, d) <= MAX_LINE }

  lemma FloorHolds(b: Backend, d: Delivery)
    requires NameCost(b.name) + ModeCost(b.mode, b.mode) <= RESERVE
    requires Answerable(b) && |Compose(d)| <= MAX_INTACT
    ensures Carried(b, d)
  {
    ComposedSize(d);
    AddressBound(b.replyTo);
  }

  /** Deliveries and addresses made of the byte that inflates most. */
  function Brackets(k: nat): Delivery { Delivery(Repeat(Envelope.LT, k), [], false) }

  function BracketAddress(k: nat): bytes { UDS + Repeat(Envelope.LT, k) }

  lemma BracketsSize(k: nat)
    requires k > 0
    ensures |Compose(Brackets(k))| == k + 10 && E(Compose(Brackets(k))) == 6 * k + 10
  {
    SixIsTight(k);
    ComposedSize(Brackets(k));
    CursorLength();
  }

  lemma CursorLength()
    ensures |CURSOR| == 8
  {
  }

  lemma {:induction false} AsciiRunes(s: bytes)
    requires Utf8.Ascii(s)
    ensures |Utf8.Runes(s)| == |s| && forall i :: 0 <= i < |s| ==> Utf8.Runes(s)[i] == s[i]
  {
    if s != [] {
      AsciiRunes(s[1..]);
      assert Utf8.Runes(s) == [Utf8.DecodeRune(s).r] + Utf8.Runes(s[1..]);
    }
  }

  lemma BracketAddressSize(k: nat)
    requires 0 < k <= 107
    ensures ValidAddress(BracketAddress(k)) && AddressCost(BracketAddress(k)) == 14 + 6 * k
  {
    var path := Repeat(Envelope.LT, k);
    var a := BracketAddress(k);
    SchemeAscii();
    assert a[4..] == path && a[..4] == UDS;
    AsciiRunes(path);
    assert a[4] == Envelope.LT;
    PlainScheme();
    EscapeAfterValid(UDS, path);
    SixIsTight(k);
  }

  /** The text and the address that leave least room. */
  lemma WorstCase(b: Backend, k: nat, m: nat)
    requires k == MAX_INTACT - 10 && m == 107 && NameCost(b.name) + ModeCost(b.mode, b.mode) > RESERVE
    ensures |Compose(Brackets(k))| <= MAX_INTACT && ValidAddress(BracketAddress(m))
    ensures !Carried(b.(replyTo := BracketAddress(m)), Brackets(k))
  {
    BracketsSize(k);
    BracketAddressSize(m);
  }

  /** The floor, exactly: every text within MaxIntactBytes is carried for every
      reply address if and only if the sender's name and mode fit the reserve. */
  lemma FloorExactly(b: Backend)
    ensures NameCost(b.name) + ModeCost(b.mode, b.mode) <= RESERVE <==>
            forall from, d :: (from == [] || ValidAddress(from)) && |Compose(d)| <= MAX_INTACT ==> Carried(b.(replyTo := from), d)
  {
    if NameCost(b.name) + ModeCost(b.mode, b.mode) <= RESERVE {
      forall from, d | (from == [] || ValidAddress(from)) && |Compose(d)| <= MAX_INTACT
        ensures Carried(b.(replyTo := from), d)
      {
        FloorHolds(b.(replyTo := from), d);
      }
    } else {
      var k, m := MAX_INTACT - 10, 107;
      WorstCase(b, k, m);
    }
  }

  /** In bytes of scrubbed name, whatever they are, for a declared posture or none. */
  const LONGEST_NAME: nat := 1220

  lemma NameBound(b: Backend)
    requires |Envelope.Scrub(b.name)| <= LONGEST_NAME && (b.mode == [] || b.mode == PROMPTING)
    ensures NameCost(b.name) + ModeCost(b.mode, b.mode) <= RESERVE
  {
    EscapeExpansion(Envelope.Scrub(b.name));
    PlainPrompting();
  }

  /** Bytes scrubbing leaves alone, wherever they stand. */
  predicate Solid(s: bytes) {
    forall i :: 0 <= i < |s| ==> 33 <= s[i] < 0x7F && s[i] != Envelope.DQUOTE && s[i] != Envelope.LT && s[i] != Envelope.GT
  }

  lemma SolidScrub(s: bytes)
    requires Solid(s)
    ensures Envelope.Scrub(s) == s
  {
    var rs := Utf8.Runes(s);
    AsciiRunes(s);
    AsciiSame(s);
    assert forall i :: 0 <= i < |rs| ==> Envelope.Kept(rs[i]) && !Envelope.IsSpace(rs[i]);
    SolidKeeps(rs);
  }

  lemma SolidKeeps(rs: seq<Utf8.rune>)
    requires forall i :: 0 <= i < |rs| ==> Envelope.Kept(rs[i]) && !Envelope.IsSpace(rs[i])
    ensures Envelope.Trim(Envelope.Keep(rs)) == rs
  {
    Envelope.KeepAll(rs);
  }

  const AMP: byte := 38

  lemma AmpersandSize(n: nat)
    ensures E(Repeat(AMP, n)) == 6 * n
  {
    EscapeRepeat(AMP, n);
  }

  lemma AmpersandScrub(n: nat)
    ensures Envelope.Scrub(Repeat(AMP, n)) == Repeat(AMP, n)
  {
    SolidScrub(Repeat(AMP, n));
  }

  lemma FixedName(name: bytes)
    requires Envelope.Scrub(name) == name && name != []
    ensures NameCost(name) == 15 + E(name)
  {
  }

  lemma AmpersandName(name: bytes, n: nat)
    requires n > 0 && name == Repeat(AMP, n)
    ensures |Envelope.Scrub(name)| == n && NameCost(name) == 15 + 6 * n
  {
    AmpersandSize(n);
    AmpersandScrub(n);
    FixedName(name);
  }

  lemma PromptingCost(mode: bytes)
    requires mode == PROMPTING
    ensures ModeCost(mode, mode) == 48
  {
    PlainPrompting();
  }

  /** One byte more and some delivery within the floor is refused. */
  lemma NameBoundIsTight(b: Backend, n: nat, k: nat, m: nat)
    requires n == LONGEST_NAME + 1 && k == MAX_INTACT - 10 && m == 107
    requires b.name == Repeat(AMP, n) && b.mode == PROMPTING
    ensures |Envelope.Scrub(b.name)| == LONGEST_NAME + 1
    ensures |Compose(Brackets(k))| <= MAX_INTACT && ValidAddress(BracketAddress(m))
    ensures !Carried(b.(replyTo := BracketAddress(m)), Brackets(k))
  {
    AmpersandName(b.name, n);
    PromptingCost(b.mode);
    ReserveIs();
    WorstCase(b, k, m);
  }

  // ---------------------------------------------------------------- Deliver

  lemma AuthSize(token: bytes)
    requires token != []
    ensures LineSize(Inbox.AuthFrame(token)) == 27 + E(token)
  {
    FrameSize(Inbox.AuthFrame(token));
    PlainAuth();
  }

  lemma DialledExactly(token: bytes)
    requires token != []
    ensures Inbox.Sendable(Inbox.Dialled(token)) <==> 27 + E(token) <= MAX_LINE
  {
    AuthSize(token);
    var wire := Inbox.Dialled(token);
    assert wire[0] == Inbox.AuthFrame(token);
    assert Inbox.Sendable(wire) <==> EncodeFrame(wire[0]).Some?;
  }

  /** Dial succeeds: there is a token, the text is within the floor and the auth
      line within the cap. */
  predicate Dials(b: Backend, d: Delivery) {
    b.token != [] && |Compose(d)| <= MAX_INTACT && 27 + E(b.token) <= MAX_LINE
  }

  predicate Sendable(b: Backend, d: Delivery) { Answerable(b) && Carried(b, d) }

  /** Transmit's outcome, by what can be encoded. */
  lemma TransmitExactly(token: bytes, u: User, newId: bytes)
    ensures var o, built := Transmit(token, u, newId), BuildUserFrame(u, newId);
            var fine := built.Ready? && EncodeFrame(built.f).Some?;
            !o.NoToken? && !o.OverFloor?
            && (o.AuthUnsendable? <==> !Inbox.Sendable(Inbox.Dialled(token)))
            && (o.Written? <==> Inbox.Sendable(Inbox.Dialled(token)) && fine)
            && (o.RefusedAfterDial? <==> Inbox.Sendable(Inbox.Dialled(token)) && !fine)
  {
  }

  /** The frame is built and within the cap. */
  lemma SendableExactly(b: Backend, d: Delivery, newId: bytes)
    requires Uuid.IsUUID(newId)
    ensures var built := BuildUserFrame(Sent(b, d), newId);
            built.Ready? && EncodeFrame(built.f).Some? <==> Sendable(b, d)
  {
    ExactSizes(b, d, newId);
    if Answerable(b) { AcceptedBySize(BuildUserFrame(Sent(b, d), newId).f); }
  }

  lemma TransmitBySize(b: Backend, d: Delivery, newId: bytes)
    requires Uuid.IsUUID(newId) && b.token != []
    ensures var o := Transmit(b.token, Sent(b, d), newId);
            !o.NoToken? && !o.OverFloor?
            && (o.AuthUnsendable? <==> 27 + E(b.token) > MAX_LINE)
            && (o.RefusedAfterDial? <==> 27 + E(b.token) <= MAX_LINE && !Sendable(b, d))
            && (o.Written? <==> 27 + E(b.token) <= MAX_LINE && Sendable(b, d))
  {
    TransmitExactly(b.token, Sent(b, d), newId);
    DialledExactly(b.token);
    SendableExactly(b, d, newId);
  }

  /** Deliver's outcome on every input, in sizes a caller can compute. */
  lemma DeliverExactly(b: Backend, d: Delivery, newId: bytes)
    requires Uuid.IsUUID(newId)
    ensures var o := Deliver(b, d, newId);
            (o.NoToken? <==> b.token == [])
            && (o.OverFloor? <==> b.token != [] && |Compose(d)| > MAX_INTACT)
            && (o.AuthUnsendable? <==> b.token != [] && |Compose(d)| <= MAX_INTACT && 27 + E(b.token) > MAX_LINE)
            && (o.RefusedAfterDial? <==> Dials(b, d) && !Sendable(b, d))
            && (o.Written? <==> Dials(b, d) && Sendable(b, d))
  {
    if b.token != [] { TransmitBySize(b, d, newId); }
  }

  /** What an inbox that shares the token has read when Deliver returns: nothing,
      the auth frame alone, or the auth frame and the message. */
  lemma InboxHears(cfg: Inbox.Config, b: Backend, d: Delivery, newId: bytes)
    requires Uuid.IsUUID(newId) && cfg.token == Utf8.Sanitize(b.token)
    ensures Inbox.Sendable(WireOf(Deliver(b, d, newId)))
    ensures var events := Session(cfg, WireOf(Deliver(b, d, newId)));
            (events == [] <==> !Dials(b, d))
            && (events == [Inbox.AuthAccepted] <==> Dials(b, d) && !Sendable(b, d))
            && (OneDispatched(cfg, b, d, newId, events) <==> Dials(b, d) && Sendable(b, d))
            && (!(Dials(b, d) && Sendable(b, d)) ==> NoneDispatched(events))
  {
    var o := Deliver(b, d, newId);
    DeliverRecorded(cfg, b, d, newId, o);
    DeliverExactly(b, d, newId);
    HeardExactly(cfg, b, d, newId, o, Session(cfg, WireOf(o)));
  }

  lemma HeardExactly(cfg: Inbox.Config, b: Backend, d: Delivery, id: bytes, o: Outcome, events: seq<Inbox.Event>)
    requires Recorded(cfg, b, d, id, o, events) && cfg.token == Utf8.Sanitize(b.token)
    requires b.token == [] ==> o.NoToken?
    ensures o.Written? <==> OneDispatched(cfg, b, d, id, events)
    ensures o.RefusedAfterDial? <==> events == [Inbox.AuthAccepted]
    ensures events == [] <==> o.NoToken? || o.OverFloor? || o.AuthUnsendable?
    ensures !o.Written? ==> NoneDispatched(events)
  {
    if b.token != [] { assert Inbox.Opening(cfg, b.token) == [Inbox.AuthAccepted]; }
  }

  /** What Deliver writes, Fits accepts. */
  lemma WrittenFits(b: Backend, d: Delivery, newId: bytes)
    requires Uuid.IsUUID(newId) && Deliver(b, d, newId).Written?
    ensures Fits(b, d, newId).Measure? && Fits(b, d, newId).fits
  {
    ExactSizes(b, d, newId);
    DeliverExactly(b, d, newId);
  }

  predicate SaysYes(f: Fitting) { f.Measure? && f.fits }

  /** Fits and Deliver, on every input: they give the same answer if and only if
      the address cannot be built, or the connection is dialled and the line stays
      out of the gap, or it is not dialled and the line is too long anyway. */
  lemma FitsMatchesDeliver(b: Backend, d: Delivery, newId: bytes)
    requires Uuid.IsUUID(newId)
    ensures (SaysYes(Fits(b, d, newId)) <==> Deliver(b, d, newId).Written?) <==>
            (Answerable(b) ==> if Dials(b, d) then !InTheGap(b, d) else LineLength(b, [], d) > MAX_LINE)
  {
    ExactSizes(b, d, newId);
    DeliverExactly(b, d, newId);
    ModeAdds(b, d);
  }

  /** The gap is reached within the floor too: a long name, an empty body, and
      Deliver refuses on a dialled connection what Fits measured at the cap. */
  lemma FitsIsWrongWithinTheFloor(b: Backend, newId: bytes, n: nat)
    requires Uuid.IsUUID(newId) && n == MAX_LINE - 286 && b == Backend([1], [], PROMPTING, Repeat(120, n))
    ensures var d := Delivery([], [], false);
            |Compose(d)| <= MAX_INTACT && Fits(b, d, newId) == Measure(true, MAX_LINE)
            && Deliver(b, d, newId).RefusedAfterDial?
  {
    var d := Delivery([], [], false);
    LongNameLine(b, n);
    ExactSizes(b, d, newId);
    DeliverExactly(b, d, newId);
    ControlSize();
  }

  lemma ControlSize()
    ensures E([1]) == 6
  {
    EscapeOne(1);
  }

  lemma LongNameLine(b: Backend, n: nat)
    requires n > 0 && b == Backend([1], [], PROMPTING, Repeat(120, n))
    ensures var d := Delivery([], [], false);
            |Compose(d)| == 46 && LineLength(b, [], d) == n + 286 && LineLength(b, b.mode, d) == n + 310
  {
    NoticeSize();
    ProseName(b.name, n);
    PlainPrompting();
  }

  lemma ProseName(name: bytes, n: nat)
    requires n > 0 && name == Repeat(120, n)
    ensures NameCost(name) == 15 + n
  {
    ProseNameSize(n);
    ProseScrub(n);
    FixedName(name);
  }

  lemma ProseNameSize(n: nat)
    ensures E(Repeat(120, n)) == n
  {
    EscapeRepeat(120, n);
  }

  lemma ProseScrub(n: nat)
    ensures Envelope.Scrub(Repeat(120, n)) == Repeat(120, n)
  {
    SolidScrub(Repeat(120, n));
  }

  /** A delivery of nothing still has its trailer. */
  lemma NoticeSize()
    ensures var d := Delivery([], [], false); |Compose(d)| == 46 && E(Compose(d)) == 46
  {
    var d := Delivery([], [], false);
    ComposeShape(d.body, Gap(d), Trailer(d));
    BareTrailer(d);
  }

  /** A sender for whom only the size of the text can be in the way. */
  predicate Ordinary(b: Backend) {
    && b.token != [] && 27 + E(b.token) <= MAX_LINE && Answerable(b)
    && |Envelope.Scrub(b.name)| <= LONGEST_NAME && (b.mode == [] || b.mode == PROMPTING)
  }

  /** For such a sender the floor alone decides. */
  lemma WithinTheFloorIsWritten(b: Backend, d: Delivery, newId: bytes)
    requires Uuid.IsUUID(newId) && Ordinary(b)
    ensures Deliver(b, d, newId).Written? <==> |Compose(d)| <= MAX_INTACT
  {
    DeliverExactly(b, d, newId);
    NameBound(b);
    if |Compose(d)| <= MAX_INTACT { FloorHolds(b, d); }
  }

  // --------------------------------------------------------- bodies, not texts

  /** What a line holds besides the body's own bytes. */
  function AroundBody(b: Backend, fieldMode: bytes, cursor: bytes, more: bool): nat {
    201 + AddressCost(b.replyTo) + NameCost(b.name) + ModeCost(fieldMode, b.mode) + 6 + E(Trailer(Delivery(cursor, [], more)))
  }

  lemma BodyLine(b: Backend, fieldMode: bytes, d: Delivery)
    ensures LineLength(b, fieldMode, d) == AroundBody(b, fieldMode, d.cursor, d.more) + E(d.body) - if d.body == [] then 4 else 0
    ensures |Compose(d)| == |d.body| + |Trailer(d)| + if d.body == [] then 2 else 4
  {
    ComposeShape(d.body, Gap(d), Trailer(d));
    assert Trailer(d) == Trailer(Delivery(d.cursor, [], d.more));
    GapSize();
  }

  ghost predicate EveryBodyCarried(b: Backend, fieldMode: bytes, cursor: bytes, more: bool) {
    forall body: bytes :: |body| <= MAX_INTACT ==> LineLength(b, fieldMode, Delivery(cursor, body, more)) <= MAX_LINE
  }

  lemma WorstBody(b: Backend, fieldMode: bytes, cursor: bytes, more: bool, k: nat)
    requires k == MAX_INTACT
    ensures LineLength(b, fieldMode, Delivery(cursor, Repeat(Envelope.LT, k), more))
         == AroundBody(b, fieldMode, cursor, more) + 6 * k
  {
    BodyLine(b, fieldMode, Delivery(cursor, Repeat(Envelope.LT, k), more));
    SixIsTight(k);
  }

  /** The reserve, as the source means it: every body of at most MaxIntactBytes
      is within the cap if and only if the JSON, the attribution and the trailer
      are within what six times MaxIntactBytes leaves of it. */
  lemma BodyFloorExactly(b: Backend, fieldMode: bytes, cursor: bytes, more: bool)
    ensures EveryBodyCarried(b, fieldMode, cursor, more) <==>
            AroundBody(b, fieldMode, cursor, more) <= MAX_LINE - WORST_ESCAPE * MAX_INTACT
  {
    var k := MAX_INTACT;
    WorstBody(b, fieldMode, cursor, more, k);
    if AroundBody(b, fieldMode, cursor, more) <= MAX_LINE - WORST_ESCAPE * MAX_INTACT {
      forall body: bytes | |body| <= MAX_INTACT
        ensures LineLength(b, fieldMode, Delivery(cursor, body, more)) <= MAX_LINE
      {
        BodyLine(b, fieldMode, Delivery(cursor, body, more));
        EscapeExpansion(body);
      }
    }
  }

  /** The composed length of a body of `n` bytes. */
  function ComposedLength(cursor: bytes, more: bool, n: nat): nat {
    n + |Trailer(Delivery(cursor, [], more))| + if n == 0 then 2 else 4
  }

  lemma BodyWritten(b: Backend, cursor: bytes, more: bool, newId: bytes, body: bytes)
    requires Uuid.IsUUID(newId) && Ordinary(b)
    ensures Deliver(b, Delivery(cursor, body, more), newId).Written? <==> ComposedLength(cursor, more, |body|) <= MAX_INTACT
  {
    var d := Delivery(cursor, body, more);
    WithinTheFloorIsWritten(b, d, newId);
    BodyLine(b, b.mode, d);
  }

  ghost predicate EveryBodyWritten(b: Backend, cursor: bytes, more: bool, newId: bytes, n: nat) {
    forall body: bytes :: |body| <= n ==> Deliver(b, Delivery(cursor, body, more), newId).Written?
  }

  /** Deliver holds the composed text to MaxIntactBytes, so the trailer comes out
      of the body's share: all bodies of up to `n` bytes are written if and only
      if `n` leaves room for it. */
  lemma DeliveredBodies(b: Backend, cursor: bytes, more: bool, newId: bytes, n: nat)
    requires Uuid.IsUUID(newId) && Ordinary(b)
    ensures EveryBodyWritten(b, cursor, more, newId, n) <==> ComposedLength(cursor, more, n) <= MAX_INTACT
  {
    if ComposedLength(cursor, more, n) <= MAX_INTACT {
      forall body: bytes | |body| <= n ensures Deliver(b, Delivery(cursor, body, more), newId).Written? {
        BodyWritten(b, cursor, more, newId, body);
        LongerBody(cursor, more, |body|, n);
      }
    } else {
      var body := Repeat(120, n);
      BodyWritten(b, cursor, more, newId, body);
    }
  }

  lemma LongerBody(cursor: bytes, more: bool, m: nat, n: nat)
    requires m <= n
    ensures ComposedLength(cursor, more, m) <= ComposedLength(cursor, more, n)
  {
  }

  /** In particular a body of MaxIntactBytes bytes is always refused. */
  lemma IntactBodyRefused(b: Backend, d: Delivery, newId: bytes)
    requires Uuid.IsUUID(newId) && b.token != [] && |d.body| == MAX_INTACT
    ensures Deliver(b, d, newId) == OverFloor
  {
    BodyLine(b, b.mode, d);
    DeliverExactly(b, d, newId);
  }

  /** Fits can say yes where Deliver refuses: prose under the cap whose composed
      text is over MaxIntactBytes, from a body of exactly that many bytes on. */
  lemma FitsIsNotEnough(b: Backend, newId: bytes, k: nat)
    requires Uuid.IsUUID(newId) && b == Backend([1], [], [], [])
    requires MAX_INTACT <= k <= 1_000_000
    ensures var d := Delivery([], Repeat(120, k), false);
            Fits(b, d, newId).Measure? && Fits(b, d, newId).fits && Deliver(b, d, newId) == OverFloor
  {
    var d := Delivery([], Repeat(120, k), false);
    ExactSizes(b, d, newId);
    DeliverExactly(b, d, newId);
    ProseSize(k);
    SolidScrub([]);
  }

  lemma ProseSize(k: nat)
    requires k > 0
    ensures var d := Delivery([], Repeat(120, k), false);
            |Compose(d)| == k + 48 && E(Compose(d)) == k + 50
  {
    var d := Delivery([], Repeat(120, k), false);
    EscapeRepeat(120, k);
    ComposeShape(d.body, Gap(d), Trailer(d));
    GapSize();
    BareTrailer(d);
  }

  lemma BareTrailer(d: Delivery)
    requires d.cursor == [] && !d.more
    ensures |Trailer(d)| == 44 && E(Trailer(d)) == 44
  {
    PlainNoCursor();
    NoCursorLength();
    assert Trailer(d) == Anchor(d);
  }

  lemma GapSize()
    ensures E([NEWLINE, NEWLINE]) == 4
  {
    EscapeOne(NEWLINE);
    assert [NEWLINE, NEWLINE] == [NEWLINE] + [NEWLINE];
    EscapeBeforeAscii([NEWLINE], [NEWLINE]);
  }
}
