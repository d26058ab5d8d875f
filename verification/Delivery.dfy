/** Delivering a message (deliver/deliver.go, deliver/claude.go, udsmsg/client.go):
    the composed text, the frame it travels in, how large that frame is, and what
    comes out at the other end. */
module Delivery {
  import opened Bytes
  import opened Frames
  import Utf8
  import JsonText
  import Envelope
  import Inbox
  import Uuid

  // ------------------------------------------------------------------ compose

  datatype Delivery = Delivery(cursor: bytes, body: bytes, more: bool)

  const CURSOR := Lit("cursor: ")
  const NO_CURSOR := Lit("no cursor: this message cannot be re-fetched")
  const MORE: bytes := [32, 0xC2, 0xB7] + Lit(" more is waiting than this message carries")

  const L_BRACKET: byte := 91
  const R_BRACKET: byte := 93

  function Anchor(d: Delivery): bytes { if d.cursor != [] then CURSOR + d.cursor else NO_CURSOR }

  function Waiting(d: Delivery): bytes { if d.more then MORE else [] }

  /** The trailer between the brackets. */
  function Trailer(d: Delivery): bytes { Anchor(d) + Waiting(d) }

  function Gap(d: Delivery): bytes { if d.body != [] then [NEWLINE, NEWLINE] else [] }

  function Compose(d: Delivery): bytes {
    d.body + Gap(d) + [L_BRACKET] + Trailer(d) + [R_BRACKET]
  }

  /** compose with its builder. */
  method ComposeBuilder(d: Delivery) returns (b: bytes)
    ensures b == Compose(d)
  {
    b := d.body;
    if |b| > 0 { b := b + [NEWLINE, NEWLINE]; }
    b := b + [L_BRACKET];
    ghost var front := b;
    if d.cursor != [] {
      b := b + (CURSOR + d.cursor);
    } else {
      b := b + NO_CURSOR;
    }
    if d.more { b := b + MORE; }
    Assoc(front, Anchor(d), Waiting(d));
    assert b == front + Trailer(d);
    b := b + [R_BRACKET];
  }

  /** The composed text, read from its ends: the body comes first and whole, and the
      rest is the bracketed trailer, set off from a body by a blank line. It says
      which cursor to fetch from, or that there is none, and whether more waits. */
  lemma ComposeReads(d: Delivery)
    ensures var s := Compose(d);
            d.body <= s && s[|s| - 1] == ']' as int
            && var t := s[|d.body|..|s| - 1];
            t == (if d.body == [] then [] else [10, 10]) + [91]
                 + (if d.cursor == [] then Lit("no cursor: this message cannot be re-fetched") else Lit("cursor: ") + d.cursor)
                 + (if d.more then MORE else [])
  {
    ComposeEnds(d.body, Gap(d), Trailer(d), Compose(d));
    Assoc(Gap(d) + [L_BRACKET], Anchor(d), Waiting(d));
  }

  lemma ComposeEnds(body: bytes, gap: bytes, trailer: bytes, s: bytes)
    requires s == body + gap + [L_BRACKET] + trailer + [R_BRACKET]
    ensures body <= s && s[|s| - 1] == 93 && s[|body|..|s| - 1] == gap + [L_BRACKET] + trailer
  {
  }

  /** With the same trailer, no two bodies make the same text. */
  lemma BodyRecovered(d: Delivery, e: Delivery)
    requires d.cursor == e.cursor && d.more == e.more && Compose(d) == Compose(e)
    ensures d == e
  {
    SizesOfText(d);
    SizesOfText(e);
    ComposeReads(d);
    ComposeReads(e);
    assert d.body == Compose(d)[..|d.body|] && e.body == Compose(e)[..|e.body|];
  }

  lemma SizesOfText(d: Delivery)
    ensures |Compose(d)| == (if d.body == [] then 0 else |d.body| + 2) + |Anchor(d)| + |Waiting(d)| + 2
  {
  }

  // -------------------------------------------------------------- user frames

  datatype User = User(
    text: bytes, from: bytes, fromMode: bytes, msgID: bytes, attribution: Option<Envelope.CrossSession>, priority: bytes)

  const UDS := Lit("uds:")
  const NEXT := Lit("next")

  /** addrRe: the scheme and one to 107 characters, none a newline. */
  predicate ValidAddress(a: bytes) {
    UDS <= a && 1 <= |Utf8.Runes(a[4..])| <= 107 && NEWLINE !in a[4..]
  }

  /** An address is the scheme and a path of one to 107 characters on one line. */
  lemma AddressExactly(path: bytes)
    ensures ValidAddress(Lit("uds:") + path) <==> path != [] && |Utf8.Runes(path)| <= 107 && NEWLINE !in path
  {
    var a := UDS + path;
    assert a[4..] == path;
  }

  datatype Built = Ready(f: Frames.Frame) | BadMsgID | BadAddress

  /** BuildUserFrame, `newId` being the id it would generate. */
  function BuildUserFrame(u: User, newId: bytes): Built {
    var id := if u.msgID == [] then newId else u.msgID;
    if !Uuid.IsUUID(id) then BadMsgID
    else if u.from != [] && !ValidAddress(u.from) then BadAddress
    else
      Ready(Frames.Frame(1, TYPE_USER, id, u.from, u.fromMode, if u.priority == [] then NEXT else u.priority, [],
                         Some(UserMessage(TYPE_USER,
                           match u.attribution
                           case None => u.text
                           case Some(cs) => Envelope.Wrap(cs, u.text)))))
  }

  /** The id BuildUserFrame generates is one it accepts: it fails on the address only. */
  lemma OwnIdAccepted(u: User, rnd: bytes)
    requires u.msgID == [] && |rnd| == 16
    ensures BuildUserFrame(u, Uuid.Format(Uuid.V4(rnd))).BadAddress? <==> u.from != [] && !ValidAddress(u.from)
    ensures BuildUserFrame(u, Uuid.Format(Uuid.V4(rnd))) != BadMsgID
  {
    Uuid.FormatIsUUID(Uuid.V4(rnd));
  }

  /** EncodedUserSize: the line's length, newline included. */
  function LineSize(f: Frames.Frame): nat { |Marshal(f)| + 1 }

  // ---------------------------------------------------------------- the backend

  datatype Backend = Backend(token: bytes, replyTo: bytes, mode: bytes, name: bytes)

  const OVERHEAD: nat := 0x2000
  const WORST_ESCAPE: nat := 6

  /** MaxIntactBytes. */
  const MAX_INTACT: nat := (MAX_LINE - OVERHEAD) / WORST_ESCAPE

  function Attribution(b: Backend): Envelope.CrossSession { Envelope.CrossSession(b.replyTo, b.name, b.mode) }

  /** The User that Deliver sends. */
  function Sent(b: Backend, d: Delivery): User {
    User(Compose(d), b.replyTo, b.mode, [], Some(Attribution(b)), [])
  }

  /** The User that Fits measures: the same, without its own mode. */
  function Measured(b: Backend, d: Delivery): User { Sent(b, d).(fromMode := []) }

  datatype Fitting = Measure(fits: bool, size: nat) | Unbuildable

  function Fits(b: Backend, d: Delivery, newId: bytes): Fitting {
    match BuildUserFrame(Measured(b, d), newId)
    case Ready(f) => Measure(LineSize(f) <= MAX_LINE, LineSize(f))
    case _ => Unbuildable
  }

  /** Where a delivery ends, and the frames on the connection by then. */
  datatype Outcome =
    | NoToken                                       // Available refuses
    | OverFloor                                     // the text is over MaxIntactBytes
    | AuthUnsendable                                // Dial fails on its auth frame
    | RefusedAfterDial(wire: seq<Frames.Frame>)     // SendUser fails on a dialled connection
    | Written(wire: seq<Frames.Frame>)

  function WireOf(o: Outcome): seq<Frames.Frame> {
    match o
    case Written(wire) => wire
    case RefusedAfterDial(wire) => wire
    case _ => []
  }

  /** Dial, then SendUser: the auth frame, if there is a token, is out before the
      message is built. */
  function Transmit(token: bytes, u: User, newId: bytes): Outcome {
    var dialled := Inbox.Dialled(token);
    if !Inbox.Sendable(dialled) then AuthUnsendable
    else match BuildUserFrame(u, newId)
      case Ready(f) => if EncodeFrame(f).Some? then Written(dialled + [f]) else RefusedAfterDial(dialled)
      case _ => RefusedAfterDial(dialled)
  }

  /** Deliver: no token or a text over the floor is refused before dialling. */
  function Deliver(b: Backend, d: Delivery, newId: bytes): Outcome {
    if b.token == [] then NoToken
    else if |Compose(d)| > MAX_INTACT then OverFloor
    else Transmit(b.token, Sent(b, d), newId)
  }

  // ------------------------------------------------------------- end to end

  lemma AsciiSame(a: bytes)
    requires Utf8.Ascii(a)
    ensures Utf8.Valid(a) && Utf8.Sanitize(a) == a
  {
    Utf8.AsciiValid(a);
    Utf8.SanitizeFixes(a);
  }

  lemma AttrValid(k: bytes, v: bytes)
    requires Utf8.Ascii(k) && Utf8.Valid(v)
    ensures Utf8.Valid(Envelope.Attr(k, v))
  {
    if v != [] {
      var head := [Envelope.SPACE] + k + [Envelope.EQUALS, Envelope.DQUOTE];
      Utf8.AsciiValid(head);
      Utf8.AsciiValid([Envelope.DQUOTE]);
      Utf8.ValidConcat(head, v);
      Utf8.ValidConcat(head + v, [Envelope.DQUOTE]);
    }
  }

  lemma AttrsValid(n: Envelope.CrossSession)
    requires Utf8.Valid(n.from) && Utf8.Valid(n.name) && Utf8.Valid(n.mode)
    ensures Utf8.Valid(Envelope.Attrs(n))
  {
    LitAscii("from");
    LitAscii("from-name");
    LitAscii("from-mode");
    AttrValid(Envelope.K_FROM, n.from);
    AttrValid(Envelope.K_NAME, n.name);
    AttrValid(Envelope.K_MODE, n.mode);
    var a, b, c := Envelope.Attr(Envelope.K_FROM, n.from), Envelope.Attr(Envelope.K_NAME, n.name), Envelope.Attr(Envelope.K_MODE, n.mode);
    Utf8.ValidConcat(a, b);
    Utf8.ValidConcat(a + b, c);
  }

  lemma PromptingValid()
    ensures Utf8.Valid(PROMPTING)
  {
    LitAscii("prompting");
    Utf8.AsciiValid(PROMPTING);
  }

  lemma SaidModeValid(mode: bytes)
    ensures Utf8.Valid(Envelope.SaidMode(mode))
  {
    PromptingValid();
  }

  lemma SaidFromValid(from: bytes)
    ensures Utf8.Valid(Envelope.SaidFrom(from))
  {
    if Envelope.FromOk(from) { Utf8.AsciiValid(from); }
  }

  lemma NormalValid(cs: Envelope.CrossSession)
    ensures var n := Envelope.Normal(cs); Utf8.Valid(n.from) && Utf8.Valid(n.name) && Utf8.Valid(n.mode)
  {
    Envelope.ScrubInert(cs.name);
    SaidFromValid(cs.from);
    SaidModeValid(cs.mode);
  }

  /** Everything an envelope puts before the text is valid UTF-8. */
  lemma TagValid(open: bytes, attrs: bytes)
    requires Utf8.Ascii(open) && Utf8.Valid(attrs)
    ensures Utf8.Valid(open + attrs + [Envelope.GT, NEWLINE])
  {
    Utf8.AsciiValid(open);
    Utf8.AsciiValid([Envelope.GT, NEWLINE]);
    Utf8.ValidConcat(open, attrs);
    Utf8.ValidConcat(open + attrs, [Envelope.GT, NEWLINE]);
  }

  lemma SanitizePrefix(a: bytes, b: bytes)
    requires Utf8.Valid(a)
    ensures Utf8.Sanitize(a + b) == a + Utf8.Sanitize(b)
  {
    Utf8.RunesAppend(a, b);
    Utf8.EncodeAppend(Utf8.Runes(a), Utf8.Runes(b));
    Utf8.SanitizeFixes(a);
  }

  lemma SanitizeBetween(tag: bytes, text: bytes, close: bytes)
    requires Utf8.Valid(tag) && Utf8.Ascii(close)
    ensures Utf8.Sanitize(tag + text + [NEWLINE] + close) == tag + Utf8.Sanitize(text) + [NEWLINE] + close
  {
    var tail := [NEWLINE] + close;
    AsciiSame(tail);
    WrapShape(tag, text, close);
    WrapShape(tag, Utf8.Sanitize(text), close);
    SanitizePrefix(tag, text + tail);
    JsonText.SplitBeforeAscii(text, tail);
  }

  lemma WrapShape(tag: bytes, text: bytes, close: bytes)
    ensures tag + text + [NEWLINE] + close == tag + (text + ([NEWLINE] + close))
  {
  }

  lemma TagsAscii()
    ensures Utf8.Ascii(Envelope.OPEN) && Utf8.Ascii(Envelope.CLOSE)
  {
    LitAscii("<cross-session-message");
    LitAscii("</cross-session-message>");
  }

  lemma SanitizeAround(open: bytes, attrs: bytes, text: bytes, close: bytes)
    requires Utf8.Ascii(open) && Utf8.Valid(attrs) && Utf8.Ascii(close)
    ensures Utf8.Sanitize(open + attrs + [Envelope.GT, NEWLINE] + text + [NEWLINE] + close)
         == open + attrs + [Envelope.GT, NEWLINE] + Utf8.Sanitize(text) + [NEWLINE] + close
  {
    TagValid(open, attrs);
    SanitizeBetween(open + attrs + [Envelope.GT, NEWLINE], text, close);
  }

  /** Sanitizing an envelope sanitizes its text and nothing else. */
  lemma SanitizeWrapped(cs: Envelope.CrossSession, text: bytes)
    ensures Utf8.Sanitize(Envelope.Wrap(cs, text)) == Envelope.Wrap(cs, Utf8.Sanitize(text))
  {
    var n := Envelope.Normal(cs);
    var open, close := Envelope.OPEN, Envelope.CLOSE;
    NormalValid(cs);
    AttrsValid(n);
    TagsAscii();
    SanitizeAround(open, Envelope.Attrs(n), text, close);
  }

  /** The receiver's view of a delivered frame. */
  predicate Arrived(b: Backend, d: Delivery, id: bytes, f: Frames.Frame) {
    f.kind == TYPE_USER && f.msgID == id && f.from == Utf8.Sanitize(b.replyTo) && f.fromMode == Utf8.Sanitize(b.mode) &&
    f.msgV == 1 && f.priority == NEXT && f.token == [] && f.message.Some? && f.message.value.role == TYPE_USER &&
    Envelope.Unwrap(f.message.value.content)
    == Envelope.Unwrapped(Envelope.Normal(Attribution(b)), Utf8.Sanitize(Compose(d)), true)
  }

  lemma UuidAscii(id: bytes)
    requires Uuid.IsUUID(id)
    ensures Utf8.Ascii(id)
  {
  }

  lemma FrameArrives(b: Backend, d: Delivery, newId: bytes, f: Frames.Frame)
    requires BuildUserFrame(Sent(b, d), newId) == Ready(f)
    ensures f.kind == TYPE_USER && Arrived(b, d, newId, CleanFrame(f))
  {
    UuidAscii(newId);
    AsciiSame(newId);
    Inbox.TypesClean();
    NextClean();
    SanitizeWrapped(Attribution(b), Compose(d));
    Envelope.EnvelopeRoundTrip(Attribution(b), Utf8.Sanitize(Compose(d)));
  }

  lemma NextClean()
    ensures Utf8.Sanitize(NEXT) == NEXT && NEXT != []
  {
    LitAscii("next");
    AsciiSame(NEXT);
    assert NEXT[0] == 110;
  }

  /** What the receiver decodes from the frame of any User, not only Deliver's. */
  lemma UserFrameDecodes(u: User, newId: bytes, f: Frames.Frame)
    requires BuildUserFrame(u, newId) == Ready(f)
    ensures DecodeFrame(Marshal(f)).Some?
    ensures var g := DecodeFrame(Marshal(f)).value;
            g.msgV == 1 && g.kind == TYPE_USER && g.token == [] && g.message.Some? && g.message.value.role == TYPE_USER
            && (g.msgID == if u.msgID == [] then newId else u.msgID)
            && g.from == Utf8.Sanitize(u.from) && g.fromMode == Utf8.Sanitize(u.fromMode)
            && (u.priority == [] ==> g.priority == NEXT) && (u.priority != [] ==> g.priority == Utf8.Sanitize(u.priority))
            && (u.attribution == None ==> g.message.value.content == Utf8.Sanitize(u.text))
            && (u.attribution.Some? ==>
                  Envelope.Unwrap(g.message.value.content)
                  == Envelope.Unwrapped(Envelope.Normal(u.attribution.value), Utf8.Sanitize(u.text), true))
  {
    FrameRoundTrip(f);
    UuidAscii(f.msgID);
    AsciiSame(f.msgID);
    Inbox.TypesClean();
    NextClean();
    if u.attribution.Some? {
      SanitizeWrapped(u.attribution.value, u.text);
      Envelope.EnvelopeRoundTrip(u.attribution.value, Utf8.Sanitize(u.text));
    }
  }

  /** What an inbox makes of a run of frames, sent on one connection. */
  ghost function Session(cfg: Inbox.Config, wire: seq<Frames.Frame>): seq<Inbox.Event>
    requires Inbox.Sendable(wire)
  {
    Inbox.Conn(cfg, DecodeFrame, Inbox.Wire(wire), MAX_LINE, true, false).events
  }

  lemma SessionOf(cfg: Inbox.Config, token: bytes, fs: seq<Frames.Frame>, wire: seq<Frames.Frame>)
    requires Inbox.AllUser(fs) && wire == Inbox.Dialled(token) + fs && Inbox.Sendable(wire)
    ensures Session(cfg, wire) == Inbox.Opening(cfg, token) + Inbox.Following(cfg, token, fs)
  {
    Inbox.FrameDecoderIsFaithful();
    Inbox.SessionExactly(cfg, DecodeFrame, token, fs, wire);
  }

  predicate NoneDispatched(events: seq<Inbox.Event>) {
    forall i :: 0 <= i < |events| ==> !Inbox.Dispatched(events[i])
  }

  /** One frame was dispatched, the last event, and it says what was delivered. */
  predicate OneDispatched(cfg: Inbox.Config, b: Backend, d: Delivery, id: bytes, events: seq<Inbox.Event>) {
    |events| > 0 && var e := events[|events| - 1];
    events[..|events| - 1] == Inbox.Opening(cfg, b.token) && Inbox.Dispatched(e) &&
    (e.ToUser? <==> cfg.onUser) && (e.ToUnknown? <==> !cfg.onUser && cfg.onUnknown) &&
    e.authed == Inbox.Admitted(cfg, b.token) && Arrived(b, d, id, e.f)
  }

  /** The inbox's record of a connection, by how the sending of it ended. */
  predicate Recorded(cfg: Inbox.Config, b: Backend, d: Delivery, id: bytes, o: Outcome, events: seq<Inbox.Event>) {
    match o
    case Written(_) =>
      if Inbox.Heard(cfg, b.token) then OneDispatched(cfg, b, d, id, events) else NoneDispatched(events)
    case RefusedAfterDial(_) => events == Inbox.Opening(cfg, b.token) && NoneDispatched(events)
    case _ => events == []
  }

  lemma OpeningDispatchesNone(cfg: Inbox.Config, token: bytes)
    ensures NoneDispatched(Inbox.Opening(cfg, token))
  {
  }

  lemma LastEvent(front: seq<Inbox.Event>, e: Inbox.Event)
    ensures var es := front + [e]; es[|es| - 1] == e && es[..|es| - 1] == front
  {
  }

  /** The one event of a frame that is heard. */
  lemma HeededOne(cfg: Inbox.Config, f: Frames.Frame, authed: bool) returns (e: Inbox.Event)
    ensures Inbox.Heeded(cfg, [f], authed) == [e] && Inbox.Dispatched(e) && e.f == CleanFrame(f) && e.authed == authed
    ensures (e.ToUser? <==> cfg.onUser) && (e.ToUnknown? <==> !cfg.onUser && cfg.onUnknown)
  {
    e := Inbox.Heeded(cfg, [f], authed)[0];
  }

  lemma HandedOver(cfg: Inbox.Config, b: Backend, d: Delivery, id: bytes, f: Frames.Frame)
    requires Arrived(b, d, id, CleanFrame(f))
    ensures OneDispatched(cfg, b, d, id, Inbox.Opening(cfg, b.token) + Inbox.Heeded(cfg, [f], Inbox.Admitted(cfg, b.token)))
  {
    var e := HeededOne(cfg, f, Inbox.Admitted(cfg, b.token));
    LastEvent(Inbox.Opening(cfg, b.token), e);
  }

  lemma FollowingOne(cfg: Inbox.Config, token: bytes, f: Frames.Frame)
    ensures Inbox.Following(cfg, token, [f])
         == if Inbox.Heard(cfg, token) then Inbox.Heeded(cfg, [f], Inbox.Admitted(cfg, token))
            else if token == [] then [Inbox.Dropped(Marshal(f), Inbox.NotAuthenticated)] else []
  {
  }

  lemma Unheard(cfg: Inbox.Config, token: bytes, f: Frames.Frame)
    requires !Inbox.Heard(cfg, token)
    ensures NoneDispatched(Inbox.Opening(cfg, token) + Inbox.Following(cfg, token, [f]))
  {
    FollowingOne(cfg, token, f);
    OpeningDispatchesNone(cfg, token);
  }

  lemma WrittenRecorded(cfg: Inbox.Config, b: Backend, d: Delivery, newId: bytes, f: Frames.Frame)
    requires Arrived(b, d, newId, CleanFrame(f))
    ensures var events := Inbox.Opening(cfg, b.token) + Inbox.Following(cfg, b.token, [f]);
            if Inbox.Heard(cfg, b.token) then OneDispatched(cfg, b, d, newId, events) else NoneDispatched(events)
  {
    if Inbox.Heard(cfg, b.token) {
      FollowingOne(cfg, b.token, f);
      HandedOver(cfg, b, d, newId, f);
    } else {
      Unheard(cfg, b.token, f);
    }
  }

  lemma DialledAlone(token: bytes)
    ensures Inbox.Dialled(token) + [] == Inbox.Dialled(token)
  {
  }

  lemma SendableTogether(a: seq<Frames.Frame>, f: Frames.Frame)
    requires Inbox.Sendable(a) && EncodeFrame(f).Some?
    ensures Inbox.Sendable(a + [f])
  {
  }

  lemma WrittenWire(b: Backend, d: Delivery, newId: bytes, o: Outcome)
    requires o == Transmit(b.token, Sent(b, d), newId) && o.Written?
    ensures BuildUserFrame(Sent(b, d), newId).Ready?
    ensures o.wire == Inbox.Dialled(b.token) + [BuildUserFrame(Sent(b, d), newId).f] && Inbox.Sendable(o.wire)
  {
    SendableTogether(Inbox.Dialled(b.token), BuildUserFrame(Sent(b, d), newId).f);
  }

  lemma RefusedWire(b: Backend, d: Delivery, newId: bytes, o: Outcome)
    requires o == Transmit(b.token, Sent(b, d), newId) && o.RefusedAfterDial?
    ensures o.wire == Inbox.Dialled(b.token) + [] && Inbox.Sendable(o.wire)
  {
    DialledAlone(b.token);
  }

  /** What the inbox reads of a Transmit, for any text whose frame encodeFrame accepts or not. */
  lemma TransmitRecorded(cfg: Inbox.Config, b: Backend, d: Delivery, newId: bytes, o: Outcome)
    requires o == Transmit(b.token, Sent(b, d), newId)
    ensures Inbox.Sendable(WireOf(o)) && Recorded(cfg, b, d, newId, o, Session(cfg, WireOf(o)))
  {
    if o.Written? {
      WrittenWire(b, d, newId, o);
      var f := BuildUserFrame(Sent(b, d), newId).f;
      SessionOfOne(cfg, b, d, newId, f, o.wire);
      ReadyRecorded(cfg, b, d, newId, f, o, Session(cfg, o.wire));
    } else if o.RefusedAfterDial? {
      RefusedWire(b, d, newId, o);
      SessionOf(cfg, b.token, [], o.wire);
      RefusedSession(cfg, b.token);
    } else {
      NothingRead(cfg);
    }
  }

  lemma SessionOfOne(cfg: Inbox.Config, b: Backend, d: Delivery, newId: bytes, f: Frames.Frame, wire: seq<Frames.Frame>)
    requires BuildUserFrame(Sent(b, d), newId) == Ready(f)
    requires wire == Inbox.Dialled(b.token) + [f] && Inbox.Sendable(wire)
    ensures Session(cfg, wire) == Inbox.Opening(cfg, b.token) + Inbox.Following(cfg, b.token, [f])
  {
    SessionOf(cfg, b.token, [f], wire);
  }

  lemma ReadyRecorded(cfg: Inbox.Config, b: Backend, d: Delivery, newId: bytes, f: Frames.Frame, o: Outcome, events: seq<Inbox.Event>)
    requires BuildUserFrame(Sent(b, d), newId) == Ready(f) && o.Written?
    requires events == Inbox.Opening(cfg, b.token) + Inbox.Following(cfg, b.token, [f])
    ensures Recorded(cfg, b, d, newId, o, events)
  {
    FrameArrives(b, d, newId, f);
    WrittenRecorded(cfg, b, d, newId, f);
  }

  lemma RefusedSession(cfg: Inbox.Config, token: bytes)
    ensures Inbox.Opening(cfg, token) + Inbox.Following(cfg, token, []) == Inbox.Opening(cfg, token)
    ensures NoneDispatched(Inbox.Opening(cfg, token))
  {
    OpeningDispatchesNone(cfg, token);
  }

  lemma NothingRead(cfg: Inbox.Config)
    ensures Session(cfg, []) == []
  {
    Inbox.EmptySession(cfg, DecodeFrame);
  }

  lemma DeliverRecorded(cfg: Inbox.Config, b: Backend, d: Delivery, newId: bytes, o: Outcome)
    requires o == Deliver(b, d, newId)
    ensures Inbox.Sendable(WireOf(o)) && Recorded(cfg, b, d, newId, o, Session(cfg, WireOf(o)))
  {
    if o.NoToken? || o.OverFloor? { NothingRead(cfg); } else { TransmitRecorded(cfg, b, d, newId, o); }
  }

  lemma ValidTextArrives(cfg: Inbox.Config, b: Backend, d: Delivery, id: bytes, events: seq<Inbox.Event>)
    requires OneDispatched(cfg, b, d, id, events)
    ensures Envelope.Unwrap(events[|events| - 1].f.message.value.content).body == Compose(d) <==> Utf8.Valid(Compose(d))
  {
    Utf8.SanitizeFixes(Compose(d));
  }

  /** Dial and SendUser against an inbox, under any buffering and for any tokens:
      a message whose frame encodeFrame accepts, however long its text, is
      dispatched exactly once to an inbox that hears the sender, and its content
      unwraps to the composed text and the normalised attribution; exactly the
      composed text if and only if that is valid UTF-8. In every other case
      nothing is dispatched: a refused message leaves the inbox with the auth frame. */
  method SendToInbox(b: Backend, d: Delivery, newId: bytes, cfg: Inbox.Config, room: nat -> nat)
    returns (events: seq<Inbox.Event>)
    requires forall k: nat :: room(k) > 0
    ensures Recorded(cfg, b, d, newId, Transmit(b.token, Sent(b, d), newId), events)
    ensures OneDispatched(cfg, b, d, newId, events) ==>
              (Envelope.Unwrap(events[|events| - 1].f.message.value.content).body == Compose(d) <==> Utf8.Valid(Compose(d)))
  {
    var o := Transmit(b.token, Sent(b, d), newId);
    TransmitRecorded(cfg, b, d, newId, o);
    events := ReadWire(WireOf(o), cfg, room);
    if OneDispatched(cfg, b, d, newId, events) { ValidTextArrives(cfg, b, d, newId, events); }
  }

  /** Deliver against an inbox: the same, with nothing sent at all without a
      token, over the floor or when the auth frame itself is too long. */
  method DeliverToInbox(b: Backend, d: Delivery, newId: bytes, cfg: Inbox.Config, room: nat -> nat)
    returns (events: seq<Inbox.Event>)
    requires forall k: nat :: room(k) > 0
    ensures Recorded(cfg, b, d, newId, Deliver(b, d, newId), events)
    ensures OneDispatched(cfg, b, d, newId, events) ==>
              (Envelope.Unwrap(events[|events| - 1].f.message.value.content).body == Compose(d) <==> Utf8.Valid(Compose(d)))
  {
    var o := Deliver(b, d, newId);
    DeliverRecorded(cfg, b, d, newId, o);
    events := ReadWire(WireOf(o), cfg, room);
    if OneDispatched(cfg, b, d, newId, events) { ValidTextArrives(cfg, b, d, newId, events); }
  }

  method ReadWire(wire: seq<Frames.Frame>, cfg: Inbox.Config, room: nat -> nat) returns (events: seq<Inbox.Event>)
    requires Inbox.Sendable(wire) && forall k: nat :: room(k) > 0
    ensures events == Session(cfg, wire)
  {
    var src := new Inbox.Source(Inbox.Wire(wire), room);
    var overlong;
    events, overlong := Inbox.HandleConn(cfg, DecodeFrame, src);
  }
}
