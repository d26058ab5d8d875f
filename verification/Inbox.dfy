/** The inbox's receiving side (udsmsg/server.go): a capped line reader over a
    buffered stream, and the connection loop with its authentication gate. The
    frame decoder is a parameter: the theorems about lines and events hold for any
    decoder, those about a client's session for any that undoes the printer. */
module Inbox {
  import opened Bytes
  import opened Frames
  import Utf8

  // ---------------------------------------------------------- simple split

  /** The stream cut at its newlines; the last piece is what follows the last one. */
  function Split(s: bytes): (ls: seq<bytes>)
    ensures |ls| > 0
    decreases |s|
  {
    var i := IndexOf(s, NEWLINE);
    if i == |s| then [s] else [s[..i]] + Split(s[i + 1..])
  }

  function Join(ls: seq<bytes>): bytes
    requires |ls| > 0
  {
    if |ls| == 1 then ls[0] else ls[0] + [NEWLINE] + Join(ls[1..])
  }

  /** Split is what it says: pieces without newlines that join back to the stream. */
  lemma {:induction false} SplitSpec(s: bytes)
    ensures Join(Split(s)) == s && forall k :: 0 <= k < |Split(s)| ==> NEWLINE !in Split(s)[k]
    decreases |s|
  {
    var i := IndexOf(s, NEWLINE);
    if i < |s| {
      var ls := Split(s[i + 1..]);
      SplitSpec(s[i + 1..]);
      assert Split(s)[1..] == ls;
      assert s == s[..i] + [NEWLINE] + s[i + 1..];
      forall k | 0 <= k < |Split(s)| ensures NEWLINE !in Split(s)[k] {
        if k > 0 { assert Split(s)[k] == ls[k - 1]; }
      }
    }
  }

  lemma CutAt(l: bytes, rest: bytes)
    ensures var s := l + [NEWLINE] + rest; s[..|l|] == l && s[|l| + 1..] == rest
  {
  }

  lemma SplitCons(l: bytes, rest: bytes)
    requires NEWLINE !in l
    ensures Split(l + [NEWLINE] + rest) == [l] + Split(rest)
  {
    IndexOfAfter(l, NEWLINE, rest);
    CutAt(l, rest);
  }

  lemma SplitLast(l: bytes)
    requires NEWLINE !in l
    ensures Split(l) == [l]
  {
    assert IndexOf(l, NEWLINE) == |l|;
  }

  lemma HeadTail(ls: seq<bytes>)
    requires ls != []
    ensures ls == [ls[0]] + ls[1..]
  {
  }

  /** And nothing else is: pieces without newlines are what joining them splits into. */
  lemma {:induction false} SplitUnique(ls: seq<bytes>)
    requires |ls| > 0 && forall k :: 0 <= k < |ls| ==> NEWLINE !in ls[k]
    ensures Split(Join(ls)) == ls
  {
    HeadTail(ls);
    if |ls| == 1 {
      SplitLast(ls[0]);
    } else {
      SplitCons(ls[0], Join(ls[1..]));
      SplitUnique(ls[1..]);
    }
  }

  /** What a piece costs against the cap: its newline counts when it has one. */
  function Cost(ls: seq<bytes>, k: nat): nat
    requires k < |ls|
  {
    |ls[k]| + if k == |ls| - 1 then 0 else 1
  }

  /** How many pieces come before the first one over the cap. */
  function Fitting(ls: seq<bytes>, max: nat, k: nat): (n: nat)
    requires k <= |ls|
    ensures k <= n <= |ls|
    ensures forall i :: k <= i < n ==> Cost(ls, i) <= max
    ensures n < |ls| ==> Cost(ls, n) > max
    decreases |ls| - k
  {
    if k == |ls| || Cost(ls, k) > max then k else Fitting(ls, max, k + 1)
  }

  // ------------------------------------------------------------- readLine

  datatype Line =
    | Complete(line: bytes, rest: bytes)   // newline found
    | Final(line: bytes)                   // stream ended first
    | TooLong

  /** One line off the stream, no chunks in sight. */
  function FirstLine(s: bytes, max: nat): Line {
    var i := IndexOf(s, NEWLINE);
    if i == |s| then (if |s| > max then TooLong else Final(s))
    else if i + 1 > max then TooLong
    else Complete(s[..i], s[i + 1..])
  }

  datatype Slice = Found(chunk: bytes) | Full(chunk: bytes) | Eof(chunk: bytes)

  /** bufio.Reader over a connection: the unread bytes and, for each offset, how
      much the buffer holds when a read starts there. */
  class Source {
    var rest: bytes
    var offset: nat
    const room: nat -> nat

    ghost predicate Valid() { forall k: nat :: room(k) > 0 }

    constructor (s: bytes, room: nat -> nat)
      requires forall k: nat :: room(k) > 0
      ensures Valid() && rest == s && offset == 0 && this.room == room
    {
      rest, offset, this.room := s, 0, room;
    }

    /** ReadSlice: up to the newline, a full buffer without one, or the end. */
    method ReadSlice() returns (r: Slice)
      requires Valid()
      modifies this`rest, this`offset
      ensures old(rest) == r.chunk + rest
      ensures r.Found? ==> r.chunk != [] && IndexOf(old(rest), NEWLINE) == |r.chunk| - 1
      ensures r.Full? ==> r.chunk != [] && NEWLINE !in r.chunk
      ensures r.Eof? ==> rest == [] && NEWLINE !in r.chunk
    {
      var i, b := IndexOf(rest, NEWLINE), room(offset);
      var n;
      if i < |rest| && i < b {
        n := i + 1;
        r := Found(rest[..n]);
      } else if b <= |rest| {
        n := b;
        r := Full(rest[..n]);
      } else {
        n := |rest|;
        r := Eof(rest[..n]);
      }
      rest, offset := rest[n..], offset + n;
    }

    /** readLine gives the same answer for every buffering: that of `FirstLine`. */
    method ReadLine(max: nat) returns (line: bytes, complete: bool, tooLong: bool)
      requires Valid()
      modifies this`rest, this`offset
      ensures match FirstLine(old(rest), max)
              case TooLong => tooLong && line == [] && !complete
              case Complete(l, u) => !tooLong && complete && line == l && rest == u
              case Final(l) => !tooLong && !complete && line == l && rest == []
    {
      var buf: bytes := [];
      ghost var s := rest;
      while true
        invariant s == buf + rest && NEWLINE !in buf && |buf| <= max
        decreases |rest|
      {
        ghost var u := rest;
        IndexPast(buf, u);
        var r := ReadSlice();
        Assoc(buf, r.chunk, rest);
        if |buf| + |r.chunk| > max {
          SliceTooLong(buf, u, r.chunk, rest, max);
          return [], false, true;
        }
        buf := buf + r.chunk;
        match r
        case Full(_) =>
        case Eof(_) =>
          FinalLine(s, buf, max);
          return buf, false, false;
        case Found(_) =>
          FoundLine(s, buf, rest, max);
          return buf[..|buf| - 1], true, false;
      }
    }
  }

  lemma FinalLine(s: bytes, buf: bytes, max: nat)
    requires s == buf + [] && NEWLINE !in buf && |buf| <= max
    ensures FirstLine(s, max) == Final(buf)
  {
    assert buf + [] == buf;
    IndexPast(buf, []);
  }

  lemma FoundLine(s: bytes, buf: bytes, rest: bytes, max: nat)
    requires s == buf + rest && buf != [] && IndexOf(s, NEWLINE) == |buf| - 1 && |buf| <= max
    ensures FirstLine(s, max) == Complete(buf[..|buf| - 1], rest)
  {
    assert s[..|buf| - 1] == buf[..|buf| - 1] && s[|buf|..] == rest;
  }

  /** A newline-free prefix only shifts the next newline. */
  lemma {:induction false} IndexPast(p: bytes, s: bytes)
    requires NEWLINE !in p
    ensures IndexOf(p + s, NEWLINE) == |p| + IndexOf(s, NEWLINE)
  {
    if p == [] {
      assert p + s == s;
    } else {
      assert (p + s)[1..] == p[1..] + s;
      IndexPast(p[1..], s);
    }
  }

  /** Over the cap by this chunk means over the cap wherever the newline is. */
  lemma SliceTooLong(buf: bytes, u: bytes, chunk: bytes, rest: bytes, max: nat)
    requires NEWLINE !in buf && u == chunk + rest && |buf| + |chunk| > max
    requires NEWLINE !in chunk || IndexOf(u, NEWLINE) == |chunk| - 1
    ensures FirstLine(buf + u, max) == TooLong
  {
    IndexPast(buf, u);
    if NEWLINE !in chunk { IndexPast(chunk, rest); }
  }

  // ------------------------------------------------------ the connection

  datatype Config = Config(requireAuth: bool, token: bytes, onUser: bool, onUnknown: bool)

  type Decoder = bytes -> Option<Frame>

  datatype Why = Unparsable | NoType | BadTokenFatal | BadTokenIgnored | NotAuthenticated

  datatype Event =
    | AuthAccepted
    | Dropped(line: bytes, why: Why)
    | ToUser(f: Frame, authed: bool)
    | ToUnknown(f: Frame, authed: bool)
    | Discarded(f: Frame, authed: bool)

  /** A handler would have been called, had it been set. */
  predicate Dispatched(e: Event) { e.ToUser? || e.ToUnknown? || e.Discarded? }

  /** call: the handler for the frame, else the fallback, else nothing. */
  function Hand(cfg: Config, f: Frame, authed: bool): Event {
    if f.kind == TYPE_USER && cfg.onUser then ToUser(f, authed)
    else if cfg.onUnknown then ToUnknown(f, authed)
    else Discarded(f, authed)
  }

  datatype Dispatch = Dispatch(event: Event, authed: bool, destroy: bool)

  /** dispatch: one line's event, the peer's Authed after it, and whether the
      connection is to be destroyed. */
  function DispatchLine(cfg: Config, decode: Decoder, line: bytes, first: bool, authed: bool): Dispatch {
    match decode(line)
    case None => Dispatch(Dropped(line, Unparsable), authed, false)
    case Some(f) =>
      if f.kind == [] then Dispatch(Dropped(line, NoType), authed, false)
      else if first && f.kind == TYPE_AUTH then
        if f.token == cfg.token then Dispatch(AuthAccepted, true, false)
        else if cfg.requireAuth then Dispatch(Dropped(line, BadTokenFatal), authed, true)
        else Dispatch(Dropped(line, BadTokenIgnored), authed, false)
      else if cfg.requireAuth && !authed then Dispatch(Dropped(line, NotAuthenticated), authed, true)
      else Dispatch(Hand(cfg, f, authed), authed, false)
  }

  /** The connection's events over its non-empty lines. */
  function Events(cfg: Config, decode: Decoder, lines: seq<bytes>, first: bool, authed: bool): seq<Event> {
    if lines == [] then []
    else
      var d := DispatchLine(cfg, decode, lines[0], first, authed);
      [d.event] + if d.destroy then [] else Events(cfg, decode, lines[1..], false, d.authed)
  }

  /** The non-empty lines a connection is served, in order. */
  function Served(s: bytes, max: nat): seq<bytes>
    decreases |s|
  {
    match FirstLine(s, max)
    case TooLong => []
    case Final(l) => if l == [] then [] else [l]
    case Complete(l, rest) => (if l == [] then [] else [l]) + Served(rest, max)
  }

  function NonEmpty(ls: seq<bytes>): seq<bytes> {
    if ls == [] then [] else (if ls[0] == [] then [] else [ls[0]]) + NonEmpty(ls[1..])
  }

  /** The reader with its caller loop refines "split at newline": the lines
      served are the non-empty pieces before the first one over the cap. */
  lemma {:induction false} ServedIsSplit(s: bytes, max: nat)
    ensures Served(s, max) == NonEmpty(Split(s)[..Fitting(Split(s), max, 0)])
    decreases |s|
  {
    var i := IndexOf(s, NEWLINE);
    var ls := Split(s);
    var n := Fitting(ls, max, 0);
    if i == |s| {
      assert ls == [s] && Cost(ls, 0) == |s|;
      if n == 1 {
        assert ls[..1] == [s] + [];
        NonEmptyCons(s, []);
      }
    } else {
      var l, t := s[..i], s[i + 1..];
      SplitHead(l, Split(t), ls);
      if i + 1 <= max {
        FittingTail(ls, Split(t), max);
        ServedIsSplit(t, max);
        HeadOfNonEmpty(l, Split(t), n);
      }
    }
  }

  lemma HeadOfNonEmpty(l: bytes, ms: seq<bytes>, n: nat)
    requires 0 < n <= |ms| + 1
    ensures NonEmpty(([l] + ms)[..n]) == (if l == [] then [] else [l]) + NonEmpty(ms[..n - 1])
  {
    assert ([l] + ms)[..n] == [l] + ms[..n - 1];
    NonEmptyCons(l, ms[..n - 1]);
  }

  lemma SplitHead(l: bytes, ms: seq<bytes>, ls: seq<bytes>)
    requires |ms| > 0 && ls == [l] + ms
    ensures ls[0] == l && ls[1..] == ms && |ls| == |ms| + 1 && Cost(ls, 0) == |l| + 1
  {
  }

  lemma NonEmptyCons(l: bytes, rest: seq<bytes>)
    ensures NonEmpty([l] + rest) == (if l == [] then [] else [l]) + NonEmpty(rest)
  {
    assert ([l] + rest)[1..] == rest;
  }

  lemma {:induction false} FittingShift(ls: seq<bytes>, ms: seq<bytes>, max: nat, k: nat)
    requires |ms| > 0 && |ls| == |ms| + 1 && ls[1..] == ms && k <= |ms|
    ensures Fitting(ls, max, k + 1) == Fitting(ms, max, k) + 1
    decreases |ms| - k
  {
    if k < |ms| {
      assert ms[k] == ls[k + 1];
      FittingShift(ls, ms, max, k + 1);
    }
  }

  lemma FittingTail(ls: seq<bytes>, ms: seq<bytes>, max: nat)
    requires |ms| > 0 && |ls| == |ms| + 1 && ls[1..] == ms && Cost(ls, 0) <= max
    ensures Fitting(ls, max, 0) == Fitting(ms, max, 0) + 1
  {
    FittingShift(ls, ms, max, 0);
  }

  // -------------------------------------------------------- handleConn

  /** A connection's record: its events and whether an over-long line ended it. */
  datatype Log = Log(events: seq<Event>, overlong: bool)

  function Conn(cfg: Config, decode: Decoder, s: bytes, max: nat, first: bool, authed: bool): Log
    decreases |s|
  {
    match FirstLine(s, max)
    case TooLong => Log([], true)
    case Final(l) =>
      Log(if l == [] then [] else [DispatchLine(cfg, decode, l, first, authed).event], false)
    case Complete(l, rest) =>
      if l == [] then Conn(cfg, decode, rest, max, first, authed)
      else
        var d := DispatchLine(cfg, decode, l, first, authed);
        if d.destroy then Log([d.event], false)
        else
          var more := Conn(cfg, decode, rest, max, false, d.authed);
          Log([d.event] + more.events, more.overlong)
  }

  /** The loop over the stream is the loop over the served lines. */
  lemma {:induction false} ConnIsEvents(cfg: Config, decode: Decoder, s: bytes, max: nat, first: bool, authed: bool)
    ensures Conn(cfg, decode, s, max, first, authed).events == Events(cfg, decode, Served(s, max), first, authed)
    decreases |s|
  {
    match FirstLine(s, max)
    case TooLong =>
    case Final(l) =>
      if l != [] { assert [l][1..] == []; }
    case Complete(l, rest) =>
      var more := Served(rest, max);
      if l == [] {
        assert [] + more == more;
        ConnIsEvents(cfg, decode, rest, max, first, authed);
      } else {
        var d := DispatchLine(cfg, decode, l, first, authed);
        assert ([l] + more)[1..] == more;
        ConnIsEvents(cfg, decode, rest, max, false, d.authed);
      }
  }

  class Peer {
    var authed: bool
    constructor () ensures !authed { authed := false; }
  }

  /** dispatch, setting the peer's flag in place. */
  method DispatchTo(cfg: Config, decode: Decoder, peer: Peer, line: bytes, isFirst: bool)
    returns (event: Event, destroy: bool)
    modifies peer
    ensures var d := DispatchLine(cfg, decode, line, isFirst, old(peer.authed));
            event == d.event && destroy == d.destroy && peer.authed == d.authed
  {
    var o := decode(line);
    if o.None? { return Dropped(line, Unparsable), false; }
    var f := o.value;
    if f.kind == [] { return Dropped(line, NoType), false; }
    if isFirst && f.kind == TYPE_AUTH {
      if f.token == cfg.token {
        peer.authed := true;
        return AuthAccepted, false;
      }
      if cfg.requireAuth { return Dropped(line, BadTokenFatal), true; }
      return Dropped(line, BadTokenIgnored), false;
    }
    if cfg.requireAuth && !peer.authed { return Dropped(line, NotAuthenticated), true; }
    return Hand(cfg, f, peer.authed), false;
  }

  /** handleConn: whatever the buffering, the record is `Conn` of the bytes. */
  method HandleConn(cfg: Config, decode: Decoder, src: Source) returns (events: seq<Event>, overlong: bool)
    requires src.Valid()
    modifies src
    ensures Log(events, overlong) == Conn(cfg, decode, old(src.rest), MAX_LINE, true, false)
  {
    var peer := new Peer();
    var first := true;
    events, overlong := [], false;
    ghost var whole := Conn(cfg, decode, src.rest, MAX_LINE, true, false);
    while true
      invariant !overlong && src.Valid()
      invariant var now := Conn(cfg, decode, src.rest, MAX_LINE, first, peer.authed);
                whole == Log(events + now.events, now.overlong)
      decreases |src.rest|
    {
      ghost var now := Conn(cfg, decode, src.rest, MAX_LINE, first, peer.authed);
      var line, complete, tooLong := src.ReadLine(MAX_LINE);
      if tooLong {
        assert events + now.events == events;
        return events, true;
      }
      if |line| > 0 {
        var event, destroy := DispatchTo(cfg, decode, peer, line, first);
        ghost var before := events;
        first := false;
        events := events + [event];
        Assoc(before, [event], now.events[1..]);
        assert now.events == [event] + now.events[1..];
        if destroy {
          assert now.events == [event];
          return events, false;
        }
      }
      if !complete {
        assert |line| == 0 ==> events + [] == events;
        return events, false;
      }
    }
  }

  // --------------------------------------------------- authentication gate

  /** The line that authenticates a connection: an auth frame with the right token. */
  predicate Opens(cfg: Config, decode: Decoder, line: bytes) {
    decode(line).Some? && decode(line).value.kind == TYPE_AUTH && decode(line).value.token == cfg.token
  }

  lemma TypeAuthNonEmpty()
    ensures TYPE_AUTH != [] && TYPE_USER != [] && TYPE_AUTH != TYPE_USER
  {
    assert TYPE_AUTH[0] == 97 && TYPE_USER[0] == 117;
  }

  /** The i-th line's dispatch, in closed form: only the first line matters besides its own. */
  function At(cfg: Config, decode: Decoder, lines: seq<bytes>, i: nat): Dispatch
    requires i < |lines|
  {
    DispatchLine(cfg, decode, lines[i], i == 0, i > 0 && Opens(cfg, decode, lines[0]))
  }

  /** After the first line the peer's flag is fixed. */
  lemma {:induction false} EventAfterFirst(cfg: Config, decode: Decoder, lines: seq<bytes>, authed: bool, i: nat)
    requires i < |Events(cfg, decode, lines, false, authed)|
    ensures i < |lines|
    ensures var es, d := Events(cfg, decode, lines, false, authed), DispatchLine(cfg, decode, lines[i], false, authed);
            es[i] == d.event && (i < |es| - 1 ==> !d.destroy)
    decreases i
  {
    assert DispatchLine(cfg, decode, lines[0], false, authed).authed == authed;
    if i > 0 {
      EventAfterFirst(cfg, decode, lines[1..], authed, i - 1);
    }
  }

  lemma {:induction false} EventsEnd(cfg: Config, decode: Decoder, lines: seq<bytes>, authed: bool)
    ensures var n := |Events(cfg, decode, lines, false, authed)|;
            n <= |lines| && (n < |lines| ==> n > 0 && DispatchLine(cfg, decode, lines[n - 1], false, authed).destroy)
    decreases |lines|
  {
    if lines != [] {
      assert DispatchLine(cfg, decode, lines[0], false, authed).authed == authed;
      EventsEnd(cfg, decode, lines[1..], authed);
    }
  }

  /** Every line up to the end is accounted for exactly once, and the end is the
      last line or the one that destroyed the connection. */
  lemma EveryLineAccounted(cfg: Config, decode: Decoder, lines: seq<bytes>)
    ensures var es := Events(cfg, decode, lines, true, false);
            |es| <= |lines|
            && (forall i :: 0 <= i < |es| ==> es[i] == At(cfg, decode, lines, i).event)
            && (forall i :: 0 <= i < |es| - 1 ==> !At(cfg, decode, lines, i).destroy)
            && (|es| < |lines| ==> |es| > 0 && At(cfg, decode, lines, |es| - 1).destroy)
  {
    if lines != [] {
      TypeAuthNonEmpty();
      var d := DispatchLine(cfg, decode, lines[0], true, false);
      var rest := lines[1..];
      assert d.authed == Opens(cfg, decode, lines[0]);
      EventsEnd(cfg, decode, rest, d.authed);
      var es, fs := Events(cfg, decode, lines, true, false), Events(cfg, decode, rest, false, d.authed);
      forall i | 0 <= i < |es|
        ensures es[i] == At(cfg, decode, lines, i).event && (i < |es| - 1 ==> !At(cfg, decode, lines, i).destroy)
      {
        if i > 0 {
          EventAfterFirst(cfg, decode, rest, d.authed, i - 1);
          assert es[i] == fs[i - 1] && lines[i] == rest[i - 1];
        }
      }
    }
  }

  /** The gate: under RequireAuth a frame is dispatched only on a connection
      whose first non-empty line was an auth frame with the right token, and
      then always as authenticated; the auth frame itself is never dispatched;
      and Authed, once true, holds for every later frame. */
  lemma AuthenticationGate(cfg: Config, decode: Decoder, lines: seq<bytes>, i: nat)
    requires i < |Events(cfg, decode, lines, true, false)|
    ensures var es := Events(cfg, decode, lines, true, false);
            (Dispatched(es[i]) ==> (es[i].authed <==> i > 0 && Opens(cfg, decode, lines[0])))
            && (cfg.requireAuth && Dispatched(es[i]) ==> i > 0 && Opens(cfg, decode, lines[0]) && es[i].authed)
            && (Opens(cfg, decode, lines[0]) <==> es[0] == AuthAccepted)
            && (decode(lines[0]).Some? && decode(lines[0]).value.kind == TYPE_AUTH ==> !Dispatched(es[0]))
  {
    EveryLineAccounted(cfg, decode, lines);
    TypeAuthNonEmpty();
  }

  predicate Typed(decode: Decoder, line: bytes) { decode(line).Some? && decode(line).value.kind != [] }

  /** Line i comes after one that ended the connection: authentication is required,
      the first line did not give it, and an earlier line held a typed frame. */
  predicate CutOff(cfg: Config, decode: Decoder, lines: seq<bytes>, i: nat)
    requires i < |lines|
  {
    cfg.requireAuth && !Opens(cfg, decode, lines[0]) && exists j :: 0 <= j < i && Typed(decode, lines[j])
  }

  /** Exactly the lines not cut off are processed, so an open connection stays open. */
  lemma ProcessedExactly(cfg: Config, decode: Decoder, lines: seq<bytes>, i: nat)
    requires i < |lines|
    ensures i < |Events(cfg, decode, lines, true, false)| <==> !CutOff(cfg, decode, lines, i)
  {
    var n := |Events(cfg, decode, lines, true, false)|;
    EveryLineAccounted(cfg, decode, lines);
    TypeAuthNonEmpty();
    forall j | 0 <= j < |lines|
      ensures At(cfg, decode, lines, j).destroy <==>
              cfg.requireAuth && !Opens(cfg, decode, lines[0]) && Typed(decode, lines[j])
    {
    }
    if i >= n { assert At(cfg, decode, lines, n - 1).destroy && Typed(decode, lines[n - 1]); }
    if CutOff(cfg, decode, lines, i) {
      var j :| 0 <= j < i && Typed(decode, lines[j]);
      assert At(cfg, decode, lines, j).destroy;
    }
  }

  /** The fate of a typed frame on a connection that serves it: OnUser gets a user
      frame, OnUnknown whatever no handler took, and a frame is let go of only when
      neither is set. */
  lemma HandlerCalled(cfg: Config, decode: Decoder, lines: seq<bytes>, i: nat, f: Frame, authed: bool)
    requires i < |lines| && decode(lines[i]) == Some(f) && f.kind != []
    requires authed == (i > 0 && Opens(cfg, decode, lines[0])) && (authed || !cfg.requireAuth)
    requires i == 0 ==> f.kind != TYPE_AUTH
    ensures var es := Events(cfg, decode, lines, true, false);
            i < |es|
            && (es[i] == ToUser(f, authed) <==> f.kind == TYPE_USER && cfg.onUser)
            && (es[i] == ToUnknown(f, authed) <==> !(f.kind == TYPE_USER && cfg.onUser) && cfg.onUnknown)
            && (es[i] == Discarded(f, authed) <==> !(f.kind == TYPE_USER && cfg.onUser) && !cfg.onUnknown)
  {
    ProcessedExactly(cfg, decode, lines, i);
    EveryLineAccounted(cfg, decode, lines);
  }

  /** Every other line that is processed, with the reason its frame reaches no handler. */
  lemma LineNotHanded(cfg: Config, decode: Decoder, lines: seq<bytes>, i: nat)
    requires i < |lines| && i < |Events(cfg, decode, lines, true, false)|
    ensures var e, r := Events(cfg, decode, lines, true, false)[i], decode(lines[i]);
            var auth := i == 0 && r.Some? && r.value.kind == TYPE_AUTH;
            (e == Dropped(lines[i], Unparsable) <==> r.None?)
            && (e == Dropped(lines[i], NoType) <==> r.Some? && r.value.kind == [])
            && (e == AuthAccepted <==> auth && r.value.token == cfg.token)
            && (e == Dropped(lines[i], BadTokenFatal) <==> auth && r.value.token != cfg.token && cfg.requireAuth)
            && (e == Dropped(lines[i], BadTokenIgnored) <==> auth && r.value.token != cfg.token && !cfg.requireAuth)
            && (e == Dropped(lines[i], NotAuthenticated) <==>
                  Typed(decode, lines[i]) && !auth && cfg.requireAuth && !Opens(cfg, decode, lines[0]))
  {
    EveryLineAccounted(cfg, decode, lines);
    TypeAuthNonEmpty();
  }

  /** Once open, nothing closes it: every later line is processed, and every later
      user frame reaches OnUser as authenticated. */
  lemma OpenStaysOpen(cfg: Config, decode: Decoder, lines: seq<bytes>, i: nat)
    requires 0 < i < |lines| && Opens(cfg, decode, lines[0])
    ensures var es := Events(cfg, decode, lines, true, false);
            |es| == |lines| &&
            (decode(lines[i]).Some? && decode(lines[i]).value.kind == TYPE_USER && cfg.onUser ==>
               es[i] == ToUser(decode(lines[i]).value, true))
  {
    EveryLineAccounted(cfg, decode, lines);
    TypeAuthNonEmpty();
    if Typed(decode, lines[i]) { HandlerCalled(cfg, decode, lines, i, decode(lines[i]).value, true); }
  }

  /** No line of the list ends the connection. */
  predicate AllPass(cfg: Config, decode: Decoder, lines: seq<bytes>, first: bool, authed: bool)
    decreases |lines|
  {
    lines == [] ||
    (var d := DispatchLine(cfg, decode, lines[0], first, authed);
     !d.destroy && AllPass(cfg, decode, lines[1..], false, d.authed))
  }

  lemma {:induction false} ConnOverlong(cfg: Config, decode: Decoder, s: bytes, max: nat, first: bool, authed: bool)
    ensures Conn(cfg, decode, s, max, first, authed).overlong <==>
            Overlong(s, max) && AllPass(cfg, decode, Served(s, max), first, authed)
    decreases |s|
  {
    match FirstLine(s, max)
    case TooLong =>
    case Final(l) =>
    case Complete(l, rest) =>
      var more := Served(rest, max);
      if l == [] {
        assert [] + more == more;
        ConnOverlong(cfg, decode, rest, max, first, authed);
      } else {
        assert ([l] + more)[1..] == more;
        ConnOverlong(cfg, decode, rest, max, false, DispatchLine(cfg, decode, l, first, authed).authed);
      }
  }

  /** Some line of the stream is too long. */
  predicate Overlong(s: bytes, max: nat)
    decreases |s|
  {
    match FirstLine(s, max) case TooLong => true case Final(_) => false case Complete(_, rest) => Overlong(rest, max)
  }

  predicate SomeOver(ls: seq<bytes>, max: nat) { exists k :: 0 <= k < |ls| && Cost(ls, k) > max }

  lemma {:induction false} OverlongPieces(s: bytes, max: nat)
    ensures Overlong(s, max) <==> SomeOver(Split(s), max)
    decreases |s|
  {
    var i := IndexOf(s, NEWLINE);
    var ls := Split(s);
    if i == |s| {
      assert ls == [s] && Cost(ls, 0) == |s|;
    } else {
      var l, ms := s[..i], Split(s[i + 1..]);
      SplitHead(l, ms, ls);
      OverlongPieces(s[i + 1..], max);
      OverHead(ls, ms, max);
      assert Overlong(s, max) <==> i + 1 > max || Overlong(s[i + 1..], max);
    }
  }

  lemma OverHead(ls: seq<bytes>, ms: seq<bytes>, max: nat)
    requires |ms| > 0 && |ls| == |ms| + 1 && ls[1..] == ms
    ensures SomeOver(ls, max) <==> Cost(ls, 0) > max || SomeOver(ms, max)
  {
    if k :| 0 <= k < |ms| && Cost(ms, k) > max { assert ls[k + 1] == ms[k] && Cost(ls, k + 1) > max; }
    if k :| 0 < k < |ls| && Cost(ls, k) > max { assert ms[k - 1] == ls[k] && Cost(ms, k - 1) > max; }
  }

  lemma {:induction false} PassesAfterFirst(cfg: Config, decode: Decoder, lines: seq<bytes>, authed: bool)
    ensures AllPass(cfg, decode, lines, false, authed) <==>
            !(cfg.requireAuth && !authed && exists j :: 0 <= j < |lines| && Typed(decode, lines[j]))
    decreases |lines|
  {
    if lines != [] {
      PassesAfterFirst(cfg, decode, lines[1..], authed);
      assert forall j :: 0 < j < |lines| ==> lines[j] == lines[1..][j - 1];
    }
  }

  lemma AllPassExactly(cfg: Config, decode: Decoder, lines: seq<bytes>)
    ensures AllPass(cfg, decode, lines, true, false) <==>
            !(cfg.requireAuth && lines != [] && !Opens(cfg, decode, lines[0]) && exists j :: 0 <= j < |lines| && Typed(decode, lines[j]))
  {
    if lines != [] {
      TypeAuthNonEmpty();
      PassesAfterFirst(cfg, decode, lines[1..], Opens(cfg, decode, lines[0]));
      assert forall j :: 0 < j < |lines| ==> lines[j] == lines[1..][j - 1];
    }
  }

  /** A connection ends for an over-long line exactly when one of its pieces is over
      the cap and no typed frame before it had ended the connection already. */
  lemma OverlongExactly(cfg: Config, decode: Decoder, s: bytes, max: nat)
    ensures var lines := Served(s, max);
            Conn(cfg, decode, s, max, true, false).overlong <==>
              SomeOver(Split(s), max)
              && !(cfg.requireAuth && lines != [] && !Opens(cfg, decode, lines[0]) && exists j :: 0 <= j < |lines| && Typed(decode, lines[j]))
  {
    ConnOverlong(cfg, decode, s, max, true, false);
    OverlongPieces(s, max);
    AllPassExactly(cfg, decode, Served(s, max));
  }

  // ---------------------------------------------------- client against server

  /** A decoder that undoes the printer, invalid UTF-8 aside. */
  ghost predicate Faithful(decode: Decoder) {
    forall f :: decode(Marshal(f)) == Some(CleanFrame(f))
  }

  lemma FrameDecoderIsFaithful()
    ensures Faithful(DecodeFrame)
  {
    forall f ensures DecodeFrame(Marshal(f)) == Some(CleanFrame(f)) { FrameRoundTrip(f); }
  }

  predicate Sendable(fs: seq<Frame>) {
    forall i :: 0 <= i < |fs| ==> EncodeFrame(fs[i]).Some?
  }

  /** The bytes of a run of Sends. */
  function Wire(fs: seq<Frame>): bytes
    requires Sendable(fs)
  {
    if fs == [] then [] else EncodeFrame(fs[0]).value + Wire(fs[1..])
  }

  function Printed(fs: seq<Frame>): (ls: seq<bytes>)
    ensures |ls| == |fs| && forall i :: 0 <= i < |fs| ==> ls[i] == Marshal(fs[i])
  {
    if fs == [] then [] else [Marshal(fs[0])] + Printed(fs[1..])
  }

  lemma {:induction false} WireIsJoin(fs: seq<Frame>)
    requires Sendable(fs)
    ensures Wire(fs) == Join(Printed(fs) + [[]])
  {
    var ls := Printed(fs) + [[]];
    if fs == [] {
      assert ls == [[]];
    } else {
      assert ls[1..] == Printed(fs[1..]) + [[]];
      WireIsJoin(fs[1..]);
    }
  }

  lemma {:induction false} NonEmptyKeeps(ls: seq<bytes>)
    requires forall i :: 0 <= i < |ls| ==> ls[i] != []
    ensures NonEmpty(ls + [[]]) == ls
  {
    if ls == [] {
      assert NonEmpty([[]]) == [] + NonEmpty([[]][1..]);
    } else {
      assert (ls + [[]])[1..] == ls[1..] + [[]];
      NonEmptyKeeps(ls[1..]);
    }
  }

  /** Every line encodeFrame emits passes the reader: the frames sent are the lines served. */
  lemma SentIsServed(fs: seq<Frame>)
    requires Sendable(fs)
    ensures Served(Wire(fs), MAX_LINE) == Printed(fs)
  {
    var ls := Printed(fs) + [[]];
    PrintedFit(fs);
    PiecesFit(Printed(fs), MAX_LINE);
    WireIsJoin(fs);
    SplitUnique(ls);
    ServedIsSplit(Wire(fs), MAX_LINE);
    AllFit(ls, MAX_LINE);
    NonEmptyKeeps(Printed(fs));
  }

  lemma PrintedFit(fs: seq<Frame>)
    requires Sendable(fs)
    ensures forall i :: 0 <= i < |fs| ==> NEWLINE !in Printed(fs)[i] && 0 < |Printed(fs)[i]| < MAX_LINE
  {
    forall i | 0 <= i < |fs| ensures NEWLINE !in Printed(fs)[i] && 0 < |Printed(fs)[i]| < MAX_LINE {
      FrameFits(fs[i]);
    }
  }

  lemma FrameFits(f: Frame)
    requires EncodeFrame(f).Some?
    ensures NEWLINE !in Marshal(f) && 0 < |Marshal(f)| < MAX_LINE
  {
    MarshalIsOneLine(f);
  }

  lemma PiecesFit(ps: seq<bytes>, max: nat)
    requires forall i :: 0 <= i < |ps| ==> NEWLINE !in ps[i] && |ps[i]| < max
    ensures var ls := ps + [[]]; forall i :: 0 <= i < |ls| ==> NEWLINE !in ls[i] && Cost(ls, i) <= max
  {
  }

  lemma AllFit(ls: seq<bytes>, max: nat)
    requires forall i :: 0 <= i < |ls| ==> Cost(ls, i) <= max
    ensures ls[..Fitting(ls, max, 0)] == ls
  {
    assert Fitting(ls, max, 0) == |ls|;
  }

  /** What Dial sends first, when it has a token. */
  function AuthFrame(token: bytes): Frame { EMPTY.(kind := TYPE_AUTH, token := token) }

  predicate AllUser(fs: seq<Frame>) { forall i :: 0 <= i < |fs| ==> fs[i].kind == TYPE_USER }

  /** What the user frames of a connection that hears them come to: each its own event, in order. */
  function Heeded(cfg: Config, fs: seq<Frame>, authed: bool): (es: seq<Event>)
    ensures |es| == |fs|
    ensures cfg.onUser ==> forall i :: 0 <= i < |fs| ==> es[i] == ToUser(CleanFrame(fs[i]), authed)
    ensures !cfg.onUser && cfg.onUnknown ==> forall i :: 0 <= i < |fs| ==> es[i] == ToUnknown(CleanFrame(fs[i]), authed)
    ensures !cfg.onUser && !cfg.onUnknown ==> forall i :: 0 <= i < |fs| ==> es[i] == Discarded(CleanFrame(fs[i]), authed)
  {
    if fs == [] then []
    else
      var f := CleanFrame(fs[0]);
      [if cfg.onUser then ToUser(f, authed) else if cfg.onUnknown then ToUnknown(f, authed) else Discarded(f, authed)]
      + Heeded(cfg, fs[1..], authed)
  }

  lemma TypesClean()
    ensures Utf8.Sanitize(TYPE_USER) == TYPE_USER && Utf8.Sanitize(TYPE_AUTH) == TYPE_AUTH
  {
    LitAscii("user");
    LitAscii("auth");
    SanitizeAscii(TYPE_USER);
    SanitizeAscii(TYPE_AUTH);
  }

  lemma {:induction false} UsersDispatched(cfg: Config, decode: Decoder, fs: seq<Frame>, authed: bool)
    requires Faithful(decode) && AllUser(fs) && (authed || !cfg.requireAuth)
    ensures Events(cfg, decode, Printed(fs), false, authed) == Heeded(cfg, fs, authed)
    decreases |fs|
  {
    if fs != [] {
      UserLine(cfg, decode, fs[0], false, authed);
      assert Printed(fs)[1..] == Printed(fs[1..]);
      UsersDispatched(cfg, decode, fs[1..], authed);
    }
  }

  lemma UserLine(cfg: Config, decode: Decoder, f: Frame, first: bool, authed: bool)
    requires Faithful(decode) && f.kind == TYPE_USER && (authed || !cfg.requireAuth)
    ensures DispatchLine(cfg, decode, Marshal(f), first, authed) == Dispatch(Heeded(cfg, [f], authed)[0], authed, false)
  {
    TypesClean();
    TypeAuthNonEmpty();
    assert decode(Marshal(f)) == Some(CleanFrame(f));
  }

  /** A whole session, client to server, under any buffering: the right token
      gets every frame dispatched in order as authenticated; a wrong one gets
      none where authentication is required and all, unauthenticated, where it is not. */
  lemma SessionWithToken(cfg: Config, decode: Decoder, token: bytes, fs: seq<Frame>)
    requires Faithful(decode) && AllUser(fs) && Sendable([AuthFrame(token)] + fs)
    ensures var es := Conn(cfg, decode, Wire([AuthFrame(token)] + fs), MAX_LINE, true, false).events;
            var line := Marshal(AuthFrame(token));
            if Utf8.Sanitize(token) == cfg.token then es == [AuthAccepted] + Heeded(cfg, fs, true)
            else if cfg.requireAuth then es == [Dropped(line, BadTokenFatal)]
            else es == [Dropped(line, BadTokenIgnored)] + Heeded(cfg, fs, false)
  {
    var all := [AuthFrame(token)] + fs;
    SentIsServed(all);
    ConnIsEvents(cfg, decode, Wire(all), MAX_LINE, true, false);
    assert Printed(all)[0] == Marshal(AuthFrame(token)) && Printed(all)[1..] == Printed(fs);
    TypesClean();
    TypeAuthNonEmpty();
    assert decode(Printed(all)[0]) == Some(CleanFrame(AuthFrame(token)));
    if Utf8.Sanitize(token) == cfg.token {
      UsersDispatched(cfg, decode, fs, true);
    } else if !cfg.requireAuth {
      UsersDispatched(cfg, decode, fs, false);
    }
  }

  /** Dialling without a token: served where authentication is optional, cut off
      at the first frame where it is required. */
  lemma SessionWithoutToken(cfg: Config, decode: Decoder, fs: seq<Frame>)
    requires Faithful(decode) && AllUser(fs) && Sendable(fs) && fs != []
    ensures var es := Conn(cfg, decode, Wire(fs), MAX_LINE, true, false).events;
            es == if cfg.requireAuth then [Dropped(Marshal(fs[0]), NotAuthenticated)] else Heeded(cfg, fs, false)
  {
    SentIsServed(fs);
    ConnIsEvents(cfg, decode, Wire(fs), MAX_LINE, true, false);
    assert Printed(fs)[1..] == Printed(fs[1..]);
    if cfg.requireAuth {
      UserLineRefused(cfg, decode, fs[0]);
    } else {
      UserLine(cfg, decode, fs[0], true, false);
      UsersDispatched(cfg, decode, fs[1..], false);
    }
  }

  lemma UserLineRefused(cfg: Config, decode: Decoder, f: Frame)
    requires Faithful(decode) && f.kind == TYPE_USER && cfg.requireAuth
    ensures DispatchLine(cfg, decode, Marshal(f), true, false) == Dispatch(Dropped(Marshal(f), NotAuthenticated), false, true)
  {
    TypesClean();
    TypeAuthNonEmpty();
    assert decode(Marshal(f)) == Some(CleanFrame(f));
  }

  /** What Dial has sent by the time it returns. */
  function Dialled(token: bytes): seq<Frame> { if token == [] then [] else [AuthFrame(token)] }

  predicate Admitted(cfg: Config, token: bytes) { token != [] && Utf8.Sanitize(token) == cfg.token }

  /** The server will dispatch what follows. */
  predicate Heard(cfg: Config, token: bytes) { Admitted(cfg, token) || !cfg.requireAuth }

  /** What the server makes of the auth frame alone. */
  function Opening(cfg: Config, token: bytes): seq<Event> {
    if token == [] then []
    else if Admitted(cfg, token) then [AuthAccepted]
    else [Dropped(Marshal(AuthFrame(token)), if cfg.requireAuth then BadTokenFatal else BadTokenIgnored)]
  }

  /** What it makes of the user frames that follow. */
  function Following(cfg: Config, token: bytes, fs: seq<Frame>): seq<Event> {
    if Heard(cfg, token) then Heeded(cfg, fs, Admitted(cfg, token))
    else if token == [] && fs != [] then [Dropped(Marshal(fs[0]), NotAuthenticated)]
    else []
  }

  lemma EmptySession(cfg: Config, decode: Decoder)
    ensures Conn(cfg, decode, [], MAX_LINE, true, false).events == []
  {
    assert IndexOf([], NEWLINE) == 0;
  }

  /** Every session a client can have, whatever its token and however many frames follow. */
  lemma SessionExactly(cfg: Config, decode: Decoder, token: bytes, fs: seq<Frame>, wire: seq<Frame>)
    requires Faithful(decode) && AllUser(fs) && wire == Dialled(token) + fs && Sendable(wire)
    ensures Conn(cfg, decode, Wire(wire), MAX_LINE, true, false).events == Opening(cfg, token) + Following(cfg, token, fs)
  {
    if token != [] {
      SessionWithToken(cfg, decode, token, fs);
      NothingAfter(Opening(cfg, token));
    } else {
      assert wire == fs;
      if fs == [] { EmptySession(cfg, decode); } else { SessionWithoutToken(cfg, decode, fs); }
      NothingBefore(Following(cfg, token, fs));
    }
  }

  /** So an inbox with an OnUser that hears the client hands it exactly the frames
      sent after the opening, in order, with the authentication the token earned. */
  lemma EveryFrameReachesUser(cfg: Config, decode: Decoder, token: bytes, fs: seq<Frame>, wire: seq<Frame>, i: nat)
    requires Faithful(decode) && AllUser(fs) && wire == Dialled(token) + fs && Sendable(wire)
    requires cfg.onUser && (cfg.requireAuth ==> token != [] && Utf8.Sanitize(token) == cfg.token) && i < |fs|
    ensures var es := Conn(cfg, decode, Wire(wire), MAX_LINE, true, false).events;
            |es| == |wire| &&
            es[|wire| - |fs| + i] == ToUser(CleanFrame(fs[i]), token != [] && Utf8.Sanitize(token) == cfg.token)
  {
    SessionExactly(cfg, decode, token, fs, wire);
    HeededAt(Opening(cfg, token), Following(cfg, token, fs), |Dialled(token)|, i);
    assert |wire| == |Dialled(token)| + |fs|;
  }

  lemma HeededAt(a: seq<Event>, b: seq<Event>, n: nat, i: nat)
    requires |a| == n && i < |b|
    ensures (a + b)[n + i] == b[i] && |a + b| == n + |b|
  {
  }

  lemma NothingAfter(es: seq<Event>)
    ensures es + [] == es
  {
  }

  lemma NothingBefore(es: seq<Event>)
    ensures [] + es == es
  {
  }
}
