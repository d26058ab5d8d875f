/** ReadMessage (codexmsg/ws.go): reassembling one message from frames that may
    be fragmented and interleaved with control frames (sections 5.4 and 5.5 of
    RFC 6455). `ReadMessage` works on bytes; `Assemble` is the same loop over
    decoded frames; `Completes` is the acceptance set in closed form. */
module Reassembly {
  import opened Bytes
  import opened WebSocket

  datatype Incoming = Incoming(opcode: nat, payload: bytes, fin: bool)

  datatype ReadError =
    | EndOfStream | FrameTooLong(length: nat) | NestedData | NothingToContinue
    | UnknownOpcode(opcode: nat) | ReplyFailed | PeerClosed

  datatype Reply = Reply(opcode: byte, payload: bytes)

  /** The loop's two variables: the bytes so far and the opcode that opened the message. */
  datatype Partial = Partial(buf: bytes, op: nat)
  const FRESH := Partial([], 0)

  datatype Step =
    | More(p: Partial)
    | Pong(payload: bytes)
    | Finished(data: bytes)
    | Rejected(e: ReadError)
    | Closing(payload: bytes)

  /** One iteration's decision. A fresh data frame is refused by what the
      buffer holds, not by whether a message is open. */
  function OnFrame(p: Partial, f: Incoming): Step {
    if f.opcode == OP_PING then Pong(f.payload)
    else if f.opcode == OP_PONG then More(p)
    else if f.opcode == OP_CLOSE then Closing(f.payload)
    else if f.opcode == OP_TEXT || f.opcode == OP_BINARY then
      if |p.buf| > 0 then Rejected(NestedData)
      else if f.fin then Finished(f.payload)
      else More(Partial(f.payload, f.opcode))
    else if f.opcode == OP_CONTINUATION then
      if p.op == 0 then Rejected(NothingToContinue)
      else if f.fin then Finished(p.buf + f.payload)
      else More(Partial(p.buf + f.payload, p.op))
    else Rejected(UnknownOpcode(f.opcode))
  }

  datatype Outcome = Message(data: bytes, rest: bytes) | Failed(e: ReadError)
  datatype Reading = Reading(outcome: Outcome, replies: seq<Reply>)

  function WithReply(r: Reply, x: Reading): Reading {
    x.(replies := [r] + x.replies)
  }

  /** ReadMessage on the unread bytes `s`. `budget` is how many more reply
      frames the connection will take before a write on it fails. */
  function ReadMessage(s: bytes, p: Partial, budget: nat): (r: Reading)
    ensures r.outcome.Message? ==> |r.outcome.rest| + 2 <= |s|
    ensures |r.replies| <= budget
    decreases |s|, 0
  {
    match ReadFrame(s)
    case Truncated => Reading(Failed(EndOfStream), [])
    case Oversized(n, _) => Reading(Failed(FrameTooLong(n)), [])
    case Frame(op, payload, fin, rest) => Proceed(OnFrame(p, Incoming(op, payload, fin)), p, rest, budget)
  }

  /** What follows an iteration's decision, `rest` being unread. */
  function Proceed(step: Step, p: Partial, rest: bytes, budget: nat): (r: Reading)
    ensures r.outcome.Message? ==> |r.outcome.rest| <= |rest|
    ensures |r.replies| <= budget
    decreases |rest|, 1
  {
    match step
    case More(p') => ReadMessage(rest, p', budget)
    case Pong(x) =>
      if budget == 0 then Reading(Failed(ReplyFailed), [])
      else WithReply(Reply(OP_PONG, x), ReadMessage(rest, p, budget - 1))
    case Finished(data) => Reading(Message(data, rest), [])
    case Rejected(e) => Reading(Failed(e), [])
    case Closing(x) => Reading(Failed(PeerClosed), if budget == 0 then [] else [Reply(OP_CLOSE, x)])
  }

  // ------------------------------------------------ the same loop on frames

  datatype Verdict =
    | Complete(data: bytes, used: nat)
    | Stopped(e: ReadError)
    | Starved(p: Partial, budget: nat)
  datatype Assembly = Assembly(verdict: Verdict, replies: seq<Reply>)

  function Shift(a: Assembly): Assembly {
    if a.verdict.Complete? then a.(verdict := a.verdict.(used := a.verdict.used + 1)) else a
  }

  function Assemble(fs: seq<Incoming>, p: Partial, budget: nat): (a: Assembly)
    ensures a.verdict.Complete? ==> 1 <= a.verdict.used <= |fs|
    decreases |fs|, 0
  {
    if fs == [] then Assembly(Starved(p, budget), []) else Follow(OnFrame(p, fs[0]), p, fs[1..], budget)
  }

  function Follow(step: Step, p: Partial, rest: seq<Incoming>, budget: nat): (a: Assembly)
    ensures a.verdict.Complete? ==> 1 <= a.verdict.used <= |rest| + 1
    decreases |rest|, 1
  {
    match step
    case More(p') => Shift(Assemble(rest, p', budget))
    case Pong(x) =>
      if budget == 0 then Assembly(Stopped(ReplyFailed), [])
      else
        var a := Shift(Assemble(rest, p, budget - 1));
        a.(replies := [Reply(OP_PONG, x)] + a.replies)
    case Finished(data) => Assembly(Complete(data, 1), [])
    case Rejected(e) => Assembly(Stopped(e), [])
    case Closing(x) => Assembly(Stopped(PeerClosed), if budget == 0 then [] else [Reply(OP_CLOSE, x)])
  }

  predicate Sendable(ws: seq<WireFrame>) {
    forall w :: w in ws ==> WellFormed(w) && |w.payload| <= MAX_FRAME
  }

  function Wire(ws: seq<WireFrame>): bytes
    requires Sendable(ws)
  {
    if ws == [] then [] else Encode(ws[0]) + Wire(ws[1..])
  }

  function Decoded(ws: seq<WireFrame>): (fs: seq<Incoming>)
    ensures |fs| == |ws|
    ensures forall i :: 0 <= i < |ws| ==> fs[i] == Incoming(ws[i].opcode, ws[i].payload, ws[i].fin)
  {
    seq(|ws|, i requires 0 <= i < |ws| => Incoming(ws[i].opcode, ws[i].payload, ws[i].fin))
  }

  /** What reading the bytes must give, in terms of what assembling the frames gives. */
  function Expected(a: Assembly, ws: seq<WireFrame>, t: bytes): Reading
    requires Sendable(ws) && (a.verdict.Complete? ==> a.verdict.used <= |ws|)
  {
    match a.verdict
    case Complete(data, n) => Reading(Message(data, Wire(ws[n..]) + t), a.replies)
    case Stopped(e) => Reading(Failed(e), a.replies)
    case Starved(p, b) => var r := ReadMessage(t, p, b); r.(replies := a.replies + r.replies)
  }

  /** One iteration on an encoded frame. */
  lemma ReadStep(w: WireFrame, u: bytes, p: Partial, budget: nat)
    requires WellFormed(w) && |w.payload| <= MAX_FRAME
    ensures ReadMessage(Encode(w) + u, p, budget) ==
            Proceed(OnFrame(p, Incoming(w.opcode, w.payload, w.fin)), p, u, budget)
  {
    ReadEncoded(w, u);
  }

  /** Bytes refine frames: reading encoded frames followed by any bytes gives
      what assembling the frames gives, stops at the next frame boundary, and
      goes on into the following bytes only when the frames run out. */
  lemma {:induction false} ReadRefinesAssemble(ws: seq<WireFrame>, t: bytes, p: Partial, budget: nat)
    requires Sendable(ws)
    ensures ReadMessage(Wire(ws) + t, p, budget) == Expected(Assemble(Decoded(ws), p, budget), ws, t)
    decreases |ws|, 0
  {
    if ws == [] {
      assert Wire(ws) + t == t;
      var r := ReadMessage(t, p, budget);
      assert [] + r.replies == r.replies;
    } else {
      var w, rest := ws[0], ws[1..];
      var step := OnFrame(p, Incoming(w.opcode, w.payload, w.fin));
      assert ReadMessage(Wire(ws) + t, p, budget) == Proceed(step, p, Wire(rest) + t, budget) by {
        ReadStep(w, Wire(rest) + t, p, budget);
        Assoc(Encode(w), Wire(rest), t);
      }
      assert Assemble(Decoded(ws), p, budget) == Follow(step, p, Decoded(rest), budget) by {
        assert Decoded(ws)[1..] == Decoded(rest);
      }
      ProceedRefinesFollow(step, p, ws, t, budget);
    }
  }

  lemma {:induction false} ProceedRefinesFollow(step: Step, p: Partial, ws: seq<WireFrame>, t: bytes, budget: nat)
    requires ws != [] && Sendable(ws)
    ensures Proceed(step, p, Wire(ws[1..]) + t, budget) == Expected(Follow(step, p, Decoded(ws[1..]), budget), ws, t)
    decreases |ws| - 1, 2
  {
    var rest := ws[1..];
    match step
    case More(p') =>
      ReadRefinesAssemble(rest, t, p', budget);
      ExpectedShift(Assemble(Decoded(rest), p', budget), ws, t);
    case Pong(x) =>
      if budget > 0 { PongRefines(x, p, ws, t, budget); }
    case Finished(data) =>
    case Rejected(e) =>
    case Closing(x) =>
  }

  lemma {:induction false} PongRefines(x: bytes, p: Partial, ws: seq<WireFrame>, t: bytes, budget: nat)
    requires ws != [] && Sendable(ws) && budget > 0
    ensures Proceed(Pong(x), p, Wire(ws[1..]) + t, budget) == Expected(Follow(Pong(x), p, Decoded(ws[1..]), budget), ws, t)
    decreases |ws| - 1, 1
  {
    var rest := ws[1..];
    var a := Assemble(Decoded(rest), p, budget - 1);
    PongUnfolds(x, p, Wire(rest) + t, Decoded(rest), budget);
    assert ReadMessage(Wire(rest) + t, p, budget - 1) == Expected(Shift(a), ws, t) by {
      ReadRefinesAssemble(rest, t, p, budget - 1);
      ExpectedShift(a, ws, t);
    }
    ExpectedReply(Shift(a), ws, t, Reply(OP_PONG, x));
  }

  lemma PongUnfolds(x: bytes, p: Partial, s: bytes, fs: seq<Incoming>, budget: nat)
    requires budget > 0
    ensures Proceed(Pong(x), p, s, budget) == WithReply(Reply(OP_PONG, x), ReadMessage(s, p, budget - 1))
    ensures var a := Shift(Assemble(fs, p, budget - 1));
            Follow(Pong(x), p, fs, budget) == a.(replies := [Reply(OP_PONG, x)] + a.replies)
  {
  }

  lemma ExpectedShift(a: Assembly, ws: seq<WireFrame>, t: bytes)
    requires ws != [] && Sendable(ws) && (a.verdict.Complete? ==> a.verdict.used <= |ws| - 1)
    ensures Expected(Shift(a), ws, t) == Expected(a, ws[1..], t)
  {
    if a.verdict.Complete? {
      assert ws[1..][a.verdict.used..] == ws[a.verdict.used + 1..];
    }
  }

  lemma ExpectedReply(a: Assembly, ws: seq<WireFrame>, t: bytes, r: Reply)
    requires Sendable(ws) && (a.verdict.Complete? ==> a.verdict.used <= |ws|)
    ensures Expected(a.(replies := [r] + a.replies), ws, t) == WithReply(r, Expected(a, ws, t))
  {
    if a.verdict.Starved? {
      var x := ReadMessage(t, a.verdict.p, a.verdict.budget);
      assert [r] + a.replies + x.replies == [r] + (a.replies + x.replies);
    }
  }

  // -------------------------------------------------- control frames aside

  predicate IsData(f: Incoming) {
    f.opcode == OP_CONTINUATION || f.opcode == OP_TEXT || f.opcode == OP_BINARY
  }

  /** A frame that may appear inside a message without ending the connection. */
  predicate Ordinary(f: Incoming) {
    IsData(f) || f.opcode == OP_PING || f.opcode == OP_PONG
  }

  function DataOf(fs: seq<Incoming>): seq<Incoming> {
    if fs == [] then [] else (if IsData(fs[0]) then [fs[0]] else []) + DataOf(fs[1..])
  }

  /** One pong per ping, carrying its payload, in order. */
  function PongsFor(fs: seq<Incoming>): seq<Reply> {
    if fs == [] then []
    else (if fs[0].opcode == OP_PING then [Reply(OP_PONG, fs[0].payload)] else []) + PongsFor(fs[1..])
  }

  function Payloads(fs: seq<Incoming>): bytes {
    if fs == [] then [] else fs[0].payload + Payloads(fs[1..])
  }

  // ------------------------------------------------------- acceptance set

  /** Frame `f` may follow the data frames before it, whose payloads are `before`. */
  predicate Placed(f: Incoming, before: bytes, open: bool) {
    if f.opcode == OP_CONTINUATION then open else before == []
  }

  /** The closed form: FIN on the last frame only, and every frame placed. */
  predicate Completes(ds: seq<Incoming>, before: bytes, open: bool) {
    |ds| > 0 && Placed(ds[0], before, open) &&
    if |ds| == 1 then ds[0].fin else !ds[0].fin && Completes(ds[1..], before + ds[0].payload, true)
  }

  /** Section 5.4: a data frame, then continuations, FIN on the last only. */
  predicate RfcMessage(ds: seq<Incoming>) {
    |ds| > 0 && (ds[0].opcode == OP_TEXT || ds[0].opcode == OP_BINARY) &&
    (forall i :: 0 < i < |ds| ==> ds[i].opcode == OP_CONTINUATION) &&
    (forall i :: 0 <= i < |ds| ==> (ds[i].fin <==> i == |ds| - 1))
  }

  /** Fragments that leave no trace: opened by a data frame, never final, all empty. */
  predicate Traceless(ds: seq<Incoming>) {
    (|ds| > 0 ==> ds[0].opcode != OP_CONTINUATION) &&
    forall i :: 0 <= i < |ds| ==> !ds[i].fin && ds[i].payload == []
  }

  predicate SplitsAt(ds: seq<Incoming>, k: nat) {
    k <= |ds| && Traceless(ds[..k]) && RfcMessage(ds[k..])
  }

  ghost predicate Accepted(ds: seq<Incoming>) {
    exists k: nat :: SplitsAt(ds, k)
  }

  predicate AllData(ds: seq<Incoming>) { forall f :: f in ds ==> IsData(f) }
  predicate AllOrdinary(fs: seq<Incoming>) { forall f :: f in fs ==> Ordinary(f) }

  /** A loop state a data-only prefix can leave behind. */
  predicate Coherent(p: Partial) { p.op == 0 ==> p.buf == [] }

  /** A ping or pong changes neither loop variable; a ping is answered. */
  lemma AssembleControl(fs: seq<Incoming>, p: Partial, budget: nat)
    requires fs != [] && Ordinary(fs[0]) && !IsData(fs[0]) && (fs[0].opcode == OP_PING ==> budget > 0)
    ensures var ping := fs[0].opcode == OP_PING;
            var a := Assemble(fs[1..], p, if ping then budget - 1 else budget);
            Assemble(fs, p, budget) == Assembly(Shift(a).verdict, PongsFor([fs[0]]) + a.replies)
            && PongsFor(fs) == PongsFor([fs[0]]) + PongsFor(fs[1..])
            && DataOf(fs) == DataOf(fs[1..])
  {
    var f := fs[0];
    assert [f][1..] == [];
    assert PongsFor([f]) == if f.opcode == OP_PING then [Reply(OP_PONG, f.payload)] else [];
    assert [] + DataOf(fs[1..]) == DataOf(fs[1..]);
    if f.opcode == OP_PONG {
      var a := Assemble(fs[1..], p, budget);
      assert [] + a.replies == a.replies;
    }
  }

  /** The loop ends, with `data`, on the last of the frames `fs`. */
  predicate EndsWith(a: Assembly, fs: seq<Incoming>, data: bytes) {
    a == Assembly(Complete(data, |fs|), PongsFor(fs))
  }

  predicate EndsAt(a: Assembly, n: nat) {
    a.verdict.Complete? && a.verdict.used == n
  }

  /** A lone data frame. */
  lemma AssembleLast(f: Incoming, p: Partial, budget: nat)
    requires IsData(f) && Coherent(p)
    ensures DataOf([f]) == [f] && PongsFor([f]) == []
    ensures if Completes([f], p.buf, p.op != 0) then EndsWith(Assemble([f], p, budget), [f], p.buf + Payloads([f]))
            else !EndsAt(Assemble([f], p, budget), 1)
  {
    assert [f][1..] == [];
    assert Payloads([f]) == f.payload;
    assert DataOf([f]) == [f] + DataOf([]);
    assert p.buf == [] ==> p.buf + f.payload == f.payload;
  }

  /** The loop variables after a data frame that does not end the message. */
  lemma AfterData(f: Incoming, p: Partial)
    requires IsData(f) && Coherent(p)
    ensures var step := OnFrame(p, f);
            if Placed(f, p.buf, p.op != 0) && !f.fin then
              step.More? && step.p.buf == p.buf + f.payload && step.p.op != 0
            else step.Rejected? || (f.fin && step.Finished?)
  {
    assert p.buf == [] ==> p.buf + f.payload == f.payload;
  }

  /** The loop run to its end, control frames included, against the closed form. */
  lemma {:induction false} AssembleExact(fs: seq<Incoming>, p: Partial, budget: nat)
    requires AllOrdinary(fs) && fs != [] && IsData(fs[|fs| - 1]) && Coherent(p) && budget >= |PongsFor(fs)|
    ensures Completes(DataOf(fs), p.buf, p.op != 0) ==>
              EndsWith(Assemble(fs, p, budget), fs, p.buf + Payloads(DataOf(fs)))
    ensures !Completes(DataOf(fs), p.buf, p.op != 0) ==> !EndsAt(Assemble(fs, p, budget), |fs|)
    decreases |fs|
  {
    var f := fs[0];
    if |fs| == 1 {
      assert fs == [f];
      AssembleLast(f, p, budget);
    } else if IsData(f) {
      AssembleData(fs, p, budget);
    } else {
      AssembleAroundControl(fs, p, budget);
    }
  }

  lemma {:induction false} AssembleAroundControl(fs: seq<Incoming>, p: Partial, budget: nat)
    requires AllOrdinary(fs) && |fs| > 1 && !IsData(fs[0]) && IsData(fs[|fs| - 1])
    requires Coherent(p) && budget >= |PongsFor(fs)|
    ensures Completes(DataOf(fs), p.buf, p.op != 0) ==>
              EndsWith(Assemble(fs, p, budget), fs, p.buf + Payloads(DataOf(fs)))
    ensures !Completes(DataOf(fs), p.buf, p.op != 0) ==> !EndsAt(Assemble(fs, p, budget), |fs|)
    decreases |fs|, 0
  {
    var f, rest := fs[0], fs[1..];
    assert rest[|rest| - 1] == fs[|fs| - 1];
    AssembleControl(fs, p, budget);
    AssembleExact(rest, p, if f.opcode == OP_PING then budget - 1 else budget);
  }

  lemma {:induction false} AssembleData(fs: seq<Incoming>, p: Partial, budget: nat)
    requires AllOrdinary(fs) && |fs| > 1 && IsData(fs[0]) && IsData(fs[|fs| - 1])
    requires Coherent(p) && budget >= |PongsFor(fs)|
    ensures Completes(DataOf(fs), p.buf, p.op != 0) ==>
              EndsWith(Assemble(fs, p, budget), fs, p.buf + Payloads(DataOf(fs)))
    ensures !Completes(DataOf(fs), p.buf, p.op != 0) ==> !EndsAt(Assemble(fs, p, budget), |fs|)
    decreases |fs|, 0
  {
    var f, rest := fs[0], fs[1..];
    assert rest[|rest| - 1] == fs[|fs| - 1];
    DataOfNonEmpty(rest);
    DataHead(fs);
    AfterData(f, p);
    var step := OnFrame(p, f);
    if step.More? {
      AssembleExact(rest, step.p, budget);
      Assoc(p.buf, f.payload, Payloads(DataOf(rest)));
    }
  }

  /** A leading data frame, seen by each of the three projections. */
  lemma DataHead(fs: seq<Incoming>)
    requires fs != [] && IsData(fs[0])
    ensures DataOf(fs) == [fs[0]] + DataOf(fs[1..]) && DataOf(fs)[1..] == DataOf(fs[1..])
    ensures PongsFor(fs) == PongsFor(fs[1..])
    ensures Payloads(DataOf(fs)) == fs[0].payload + Payloads(DataOf(fs[1..]))
  {
    assert [] + PongsFor(fs[1..]) == PongsFor(fs[1..]);
  }

  lemma {:induction false} DataOfNonEmpty(fs: seq<Incoming>)
    requires fs != [] && IsData(fs[|fs| - 1])
    ensures DataOf(fs) != []
  {
    if !IsData(fs[0]) { DataOfNonEmpty(fs[1..]); }
  }

  lemma {:induction false} DataOfAllData(fs: seq<Incoming>)
    ensures AllData(DataOf(fs))
  {
    if fs != [] { DataOfAllData(fs[1..]); }
  }

  /** Mid-message the closed form is: an empty lead-in and a whole message, or
      continuations to the end. */
  lemma {:induction false} CompletesContinuation(ds: seq<Incoming>, before: bytes)
    requires AllData(ds)
    ensures Completes(ds, before, true) <==>
            (|ds| > 0 && (forall i :: 0 <= i < |ds| ==> (ds[i].fin <==> i == |ds| - 1)) &&
             forall i :: 0 <= i < |ds| && ds[i].opcode != OP_CONTINUATION ==> before == [] && Payloads(ds[..i]) == [])
  {
    if |ds| > 1 {
      var rest := ds[1..];
      CompletesContinuation(rest, before + ds[0].payload);
      assert forall i :: 0 <= i < |rest| ==> rest[i] == ds[i + 1];
      forall i | 0 <= i < |rest| ensures Payloads(ds[..i + 1]) == ds[0].payload + Payloads(rest[..i]) {
        assert ds[..i + 1][1..] == rest[..i];
      }
      assert ds[..0] == [];
      assert forall i :: 0 < i < |ds| ==> ds[i] == rest[i - 1];
      if Completes(ds, before, true) {
        forall i | 0 <= i < |ds| && ds[i].opcode != OP_CONTINUATION ensures before == [] && Payloads(ds[..i]) == [] {
          if i > 0 { assert rest[i - 1].opcode != OP_CONTINUATION; }
        }
      }
      if (forall i :: 0 <= i < |ds| ==> (ds[i].fin <==> i == |ds| - 1)) &&
         (forall i :: 0 <= i < |ds| && ds[i].opcode != OP_CONTINUATION ==> before == [] && Payloads(ds[..i]) == [])
      {
        forall i | 0 <= i < |rest| && rest[i].opcode != OP_CONTINUATION
          ensures before + ds[0].payload == [] && Payloads(rest[..i]) == []
        {
          assert ds[i + 1].opcode != OP_CONTINUATION;
        }
      }
    } else if |ds| == 1 {
      assert ds[..0] == [];
    }
  }

  /** Empty payloads all the way. */
  lemma {:induction false} PayloadsEmpty(ds: seq<Incoming>)
    ensures Payloads(ds) == [] <==> forall i :: 0 <= i < |ds| ==> ds[i].payload == []
  {
    if ds != [] {
      PayloadsEmpty(ds[1..]);
      assert forall i :: 0 < i < |ds| ==> ds[i] == ds[1..][i - 1];
      if Payloads(ds) == [] {
        assert |Payloads(ds)| == |ds[0].payload| + |Payloads(ds[1..])|;
      }
    }
  }

  /** Position of the last frame that opens a message. */
  function LastOpening(ds: seq<Incoming>): (k: nat)
    requires |ds| > 0 && ds[0].opcode != OP_CONTINUATION
    ensures k < |ds| && ds[k].opcode != OP_CONTINUATION
    ensures forall i :: k < i < |ds| ==> ds[i].opcode == OP_CONTINUATION
    decreases |ds|
  {
    if ds[|ds| - 1].opcode != OP_CONTINUATION then |ds| - 1
    else
      var t := ds[..|ds| - 1];
      var k := LastOpening(t);
      assert forall i :: k < i < |t| ==> t[i] == ds[i];
      k
  }

  /** The exact acceptance set: the messages of section 5.4, preceded by
      nothing or by fragments that were all empty. */
  lemma AcceptanceSet(ds: seq<Incoming>)
    requires AllData(ds)
    ensures Completes(ds, [], false) <==> Accepted(ds)
  {
    if |ds| > 0 && ds[0].opcode != OP_CONTINUATION {
      assert Completes(ds, [], false) <==> Completes(ds, [], true);
      CompletesContinuation(ds, []);
      if Completes(ds, [], false) {
        var k := LastOpening(ds);
        PayloadsEmpty(ds[..k]);
        assert IsData(ds[k]);
        assert SplitsAt(ds, k);
      }
      forall k: nat | SplitsAt(ds, k) ensures Completes(ds, [], false) {
        AcceptedCompletes(ds, k);
      }
    } else {
      forall k: nat | k <= |ds| ensures !SplitsAt(ds, k) {
        if k > 0 { assert ds[..k][0] == ds[0]; } else { assert ds[0..] == ds; }
      }
    }
  }

  lemma AcceptedCompletes(ds: seq<Incoming>, k: nat)
    requires AllData(ds) && SplitsAt(ds, k) && ds[0].opcode != OP_CONTINUATION
    ensures Completes(ds, [], true)
  {
    CompletesContinuation(ds, []);
    SplitFacts(ds, k);
    forall i | 0 <= i < |ds| && ds[i].opcode != OP_CONTINUATION ensures Payloads(ds[..i]) == [] {
      PayloadsEmpty(ds[..i]);
    }
  }

  lemma SplitFacts(ds: seq<Incoming>, k: nat)
    requires SplitsAt(ds, k)
    ensures |ds| > 0 && forall i :: 0 <= i < |ds| ==> (ds[i].fin <==> i == |ds| - 1)
    ensures forall i :: 0 <= i < k ==> ds[i].payload == []
    ensures forall i :: k < i < |ds| ==> ds[i].opcode == OP_CONTINUATION
  {
    var lead, m := ds[..k], ds[k..];
    forall i | 0 <= i < |ds|
      ensures (ds[i].fin <==> i == |ds| - 1) && (i < k ==> ds[i].payload == []) && (i > k ==> ds[i].opcode == OP_CONTINUATION)
    {
      if i < k { assert ds[i] == lead[i]; } else { assert ds[i] == m[i - k]; }
    }
  }

  lemma {:induction false} WireNonEmpty(ws: seq<WireFrame>)
    requires Sendable(ws)
    ensures |Wire(ws)| >= 2 * |ws|
  {
    if ws != [] { WireNonEmpty(ws[1..]); }
  }

  /** ReadMessage on any encoding of any run of data frames with pings and
      pongs anywhere between them: it returns the concatenated payload, one pong
      per ping in order, and stops exactly at the next byte, if and only if the
      data frames are in the acceptance set. */
  lemma ReadMessageExact(ws: seq<WireFrame>, t: bytes, budget: nat)
    requires Sendable(ws) && ws != [] && AllOrdinary(Decoded(ws)) && IsData(Decoded(ws)[|ws| - 1])
    requires budget >= |PongsFor(Decoded(ws))|
    ensures var ds := DataOf(Decoded(ws));
            var r := ReadMessage(Wire(ws) + t, FRESH, budget);
            if Accepted(ds) then r == Reading(Message(Payloads(ds), t), PongsFor(Decoded(ws)))
            else !(r.outcome.Message? && r.outcome.rest == t)
  {
    var fs := Decoded(ws);
    var ds := DataOf(fs);
    var a := Assemble(fs, FRESH, budget);
    DataOfAllData(fs);
    AcceptanceSet(ds);
    AssembleExact(fs, FRESH, budget);
    ReadRefinesAssemble(ws, t, FRESH, budget);
    if Accepted(ds) {
      assert [] + Payloads(ds) == Payloads(ds);
      assert ws[|ws|..] == [];
      assert Wire([]) + t == t;
    } else if a.verdict.Complete? {
      WireNonEmpty(ws[a.verdict.used..]);
      assert |Wire(ws[a.verdict.used..]) + t| > |t|;
    }
  }

  /** Every fragmentation section 5.4 allows is accepted. */
  lemma RfcFragmentationRead(ws: seq<WireFrame>, t: bytes, budget: nat)
    requires Sendable(ws) && ws != [] && AllOrdinary(Decoded(ws)) && IsData(Decoded(ws)[|ws| - 1])
    requires RfcMessage(DataOf(Decoded(ws))) && budget >= |PongsFor(Decoded(ws))|
    ensures ReadMessage(Wire(ws) + t, FRESH, budget)
         == Reading(Message(Payloads(DataOf(Decoded(ws))), t), PongsFor(Decoded(ws)))
  {
    var ds := DataOf(Decoded(ws));
    assert ds[..0] == [] && ds[0..] == ds;
    assert SplitsAt(ds, 0);
    ReadMessageExact(ws, t, budget);
  }

  /** Unfinished data frames, each where the loop allows it. */
  predicate Unfinished(ds: seq<Incoming>, before: bytes, open: bool) {
    ds == [] ||
    (Placed(ds[0], before, open) && !ds[0].fin && Unfinished(ds[1..], before + ds[0].payload, true))
  }

  lemma TailShape(pre: seq<Incoming>, f: Incoming, more: seq<Incoming>)
    requires pre != []
    ensures (pre + [f] + more)[0] == pre[0] && (pre + [f] + more)[1..] == pre[1..] + [f] + more
  {
  }

  function Misplacement(f: Incoming): ReadError {
    if f.opcode == OP_CONTINUATION then NothingToContinue else NestedData
  }

  /** The first frame out of place is an error, whatever surrounds it: the pings
      before it have been answered and nothing after it is looked at. */
  lemma {:induction false} MisplacedIsRejected(
    pre: seq<Incoming>, f: Incoming, more: seq<Incoming>, p: Partial, budget: nat)
    requires AllOrdinary(pre) && IsData(f) && Coherent(p) && budget >= |PongsFor(pre)|
    requires Unfinished(DataOf(pre), p.buf, p.op != 0)
    requires !Placed(f, p.buf + Payloads(DataOf(pre)), p.op != 0 || DataOf(pre) != [])
    ensures Assemble(pre + [f] + more, p, budget) == Assembly(Stopped(Misplacement(f)), PongsFor(pre))
    decreases |pre|, 1
  {
    if pre == [] {
      assert (pre + [f] + more)[0] == f;
      assert p.buf + Payloads(DataOf(pre)) == p.buf;
    } else if IsData(pre[0]) {
      MisplacedAfterData(pre, f, more, p, budget);
    } else {
      MisplacedAfterControl(pre, f, more, p, budget);
    }
  }

  lemma {:induction false} MisplacedAfterData(
    pre: seq<Incoming>, f: Incoming, more: seq<Incoming>, p: Partial, budget: nat)
    requires pre != [] && IsData(pre[0])
    requires AllOrdinary(pre) && IsData(f) && Coherent(p) && budget >= |PongsFor(pre)|
    requires Unfinished(DataOf(pre), p.buf, p.op != 0)
    requires !Placed(f, p.buf + Payloads(DataOf(pre)), p.op != 0 || DataOf(pre) != [])
    ensures Assemble(pre + [f] + more, p, budget) == Assembly(Stopped(Misplacement(f)), PongsFor(pre))
    decreases |pre|, 0
  {
    var g, rest := pre[0], pre[1..];
    TailShape(pre, f, more);
    assert DataOf(pre) == [g] + DataOf(rest) && DataOf(pre)[1..] == DataOf(rest);
    AfterData(g, p);
    var q := OnFrame(p, g).p;
    assert q.buf + Payloads(DataOf(rest)) == p.buf + Payloads(DataOf(pre)) by {
      Assoc(p.buf, g.payload, Payloads(DataOf(rest)));
    }
    MisplacedIsRejected(rest, f, more, q, budget);
    assert PongsFor(pre) == PongsFor(rest);
  }

  lemma {:induction false} MisplacedAfterControl(
    pre: seq<Incoming>, f: Incoming, more: seq<Incoming>, p: Partial, budget: nat)
    requires pre != [] && !IsData(pre[0])
    requires AllOrdinary(pre) && IsData(f) && Coherent(p) && budget >= |PongsFor(pre)|
    requires Unfinished(DataOf(pre), p.buf, p.op != 0)
    requires !Placed(f, p.buf + Payloads(DataOf(pre)), p.op != 0 || DataOf(pre) != [])
    ensures Assemble(pre + [f] + more, p, budget) == Assembly(Stopped(Misplacement(f)), PongsFor(pre))
    decreases |pre|, 0
  {
    TailShape(pre, f, more);
    AssembleControl(pre, p, budget);
    AssembleControl(pre + [f] + more, p, budget);
    MisplacedIsRejected(pre[1..], f, more, p, if pre[0].opcode == OP_PING then budget - 1 else budget);
  }

  lemma DecodedAppend(a: seq<WireFrame>, w: WireFrame, b: seq<WireFrame>)
    ensures Decoded(a + [w] + b) == Decoded(a) + [Incoming(w.opcode, w.payload, w.fin)] + Decoded(b)
  {
  }

  /** The same on the wire: whatever encoding the frames have and whatever bytes
      follow, ReadMessage fails with the matching error and those pongs. */
  lemma MisplacedReadRejected(pre: seq<WireFrame>, w: WireFrame, more: seq<WireFrame>, t: bytes, budget: nat)
    requires Sendable(pre + [w] + more) && budget >= |PongsFor(Decoded(pre))|
    requires AllOrdinary(Decoded(pre)) && IsData(Incoming(w.opcode, w.payload, w.fin))
    requires Unfinished(DataOf(Decoded(pre)), [], false)
    requires !Placed(Incoming(w.opcode, w.payload, w.fin), Payloads(DataOf(Decoded(pre))), DataOf(Decoded(pre)) != [])
    ensures ReadMessage(Wire(pre + [w] + more) + t, FRESH, budget)
         == Reading(Failed(Misplacement(Incoming(w.opcode, w.payload, w.fin))), PongsFor(Decoded(pre)))
  {
    var f := Incoming(w.opcode, w.payload, w.fin);
    DecodedAppend(pre, w, more);
    assert [] + Payloads(DataOf(Decoded(pre))) == Payloads(DataOf(Decoded(pre)));
    MisplacedIsRejected(Decoded(pre), f, Decoded(more), FRESH, budget);
    ReadRefinesAssemble(pre + [w] + more, t, FRESH, budget);
  }

  // ------------------------------------------------- what ends a reading

  /** Frames that leave a message unfinished, from loop state `p` on, within what
      the connection will still answer. */
  predicate Pending(pre: seq<Incoming>, p: Partial, budget: nat) {
    AllOrdinary(pre) && Coherent(p) && Unfinished(DataOf(pre), p.buf, p.op != 0) && budget >= |PongsFor(pre)|
  }

  /** The loop state after them holds the payloads so far, and a message is open
      once a data frame has come. */
  predicate Carried(pre: seq<Incoming>, p: Partial, q: Partial) {
    q.buf == p.buf + Payloads(DataOf(pre)) && (q.op != 0 <==> p.op != 0 || DataOf(pre) != [])
  }

  lemma {:induction false} PendingStarves(pre: seq<Incoming>, p: Partial, budget: nat) returns (q: Partial)
    requires Pending(pre, p, budget)
    ensures Assemble(pre, p, budget) == Assembly(Starved(q, budget - |PongsFor(pre)|), PongsFor(pre))
    ensures Carried(pre, p, q)
    decreases |pre|, 1
  {
    if pre == [] {
      q := p;
      assert p.buf + [] == p.buf;
    } else if IsData(pre[0]) {
      q := DataStarves(pre, p, budget);
    } else {
      AssembleControl(pre, p, budget);
      OnePong(pre[0]);
      q := PendingStarves(pre[1..], p, if pre[0].opcode == OP_PING then budget - 1 else budget);
      assert pre[0].opcode == OP_PING ==> |PongsFor(pre)| == 1 + |PongsFor(pre[1..])|;
    }
  }

  lemma {:induction false} DataStarves(pre: seq<Incoming>, p: Partial, budget: nat) returns (q: Partial)
    requires Pending(pre, p, budget) && pre != [] && IsData(pre[0])
    ensures Assemble(pre, p, budget) == Assembly(Starved(q, budget - |PongsFor(pre)|), PongsFor(pre))
    ensures Carried(pre, p, q)
    decreases |pre|, 0
  {
    var f, rest := pre[0], pre[1..];
    DataHead(pre);
    AfterData(f, p);
    q := PendingStarves(rest, OnFrame(p, f).p, budget);
    Assoc(p.buf, f.payload, Payloads(DataOf(rest)));
  }

  /** So after any encoding of them the reading goes on with what follows. */
  lemma PendingRead(pre: seq<WireFrame>, t: bytes, budget: nat) returns (q: Partial, r: Reading)
    requires Sendable(pre) && Pending(Decoded(pre), FRESH, budget)
    ensures Carried(Decoded(pre), FRESH, q) && r == ReadMessage(t, q, budget - |PongsFor(Decoded(pre))|)
    ensures ReadMessage(Wire(pre) + t, FRESH, budget) == Reading(r.outcome, PongsFor(Decoded(pre)) + r.replies)
  {
    q := PendingStarves(Decoded(pre), FRESH, budget);
    r := ReadMessage(t, q, budget - |PongsFor(Decoded(pre))|);
    ReadRefinesAssemble(pre, t, FRESH, budget);
  }

  /** One more frame at the end of them. */
  lemma PendingStep(pre: seq<WireFrame>, w: WireFrame, t: bytes, u: bytes, budget: nat, left: nat) returns (q: Partial, r: Reading)
    requires Sendable(pre) && Pending(Decoded(pre), FRESH, budget) && left == budget - |PongsFor(Decoded(pre))|
    requires WellFormed(w) && |w.payload| <= MAX_FRAME && u == Encode(w) + t
    ensures Carried(Decoded(pre), FRESH, q)
    ensures r == Proceed(OnFrame(q, Incoming(w.opcode, w.payload, w.fin)), q, t, left)
    ensures ReadMessage(Wire(pre) + u, FRESH, budget) == Reading(r.outcome, PongsFor(Decoded(pre)) + r.replies)
  {
    q, r := PendingRead(pre, u, budget);
    StepRead(w, t, u, q, left, r);
  }

  lemma StepRead(w: WireFrame, t: bytes, u: bytes, q: Partial, left: nat, r: Reading)
    requires WellFormed(w) && |w.payload| <= MAX_FRAME && u == Encode(w) + t && r == ReadMessage(u, q, left)
    ensures r == Proceed(OnFrame(q, Incoming(w.opcode, w.payload, w.fin)), q, t, left)
  {
    ReadStep(w, t, q, left);
  }

  lemma NoMore(pongs: seq<Reply>)
    ensures pongs + [] == pongs
  {
  }

  lemma CloseTurn(q: Partial, f: Incoming, t: bytes, left: nat)
    requires f.opcode == OP_CLOSE
    ensures Proceed(OnFrame(q, f), q, t, left) == Reading(Failed(PeerClosed), if left == 0 then [] else [Reply(OP_CLOSE, f.payload)])
  {
  }

  lemma UnknownTurn(q: Partial, f: Incoming, t: bytes, left: nat)
    requires f.opcode in {3, 4, 5, 6, 7, 11, 12, 13, 14, 15}
    ensures Proceed(OnFrame(q, f), q, t, left) == Reading(Failed(UnknownOpcode(f.opcode)), [])
  {
  }

  /** A close frame, whatever came before it in the message and whatever bytes
      follow: the pings have been answered, the close is echoed with its payload
      if the connection still takes a write, and the caller is told of the close. */
  lemma CloseEndsReading(pre: seq<WireFrame>, w: WireFrame, t: bytes, budget: nat)
    requires Sendable(pre) && Pending(Decoded(pre), FRESH, budget)
    requires WellFormed(w) && |w.payload| <= MAX_FRAME && w.opcode == OP_CLOSE
    ensures var pongs := PongsFor(Decoded(pre));
            ReadMessage(Wire(pre) + (Encode(w) + t), FRESH, budget)
            == Reading(Failed(PeerClosed), if budget > |pongs| then pongs + [Reply(OP_CLOSE, w.payload)] else pongs)
  {
    var q, r := PendingStep(pre, w, t, Encode(w) + t, budget, budget - |PongsFor(Decoded(pre))|);
    CloseTurn(q, Incoming(w.opcode, w.payload, w.fin), t, budget - |PongsFor(Decoded(pre))|);
    NoMore(PongsFor(Decoded(pre)));
  }

  /** A ping whose pong the connection refuses ends the reading. */
  lemma RefusedPongEndsReading(pre: seq<WireFrame>, w: WireFrame, t: bytes, budget: nat)
    requires Sendable(pre) && Pending(Decoded(pre), FRESH, budget) && budget == |PongsFor(Decoded(pre))|
    requires WellFormed(w) && |w.payload| <= MAX_FRAME && w.opcode == OP_PING
    ensures ReadMessage(Wire(pre) + (Encode(w) + t), FRESH, budget) == Reading(Failed(ReplyFailed), PongsFor(Decoded(pre)))
  {
    var q, r := PendingStep(pre, w, t, Encode(w) + t, budget, budget - |PongsFor(Decoded(pre))|);
    NoMore(PongsFor(Decoded(pre)));
  }

  /** A frame of an opcode section 5.2 reserves is an error naming it. */
  lemma UnknownOpcodeEndsReading(pre: seq<WireFrame>, w: WireFrame, t: bytes, budget: nat)
    requires Sendable(pre) && Pending(Decoded(pre), FRESH, budget)
    requires WellFormed(w) && |w.payload| <= MAX_FRAME && w.opcode in {3, 4, 5, 6, 7, 11, 12, 13, 14, 15}
    ensures ReadMessage(Wire(pre) + (Encode(w) + t), FRESH, budget)
         == Reading(Failed(UnknownOpcode(w.opcode)), PongsFor(Decoded(pre)))
  {
    var q, r := PendingStep(pre, w, t, Encode(w) + t, budget, budget - |PongsFor(Decoded(pre))|);
    UnknownTurn(q, Incoming(w.opcode, w.payload, w.fin), t, budget - |PongsFor(Decoded(pre))|);
    NoMore(PongsFor(Decoded(pre)));
  }

  /** Bytes that end within a frame, and a frame announced longer than the cap. */
  lemma BrokenFrameEndsReading(pre: seq<WireFrame>, t: bytes, budget: nat)
    requires Sendable(pre) && Pending(Decoded(pre), FRESH, budget) && !ReadFrame(t).Frame?
    ensures ReadMessage(Wire(pre) + t, FRESH, budget)
         == Reading(Failed(if ReadFrame(t).Truncated? then EndOfStream else FrameTooLong(ReadFrame(t).length)),
                    PongsFor(Decoded(pre)))
  {
    var q, r := PendingRead(pre, t, budget);
    BrokenRead(t, q, budget - |PongsFor(Decoded(pre))|);
    NoMore(PongsFor(Decoded(pre)));
  }

  lemma BrokenRead(t: bytes, q: Partial, budget: nat)
    requires !ReadFrame(t).Frame?
    ensures ReadMessage(t, q, budget)
         == Reading(Failed(if ReadFrame(t).Truncated? then EndOfStream else FrameTooLong(ReadFrame(t).length)), [])
  {
  }

  // ------------------------------------------------------------ the converse

  /** One frame of a message that is still being read. */
  lemma OneMore(w: WireFrame, ws: seq<WireFrame>)
    requires Sendable([w]) && Sendable(ws)
    ensures Sendable([w] + ws) && Wire([w] + ws) == Encode(w) + Wire(ws)
    ensures Decoded([w] + ws) == [Incoming(w.opcode, w.payload, w.fin)] + Decoded(ws)
  {
    assert w in [w];
    assert ([w] + ws)[1..] == ws;
  }

  lemma SendableOne(w: WireFrame)
    requires WellFormed(w) && |w.payload| <= MAX_FRAME
    ensures Sendable([w]) && Wire([w]) == Encode(w)
  {
    assert [w][1..] == [];
  }

  /** Bytes that read as one whole message from loop state `p` on, leaving `rest`. */
  ghost predicate Spells(s: bytes, rest: bytes, p: Partial, budget: nat, ws: seq<WireFrame>) {
    Sendable(ws) && ws != [] && s == Wire(ws) + rest &&
    AllOrdinary(Decoded(ws)) && IsData(Decoded(ws)[|ws| - 1]) && |PongsFor(Decoded(ws))| <= budget &&
    Completes(DataOf(Decoded(ws)), p.buf, p.op != 0)
  }

  lemma SpellsLast(w: WireFrame, rest: bytes, p: Partial, budget: nat)
    requires WellFormed(w) && |w.payload| <= MAX_FRAME && Coherent(p)
    requires OnFrame(p, Incoming(w.opcode, w.payload, w.fin)).Finished?
    ensures Spells(Encode(w) + rest, rest, p, budget, [w])
  {
    var f := Incoming(w.opcode, w.payload, w.fin);
    SendableOne(w);
    assert Decoded([w]) == [f];
    AssembleLast(f, p, budget);
  }

  lemma SpellsData(w: WireFrame, u: bytes, rest: bytes, p: Partial, budget: nat, ws: seq<WireFrame>)
    requires WellFormed(w) && |w.payload| <= MAX_FRAME && Coherent(p) && IsData(Incoming(w.opcode, w.payload, w.fin))
    requires OnFrame(p, Incoming(w.opcode, w.payload, w.fin)).More?
    requires Spells(u, rest, OnFrame(p, Incoming(w.opcode, w.payload, w.fin)).p, budget, ws)
    ensures Spells(Encode(w) + u, rest, p, budget, [w] + ws)
  {
    var f := Incoming(w.opcode, w.payload, w.fin);
    SendableOne(w);
    OneMore(w, ws);
    Assoc(Encode(w), Wire(ws), rest);
    AfterData(f, p);
    var fs := Decoded([w] + ws);
    assert fs[1..] == Decoded(ws);
    DataHead(fs);
    DataOfNonEmpty(Decoded(ws));
  }

  lemma SpellsControl(w: WireFrame, u: bytes, rest: bytes, p: Partial, budget: nat, ws: seq<WireFrame>)
    requires WellFormed(w) && |w.payload| <= MAX_FRAME && (w.opcode == OP_PING || w.opcode == OP_PONG)
    requires w.opcode == OP_PING ==> budget > 0
    requires Spells(u, rest, p, if w.opcode == OP_PING then budget - 1 else budget, ws)
    ensures Spells(Encode(w) + u, rest, p, budget, [w] + ws)
  {
    SendableOne(w);
    OneMore(w, ws);
    Assoc(Encode(w), Wire(ws), rest);
    var fs := Decoded([w] + ws);
    assert fs[1..] == Decoded(ws);
    AssembleControl(fs, p, budget);
    OnePong(fs[0]);
  }

  lemma OnePong(f: Incoming)
    ensures |PongsFor([f])| <= if f.opcode == OP_PING then 1 else 0
  {
    assert [f][1..] == [];
  }

  /** Conversely, whatever bytes a message was read from were the encoding of a
      run in the acceptance set. */
  lemma {:induction false} MessageOrigin(s: bytes, p: Partial, budget: nat) returns (ws: seq<WireFrame>)
    requires ReadMessage(s, p, budget).outcome.Message? && Coherent(p)
    ensures Spells(s, ReadMessage(s, p, budget).outcome.rest, p, budget, ws)
    decreases |s|
  {
    var w := FrameOrigin(s);
    var u, f := ReadFrame(s).rest, Incoming(w.opcode, w.payload, w.fin);
    var step := OnFrame(p, f);
    var rest := ReadMessage(s, p, budget).outcome.rest;
    if step.Finished? {
      SpellsLast(w, rest, p, budget);
      ws := [w];
    } else if step.More? && IsData(f) {
      AfterData(f, p);
      var tail := MessageOrigin(u, step.p, budget);
      SpellsData(w, u, rest, p, budget, tail);
      ws := [w] + tail;
    } else {
      var tail := MessageOrigin(u, p, if w.opcode == OP_PING then budget - 1 else budget);
      SpellsControl(w, u, rest, p, budget, tail);
      ws := [w] + tail;
    }
  }

  /** What the bytes after an unfinished run begin with when the reading ends in
      `e`: `left` replies still go out, and `q` is the loop state. */
  predicate EndsIn(u: bytes, e: ReadError, q: Partial, left: nat) {
    match ReadFrame(u)
    case Truncated => e == EndOfStream
    case Oversized(n, _) => e == FrameTooLong(n)
    case Frame(op, x, fin, _) =>
      match e
      case PeerClosed => op == OP_CLOSE
      case ReplyFailed => op == OP_PING && left == 0
      case UnknownOpcode(o) => o == op && op in {3, 4, 5, 6, 7, 11, 12, 13, 14, 15}
      case NothingToContinue => op == OP_CONTINUATION && q.op == 0
      case NestedData => (op == OP_TEXT || op == OP_BINARY) && q.buf != []
      case _ => false
  }

  /** `s` is an unfinished run of frames followed by what ends it. */
  ghost predicate BreaksOff(s: bytes, p: Partial, budget: nat, e: ReadError, pre: seq<WireFrame>, u: bytes) {
    Sendable(pre) && s == Wire(pre) + u && Pending(Decoded(pre), p, budget) &&
    exists q :: Carried(Decoded(pre), p, q) && EndsIn(u, e, q, budget - |PongsFor(Decoded(pre))|)
  }

  lemma BreaksHere(s: bytes, p: Partial, budget: nat, e: ReadError)
    requires Coherent(p) && EndsIn(s, e, p, budget)
    ensures BreaksOff(s, p, budget, e, [], s)
  {
    assert Wire([]) + s == s && Decoded([]) == [];
    assert p.buf + Payloads([]) == p.buf;
    assert Carried([], p, p);
  }

  lemma BreaksAfterData(w: WireFrame, v: bytes, p: Partial, q: Partial, budget: nat, e: ReadError, pre: seq<WireFrame>, u: bytes)
    requires WellFormed(w) && |w.payload| <= MAX_FRAME && Coherent(p) && IsData(Incoming(w.opcode, w.payload, w.fin))
    requires OnFrame(p, Incoming(w.opcode, w.payload, w.fin)) == More(q)
    requires BreaksOff(v, q, budget, e, pre, u)
    ensures BreaksOff(Encode(w) + v, p, budget, e, [w] + pre, u)
  {
    var f := Incoming(w.opcode, w.payload, w.fin);
    SendableOne(w);
    OneMore(w, pre);
    Assoc(Encode(w), Wire(pre), u);
    AfterData(f, p);
    var fs := Decoded([w] + pre);
    assert fs[1..] == Decoded(pre);
    DataHead(fs);
    var z :| Carried(Decoded(pre), q, z) && EndsIn(u, e, z, budget - |PongsFor(Decoded(pre))|);
    Assoc(p.buf, f.payload, Payloads(DataOf(Decoded(pre))));
    assert Carried(fs, p, z);
  }

  lemma BreaksAfterControl(w: WireFrame, v: bytes, p: Partial, budget: nat, e: ReadError, pre: seq<WireFrame>, u: bytes)
    requires WellFormed(w) && |w.payload| <= MAX_FRAME && (w.opcode == OP_PING || w.opcode == OP_PONG)
    requires w.opcode == OP_PING ==> budget > 0
    requires BreaksOff(v, p, if w.opcode == OP_PING then budget - 1 else budget, e, pre, u)
    ensures BreaksOff(Encode(w) + v, p, budget, e, [w] + pre, u)
  {
    SendableOne(w);
    OneMore(w, pre);
    Assoc(Encode(w), Wire(pre), u);
    var fs := Decoded([w] + pre);
    var left := if w.opcode == OP_PING then budget - 1 else budget;
    assert fs[1..] == Decoded(pre);
    ControlAhead(fs, p, budget, left);
    var z :| Carried(Decoded(pre), p, z) && EndsIn(u, e, z, left - |PongsFor(Decoded(pre))|);
    assert Carried(fs, p, z);
  }

  lemma ControlAhead(fs: seq<Incoming>, p: Partial, budget: nat, left: nat)
    requires fs != [] && (fs[0].opcode == OP_PING || fs[0].opcode == OP_PONG)
    requires left + (if fs[0].opcode == OP_PING then 1 else 0) == budget && Pending(fs[1..], p, left)
    ensures Pending(fs, p, budget) && DataOf(fs) == DataOf(fs[1..]) && budget - |PongsFor(fs)| == left - |PongsFor(fs[1..])|
  {
    AssembleControl(fs, p, budget);
    PongCount(fs[0]);
  }

  lemma PongCount(f: Incoming)
    ensures |PongsFor([f])| == if f.opcode == OP_PING then 1 else 0
  {
    assert [f][1..] == [];
  }

  /** Conversely, every reading that fails broke off in one of those ways: after
      an unfinished run, at bytes that give exactly that error. */
  lemma {:induction false} FailureOrigin(s: bytes, p: Partial, budget: nat) returns (pre: seq<WireFrame>, u: bytes)
    requires ReadMessage(s, p, budget).outcome.Failed? && Coherent(p)
    ensures BreaksOff(s, p, budget, ReadMessage(s, p, budget).outcome.e, pre, u)
    decreases |s|, 1
  {
    var e := ReadMessage(s, p, budget).outcome.e;
    if EndsIn(s, e, p, budget) {
      BreaksHere(s, p, budget, e);
      pre, u := [], s;
    } else {
      var w := FrameOrigin(s);
      if IsData(Incoming(w.opcode, w.payload, w.fin)) {
        pre, u := FailureAfterData(s, w, p, budget, e);
      } else {
        pre, u := FailureAfterControl(s, w, p, budget, e);
      }
    }
  }

  lemma {:induction false} FailureAfterData(s: bytes, w: WireFrame, p: Partial, budget: nat, e: ReadError)
    returns (pre: seq<WireFrame>, u: bytes)
    requires ReadFrame(s).Frame? && WellFormed(w) && s == Encode(w) + ReadFrame(s).rest
    requires w.opcode == ReadFrame(s).opcode && w.fin == ReadFrame(s).fin && w.payload == ReadFrame(s).payload
    requires ReadMessage(s, p, budget).outcome == Failed(e) && Coherent(p) && !EndsIn(s, e, p, budget)
    requires IsData(Incoming(w.opcode, w.payload, w.fin))
    ensures BreaksOff(s, p, budget, e, pre, u)
    decreases |s|, 0
  {
    var v, step := ReadFrame(s).rest, OnFrame(p, Incoming(w.opcode, w.payload, w.fin));
    AfterData(Incoming(w.opcode, w.payload, w.fin), p);
    pre, u := FailureOrigin(v, step.p, budget);
    BreaksAfterData(w, v, p, step.p, budget, e, pre, u);
    pre := [w] + pre;
  }

  lemma {:induction false} FailureAfterControl(s: bytes, w: WireFrame, p: Partial, budget: nat, e: ReadError)
    returns (pre: seq<WireFrame>, u: bytes)
    requires ReadFrame(s).Frame? && WellFormed(w) && s == Encode(w) + ReadFrame(s).rest
    requires w.opcode == ReadFrame(s).opcode && w.fin == ReadFrame(s).fin && w.payload == ReadFrame(s).payload
    requires ReadMessage(s, p, budget).outcome == Failed(e) && Coherent(p) && !EndsIn(s, e, p, budget)
    requires !IsData(Incoming(w.opcode, w.payload, w.fin))
    ensures BreaksOff(s, p, budget, e, pre, u)
    decreases |s|, 0
  {
    var v := ReadFrame(s).rest;
    pre, u := FailureOrigin(v, p, if w.opcode == OP_PING then budget - 1 else budget);
    BreaksAfterControl(w, v, p, budget, e, pre, u);
    pre := [w] + pre;
  }

  /** Data, pings and pongs only, a data frame last, and accepted. */
  ghost predicate AcceptedRun(ws: seq<WireFrame>) {
    Sendable(ws) && ws != [] && AllOrdinary(Decoded(ws)) && IsData(Decoded(ws)[|ws| - 1]) && Accepted(DataOf(Decoded(ws)))
  }

  /** So a message is read exactly where the encoding of an accepted run begins:
      the data are that run's payloads, the replies its pongs. */
  lemma MessageIsRun(s: bytes, budget: nat) returns (ws: seq<WireFrame>)
    requires ReadMessage(s, FRESH, budget).outcome.Message?
    ensures var r := ReadMessage(s, FRESH, budget);
            AcceptedRun(ws) && s == Wire(ws) + r.outcome.rest
            && r.outcome.data == Payloads(DataOf(Decoded(ws))) && r.replies == PongsFor(Decoded(ws))
  {
    var r := ReadMessage(s, FRESH, budget);
    ws := MessageOrigin(s, FRESH, budget);
    DataOfAllData(Decoded(ws));
    AcceptanceSet(DataOf(Decoded(ws)));
    ReadMessageExact(ws, r.outcome.rest, budget);
  }

  /** The code and section 5.4 part ways: a second text frame after an empty
      first fragment is delivered instead of refused. */
  lemma EmptyFirstFragmentIsForgotten(x: bytes)
    ensures var fs := [Incoming(OP_TEXT, [], false), Incoming(OP_TEXT, x, true)];
            Assemble(fs, FRESH, 0) == Assembly(Complete(x, 2), []) && !RfcMessage(fs)
  {
    var fs := [Incoming(OP_TEXT, [], false), Incoming(OP_TEXT, x, true)];
    assert fs[1..] == [Incoming(OP_TEXT, x, true)];
    assert Assemble(fs[1..], Partial([], OP_TEXT), 0) == Assembly(Complete(x, 1), []);
  }
}
