/** Who writes to the app-server connection, and when (codexmsg/client.go,
    codexmsg/ws.go). A frame goes out in two writes, header then payload. A Call
    holds `writeMu` across both; a pong, a close echo and Close hold nothing. Each
    frame's two writes are adjacent on the stream exactly as long as no write
    lands between another writer's two, and then the bytes are whole frames; which
    writers can be trusted with that is settled by who holds the lock. When a write
    does land there, what the peer reads is worked out on the bytes. */
module WireWriters {
  import opened Bytes
  import WS = WebSocket
  import Bits

  type Id = nat

  datatype Pc = Ready | Entered | HeadOut | Written | Gone

  /** One frame to be written; `locked` when the writer takes writeMu. */
  datatype Writer = Writer(opcode: byte, payload: bytes, key: bytes, locked: bool, pc: Pc)

  predicate WriterOk(w: Writer) { |w.key| == 4 && |w.payload| <= WS.MAX_LEN }

  function FrameOf(w: Writer): WS.WireFrame
    requires WriterOk(w)
  {
    WS.Outgoing(w.opcode, w.payload, w.key)
  }

  function Head(w: Writer): bytes
    requires WriterOk(w)
  {
    var f := FrameOf(w);
    WS.Header(f.fin, f.rsv, f.opcode, true, f.form, |w.payload|) + w.key
  }

  function Body(w: Writer): bytes
    requires WriterOk(w)
  {
    WS.Mask(w.payload, w.key)
  }

  lemma HeadBody(w: Writer)
    requires WriterOk(w)
    ensures Head(w) + Body(w) == WS.Encode(FrameOf(w))
  {
    var f := FrameOf(w);
    Assoc(WS.Header(f.fin, f.rsv, f.opcode, true, f.form, |w.payload|), w.key, Body(w));
  }

  /** One write as it reached the stream. A torn one is the last the stream takes. */
  datatype Part = HeadPart | BodyPart | TornHead(n: nat) | TornBody(n: nat)
  datatype Chunk = Chunk(owner: Id, part: Part)

  datatype State = State(writers: seq<Writer>, mutex: Option<Id>, chunks: seq<Chunk>, broken: bool)

  const START := State([], None, [], false)

  datatype Action =
    | Arrive(w: Writer)
    | Enter(i: Id)
    | WriteHead(i: Id)
    | WriteBody(i: Id)
    | Tear(i: Id, n: nat)    // the connection breaks under this writer's next write
    | Leave(i: Id)

  predicate At(s: State, i: Id, pc: Pc) { i < |s.writers| && s.writers[i].pc == pc }

  predicate Enabled(s: State, a: Action) {
    match a
    case Arrive(w) => WriterOk(w) && w.pc == Ready
    case Enter(i) => At(s, i, Ready) && (s.writers[i].locked ==> s.mutex == None)
    case WriteHead(i) => At(s, i, Entered)
    case WriteBody(i) => At(s, i, HeadOut)
    case Tear(i, n) =>
      !s.broken && i < |s.writers| && WriterOk(s.writers[i]) &&
      ((At(s, i, Entered) && n < |Head(s.writers[i])|) || (At(s, i, HeadOut) && n < |Body(s.writers[i])|))
    case Leave(i) => At(s, i, Written)
  }

  function SetPc(s: State, i: Id, pc: Pc): State
    requires i < |s.writers|
  {
    s.(writers := s.writers[i := s.writers[i].(pc := pc)])
  }

  /** A write on a broken connection fails at once and puts nothing out. */
  function Put(s: State, i: Id, part: Part, pc: Pc): State
    requires i < |s.writers|
  {
    if s.broken then SetPc(s, i, Written)
    else SetPc(s, i, pc).(chunks := s.chunks + [Chunk(i, part)])
  }

  function Apply(s: State, a: Action): State
    requires Enabled(s, a)
  {
    match a
    case Arrive(w) => s.(writers := s.writers + [w])
    case Enter(i) => SetPc(s, i, Entered).(mutex := if s.writers[i].locked then Some(i) else s.mutex)
    case WriteHead(i) => Put(s, i, HeadPart, if s.writers[i].payload == [] then Written else HeadOut)
    case WriteBody(i) => Put(s, i, BodyPart, Written)
    case Tear(i, n) =>
      Put(s, i, if At(s, i, Entered) then TornHead(n) else TornBody(n), Written).(broken := true)
    case Leave(i) => SetPc(s, i, Gone).(mutex := if s.writers[i].locked then None else s.mutex)
  }

  predicate Legal(s: State, acts: seq<Action>)
    decreases |acts|
  {
    acts == [] || (Enabled(s, acts[0]) && Legal(Apply(s, acts[0]), acts[1..]))
  }

  function Run(s: State, acts: seq<Action>): State
    requires Legal(s, acts)
    decreases |acts|
  {
    if acts == [] then s else Run(Apply(s, acts[0]), acts[1..])
  }

  predicate Writes(a: Action, i: Id) {
    a == WriteHead(i) || a == WriteBody(i) || (a.Tear? && a.i == i)
  }

  /** Writer `i` puts bytes out while writer `j` is between its two writes. */
  predicate ClashOf(s: State, a: Action, i: Id, j: Id) {
    i != j && !s.broken && Writes(a, i) && At(s, j, HeadOut)
  }

  ghost predicate Clash(s: State, a: Action) { exists i, j :: ClashOf(s, a, i, j) }

  ghost predicate NoClash(s: State, acts: seq<Action>)
    requires Legal(s, acts)
    decreases |acts|
  {
    acts == [] || (!Clash(s, acts[0]) && NoClash(Apply(s, acts[0]), acts[1..]))
  }

  // ------------------------------------------------------------ whole frames

  /** How a stream reads so far: nothing open, a header waiting for its payload,
      cut short by a torn write, or not a sequence of whole frames at all. */
  datatype Shape = Clean | Awaiting(i: Id) | Ended | Mangled

  function Next(sh: Shape, c: Chunk, empty: bool): Shape {
    match sh
    case Clean =>
      (match c.part
       case HeadPart => if empty then Clean else Awaiting(c.owner)
       case TornHead(_) => Ended
       case _ => Mangled)
    case Awaiting(i) =>
      if c.owner != i then Mangled
      else (match c.part
            case BodyPart => Clean
            case TornBody(_) => Ended
            case _ => Mangled)
    case Ended => Mangled
    case Mangled => Mangled
  }

  predicate Owned(ws: seq<Writer>, cs: seq<Chunk>) {
    forall k :: 0 <= k < |cs| ==> cs[k].owner < |ws|
  }

  function ShapeOf(ws: seq<Writer>, cs: seq<Chunk>): Shape
    requires Owned(ws, cs)
  {
    if cs == [] then Clean
    else
      var last := cs[|cs| - 1];
      Next(ShapeOf(ws, cs[..|cs| - 1]), last, ws[last.owner].payload == [])
  }

  // -------------------------------------------------------------- invariants

  predicate WritersOk(s: State) {
    && Owned(s.writers, s.chunks)
    && (forall i :: 0 <= i < |s.writers| ==> WriterOk(s.writers[i]))
    && (s.mutex.Some? ==> s.mutex.value < |s.writers| && s.writers[s.mutex.value].locked)
    && (forall i :: 0 <= i < |s.writers| && s.writers[i].locked ==>
          (s.mutex == Some(i) <==> s.writers[i].pc in {Entered, HeadOut, Written}))
    && (forall i :: 0 <= i < |s.writers| && s.writers[i].pc == HeadOut ==> s.writers[i].payload != [])
  }

  /** The stream and the program counters agree on who is mid-frame. */
  predicate Coupled(s: State)
    requires WritersOk(s)
  {
    match ShapeOf(s.writers, s.chunks)
    case Clean => !s.broken && forall i :: 0 <= i < |s.writers| ==> s.writers[i].pc != HeadOut
    case Awaiting(i) => !s.broken && forall j :: 0 <= j < |s.writers| ==> (s.writers[j].pc == HeadOut <==> j == i)
    case Ended => s.broken
    case Mangled => false
  }

  lemma WritersStep(s: State, a: Action)
    requires WritersOk(s) && Enabled(s, a)
    ensures WritersOk(Apply(s, a))
  {
    match a
    case Arrive(w) => ArriveOk(s, w);
    case Enter(i) => EnterOk(s, i);
    case Leave(i) => LeaveOk(s, i);
    case WriteHead(i) => PutOk(s, i, HeadPart, if s.writers[i].payload == [] then Written else HeadOut);
    case WriteBody(i) => PutOk(s, i, BodyPart, Written);
    case Tear(i, n) => PutOk(s, i, if At(s, i, Entered) then TornHead(n) else TornBody(n), Written);
  }

  lemma ArriveOk(s: State, w: Writer)
    requires WritersOk(s) && Enabled(s, Arrive(w))
    ensures WritersOk(Apply(s, Arrive(w)))
  {
  }

  lemma EnterOk(s: State, i: Id)
    requires WritersOk(s) && Enabled(s, Enter(i))
    ensures WritersOk(Apply(s, Enter(i)))
  {
  }

  lemma LeaveOk(s: State, i: Id)
    requires WritersOk(s) && Enabled(s, Leave(i))
    ensures WritersOk(Apply(s, Leave(i)))
  {
  }

  lemma PutOk(s: State, i: Id, part: Part, pc: Pc)
    requires WritersOk(s) && (At(s, i, Entered) || At(s, i, HeadOut))
    requires pc == Written || (pc == HeadOut && s.writers[i].payload != [])
    ensures WritersOk(Put(s, i, part, pc))
  {
  }

  /** Shapes depend only on payload emptiness, which no step changes. */
  lemma {:induction false} ShapeStable(ws: seq<Writer>, vs: seq<Writer>, cs: seq<Chunk>)
    requires Owned(ws, cs) && |ws| <= |vs| && forall i :: 0 <= i < |ws| ==> ws[i].payload == vs[i].payload
    ensures Owned(vs, cs) && ShapeOf(ws, cs) == ShapeOf(vs, cs)
    decreases |cs|
  {
    if cs != [] { ShapeStable(ws, vs, cs[..|cs| - 1]); }
  }

  lemma ShapeStep(s: State, a: Action)
    requires WritersOk(s) && Enabled(s, a)
    ensures var t := Apply(s, a);
            WritersOk(t) && var before, after := ShapeOf(s.writers, s.chunks), ShapeOf(t.writers, t.chunks);
            (t.chunks == s.chunks ==> after == before) &&
            (t.chunks != s.chunks ==>
               |t.chunks| == |s.chunks| + 1 &&
               var c := t.chunks[|s.chunks|];
               c.owner < |s.writers| && Writes(a, c.owner) && !s.broken &&
               after == Next(before, c, s.writers[c.owner].payload == []))
  {
    var t := Apply(s, a);
    WritersStep(s, a);
    ShapeStable(s.writers, t.writers, s.chunks);
    if t.chunks != s.chunks {
      assert t.chunks[..|s.chunks|] == s.chunks;
    }
  }

  lemma CoupledStep(s: State, a: Action)
    requires WritersOk(s) && Coupled(s) && Enabled(s, a) && !Clash(s, a)
    ensures WritersOk(Apply(s, a)) && Coupled(Apply(s, a))
  {
    WritersStep(s, a);
    if Apply(s, a).chunks == s.chunks {
      CoupledQuiet(s, a);
    } else if ShapeOf(s.writers, s.chunks).Awaiting? {
      CoupledBody(s, a);
    } else {
      CoupledHead(s, a);
    }
  }

  /** Nothing put out. */
  lemma CoupledQuiet(s: State, a: Action)
    requires WritersOk(s) && Coupled(s) && Enabled(s, a) && Apply(s, a).chunks == s.chunks
    ensures WritersOk(Apply(s, a)) && Coupled(Apply(s, a))
  {
    ShapeStep(s, a);
  }

  /** Something put out with no frame open: it is a header. */
  lemma CoupledHead(s: State, a: Action)
    requires WritersOk(s) && Coupled(s) && Enabled(s, a) && Apply(s, a).chunks != s.chunks
    requires !ShapeOf(s.writers, s.chunks).Awaiting?
    ensures WritersOk(Apply(s, a)) && Coupled(Apply(s, a))
  {
    ShapeStep(s, a);
  }

  /** Something put out with a frame open, and no clash: it is that frame's payload. */
  lemma CoupledBody(s: State, a: Action)
    requires WritersOk(s) && Coupled(s) && Enabled(s, a) && !Clash(s, a) && Apply(s, a).chunks != s.chunks
    requires ShapeOf(s.writers, s.chunks).Awaiting?
    ensures WritersOk(Apply(s, a)) && Coupled(Apply(s, a))
  {
    ShapeStep(s, a);
    var i, c := ShapeOf(s.writers, s.chunks).i, Apply(s, a).chunks[|s.chunks|];
    AwaitedExists(s, i);
    assert !ClashOf(s, a, c.owner, i);
  }

  lemma {:induction false} AwaitedExists(s: State, i: Id)
    requires WritersOk(s) && ShapeOf(s.writers, s.chunks) == Awaiting(i)
    ensures i < |s.writers|
  {
  }

  /** The first write between another's two mangles the stream. */
  lemma ClashMangles(s: State, a: Action)
    requires WritersOk(s) && Coupled(s) && Enabled(s, a) && Clash(s, a)
    ensures WritersOk(Apply(s, a)) && ShapeOf(Apply(s, a).writers, Apply(s, a).chunks) == Mangled
  {
    ShapeStep(s, a);
    var i, j :| ClashOf(s, a, i, j);
  }

  lemma {:induction false} MangledForever(s: State, acts: seq<Action>)
    requires WritersOk(s) && Legal(s, acts) && ShapeOf(s.writers, s.chunks) == Mangled
    ensures WritersOk(Run(s, acts)) && ShapeOf(Run(s, acts).writers, Run(s, acts).chunks) == Mangled
    decreases |acts|
  {
    if acts != [] {
      ShapeStep(s, acts[0]);
      MangledForever(Apply(s, acts[0]), acts[1..]);
    }
  }

  lemma {:induction false} ShapeIffNoClash(s: State, acts: seq<Action>)
    requires WritersOk(s) && Coupled(s) && Legal(s, acts)
    ensures WritersOk(Run(s, acts))
    ensures NoClash(s, acts) <==> ShapeOf(Run(s, acts).writers, Run(s, acts).chunks) != Mangled
    ensures NoClash(s, acts) ==> Coupled(Run(s, acts))
    decreases |acts|
  {
    if acts != [] {
      var t := Apply(s, acts[0]);
      if Clash(s, acts[0]) {
        ClashMangles(s, acts[0]);
        MangledForever(t, acts[1..]);
      } else {
        CoupledStep(s, acts[0]);
        ShapeIffNoClash(t, acts[1..]);
      }
    }
  }

  /** A write after which no frame is open. */
  predicate Closes(ws: seq<Writer>, c: Chunk)
    requires c.owner < |ws|
  {
    c.part == BodyPart || (c.part == HeadPart && ws[c.owner].payload == [])
  }

  /** A header stands at the start or after a finished frame; a payload directly
      after its own header. Nothing stands after a torn write. */
  predicate PartPlaced(ws: seq<Writer>, cs: seq<Chunk>, k: nat)
    requires Owned(ws, cs) && k < |cs|
  {
    if cs[k].part.HeadPart? || cs[k].part.TornHead? then k == 0 || Closes(ws, cs[k - 1])
    else k > 0 && cs[k - 1] == Chunk(cs[k].owner, HeadPart) && ws[cs[k].owner].payload != []
  }

  /** Every frame's two writes are adjacent, and frames do not overlap. */
  predicate Adjacent(ws: seq<Writer>, cs: seq<Chunk>)
    requires Owned(ws, cs)
  {
    forall k :: 0 <= k < |cs| ==> PartPlaced(ws, cs, k)
  }

  lemma AdjacentSnoc(ws: seq<Writer>, pre: seq<Chunk>, c: Chunk)
    requires Owned(ws, pre + [c])
    ensures Owned(ws, pre)
    ensures Adjacent(ws, pre + [c]) <==> Adjacent(ws, pre) && PartPlaced(ws, pre + [c], |pre|)
  {
    var cs := pre + [c];
    forall k | 0 <= k < |pre| ensures pre[k].owner < |ws| { assert cs[k] == pre[k]; }
    forall k | 0 <= k < |pre| ensures PartPlaced(ws, cs, k) <==> PartPlaced(ws, pre, k) {
      assert cs[k] == pre[k] && (k > 0 ==> cs[k - 1] == pre[k - 1]);
    }
    if Adjacent(ws, cs) {
      forall k | 0 <= k < |pre| ensures PartPlaced(ws, pre, k) { assert PartPlaced(ws, cs, k); }
    }
  }

  /** What the running shape stands for. */
  lemma {:induction false} ShapeMeans(ws: seq<Writer>, cs: seq<Chunk>)
    requires Owned(ws, cs)
    ensures ShapeOf(ws, cs) == if !Adjacent(ws, cs) then Mangled
                               else if cs == [] || Closes(ws, cs[|cs| - 1]) then Clean
                               else if cs[|cs| - 1].part == HeadPart then Awaiting(cs[|cs| - 1].owner)
                               else Ended
    decreases |cs|
  {
    if cs != [] {
      var pre, c := cs[..|cs| - 1], cs[|cs| - 1];
      assert cs == pre + [c];
      AdjacentSnoc(ws, pre, c);
      ShapeMeans(ws, pre);
      if pre != [] { assert pre[|pre| - 1] == cs[|pre| - 1]; }
    }
  }

  /** Over every run from a new connection: each frame's two writes are adjacent
      on the stream if and only if no write landed between another writer's two. */
  lemma AdjacentIffNoClash(acts: seq<Action>)
    requires Legal(START, acts)
    ensures var s := Run(START, acts);
            Owned(s.writers, s.chunks) && (NoClash(START, acts) <==> Adjacent(s.writers, s.chunks))
  {
    ShapeIffNoClash(START, acts);
    ShapeMeans(Run(START, acts).writers, Run(START, acts).chunks);
  }

  /** Two Calls never clash: one of the two is always a writer without the lock. */
  lemma ClashNeedsUnlocked(s: State, a: Action, i: Id, j: Id)
    requires WritersOk(s) && Enabled(s, a) && ClashOf(s, a, i, j)
    ensures i < |s.writers| && j < |s.writers| && (!s.writers[i].locked || !s.writers[j].locked)
  {
  }

  /** Only Calls write in this run: no pong, close echo or Close. */
  predicate OnlyCalls(acts: seq<Action>) {
    forall k :: 0 <= k < |acts| && acts[k].Arrive? ==> acts[k].w.locked
  }

  predicate AllLocked(s: State) { forall i :: 0 <= i < |s.writers| ==> s.writers[i].locked }

  lemma {:induction false} CallsNeverClash(s: State, acts: seq<Action>)
    requires WritersOk(s) && AllLocked(s) && Legal(s, acts) && OnlyCalls(acts)
    ensures NoClash(s, acts)
    decreases |acts|
  {
    if acts != [] {
      forall i, j | ClashOf(s, acts[0], i, j) ensures false { ClashNeedsUnlocked(s, acts[0], i, j); }
      WritersStep(s, acts[0]);
      CallsNeverClash(Apply(s, acts[0]), acts[1..]);
    }
  }

  // ------------------------------------------- which writers are safe together

  /** Writers that differ only in how far they have got. */
  predicate SameFrames(ws: seq<Writer>, vs: seq<Writer>) {
    |ws| == |vs| && forall i :: 0 <= i < |ws| ==> ws[i].(pc := Ready) == vs[i].(pc := Ready)
  }

  /** Two writers that can never come between each other: both take the lock, or
      neither has a second write to come in front of. */
  predicate Compatible(w: Writer, v: Writer) { (w.locked && v.locked) || (w.payload == [] && v.payload == []) }

  predicate AllCompatible(ws: seq<Writer>) {
    forall i, j :: 0 <= i < |ws| && 0 <= j < |ws| && i != j ==> Compatible(ws[i], ws[j])
  }

  predicate AllReady(ws: seq<Writer>) { forall i :: 0 <= i < |ws| ==> WriterOk(ws[i]) && ws[i].pc == Ready }

  /** A run of exactly these writers. */
  predicate RunOf(ws: seq<Writer>, acts: seq<Action>) {
    Legal(START, acts) && SameFrames(ws, Run(START, acts).writers)
  }

  predicate WholeAfter(acts: seq<Action>)
    requires Legal(START, acts)
  {
    var s := Run(START, acts);
    Owned(s.writers, s.chunks) && Adjacent(s.writers, s.chunks)
  }

  /** Whatever the schedule, these writers leave whole frames on the stream. */
  ghost predicate AlwaysWhole(ws: seq<Writer>) { forall acts :: RunOf(ws, acts) ==> WholeAfter(acts) }

  lemma {:induction false} WritersOnlyGrow(s: State, acts: seq<Action>)
    requires Legal(s, acts)
    ensures var t := Run(s, acts); |s.writers| <= |t.writers| && SameFrames(s.writers, t.writers[..|s.writers|])
    decreases |acts|
  {
    if acts != [] { WritersOnlyGrow(Apply(s, acts[0]), acts[1..]); }
  }

  /** Compatible now if compatible once all have arrived. */
  lemma CompatibleBefore(ws: seq<Writer>, vs: seq<Writer>)
    requires |ws| <= |vs| && SameFrames(ws, vs[..|ws|]) && AllCompatible(vs)
    ensures AllCompatible(ws)
  {
    forall i, j | 0 <= i < |ws| && 0 <= j < |ws| && i != j ensures Compatible(ws[i], ws[j]) {
      assert ws[i].(pc := Ready) == vs[..|ws|][i].(pc := Ready) && ws[j].(pc := Ready) == vs[..|ws|][j].(pc := Ready);
      assert Compatible(vs[i], vs[j]);
    }
  }

  lemma ClashIncompatible(s: State, a: Action, i: Id, j: Id)
    requires WritersOk(s) && Enabled(s, a) && ClashOf(s, a, i, j)
    ensures i < |s.writers| && j < |s.writers| && !Compatible(s.writers[i], s.writers[j])
  {
    ClashNeedsUnlocked(s, a, i, j);
  }

  lemma CompatibleNeverClash(s: State, a: Action)
    requires WritersOk(s) && Enabled(s, a) && AllCompatible(s.writers)
    ensures !Clash(s, a)
  {
    forall i: Id, j: Id ensures !ClashOf(s, a, i, j) {
      if ClashOf(s, a, i, j) { ClashIncompatible(s, a, i, j); }
    }
  }

  lemma {:induction false} CompatibleRun(s: State, acts: seq<Action>)
    requires WritersOk(s) && Legal(s, acts) && AllCompatible(Run(s, acts).writers)
    ensures NoClash(s, acts)
    decreases |acts|
  {
    if acts != [] {
      WritersOnlyGrow(s, acts);
      CompatibleBefore(s.writers, Run(s, acts).writers);
      CompatibleNeverClash(s, acts[0]);
      WritersStep(s, acts[0]);
      CompatibleRun(Apply(s, acts[0]), acts[1..]);
    }
  }

  lemma Prepend(s: State, a: Action, rest: seq<Action>)
    requires Enabled(s, a) && Legal(Apply(s, a), rest)
    ensures Legal(s, [a] + rest) && Run(s, [a] + rest) == Run(Apply(s, a), rest)
  {
    assert ([a] + rest)[1..] == rest;
  }

  /** Everyone arrives. */
  lemma {:induction false} Arrivals(s: State, ws: seq<Writer>) returns (acts: seq<Action>)
    requires AllReady(ws)
    ensures Legal(s, acts) && Run(s, acts) == s.(writers := s.writers + ws)
    decreases |ws|
  {
    if ws == [] {
      acts := [];
      assert s.writers + [] == s.writers;
    } else {
      var t := Apply(s, Arrive(ws[0]));
      var rest := Arrivals(t, ws[1..]);
      Prepend(s, Arrive(ws[0]), rest);
      assert s.writers + [ws[0]] + ws[1..] == s.writers + ws;
      acts := [Arrive(ws[0])] + rest;
    }
  }

  lemma {:induction false} Append(s: State, acts: seq<Action>, more: seq<Action>)
    requires Legal(s, acts) && Legal(Run(s, acts), more)
    ensures Legal(s, acts + more) && Run(s, acts + more) == Run(Run(s, acts), more)
    decreases |acts|
  {
    if acts == [] {
      assert acts + more == more;
    } else {
      assert (acts + more)[0] == acts[0] && (acts + more)[1..] == acts[1..] + more;
      Append(Apply(s, acts[0]), acts[1..], more);
    }
  }

  // ------------------------------------------------------------- no deadlock

  /** Steps a writer still has before it, at most. */
  function Left(w: Writer): nat {
    match w.pc case Ready => 4 case Entered => 3 case HeadOut => 2 case Written => 1 case Gone => 0
  }

  function TotalLeft(ws: seq<Writer>): nat { if ws == [] then 0 else Left(ws[0]) + TotalLeft(ws[1..]) }

  lemma {:induction false} LeftUpdate(ws: seq<Writer>, i: Id, w: Writer)
    requires i < |ws|
    ensures TotalLeft(ws[i := w]) == TotalLeft(ws) - Left(ws[i]) + Left(w)
  {
    if i == 0 {
      assert ws[0 := w][1..] == ws[1..];
    } else {
      assert ws[i := w][1..] == ws[1..][i - 1 := w];
      LeftUpdate(ws[1..], i - 1, w);
    }
  }

  /** The step a writer takes next when nothing breaks. */
  function NextStep(i: Id, pc: Pc): Action {
    match pc case Ready => Enter(i) case Entered => WriteHead(i) case HeadOut => WriteBody(i) case _ => Leave(i)
  }

  /** While any writer is unfinished, one of them can take its next step: the one
      that holds the lock, or anyone when nobody does. */
  lemma SomeoneMoves(s: State, i: Id) returns (m: Id)
    requires WritersOk(s) && i < |s.writers| && s.writers[i].pc != Gone
    ensures m < |s.writers| && s.writers[m].pc != Gone && Enabled(s, NextStep(m, s.writers[m].pc))
    ensures var t := Apply(s, NextStep(m, s.writers[m].pc));
            |t.writers| == |s.writers| && TotalLeft(t.writers) < TotalLeft(s.writers) && t.broken == s.broken
  {
    m := if s.mutex.Some? then s.mutex.value else i;
    var t := Apply(s, NextStep(m, s.writers[m].pc));
    LeftUpdate(s.writers, m, t.writers[m]);
    assert t.writers == s.writers[m := t.writers[m]];
  }

  predicate AllGone(s: State) { s.mutex == None && forall i :: 0 <= i < |s.writers| ==> s.writers[i].pc == Gone }

  lemma {:induction false} Drains(s: State) returns (acts: seq<Action>)
    requires WritersOk(s)
    ensures Legal(s, acts) && AllGone(Run(s, acts)) && |Run(s, acts).writers| == |s.writers| && Run(s, acts).broken == s.broken
    decreases TotalLeft(s.writers)
  {
    acts := [];
    if i :| 0 <= i < |s.writers| && s.writers[i].pc != Gone {
      var m := SomeoneMoves(s, i);
      var a := NextStep(m, s.writers[m].pc);
      WritersStep(s, a);
      var rest := Drains(Apply(s, a));
      Prepend(s, a, rest);
      acts := [a] + rest;
    }
  }

  /** No run deadlocks: from anywhere every writer that has arrived can be brought
      to its end and the lock released, on a broken connection too, and a sound one
      stays sound: what each has then put out is said by OneFrameEach. */
  lemma EveryoneFinishes(acts: seq<Action>) returns (more: seq<Action>)
    requires Legal(START, acts)
    ensures Legal(Run(START, acts), more) && AllGone(Run(Run(START, acts), more))
    ensures |Run(Run(START, acts), more).writers| == |Run(START, acts).writers|
    ensures !Run(START, acts).broken ==> !Run(Run(START, acts), more).broken
  {
    ShapeIffNoClash(START, acts);
    more := Drains(Run(START, acts));
  }

  /** A writer comes and writes its header. */
  function Barge(i: Id): seq<Action> { [Enter(i), WriteHead(i)] }

  lemma Barges(s: State, i: Id)
    requires At(s, i, Ready) && (s.writers[i].locked ==> s.mutex == None)
    ensures Legal(s, Barge(i)) && Run(s, Barge(i)) == Apply(Apply(s, Enter(i)), WriteHead(i))
  {
    var t := Apply(s, Enter(i));
    Prepend(t, WriteHead(i), []);
    Prepend(s, Enter(i), [WriteHead(i)] + []);
    assert [Enter(i)] + ([WriteHead(i)] + []) == Barge(i);
  }

  /** Writer `j` puts its header out with more to write, and `i` writes then. */
  lemma Intrudes(s: State, i: Id, j: Id)
    requires i != j && At(s, i, Ready) && At(s, j, Ready) && s.mutex == None && !s.broken && s.chunks == []
    requires s.writers[j].payload != [] && !(s.writers[i].locked && s.writers[j].locked)
    ensures Legal(s, Barge(j) + Barge(i)) && SameFrames(s.writers, Run(s, Barge(j) + Barge(i)).writers)
    ensures Run(s, Barge(j) + Barge(i)).chunks == [Chunk(j, HeadPart), Chunk(i, HeadPart)]
  {
    Barges(s, j);
    Barges(Run(s, Barge(j)), i);
    Append(s, Barge(j), Barge(i));
  }

  lemma HeaderOnHeader(ws: seq<Writer>, i: Id, j: Id)
    requires i < |ws| && j < |ws| && ws[j].payload != []
    ensures !Adjacent(ws, [Chunk(j, HeadPart), Chunk(i, HeadPart)])
  {
    assert !PartPlaced(ws, [Chunk(j, HeadPart), Chunk(i, HeadPart)], 1);
  }

  /** Two writers that are not compatible have a schedule that breaks a frame. */
  lemma IncompatibleRun(ws: seq<Writer>, i: Id, j: Id) returns (acts: seq<Action>)
    requires AllReady(ws) && i < |ws| && j < |ws| && i != j
    requires ws[j].payload != [] && !(ws[i].locked && ws[j].locked)
    ensures RunOf(ws, acts) && Run(START, acts).chunks == [Chunk(j, HeadPart), Chunk(i, HeadPart)]
  {
    var here := Arrivals(START, ws);
    assert START.writers + ws == ws;
    Intrudes(Run(START, here), i, j);
    Append(START, here, Barge(j) + Barge(i));
    acts := here + (Barge(j) + Barge(i));
  }

  lemma IncompatibleBreaks(ws: seq<Writer>, i: Id, j: Id)
    requires AllReady(ws) && i < |ws| && j < |ws| && i != j
    requires ws[j].payload != [] && !(ws[i].locked && ws[j].locked)
    ensures !AlwaysWhole(ws)
  {
    var acts := IncompatibleRun(ws, i, j);
    var vs := Run(START, acts).writers;
    assert vs[j].(pc := Ready) == ws[j].(pc := Ready);
    HeaderOnHeader(vs, i, j);
    assert !WholeAfter(acts);
  }

  /** Exactly which writers may share the connection: every schedule of them leaves
      each frame's two writes adjacent, if and only if any two of them both hold
      `writeMu` or both have nothing after the header. */
  lemma WholeExactly(ws: seq<Writer>)
    requires AllReady(ws)
    ensures AlwaysWhole(ws) <==> AllCompatible(ws)
  {
    if AllCompatible(ws) {
      forall acts | RunOf(ws, acts) ensures WholeAfter(acts) {
        CompatibleBefore(Run(START, acts).writers, ws);
        CompatibleRun(START, acts);
        AdjacentIffNoClash(acts);
      }
    } else {
      var i, j :| 0 <= i < |ws| && 0 <= j < |ws| && i != j && !Compatible(ws[i], ws[j]);
      if ws[j].payload != [] { IncompatibleBreaks(ws, i, j); } else { IncompatibleBreaks(ws, j, i); }
    }
  }

  /** So beside a request, frames stay whole if and only if everyone takes the lock. */
  lemma WholeBesideARequest(ws: seq<Writer>, k: Id)
    requires AllReady(ws) && k < |ws| && ws[k].locked && ws[k].payload != []
    ensures AlwaysWhole(ws) <==> forall i :: 0 <= i < |ws| ==> ws[i].locked
  {
    WholeExactly(ws);
    if AllCompatible(ws) {
      forall i | 0 <= i < |ws| ensures ws[i].locked {
        if i != k { assert Compatible(ws[i], ws[k]); }
      }
    }
  }

  // ---------------------------------------------------------------- the bytes

  predicate ChunkOk(ws: seq<Writer>, c: Chunk) {
    c.owner < |ws| && WriterOk(ws[c.owner]) &&
    match c.part
    case TornHead(n) => n < |Head(ws[c.owner])|
    case TornBody(n) => n < |Body(ws[c.owner])|
    case _ => true
  }

  predicate ChunksOk(ws: seq<Writer>, cs: seq<Chunk>) {
    forall k :: 0 <= k < |cs| ==> ChunkOk(ws, cs[k])
  }

  function ChunkBytes(ws: seq<Writer>, c: Chunk): bytes
    requires ChunkOk(ws, c)
  {
    match c.part
    case HeadPart => Head(ws[c.owner])
    case BodyPart => Body(ws[c.owner])
    case TornHead(n) => Head(ws[c.owner])[..n]
    case TornBody(n) => Body(ws[c.owner])[..n]
  }

  lemma {:induction false} ChunksStay(s: State, acts: seq<Action>)
    requires WritersOk(s) && ChunksOk(s.writers, s.chunks) && Legal(s, acts)
    ensures ChunksOk(Run(s, acts).writers, Run(s, acts).chunks)
    decreases |acts|
  {
    if acts != [] {
      var t := Apply(s, acts[0]);
      WritersStep(s, acts[0]);
      forall k | 0 <= k < |t.chunks| ensures ChunkOk(t.writers, t.chunks[k]) {
        if k < |s.chunks| { assert ChunkOk(s.writers, s.chunks[k]); }
      }
      ChunksStay(t, acts[1..]);
    }
  }

  function Stream(ws: seq<Writer>, cs: seq<Chunk>): bytes
    requires ChunksOk(ws, cs)
  {
    if cs == [] then [] else Stream(ws, cs[..|cs| - 1]) + ChunkBytes(ws, cs[|cs| - 1])
  }

  /** The frames whose headers are out whole, in that order. */
  function Started(ws: seq<Writer>, cs: seq<Chunk>): (fs: seq<bytes>)
    requires ChunksOk(ws, cs)
  {
    if cs == [] then []
    else
      var last := cs[|cs| - 1];
      var fs := Started(ws, cs[..|cs| - 1]);
      if last.part == HeadPart then fs + [WS.Encode(FrameOf(ws[last.owner]))] else fs
  }

  /** Whole frames, then part of one. */
  ghost predicate CutShort(stream: bytes, fs: seq<bytes>, f: bytes) {
    exists n: nat :: n < |f| && stream == Concat(fs) + f[..n]
  }

  /** Read back as bytes: with nothing open the stream is exactly the encoded
      frames one after another; with one open, or torn, those before it and a
      proper prefix of it. */
  ghost predicate ReadsAs(ws: seq<Writer>, cs: seq<Chunk>)
    requires ChunksOk(ws, cs)
  {
    var fs := Started(ws, cs);
    match ShapeOf(ws, cs)
    case Clean => Stream(ws, cs) == Concat(fs)
    case Awaiting(i) =>
      i < |ws| && WriterOk(ws[i]) && |fs| > 0 && fs[|fs| - 1] == WS.Encode(FrameOf(ws[i]))
      && Stream(ws, cs) == Concat(fs[..|fs| - 1]) + Head(ws[i])
    case Ended =>
      cs != [] && var c := cs[|cs| - 1];
      (c.part.TornHead? || |fs| > 0) &&
      var before := if c.part.TornHead? then fs else fs[..|fs| - 1];
      CutShort(Stream(ws, cs), before, WS.Encode(FrameOf(ws[c.owner])))
    case Mangled => true
  }

  lemma {:induction false} StreamIsFrames(ws: seq<Writer>, cs: seq<Chunk>)
    requires ChunksOk(ws, cs)
    ensures ReadsAs(ws, cs)
    decreases |cs|
  {
    if cs != [] {
      var pre, c := cs[..|cs| - 1], cs[|cs| - 1];
      assert ChunkOk(ws, c);
      StreamIsFrames(ws, pre);
      HeadBody(ws[c.owner]);
      assert cs == pre + [c];
      if c.part.HeadPart? { StreamHead(ws, pre, c); }
      else if c.part.BodyPart? { StreamBody(ws, pre, c); }
      else { StreamTorn(ws, pre, c); }
    }
  }

  lemma Snoc(ws: seq<Writer>, pre: seq<Chunk>, c: Chunk)
    requires ChunksOk(ws, pre) && ChunkOk(ws, c)
    ensures ChunksOk(ws, pre + [c])
    ensures Stream(ws, pre + [c]) == Stream(ws, pre) + ChunkBytes(ws, c)
    ensures Started(ws, pre + [c])
         == if c.part == HeadPart then Started(ws, pre) + [WS.Encode(FrameOf(ws[c.owner]))] else Started(ws, pre)
    ensures ShapeOf(ws, pre + [c]) == Next(ShapeOf(ws, pre), c, ws[c.owner].payload == [])
  {
    assert (pre + [c])[..|pre|] == pre;
  }

  lemma StreamHead(ws: seq<Writer>, pre: seq<Chunk>, c: Chunk)
    requires ChunksOk(ws, pre) && ChunkOk(ws, c) && ReadsAs(ws, pre) && c.part == HeadPart
    ensures ReadsAs(ws, pre + [c])
  {
    Snoc(ws, pre, c);
    var w := ws[c.owner];
    var fs, f := Started(ws, pre), WS.Encode(FrameOf(w));
    HeadBody(w);
    ConcatSnoc(fs, f);
    assert (fs + [f])[..|fs|] == fs;
    if w.payload == [] { assert Head(w) + Body(w) == Head(w); }
  }

  lemma StreamBody(ws: seq<Writer>, pre: seq<Chunk>, c: Chunk)
    requires ChunksOk(ws, pre) && ChunkOk(ws, c) && ReadsAs(ws, pre) && c.part == BodyPart
    ensures ReadsAs(ws, pre + [c])
  {
    Snoc(ws, pre, c);
    if ShapeOf(ws, pre) == Awaiting(c.owner) {
      HeadBody(ws[c.owner]);
      PayloadCloses(Started(ws, pre), Head(ws[c.owner]), Body(ws[c.owner]));
    }
  }

  lemma PayloadCloses(fs: seq<bytes>, h: bytes, b: bytes)
    requires |fs| > 0 && fs[|fs| - 1] == h + b
    ensures Concat(fs[..|fs| - 1]) + h + b == Concat(fs)
  {
    var n := |fs| - 1;
    assert fs == fs[..n] + [h + b];
    ConcatSnoc(fs[..n], h + b);
    Assoc(Concat(fs[..n]), h, b);
  }

  lemma StreamTorn(ws: seq<Writer>, pre: seq<Chunk>, c: Chunk)
    requires ChunksOk(ws, pre) && ChunkOk(ws, c) && ReadsAs(ws, pre) && !c.part.HeadPart? && !c.part.BodyPart?
    ensures ReadsAs(ws, pre + [c])
  {
    Snoc(ws, pre, c);
    var w := ws[c.owner];
    var fs := Started(ws, pre);
    HeadBody(w);
    if c.part.TornHead? {
      TearInHeader(fs, Head(w), Body(w), c.part.n);
    } else if ShapeOf(ws, pre) == Awaiting(c.owner) {
      TearInPayload(fs[..|fs| - 1], Head(w), Body(w), c.part.n);
    }
  }

  lemma TearInHeader(fs: seq<bytes>, h: bytes, b: bytes, n: nat)
    requires n < |h|
    ensures CutShort(Concat(fs) + h[..n], fs, h + b)
  {
    PrefixOfSum(h, b, n);
  }

  lemma TearInPayload(fs: seq<bytes>, h: bytes, b: bytes, n: nat)
    requires n < |b|
    ensures CutShort(Concat(fs) + h + b[..n], fs, h + b)
  {
    PrefixPastFirst(h, b, n);
    Assoc(Concat(fs), h, b[..n]);
    assert |h| + n < |h + b|;
  }

  lemma PrefixOfSum(a: bytes, b: bytes, n: nat)
    requires n <= |a|
    ensures (a + b)[..n] == a[..n]
  {
  }

  lemma PrefixPastFirst(a: bytes, b: bytes, n: nat)
    requires n <= |b|
    ensures (a + b)[..|a| + n] == a + b[..n]
  {
  }

  /** How many headers of writer `i` are on the stream. */
  function HeadCount(cs: seq<Chunk>, i: Id): nat {
    if cs == [] then 0
    else HeadCount(cs[..|cs| - 1], i) + if cs[|cs| - 1] == Chunk(i, HeadPart) then 1 else 0
  }

  lemma {:induction false} HeadCountZero(cs: seq<Chunk>, i: Id)
    requires forall k :: 0 <= k < |cs| ==> cs[k].owner < i
    ensures HeadCount(cs, i) == 0
    decreases |cs|
  {
    if cs != [] { HeadCountZero(cs[..|cs| - 1], i); }
  }

  /** A frame for every writer past its first write, and for no other. */
  predicate OneEach(s: State) {
    forall i :: 0 <= i < |s.writers| ==>
      (s.writers[i].pc in {Ready, Entered} ==> HeadCount(s.chunks, i) == 0) &&
      (s.writers[i].pc in {HeadOut, Written, Gone} ==>
         HeadCount(s.chunks, i) <= 1 && (!s.broken ==> HeadCount(s.chunks, i) == 1))
  }

  lemma {:induction false} OneFrameEach(s: State, acts: seq<Action>)
    requires WritersOk(s) && OneEach(s) && Legal(s, acts)
    ensures OneEach(Run(s, acts))
    decreases |acts|
  {
    if acts != [] {
      var t := Apply(s, acts[0]);
      WritersStep(s, acts[0]);
      forall i | 0 <= i < |t.writers|
        ensures t.chunks == s.chunks || HeadCount(t.chunks, i) ==
                HeadCount(s.chunks, i) + if t.chunks[|t.chunks| - 1] == Chunk(i, HeadPart) then 1 else 0
      {
        if t.chunks != s.chunks { assert t.chunks[..|t.chunks| - 1] == s.chunks; }
      }
      if acts[0].Arrive? { HeadCountZero(s.chunks, |s.writers|); }
      OneFrameEach(t, acts[1..]);
    }
  }

  /** Concurrent Calls alone: whatever the interleaving, the stream is whole
      request frames, one for each request past its first write, and at most the
      last of them is incomplete. */
  lemma CallsWriteWholeFrames(acts: seq<Action>)
    requires Legal(START, acts) && OnlyCalls(acts)
    ensures var s := Run(START, acts);
            ChunksOk(s.writers, s.chunks) && Adjacent(s.writers, s.chunks)
            && ReadsAs(s.writers, s.chunks) && OneEach(s)
  {
    OneFrameEach(START, acts);
    CallsNeverClash(START, acts);
    AdjacentIffNoClash(acts);
    ChunksStay(START, acts);
    var s := Run(START, acts);
    StreamIsFrames(s.writers, s.chunks);
  }

  // ------------------------------------------------- a write in the way, on bytes

  /** What the peer reads after a header, whatever bytes follow it: as many as the
      header announces, unmasked. They are the payload if and only if they were
      its masked bytes. */
  lemma HeaderTakesWhatFollows(w: Writer, u: bytes)
    requires WriterOk(w) && |w.payload| <= WS.MAX_FRAME && |w.payload| <= |u|
    ensures var n := |w.payload|;
            var r := WS.ReadFrame(Head(w) + u);
            r == WS.Frame(w.opcode % 16, WS.Mask(u[..n], w.key), true, u[n..])
            && (r.payload == w.payload <==> u[..n] == Body(w))
  {
    var f, n := FrameOf(w), |w.payload|;
    var h := WS.Header(f.fin, f.rsv, f.opcode, true, f.form, n);
    WS.HeaderDecodes(f.fin, f.rsv, f.opcode, true, f.form, n);
    Regroup(h, w.key, u, n);
    WS.ReadMasked(h, w.key, u[..n], u[n..]);
    WS.MaskInvolution(u[..n], w.key);
    WS.MaskInvolution(w.payload, w.key);
  }

  lemma Regroup(h: bytes, k: bytes, u: bytes, n: nat)
    requires n <= |u|
    ensures h + k + u == h + (k + u[..n] + u[n..])
  {
    assert u == u[..n] + u[n..];
  }

  lemma {:induction false} StreamStable(ws: seq<Writer>, vs: seq<Writer>, cs: seq<Chunk>)
    requires SameFrames(ws, vs) && ChunksOk(ws, cs)
    ensures ChunksOk(vs, cs) && Stream(vs, cs) == Stream(ws, cs) && Started(vs, cs) == Started(ws, cs)
    decreases |cs|
  {
    forall k | 0 <= k < |cs| ensures ChunkOk(vs, cs[k]) { ChunkStable(ws, vs, cs[k]); }
    if cs != [] {
      ChunkStable(ws, vs, cs[|cs| - 1]);
      StreamStable(ws, vs, cs[..|cs| - 1]);
    }
  }

  lemma ChunkStable(ws: seq<Writer>, vs: seq<Writer>, c: Chunk)
    requires SameFrames(ws, vs) && ChunkOk(ws, c)
    ensures ChunkOk(vs, c) && ChunkBytes(vs, c) == ChunkBytes(ws, c) && FrameOf(vs[c.owner]) == FrameOf(ws[c.owner])
  {
    assert ws[c.owner].(pc := Ready) == vs[c.owner].(pc := Ready);
  }

  /** Writer `j` puts its whole frame out between writer `i`'s two writes. */
  function Interruption(s: State, i: Id, j: Id): seq<Action>
    requires j < |s.writers|
  {
    [WriteHead(j)] + (if s.writers[j].payload == [] then [WriteBody(i)] else [WriteBody(j)] + [WriteBody(i)])
  }

  function Interrupted(s: State, i: Id, j: Id): seq<Chunk>
    requires j < |s.writers|
  {
    if s.writers[j].payload == [] then s.chunks + [Chunk(j, HeadPart)] + [Chunk(i, BodyPart)]
    else s.chunks + [Chunk(j, HeadPart)] + [Chunk(j, BodyPart)] + [Chunk(i, BodyPart)]
  }

  lemma InterruptionRuns(s: State, i: Id, j: Id)
    requires i != j && !s.broken && At(s, i, HeadOut) && At(s, j, Entered)
    ensures Legal(s, Interruption(s, i, j))
    ensures var t := Run(s, Interruption(s, i, j));
            SameFrames(s.writers, t.writers) && t.chunks == Interrupted(s, i, j)
  {
    var s1 := Apply(s, WriteHead(j));
    if s.writers[j].payload == [] {
      Prepend(s1, WriteBody(i), []);
      assert [WriteBody(i)] + [] == [WriteBody(i)];
      Prepend(s, WriteHead(j), [WriteBody(i)]);
    } else {
      var s2 := Apply(s1, WriteBody(j));
      Prepend(s2, WriteBody(i), []);
      assert [WriteBody(i)] + [] == [WriteBody(i)];
      Prepend(s1, WriteBody(j), [WriteBody(i)]);
      Prepend(s, WriteHead(j), [WriteBody(j)] + [WriteBody(i)]);
    }
  }

  lemma InterruptedBytes(s: State, i: Id, j: Id)
    requires i < |s.writers| && j < |s.writers| && ChunksOk(s.writers, s.chunks)
    requires WriterOk(s.writers[i]) && WriterOk(s.writers[j])
    ensures ChunksOk(s.writers, Interrupted(s, i, j))
    ensures Stream(s.writers, Interrupted(s, i, j))
         == Stream(s.writers, s.chunks) + WS.Encode(FrameOf(s.writers[j])) + Body(s.writers[i])
  {
    var ws, a := s.writers, s.chunks + [Chunk(j, HeadPart)];
    Snoc(ws, s.chunks, Chunk(j, HeadPart));
    HeadBody(ws[j]);
    if ws[j].payload == [] {
      assert Head(ws[j]) + Body(ws[j]) == Head(ws[j]);
      Snoc(ws, a, Chunk(i, BodyPart));
    } else {
      Snoc(ws, a, Chunk(j, BodyPart));
      Assoc(Stream(ws, s.chunks), Head(ws[j]), Body(ws[j]));
      Snoc(ws, a + [Chunk(j, BodyPart)], Chunk(i, BodyPart));
    }
  }

  /** Between its two writes a frame is the last on the stream, its header whole. */
  lemma OpenStream(s: State, i: Id)
    requires WritersOk(s) && Coupled(s) && ChunksOk(s.writers, s.chunks) && !s.broken && At(s, i, HeadOut)
    ensures var fs := Started(s.writers, s.chunks);
            |fs| > 0 && Stream(s.writers, s.chunks) == Concat(fs[..|fs| - 1]) + Head(s.writers[i])
  {
    assert ShapeOf(s.writers, s.chunks) == Awaiting(i);
    StreamIsFrames(s.writers, s.chunks);
  }

  lemma InterruptedEnd(s: State, i: Id, j: Id)
    requires WritersOk(s) && ChunksOk(s.writers, s.chunks)
    requires i != j && !s.broken && At(s, i, HeadOut) && At(s, j, Entered)
    ensures Legal(s, Interruption(s, i, j))
    ensures var t := Run(s, Interruption(s, i, j));
            ChunksOk(t.writers, t.chunks) &&
            Stream(t.writers, t.chunks)
            == Stream(s.writers, s.chunks) + WS.Encode(FrameOf(s.writers[j])) + Body(s.writers[i])
  {
    InterruptionRuns(s, i, j);
    InterruptedBytes(s, i, j);
    StreamStable(s.writers, Run(s, Interruption(s, i, j)).writers, Interrupted(s, i, j));
  }

  /** From any state where writer `i` is between its writes and nothing has
      clashed yet, another writer's whole frame may go out there. The peer then
      finds, after the frames already complete, `i`'s header and behind it the
      other frame and `i`'s payload, in that order. */
  lemma InterruptedStream(s: State, i: Id, j: Id)
    requires WritersOk(s) && Coupled(s) && ChunksOk(s.writers, s.chunks)
    requires i != j && !s.broken && At(s, i, HeadOut) && At(s, j, Entered)
    ensures Legal(s, Interruption(s, i, j))
    ensures var t := Run(s, Interruption(s, i, j));
            var fs := Started(s.writers, s.chunks);
            ChunksOk(t.writers, t.chunks) && |fs| > 0 &&
            Stream(t.writers, t.chunks)
            == Concat(fs[..|fs| - 1]) + (Head(s.writers[i]) + (WS.Encode(FrameOf(s.writers[j])) + Body(s.writers[i])))
  {
    var fs := Started(s.writers, s.chunks);
    OpenStream(s, i);
    InterruptedEnd(s, i, j);
    FourParts(Concat(fs[..|fs| - 1]), Head(s.writers[i]), WS.Encode(FrameOf(s.writers[j])), Body(s.writers[i]));
  }

  lemma FourParts(a: bytes, b: bytes, c: bytes, d: bytes)
    ensures a + b + c + d == a + (b + (c + d))
  {
  }

  /** So the stream is the two frames after all if and only if the other frame
      and the payload commute, and the peer reads the right payload if and only
      if the other frame and the payload together begin with the payload. */
  lemma InterruptedFrame(w: Writer, x: bytes)
    requires WriterOk(w) && |w.payload| <= WS.MAX_FRAME
    ensures var n, u := |w.payload|, x + Body(w);
            var r := WS.ReadFrame(Head(w) + u);
            r == WS.Frame(w.opcode % 16, WS.Mask(u[..n], w.key), true, u[n..])
            && (r.payload == w.payload <==> u[..n] == Body(w))
            && (Head(w) + u == WS.Encode(FrameOf(w)) + x <==> u == Body(w) + x)
  {
    HeaderTakesWhatFollows(w, x + Body(w));
    HeadBody(w);
    Assoc(Head(w), Body(w), x);
    SameAfter(Head(w), x + Body(w), Body(w) + x);
  }

  lemma SameAfter(h: bytes, a: bytes, b: bytes)
    ensures h + a == h + b <==> a == b
  {
    assert (h + a)[|h|..] == a && (h + b)[|h|..] == b;
  }

  /** Whatever the two frames, a frame that goes out between another's writes
      spares it under one value of that frame's first mask byte at most: under
      every other the peer reads a different payload. */
  lemma OneMaskSpared(w: Writer, v: Writer)
    requires WriterOk(w) && WriterOk(v) && 0 < |w.payload| <= WS.MAX_FRAME
    ensures var x := WS.Encode(FrameOf(v));
            x != [] && WS.ReadFrame(Head(w) + (x + Body(w))).Frame?
            && (WS.ReadFrame(Head(w) + (x + Body(w))).payload == w.payload ==>
                  w.key[0] == Bits.Xor(x[0], w.payload[0]))
  {
    var x, n := WS.Encode(FrameOf(v)), |w.payload|;
    HeadBody(v);
    InterruptedFrame(w, x);
    if (x + Body(w))[..n] == Body(w) {
      assert (x + Body(w))[..n][0] == x[0];
      SparedMask(w.payload[0], w.key[0], x[0]);
    }
  }

  lemma SparedMask(p: byte, k: byte, x: byte)
    requires Bits.Xor(p, k) == x
    ensures k == Bits.Xor(x, p)
  {
    Bits.XorCommutes(p, k);
    Bits.XorInvolution(k, p);
  }

  // --------------------------------------------------------- a pong in the way

  /** A Call between its two writes, and a pong that has come up meanwhile. */
  function BetweenTheWrites(call: Writer, pong: Writer): State {
    State([call.(pc := HeadOut), pong.(pc := Entered)], Some(0), [Chunk(0, HeadPart)], false)
  }

  predicate CallAndPong(call: Writer, pong: Writer) {
    && WriterOk(call) && WriterOk(pong) && call.pc == Ready && pong.pc == Ready
    && call.locked && call.opcode == WS.OP_TEXT && call.payload != []
    && !pong.locked && pong.opcode == WS.OP_PONG
  }

  /** That state is one a run reaches. */
  lemma BetweenTheWritesIsReached(call: Writer, pong: Writer) returns (acts: seq<Action>)
    requires CallAndPong(call, pong)
    ensures Legal(START, acts) && Run(START, acts) == BetweenTheWrites(call, pong)
  {
    var s1 := Apply(START, Arrive(call));
    var s2 := Apply(s1, Arrive(pong));
    var s3 := Apply(s2, Enter(0));
    var s4 := Apply(s3, WriteHead(0));
    assert Apply(s4, Enter(1)) == BetweenTheWrites(call, pong);
    var a4 := [Enter(1)] + [];
    Prepend(s4, Enter(1), []);
    Prepend(s3, WriteHead(0), a4);
    var a3 := [WriteHead(0)] + a4;
    Prepend(s2, Enter(0), a3);
    var a2 := [Enter(0)] + a3;
    Prepend(s1, Arrive(pong), a2);
    var a1 := [Arrive(pong)] + a2;
    Prepend(START, Arrive(call), a1);
    acts := [Arrive(call)] + a1;
  }

  lemma BetweenTheWritesOk(call: Writer, pong: Writer)
    requires CallAndPong(call, pong)
    ensures var s := BetweenTheWrites(call, pong);
            WritersOk(s) && Coupled(s) && ChunksOk(s.writers, s.chunks) && |Started(s.writers, s.chunks)| == 1
  {
    var s := BetweenTheWrites(call, pong);
    assert s.chunks[..0] == [];
    assert ShapeOf(s.writers, s.chunks[..0]) == Clean;
    assert Started(s.writers, s.chunks[..0]) == [];
  }

  /** The stream when the pong has gone out there and the request after it. */
  ghost function PongStream(call: Writer, pong: Writer): bytes
    requires CallAndPong(call, pong)
  {
    var s := BetweenTheWrites(call, pong);
    BetweenTheWritesOk(call, pong);
    InterruptedEnd(s, 0, 1);
    var t := Run(s, Interruption(s, 0, 1));
    Stream(t.writers, t.chunks)
  }

  lemma PongStreamBytes(call: Writer, pong: Writer)
    requires CallAndPong(call, pong)
    ensures PongStream(call, pong) == Head(call) + (WS.Encode(FrameOf(pong)) + Body(call))
  {
    var s := BetweenTheWrites(call, pong);
    BetweenTheWritesOk(call, pong);
    InterruptedStream(s, 0, 1);
    assert Head(s.writers[0]) == Head(call) && Body(s.writers[0]) == Body(call) && FrameOf(s.writers[1]) == FrameOf(pong);
    var fs := Started(s.writers, s.chunks);
    assert fs[..|fs| - 1] == [];
    NothingFirst(Head(call) + (WS.Encode(FrameOf(pong)) + Body(call)));
  }

  lemma NothingFirst(a: bytes)
    ensures [] + a == a
  {
  }

  /** The bytes of that run, what the peer reads of the request, and exactly when
      that is the request, and when the bytes are the two frames after all. */
  lemma PongInsideARequest(call: Writer, pong: Writer)
    requires CallAndPong(call, pong) && |call.payload| <= WS.MAX_FRAME
    ensures var x, n := WS.Encode(FrameOf(pong)), |call.payload|;
            var u := x + Body(call);
            var r := WS.ReadFrame(PongStream(call, pong));
            r == WS.Frame(WS.OP_TEXT, WS.Mask(u[..n], call.key), true, u[n..])
            && (r.payload == call.payload <==> u[..n] == Body(call))
            && (PongStream(call, pong) == WS.Encode(FrameOf(call)) + x <==> u == Body(call) + x)
  {
    PongStreamBytes(call, pong);
    InterruptedFrame(call, WS.Encode(FrameOf(pong)));
  }

  const PONG_BYTE: byte := 0x8A

  lemma PongStarts(pong: Writer)
    requires WriterOk(pong) && pong.opcode == WS.OP_PONG
    ensures WS.Encode(FrameOf(pong)) != [] && WS.Encode(FrameOf(pong))[0] == PONG_BYTE
  {
  }

  /** For every request whose first masked byte is not a pong's first byte, the
      peer reads something else in its place. */
  lemma PongCorruptsARequest(call: Writer, pong: Writer)
    requires CallAndPong(call, pong) && |call.payload| <= WS.MAX_FRAME
    requires Body(call)[0] != PONG_BYTE
    ensures var r := WS.ReadFrame(PongStream(call, pong));
            r.Frame? && r.opcode == WS.OP_TEXT && r.payload != call.payload
  {
    PongInsideARequest(call, pong);
    PongStarts(pong);
    var u := WS.Encode(FrameOf(pong)) + Body(call);
    assert u[..|call.payload|][0] == PONG_BYTE;
  }

  /** One such request: an empty object, masked with zeros. */
  lemma PongCorruptsThisRequest(call: Writer, pong: Writer)
    requires call == Writer(WS.OP_TEXT, [123, 125], [0, 0, 0, 0], true, Ready)
    requires pong == Writer(WS.OP_PONG, [], [0, 0, 0, 0], false, Ready)
    ensures CallAndPong(call, pong)
    ensures WS.ReadFrame(PongStream(call, pong)).Frame? && WS.ReadFrame(PongStream(call, pong)).payload != call.payload
  {
    Bits.XorZero(123);
    PongCorruptsARequest(call, pong);
  }
}
