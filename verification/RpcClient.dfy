/** The multiplexing RPC client (codexmsg/client.go) as a step system: any number
    of Calls, one reader, and any number of Closes share a pending map. Every
    lock-protected block is one step; so is every channel operation outside it.
    A run is any sequence of enabled steps. */
module RpcClient {
  import opened Bytes
  import Decimal

  // ------------------------------------------------------- ids and messages

  /** A request id: a string when `str` is non-empty, else a number. */
  datatype RequestID = RequestID(num: int, str: bytes)

  function IntID(n: int): RequestID { RequestID(n, []) }

  /** The pending map's key: the two kinds of id live under different prefixes. */
  function Key(id: RequestID): bytes {
    if id.str != [] then [115, 58] + id.str else [110, 58] + Decimal.Print(id.num)
  }

  lemma KeySeparates(a: RequestID, b: RequestID)
    ensures Key(a) == Key(b) <==> (a.str == b.str && (a.str == [] ==> a.num == b.num))
  {
    var ka, kb := Key(a), Key(b);
    assert ka[2..] == if a.str != [] then a.str else Decimal.Print(a.num);
    assert kb[2..] == if b.str != [] then b.str else Decimal.Print(b.num);
    if ka == kb && a.str == [] {
      assert ka[0] == 110;
      Decimal.PrintInjective(a.num, b.num);
    }
  }

  const TWO64: nat := 0x1_0000_0000_0000_0000
  const TWO63: nat := 0x8000_0000_0000_0000

  /** An int64 counter's value after `n` increments. */
  function Wrap64(n: nat): int { (n + TWO63) % TWO64 - TWO63 }

  /** It stays within 64 bits, and differs from the count by whole laps. */
  lemma Wrap64Is(n: nat) returns (laps: nat)
    ensures 0 <= Wrap64(n) + TWO63 && Wrap64(n) < TWO63 && n == Wrap64(n) + laps * TWO64
    ensures n < TWO63 ==> Wrap64(n) == n
  {
    laps := (n + TWO63) / TWO64;
    assert n + TWO63 == laps * TWO64 + (n + TWO63) % TWO64;
  }

  /** A call is named by how many ids were issued before its own. */
  type CallId = nat

  function KeyOf(c: CallId): bytes { Key(IntID(Wrap64(c + 1))) }

  lemma Wrap64Injective(a: nat, b: nat)
    requires Wrap64(a) == Wrap64(b) && a < b + TWO64 && b < a + TWO64
    ensures a == b
  {
    var qa, qb := (a + TWO63) / TWO64, (b + TWO63) / TWO64;
    assert a + TWO63 == qa * TWO64 + (a + TWO63) % TWO64;
    assert b + TWO63 == qb * TWO64 + (b + TWO63) % TWO64;
  }

  /** Ids repeat only after the counter has gone all the way round. */
  lemma KeysDistinct(c: CallId, d: CallId)
    requires c < TWO64 && d < TWO64 && KeyOf(c) == KeyOf(d)
    ensures c == d
  {
    var a, b := IntID(Wrap64(c + 1)), IntID(Wrap64(d + 1));
    KeySeparates(a, b);
    assert a.num == b.num;
    Wrap64Injective(c + 1, d + 1);
  }

  datatype Message = Message(id: Option<RequestID>, verb: bytes, payload: bytes)

  predicate IsResponse(m: Message) { m.id.Some? && m.verb == [] }

  datatype Err = EOF | Other(code: nat)

  // ------------------------------------------------------------------ state

  /** A one-slot channel; `sends` counts every send it ever took. */
  datatype Chan = Chan(slot: Option<Message>, closed: bool, sends: nat)
  const OPEN := Chan(None, false, 0)

  datatype Result = Response(m: Message) | ConnectionClosed | Refused | Cancelled | SendFailed

  datatype Pc = Issued | Writing | WriteFailed | Waiting | Cancelling | Finished(r: Result)

  datatype Call = Call(pc: Pc, chan: Chan)

  /** The fields `mu` protects. */
  datatype Shared = Shared(pending: map<bytes, CallId>, closed: bool, err: Option<Err>)

  function Enroll(sh: Shared, key: bytes, c: CallId): Shared { sh.(pending := sh.pending[key := c]) }

  function Remove(sh: Shared, key: bytes): Shared { sh.(pending := sh.pending - {key}) }

  /** The locked block of fail, when it finds the client open. */
  function Trip(sh: Shared, e: Err): Shared {
    Shared(map[], true, if sh.err == None && e != EOF then Some(e) else sh.err)
  }

  /** The reader is in ReadMessage, about to send to a channel it took out of the map, or gone. */
  datatype Reader = Reading | Holding(c: CallId, m: Message) | Stopped

  /** How far the one fail that won has got with closing channels. */
  datatype Sweep = Armed | Closing(left: set<CallId>) | Swept

  datatype State = State(
    calls: seq<Call>, shared: Shared, reader: Reader, sweep: Sweep,
    closers: nat,      // Closes that saw an open client and have not yet called fail
    doneCloses: nat,   // times `done` was closed
    taken: nat,        // responses the reader has looked up
    discards: nat,     // responses nobody was waiting for
    panicked: bool)

  const START := State([], Shared(map[], false, None), Reading, Armed, 0, 0, 0, 0, false)

  // ------------------------------------------------------------------ steps

  datatype Action =
    | NewCall
    | Register(c: CallId)
    | Written(c: CallId)
    | WriteError(c: CallId)
    | Withdraw(c: CallId)      // delete after a failed write or a cancellation
    | Receive(c: CallId)
    | Cancel(c: CallId)
    | Take(m: Message)         // the reader's locked lookup
    | Send                     // the reader's channel send
    | ReadFailed(e: Err)
    | CloseCheck
    | CloseFail
    | CloseOne(c: CallId)
    | CloseDone

  predicate At(s: State, c: CallId, pc: Pc) { c < |s.calls| && s.calls[c].pc == pc }

  predicate Enabled(s: State, a: Action) {
    match a
    case NewCall => true
    case Register(c) => At(s, c, Issued)
    case Written(c) => At(s, c, Writing)
    case WriteError(c) => At(s, c, Writing)
    case Withdraw(c) => At(s, c, WriteFailed) || At(s, c, Cancelling)
    case Receive(c) => At(s, c, Waiting) && (s.calls[c].chan.slot.Some? || s.calls[c].chan.closed)
    case Cancel(c) => At(s, c, Waiting)
    case Take(m) => s.reader == Reading && IsResponse(m)
    case Send => s.reader.Holding? && s.reader.c < |s.calls| &&
                 (s.calls[s.reader.c].chan.slot.None? || s.calls[s.reader.c].chan.closed)
    case ReadFailed(_) => s.reader == Reading
    case CloseCheck => true
    case CloseFail => s.closers > 0
    case CloseOne(c) => s.sweep.Closing? && c in s.sweep.left && c < |s.calls|
    case CloseDone => s.sweep == Closing({})
  }

  function SetPc(s: State, c: CallId, pc: Pc): State
    requires c < |s.calls|
  {
    s.(calls := s.calls[c := s.calls[c].(pc := pc)])
  }

  function SetChan(s: State, c: CallId, chan: Chan): State
    requires c < |s.calls|
  {
    s.(calls := s.calls[c := s.calls[c].(chan := chan)])
  }

  function FailStep(s: State, e: Err): State {
    if s.shared.closed then s
    else s.(shared := Trip(s.shared, e), sweep := Closing(s.shared.pending.Values))
  }

  function TakeStep(s: State, m: Message): State
    requires IsResponse(m)
  {
    var k := Key(m.id.value);
    var t := s.(shared := Remove(s.shared, k), taken := s.taken + 1);
    if k in s.shared.pending then t.(reader := Holding(s.shared.pending[k], m))
    else t.(discards := s.discards + 1)
  }

  /** Sending on a closed channel panics. */
  function SendStep(s: State): State
    requires s.reader.Holding? && s.reader.c < |s.calls|
  {
    var c, m := s.reader.c, s.reader.m;
    var ch := s.calls[c].chan;
    if ch.closed then s.(panicked := true)
    else SetChan(s, c, Chan(Some(m), false, ch.sends + 1)).(reader := Reading)
  }

  /** Closing a closed channel panics. */
  function CloseStep(s: State, c: CallId): State
    requires s.sweep.Closing? && c < |s.calls|
  {
    var ch := s.calls[c].chan;
    if ch.closed then s.(panicked := true)
    else SetChan(s, c, ch.(closed := true)).(sweep := Closing(s.sweep.left - {c}))
  }

  function ReceiveStep(s: State, c: CallId): State
    requires c < |s.calls|
  {
    var ch := s.calls[c].chan;
    match ch.slot
    case Some(m) => SetPc(SetChan(s, c, ch.(slot := None)), c, Finished(Response(m)))
    case None => SetPc(s, c, Finished(ConnectionClosed))
  }

  function Apply(s: State, a: Action): State
    requires Enabled(s, a)
  {
    match a
    case NewCall => s.(calls := s.calls + [Call(Issued, OPEN)])
    case Register(c) =>
      if s.shared.closed then SetPc(s, c, Finished(Refused))
      else SetPc(s, c, Writing).(shared := Enroll(s.shared, KeyOf(c), c))
    case Written(c) => SetPc(s, c, Waiting)
    case WriteError(c) => SetPc(s, c, WriteFailed)
    case Withdraw(c) =>
      SetPc(s, c, Finished(if s.calls[c].pc == Cancelling then Cancelled else SendFailed))
        .(shared := Remove(s.shared, KeyOf(c)))
    case Receive(c) => ReceiveStep(s, c)
    case Cancel(c) => SetPc(s, c, Cancelling)
    case Take(m) => TakeStep(s, m)
    case Send => SendStep(s)
    case ReadFailed(e) => FailStep(s, e).(reader := Stopped)
    case CloseCheck => if s.shared.closed then s else s.(closers := s.closers + 1)
    case CloseFail => FailStep(s, EOF).(closers := s.closers - 1)
    case CloseOne(c) => CloseStep(s, c)
    case CloseDone =>
      if s.doneCloses > 0 then s.(panicked := true)
      else s.(sweep := Swept, doneCloses := 1)
  }

  predicate Legal(s: State, acts: seq<Action>)
    decreases |acts|
  {
    acts == [] || (Enabled(s, acts[0]) && Legal(Apply(s, acts[0]), acts[1..]))
  }

  function Run(s: State, acts: seq<Action>): State
    requires Legal(s, acts)
    decreases |acts|
  {
    if acts == [] then s else Run(Apply(s, acts[0]), acts[1..])
  }

  // -------------------------------------------------------------- ownership

  predicate InMap(s: State, c: CallId) { c in s.shared.pending.Values }
  predicate InHand(s: State, c: CallId) { s.reader.Holding? && s.reader.c == c }
  predicate InSweep(s: State, c: CallId) { s.sweep.Closing? && c in s.sweep.left }

  /** How many parties may still touch call `c`'s channel. */
  function Holders(s: State, c: CallId): nat {
    (if InMap(s, c) then 1 else 0) + (if InHand(s, c) then 1 else 0) + (if InSweep(s, c) then 1 else 0)
  }

  predicate Untouched(ch: Chan) { ch == OPEN }

  /** A message answers call `c`. */
  predicate Answers(m: Message, c: CallId) { IsResponse(m) && Key(m.id.value) == KeyOf(c) }

  predicate CallOk(s: State, c: CallId)
    requires c < |s.calls|
  {
    var x := s.calls[c];
    && Holders(s, c) <= 1
    && (Holders(s, c) == 1 ==> Untouched(x.chan) && x.pc != Issued)
    && (x.pc == Issued ==> Untouched(x.chan))
    && x.chan.sends + (if x.chan.closed then 1 else 0) <= 1
    && (x.chan.slot.Some? ==> x.chan.sends == 1 && Answers(x.chan.slot.value, c))
    && (x.pc.Finished? && x.pc.r.Response? ==> x.chan.sends == 1 && x.chan.slot.None? && Answers(x.pc.r.m, c))
  }

  predicate SharedOk(s: State) {
    && (forall k :: k in s.shared.pending ==> s.shared.pending[k] < |s.calls| && k == KeyOf(s.shared.pending[k]))
    && (s.reader.Holding? ==> s.reader.c < |s.calls| && Answers(s.reader.m, s.reader.c))
    && (s.sweep.Closing? ==> forall c :: c in s.sweep.left ==> c < |s.calls|)
    && (s.shared.closed <==> s.sweep != Armed)
    && (s.shared.closed ==> s.shared.pending == map[])
    && (s.sweep == Swept <==> s.doneCloses == 1) && s.doneCloses <= 1
    && !s.panicked
  }

  ghost predicate Inv(s: State) {
    SharedOk(s) && forall c {:trigger s.calls[c]} :: 0 <= c < |s.calls| ==> CallOk(s, c)
  }

  lemma InvStep(s: State, a: Action)
    requires Inv(s) && Enabled(s, a)
    ensures Inv(Apply(s, a))
  {
    var t := Apply(s, a);
    assert SharedOk(t) by { SharedStep(s, a); }
    forall c | 0 <= c < |t.calls| ensures CallOk(t, c) { CallStep(s, a, c); }
  }

  lemma SharedStep(s: State, a: Action)
    requires Inv(s) && Enabled(s, a)
    ensures SharedOk(Apply(s, a))
  {
    match a
    case Send => SharedSend(s);
    case CloseOne(c) => SharedClose(s, c);
    case ReadFailed(e) => SharedFail(s, e);
    case CloseFail => SharedFail(s, EOF);
    case Register(c) => SharedRegister(s, c);
    case Take(m) => SharedTake(s, m);
    case _ => SharedLocal(s, a);
  }

  lemma SharedSend(s: State)
    requires Inv(s) && Enabled(s, Send)
    ensures SharedOk(SendStep(s))
  {
    assert CallOk(s, s.reader.c);
  }

  lemma SharedClose(s: State, c: CallId)
    requires Inv(s) && Enabled(s, CloseOne(c))
    ensures SharedOk(CloseStep(s, c))
  {
    assert CallOk(s, c);
  }

  lemma SharedFail(s: State, e: Err)
    requires SharedOk(s)
    ensures SharedOk(FailStep(s, e))
  {
    PendingValues(s);
  }

  lemma SharedRegister(s: State, c: CallId)
    requires SharedOk(s) && Enabled(s, Register(c))
    ensures SharedOk(Apply(s, Register(c)))
  {
  }

  lemma SharedTake(s: State, m: Message)
    requires SharedOk(s) && Enabled(s, Take(m))
    ensures SharedOk(TakeStep(s, m))
  {
  }

  lemma SharedLocal(s: State, a: Action)
    requires SharedOk(s) && Enabled(s, a)
    requires !a.Send? && !a.CloseOne? && !a.ReadFailed? && !a.CloseFail? && !a.Register? && !a.Take?
    ensures SharedOk(Apply(s, a))
  {
  }

  lemma PendingValues(s: State)
    requires SharedOk(s)
    ensures forall c :: c in s.shared.pending.Values ==> c < |s.calls|
  {
  }

  lemma CallStep(s: State, a: Action, c: CallId)
    requires Inv(s) && Enabled(s, a) && c < |Apply(s, a).calls|
    ensures CallOk(Apply(s, a), c)
  {
    match a
    case NewCall => CallStepNew(s, c);
    case Register(d) => CallStepRegister(s, d, c);
    case Withdraw(d) => CallStepWithdraw(s, d, c);
    case Take(m) => CallStepTake(s, m, c);
    case ReadFailed(e) => CallStepFail(s, e, c);
    case CloseFail => CallStepFail(s, EOF, c);
    case Send => CallStepSend(s, c);
    case CloseOne(d) => CallStepClose(s, d, c);
    case Receive(d) => CallStepReceive(s, d, c);
    case _ => CallStepLocal(s, a, c);
  }

  lemma CallStepNew(s: State, c: CallId)
    requires Inv(s) && c <= |s.calls|
    ensures CallOk(Apply(s, NewCall), c)
  {
    if c < |s.calls| { assert CallOk(s, c); } else { PendingValues(s); }
  }

  lemma CallStepReceive(s: State, d: CallId, c: CallId)
    requires Inv(s) && Enabled(s, Receive(d)) && c < |s.calls|
    ensures CallOk(ReceiveStep(s, d), c)
  {
    assert CallOk(s, c) && CallOk(s, d);
  }

  /** Steps that touch no channel and no map. */
  lemma CallStepLocal(s: State, a: Action, c: CallId)
    requires Inv(s) && Enabled(s, a) && c < |s.calls|
    requires a.Written? || a.WriteError? || a.Cancel? || a.CloseCheck? || a.CloseDone?
    ensures CallOk(Apply(s, a), c)
  {
    assert CallOk(s, c);
  }

  lemma CallStepSend(s: State, c: CallId)
    requires Inv(s) && Enabled(s, Send) && c < |s.calls|
    ensures CallOk(SendStep(s), c)
  {
    assert CallOk(s, c) && CallOk(s, s.reader.c) && InHand(s, s.reader.c);
  }

  lemma CallStepClose(s: State, d: CallId, c: CallId)
    requires Inv(s) && Enabled(s, CloseOne(d)) && c < |s.calls|
    ensures CallOk(CloseStep(s, d), c)
  {
    assert CallOk(s, c) && CallOk(s, d) && InSweep(s, d);
  }

  lemma CallStepRegister(s: State, d: CallId, c: CallId)
    requires Inv(s) && Enabled(s, Register(d)) && c < |s.calls|
    ensures CallOk(Apply(s, Register(d)), c)
  {
    assert CallOk(s, c) && CallOk(s, d);
    var t := Apply(s, Register(d));
    assert c != d ==> (InMap(t, c) ==> InMap(s, c));
  }

  lemma CallStepWithdraw(s: State, d: CallId, c: CallId)
    requires Inv(s) && Enabled(s, Withdraw(d)) && c < |s.calls|
    ensures CallOk(Apply(s, Withdraw(d)), c)
  {
    assert CallOk(s, c);
    var t := Apply(s, Withdraw(d));
    assert InMap(t, c) ==> InMap(s, c);
  }

  /** Taking a channel out of the map moves it to the reader's hand. */
  lemma CallStepTake(s: State, m: Message, c: CallId)
    requires Inv(s) && Enabled(s, Take(m)) && c < |s.calls|
    ensures CallOk(TakeStep(s, m), c)
  {
    assert CallOk(s, c);
    var t := TakeStep(s, m);
    var k := Key(m.id.value);
    if InMap(t, c) {
      var j :| j in t.shared.pending && t.shared.pending[j] == c;
      assert j in s.shared.pending && j != k && j == KeyOf(c);
      assert !InHand(t, c);
    }
    if InHand(t, c) { assert k in s.shared.pending && s.shared.pending[k] == c; }
  }

  /** fail moves the whole map to its snapshot. */
  lemma CallStepFail(s: State, e: Err, c: CallId)
    requires Inv(s) && c < |s.calls|
    ensures CallOk(FailStep(s, e), c) && CallOk(FailStep(s, e).(reader := Stopped), c)
  {
    assert CallOk(s, c);
  }

  /** Safety over every run: no channel is sent to after a close or closed
      twice, `done` is closed at most once, and every channel has at most one holder. */
  lemma {:induction false} RunSafe(s: State, acts: seq<Action>)
    requires Inv(s) && Legal(s, acts)
    ensures Inv(Run(s, acts))
    decreases |acts|
  {
    if acts != [] {
      InvStep(s, acts[0]);
      RunSafe(Apply(s, acts[0]), acts[1..]);
    }
  }

  /** The consequences, for every run of a new client: no send on a closed
      channel and no second close has happened, `done` was closed at most once,
      each channel has at most one holder and took at most one signal. */
  lemma EveryRunIsSafe(acts: seq<Action>, c: CallId)
    requires Legal(START, acts)
    ensures var s := Run(START, acts);
            !s.panicked && s.doneCloses <= 1 && (s.doneCloses == 1 ==> s.shared.closed) &&
            (c < |s.calls| ==>
               Holders(s, c) <= 1 && s.calls[c].chan.sends + (if s.calls[c].chan.closed then 1 else 0) <= 1)
  {
    StartInv();
    RunSafe(START, acts);
    if c < |Run(START, acts).calls| { assert CallOk(Run(START, acts), c); }
  }

  lemma StartInv()
    ensures Inv(START)
  {
  }

  /** The reader's send never blocks and never panics. */
  lemma SendNeverBlocks(acts: seq<Action>)
    requires Legal(START, acts) && Run(START, acts).reader.Holding?
    ensures var s := Run(START, acts);
            Enabled(s, Send) && !Apply(s, Send).panicked && Apply(s, Send).reader == Reading
  {
    StartInv();
    RunSafe(START, acts);
    var s := Run(START, acts);
    assert InHand(s, s.reader.c) && CallOk(s, s.reader.c);
  }

  // ---------------------------------------------------------- no lost wake-up

  predicate Expecting(x: Call) { x.pc == Writing || x.pc == Waiting }

  /** A caller that has not been signalled still has someone who will signal it. */
  predicate CallAwaited(s: State, c: CallId)
    requires c < |s.calls|
  {
    Expecting(s.calls[c]) ==>
      (Untouched(s.calls[c].chan) ==> Holders(s, c) == 1) &&
      (s.calls[c].chan.sends == 1 ==> s.calls[c].chan.slot.Some?)
  }

  ghost predicate Awaited(s: State) {
    forall c {:trigger s.calls[c]} :: 0 <= c < |s.calls| ==> CallAwaited(s, c)
  }

  lemma AwaitedStep(s: State, a: Action)
    requires Inv(s) && Awaited(s) && Enabled(s, a) && |Apply(s, a).calls| <= TWO64
    ensures Awaited(Apply(s, a))
  {
    var t := Apply(s, a);
    forall c | 0 <= c < |t.calls| ensures CallAwaited(t, c) {
      if c < |s.calls| && Expecting(t.calls[c]) {
        assert CallOk(s, c) && CallAwaited(s, c);
        CallAwaitedStep(s, a, c);
      }
    }
  }

  lemma CallAwaitedStep(s: State, a: Action, c: CallId)
    requires Inv(s) && Enabled(s, a) && |Apply(s, a).calls| <= TWO64
    requires c < |s.calls| && CallOk(s, c) && CallAwaited(s, c) && Expecting(Apply(s, a).calls[c])
    ensures CallAwaited(Apply(s, a), c)
  {
    var t := Apply(s, a);
    InvStep(s, a);
    assert CallOk(t, c);
    if !Expecting(s.calls[c]) {
      assert a == Register(c) && t.shared.pending[KeyOf(c)] == c;
    } else if InMap(s, c) {
      MapKeeps(s, a, c);
    } else if Untouched(t.calls[c].chan) {
      TouchedStays(s, a, c);
      OthersKeep(s, a, c);
    }
  }

  /** A channel that was sent to or closed never looks new again. */
  lemma TouchedStays(s: State, a: Action, c: CallId)
    requires Inv(s) && Enabled(s, a) && c < |s.calls| && Untouched(Apply(s, a).calls[c].chan)
    ensures Untouched(s.calls[c].chan)
  {
    assert CallOk(s, c);
  }

  /** The reader's hand and the sweep give a channel up only by signalling it. */
  lemma OthersKeep(s: State, a: Action, c: CallId)
    requires SharedOk(s) && Enabled(s, a) && c < |s.calls|
    requires (InHand(s, c) || InSweep(s, c)) && Untouched(Apply(s, a).calls[c].chan)
    ensures InHand(Apply(s, a), c) || InSweep(Apply(s, a), c)
  {
  }

  /** Nobody else's step removes a call from the map without taking charge of it. */
  lemma MapKeeps(s: State, a: Action, c: CallId)
    requires Inv(s) && Enabled(s, a) && c < |s.calls| <= TWO64 && InMap(s, c) && Expecting(Apply(s, a).calls[c])
    requires |Apply(s, a).calls| <= TWO64
    ensures Holders(Apply(s, a), c) >= 1
  {
    var k :| k in s.shared.pending && s.shared.pending[k] == c;
    assert k == KeyOf(c);
    match a
    case Register(d) => MapKeepsRegister(s, d, c, k);
    case Withdraw(d) => MapKeepsWithdraw(s, d, c, k);
    case Take(m) =>
      if Key(m.id.value) != k { assert Apply(s, a).shared.pending[k] == c; }
    case _ =>
  }

  lemma MapKeepsRegister(s: State, d: CallId, c: CallId, k: bytes)
    requires SharedOk(s) && Enabled(s, Register(d)) && c < |s.calls| <= TWO64 && k == KeyOf(c)
    requires k in s.shared.pending && s.shared.pending[k] == c
    ensures InMap(Apply(s, Register(d)), c)
  {
    if KeyOf(d) == k { KeysDistinct(c, d); }
    assert Apply(s, Register(d)).shared.pending[k] == c;
  }

  lemma MapKeepsWithdraw(s: State, d: CallId, c: CallId, k: bytes)
    requires SharedOk(s) && Enabled(s, Withdraw(d)) && c < |s.calls| <= TWO64 && k == KeyOf(c)
    requires k in s.shared.pending && s.shared.pending[k] == c && c != d
    ensures InMap(Apply(s, Withdraw(d)), c)
  {
    if KeyOf(d) == k { KeysDistinct(c, d); }
    assert Apply(s, Withdraw(d)).shared.pending[k] == c;
  }

  lemma {:induction false} RunAwaited(s: State, acts: seq<Action>)
    requires Inv(s) && Awaited(s) && Legal(s, acts) && |Run(s, acts).calls| <= TWO64
    ensures Awaited(Run(s, acts))
    decreases |acts|
  {
    if acts != [] {
      var t := Apply(s, acts[0]);
      InvStep(s, acts[0]);
      CallsGrow(t, acts[1..]);
      AwaitedStep(s, acts[0]);
      RunAwaited(t, acts[1..]);
    }
  }

  lemma {:induction false} CallsGrow(s: State, acts: seq<Action>)
    requires Legal(s, acts)
    ensures |s.calls| <= |Run(s, acts).calls|
    decreases |acts|
  {
    if acts != [] { CallsGrow(Apply(s, acts[0]), acts[1..]); }
  }

  /** fail has run, its loop is over and nothing is in the reader's hand. */
  predicate Quiescent(s: State) { s.sweep == Swept && !s.reader.Holding? }

  /** The caller has its answer, or a closed channel: either way its receive is enabled. */
  predicate Signalled(s: State, c: CallId)
    requires c < |s.calls|
  {
    var ch := s.calls[c].chan;
    (ch.slot.Some? && Answers(ch.slot.value, c)) || ch.closed
  }

  lemma QuietIsSignalled(s: State, c: CallId)
    requires Inv(s) && Awaited(s) && Quiescent(s) && c < |s.calls| && Expecting(s.calls[c])
    ensures Signalled(s, c)
  {
    assert CallOk(s, c) && CallAwaited(s, c);
  }

  /** No lost wake-up: once fail has finished, every caller still expecting an
      answer has a response in its slot or a closed channel. */
  lemma NoLostWakeup(acts: seq<Action>, c: CallId)
    requires Legal(START, acts) && Quiescent(Run(START, acts))
    requires c < |Run(START, acts).calls| <= TWO64 && Expecting(Run(START, acts).calls[c])
    ensures Signalled(Run(START, acts), c)
  {
    StartInv();
    RunSafe(START, acts);
    RunAwaited(START, acts);
    QuietIsSignalled(Run(START, acts), c);
  }

  /** fail is final: the client stays closed, the map empty and the error as recorded. */
  lemma {:induction false} FailIsFinal(s: State, acts: seq<Action>)
    requires Inv(s) && s.shared.closed && Legal(s, acts)
    ensures Run(s, acts).shared == s.shared && s.shared.pending == map[]
    decreases |acts|
  {
    if acts != [] {
      var t := Apply(s, acts[0]);
      InvStep(s, acts[0]);
      assert t.shared == s.shared;
      FailIsFinal(t, acts[1..]);
    }
  }

  /** What fail still owes: channels to close, `done`, and the reader's send. */
  function Debt(s: State): nat {
    (match s.sweep case Armed => 1 case Closing(left) => 1 + |left| case Swept => 0) +
    (if s.reader.Holding? then 1 else 0)
  }

  /** Once fail has run its debt never grows. */
  lemma DebtNeverGrows(s: State, a: Action)
    requires Inv(s) && s.shared.closed && Enabled(s, a)
    ensures Debt(Apply(s, a)) <= Debt(s)
  {
    if a.CloseOne? { assert CallOk(s, a.c) && InSweep(s, a.c); }
  }

  /** The steps that pay it: the reader's send, a close of the loop, the close of `done`. */
  predicate Pays(a: Action) { a == Send || a.CloseOne? || a == CloseDone }

  lemma PayingPays(s: State, a: Action)
    requires Inv(s) && s.shared.closed && Pays(a) && Enabled(s, a)
    ensures Debt(Apply(s, a)) < Debt(s)
  {
    if a == Send { assert InHand(s, s.reader.c) && CallOk(s, s.reader.c); }
    if a.CloseOne? { assert InSweep(s, a.c) && CallOk(s, a.c); }
  }

  /** While any is left some step is enabled that pays part of it. */
  lemma DebtIsPayable(s: State) returns (a: Action)
    requires Inv(s) && s.shared.closed && !Quiescent(s)
    ensures Pays(a) && Enabled(s, a) && Debt(Apply(s, a)) < Debt(s)
  {
    if s.reader.Holding? {
      assert InHand(s, s.reader.c) && CallOk(s, s.reader.c);
      a := Send;
    } else if s.sweep == Closing({}) {
      a := CloseDone;
    } else {
      var c :| c in s.sweep.left;
      a := CloseOne(c);
    }
    PayingPays(s, a);
  }

  lemma Cons(s: State, a: Action, rest: seq<Action>)
    requires Enabled(s, a) && Legal(Apply(s, a), rest)
    ensures Legal(s, [a] + rest) && Run(s, [a] + rest) == Run(Apply(s, a), rest)
  {
    assert ([a] + rest)[1..] == rest;
  }

  /** So after any fail the remaining closes and the send can be carried out,
      with no help from any caller. */
  lemma {:induction false} FailSettles(s: State) returns (acts: seq<Action>)
    requires Inv(s) && s.shared.closed
    ensures Legal(s, acts) && Quiescent(Run(s, acts))
    ensures forall a :: a in acts ==> Pays(a)
    decreases Debt(s)
  {
    acts := [];
    if !Quiescent(s) {
      var a := DebtIsPayable(s);
      InvStep(s, a);
      var rest := FailSettles(Apply(s, a));
      Cons(s, a, rest);
      acts := [a] + rest;
    }
  }

  // ------------------------------------------------------------ every fair run

  /** A paying step stays enabled until it is taken, whatever else happens. */
  lemma PayingStaysEnabled(s: State, a: Action, other: Action)
    requires Inv(s) && s.shared.closed && Pays(a) && Enabled(s, a) && Enabled(s, other) && other != a
    ensures Enabled(Apply(s, other), a)
  {
  }

  ghost predicate StepAt(run: nat -> State, acts: nat -> Action, n: nat) {
    Enabled(run(n), acts(n)) && run(n + 1) == Apply(run(n), acts(n))
  }

  /** An endless run: the states it goes through and the step taken in each. */
  ghost predicate Endless(run: nat -> State, acts: nat -> Action) { forall n: nat :: StepAt(run, acts, n) }

  ghost predicate TakenOrLost(run: nat -> State, acts: nat -> Action, a: Action, m: nat) {
    acts(m) == a || !Enabled(run(m), a)
  }

  /** Weak fairness: a paying step that stays enabled is taken some time. */
  ghost predicate Fair(run: nat -> State, acts: nat -> Action) {
    forall n: nat, a: Action :: Pays(a) && Enabled(run(n), a) ==> exists m: nat :: m >= n && TakenOrLost(run, acts, a, m)
  }

  lemma ClosedStep(s: State, a: Action)
    requires Inv(s) && s.shared.closed && Enabled(s, a)
    ensures Inv(Apply(s, a)) && Apply(s, a).shared.closed && Debt(Apply(s, a)) <= Debt(s)
  {
    InvStep(s, a);
    DebtNeverGrows(s, a);
  }

  /** The client has failed and `a` would pay part of what is owed. */
  ghost predicate Payable(s: State, a: Action) { Inv(s) && s.shared.closed && Pays(a) && Enabled(s, a) }

  lemma StaysPayable(s: State, a: Action, other: Action, t: State)
    requires Payable(s, a) && Enabled(s, other) && other != a && t == Apply(s, other)
    ensures Payable(t, a) && Debt(t) <= Debt(s)
  {
    ClosedStep(s, other);
    PayingStaysEnabled(s, a, other);
  }

  /** It is still enabled when its turn comes, and no more is owed by then. */
  lemma {:induction false} TurnComes(run: nat -> State, acts: nat -> Action, a: Action, n: nat, m: nat) returns (k: nat)
    requires Endless(run, acts) && n <= m && TakenOrLost(run, acts, a, m) && Payable(run(n), a)
    ensures n <= k && acts(k) == a && Payable(run(k), a) && Debt(run(k)) <= Debt(run(n))
    decreases m - n
  {
    if acts(n) == a {
      k := n;
    } else {
      assert StepAt(run, acts, n);
      StaysPayable(run(n), a, acts(n), run(n + 1));
      k := TurnComes(run, acts, a, n + 1, m);
    }
  }

  lemma TakenPays(s: State, a: Action, t: State)
    requires Payable(s, a) && t == Apply(s, a)
    ensures Inv(t) && t.shared.closed && Debt(t) < Debt(s)
  {
    PayingPays(s, a);
    ClosedStep(s, a);
  }

  lemma PaymentIsDue(run: nat -> State, acts: nat -> Action, n: nat) returns (a: Action, late: nat)
    requires Fair(run, acts) && Inv(run(n)) && run(n).shared.closed && !Quiescent(run(n))
    ensures Payable(run(n), a) && late >= n && TakenOrLost(run, acts, a, late)
  {
    a := DebtIsPayable(run(n));
    late :| late >= n && TakenOrLost(run, acts, a, late);
  }

  lemma PaymentComes(run: nat -> State, acts: nat -> Action, n: nat) returns (k: nat)
    requires Endless(run, acts) && Fair(run, acts) && Inv(run(n)) && run(n).shared.closed && !Quiescent(run(n))
    ensures k > n && Inv(run(k)) && run(k).shared.closed && Debt(run(k)) < Debt(run(n))
  {
    var a, late := PaymentIsDue(run, acts, n);
    var j := TurnComes(run, acts, a, n, late);
    assert StepAt(run, acts, j);
    TakenPays(run(j), a, run(j + 1));
    k := j + 1;
  }

  /** Every fair run in which fail has run comes to rest. */
  lemma {:induction false} FairRunSettles(run: nat -> State, acts: nat -> Action, n: nat) returns (m: nat)
    requires Endless(run, acts) && Fair(run, acts) && Inv(run(n)) && run(n).shared.closed
    ensures m >= n && Quiescent(run(m))
    decreases Debt(run(n))
  {
    m := n;
    if !Quiescent(run(n)) {
      var k := PaymentComes(run, acts, n);
      m := FairRunSettles(run, acts, k);
    }
  }

  lemma {:induction false} EndlessAwaited(run: nat -> State, acts: nat -> Action, n: nat)
    requires Endless(run, acts) && run(0) == START
    ensures Inv(run(n)) && (|run(n).calls| <= TWO64 ==> Awaited(run(n)))
  {
    if n == 0 {
      StartInv();
    } else {
      EndlessAwaited(run, acts, n - 1);
      var s, a := run(n - 1), acts(n - 1);
      assert StepAt(run, acts, n - 1);
      InvStep(s, a);
      if |run(n).calls| <= TWO64 { NextAwaited(s, a); }
    }
  }

  lemma NextAwaited(s: State, a: Action)
    requires Inv(s) && Enabled(s, a) && |Apply(s, a).calls| <= TWO64 && (|s.calls| <= TWO64 ==> Awaited(s))
    ensures Awaited(Apply(s, a))
  {
    assert |s.calls| <= |Apply(s, a).calls|;
    AwaitedStep(s, a);
  }

  /** So in every fair run, some time after a fail, every caller still expecting an
      answer has been signalled: nobody hangs. */
  lemma EveryCallerWakes(run: nat -> State, acts: nat -> Action, n: nat) returns (m: nat)
    requires Endless(run, acts) && Fair(run, acts) && run(0) == START && run(n).shared.closed
    ensures m >= n && Quiescent(run(m))
    ensures |run(m).calls| <= TWO64 ==>
              forall c :: 0 <= c < |run(m).calls| && Expecting(run(m).calls[c]) ==> Signalled(run(m), c)
  {
    EndlessAwaited(run, acts, n);
    m := FairRunSettles(run, acts, n);
    EndlessAwaited(run, acts, m);
    var s := run(m);
    if |s.calls| <= TWO64 {
      forall c | 0 <= c < |s.calls| && Expecting(s.calls[c]) ensures Signalled(s, c) { QuietIsSignalled(s, c); }
    }
  }

  // ------------------------------------------------------------- correlation

  lemma OneStep(s: State, a: Action)
    requires Enabled(s, a)
    ensures Legal(s, [a]) && Run(s, [a]) == Apply(s, a)
  {
    Cons(s, a, []);
    assert [a] + [] == [a];
  }

  lemma TwoSteps(s: State, a: Action, b: Action)
    requires Enabled(s, a) && Enabled(Apply(s, a), b)
    ensures Legal(s, [a, b]) && Run(s, [a, b]) == Apply(Apply(s, a), b)
  {
    OneStep(Apply(s, a), b);
    Cons(s, a, [b]);
    assert [a] + [b] == [a, b];
  }

  /** A response to a call still in the map goes into that call's channel, at any
      point of any run, and the waiting caller returns it. */
  lemma ResponseDelivered(acts: seq<Action>, c: CallId, m: Message)
    requires Legal(START, acts) && Run(START, acts).reader == Reading
    requires InMap(Run(START, acts), c) && Answers(m, c)
    ensures var s := Run(START, acts);
            Legal(s, [Take(m), Send]) && var t := Run(s, [Take(m), Send]);
            c < |t.calls| == |s.calls| && t.calls[c].chan == Chan(Some(m), false, 1) && t.calls[c].pc == s.calls[c].pc
            && t.reader == Reading && t.discards == s.discards && !t.panicked
            && (forall d :: 0 <= d < |s.calls| && d != c ==> t.calls[d] == s.calls[d])
            && (t.calls[c].pc == Waiting ==>
                  Enabled(t, Receive(c)) && Apply(t, Receive(c)).calls[c].pc == Finished(Response(m)))
  {
    StartInv();
    RunSafe(START, acts);
    var s := Run(START, acts);
    TakeFinds(s, c, m);
    assert CallOk(s, c);
    TwoSteps(s, Take(m), Send);
  }

  lemma TakeFinds(s: State, c: CallId, m: Message)
    requires SharedOk(s) && s.reader == Reading && InMap(s, c) && Answers(m, c)
    ensures c < |s.calls| && Enabled(s, Take(m))
    ensures var t := Apply(s, Take(m));
            t.reader == Holding(c, m) && t.calls == s.calls && t.discards == s.discards && t.panicked == s.panicked
  {
    var k :| k in s.shared.pending && s.shared.pending[k] == c;
    assert k == KeyOf(c);
  }

  /** And a response is discarded only when it answers no call in the map. */
  lemma DiscardedExactly(acts: seq<Action>, m: Message)
    requires Legal(START, acts) && Enabled(Run(START, acts), Take(m))
    ensures var s := Run(START, acts);
            Apply(s, Take(m)).discards > s.discards <==> forall c :: InMap(s, c) ==> !Answers(m, c)
  {
    StartInv();
    RunSafe(START, acts);
    var s := Run(START, acts);
    if c :| InMap(s, c) && Answers(m, c) {
      TakeFinds(s, c, m);
    } else if Key(m.id.value) in s.shared.pending {
      assert InMap(s, s.shared.pending[Key(m.id.value)]);
    }
  }

  /** The response is in the reader's hand, in the call's channel, or returned. */
  predicate Carries(s: State, c: CallId, m: Message) {
    c < |s.calls| &&
    (s.reader == Holding(c, m) || s.calls[c].chan.slot == Some(m) || s.calls[c].pc == Finished(Response(m)))
  }

  lemma CarriesStep(s: State, a: Action, c: CallId, m: Message)
    requires Inv(s) && Carries(s, c, m) && Enabled(s, a)
    ensures Carries(Apply(s, a), c, m)
  {
    match a
    case Send => CarriesSend(s, c, m);
    case CloseOne(d) => CarriesClose(s, d, c, m);
    case Receive(d) => CarriesReceive(s, d, c, m);
    case _ => CarriesLocal(s, a, c, m);
  }

  /** Steps that touch no channel. */
  lemma CarriesLocal(s: State, a: Action, c: CallId, m: Message)
    requires Carries(s, c, m) && Enabled(s, a) && !a.Send? && !a.CloseOne? && !a.Receive?
    ensures Carries(Apply(s, a), c, m)
  {
  }

  lemma CarriesSend(s: State, c: CallId, m: Message)
    requires Inv(s) && Carries(s, c, m) && Enabled(s, Send)
    ensures Carries(SendStep(s), c, m)
  {
    HandIsOpen(s);
    assert CallOk(s, c) && CallOk(s, s.reader.c) && InHand(s, s.reader.c);
  }

  lemma CarriesClose(s: State, d: CallId, c: CallId, m: Message)
    requires Carries(s, c, m) && Enabled(s, CloseOne(d))
    ensures Carries(CloseStep(s, d), c, m)
  {
  }

  lemma CarriesReceive(s: State, d: CallId, c: CallId, m: Message)
    requires Carries(s, c, m) && Enabled(s, Receive(d))
    ensures Carries(ReceiveStep(s, d), c, m)
  {
  }

  /** Once taken, a response is never lost, whatever happens to the client. */
  lemma {:induction false} TakenIsNeverLost(s: State, acts: seq<Action>, c: CallId, m: Message)
    requires Inv(s) && Carries(s, c, m) && Legal(s, acts)
    ensures Carries(Run(s, acts), c, m)
    decreases |acts|
  {
    if acts != [] {
      InvStep(s, acts[0]);
      CarriesStep(s, acts[0], c, m);
      TakenIsNeverLost(Apply(s, acts[0]), acts[1..], c, m);
    }
  }

  /** What a caller does up to waiting for its answer. */
  function Asks(c: CallId): seq<Action> { [NewCall, Register(c), Written(c)] }

  /** The next call on an open client gets into the map and waits. */
  lemma CallRegisters(acts: seq<Action>)
    requires Legal(START, acts) && !Run(START, acts).shared.closed
    ensures var s := Run(START, acts);
            var c := |s.calls|;
            Legal(s, Asks(c)) && Legal(START, acts + Asks(c)) && var t := Run(START, acts + Asks(c));
            t == Run(s, Asks(c)) && At(t, c, Waiting) && InMap(t, c)
            && t.reader == s.reader && t.discards == s.discards && !t.shared.closed
  {
    var s := Run(START, acts);
    var c := |s.calls|;
    var s1 := Apply(s, NewCall);
    var s2 := Apply(s1, Register(c));
    assert s2.shared.pending[KeyOf(c)] == c;
    TwoSteps(s1, Register(c), Written(c));
    Cons(s, NewCall, [Register(c), Written(c)]);
    assert [NewCall] + [Register(c), Written(c)] == Asks(c);
    RunAppend(START, acts, Asks(c));
  }

  lemma {:induction false} RunAppend(s: State, a: seq<Action>, b: seq<Action>)
    requires Legal(s, a) && Legal(Run(s, a), b)
    ensures Legal(s, a + b) && Run(s, a + b) == Run(Run(s, a), b)
    decreases |a|
  {
    if a == [] {
      assert a + b == b;
    } else {
      assert (a + b)[1..] == a[1..] + b;
      RunAppend(Apply(s, a[0]), a[1..], b);
    }
  }

  /** A whole call: on an open client whose reader is reading, a call that is
      written and answered returns exactly that answer. */
  lemma CallAnswered(acts: seq<Action>, m: Message)
    requires Legal(START, acts) && !Run(START, acts).shared.closed && Run(START, acts).reader == Reading
    requires m.id == Some(IntID(Wrap64(|Run(START, acts).calls| + 1))) && m.verb == []
    ensures var c := |Run(START, acts).calls|;
            var whole := acts + Asks(c) + [Take(m), Send] + [Receive(c)];
            Legal(START, whole) && At(Run(START, whole), c, Finished(Response(m)))
            && Run(START, whole).discards == Run(START, acts).discards
  {
    var c := |Run(START, acts).calls|;
    CallRegisters(acts);
    var asked := acts + Asks(c);
    ResponseDelivered(asked, c, m);
    RunAppend(START, asked, [Take(m), Send]);
    OneStep(Run(START, asked + [Take(m), Send]), Receive(c));
    RunAppend(START, asked + [Take(m), Send], [Receive(c)]);
  }

  /** A call withdrawn returns the reason it gave up, and leaves nothing in the map. */
  lemma WithdrawnCall(acts: seq<Action>, c: CallId, failed: bool)
    requires Legal(START, acts) && At(Run(START, acts), c, if failed then Writing else Waiting)
    ensures var s := Run(START, acts);
            var give := [if failed then WriteError(c) else Cancel(c), Withdraw(c)];
            Legal(s, give) && var t := Run(s, give);
            At(t, c, Finished(if failed then SendFailed else Cancelled)) && !InMap(t, c)
            && (forall k :: k in s.shared.pending && k != KeyOf(c) ==>
                  k in t.shared.pending && t.shared.pending[k] == s.shared.pending[k])
  {
    StartInv();
    RunSafe(START, acts);
    var s := Run(START, acts);
    TwoSteps(s, if failed then WriteError(c) else Cancel(c), Withdraw(c));
  }

  /** A call on a closed client is refused, and its receive there reports the close
      unless its answer had come. */
  lemma ClosedCalls(acts: seq<Action>, c: CallId)
    requires Legal(START, acts) && Run(START, acts).shared.closed
    ensures var s := Run(START, acts);
            (At(s, c, Issued) ==> At(Apply(s, Register(c)), c, Finished(Refused)) && Apply(s, Register(c)).shared == s.shared)
            && (At(s, c, Waiting) && Enabled(s, Receive(c)) ==>
                  At(Apply(s, Receive(c)), c, Finished(ConnectionClosed)) || s.calls[c].chan.slot.Some?)
  {
  }

  /** The first fail closes the client and takes charge of every pending call; it
      records the reader's error, and none for a Close or an orderly end. */
  lemma FailTakesAll(acts: seq<Action>, a: Action)
    requires Legal(START, acts) && Enabled(Run(START, acts), a) && !Run(START, acts).shared.closed
    requires a == CloseFail || a.ReadFailed?
    ensures var s, t := Run(START, acts), Apply(Run(START, acts), a);
            t.shared.closed && (forall c :: !InMap(t, c)) && (forall c :: InSweep(t, c) <==> InMap(s, c))
            && t.shared.err == (if a.ReadFailed? && a.e != EOF then Some(a.e) else None)
            && (a.ReadFailed? <==> t.reader == Stopped)
  {
    NoErrYet(START, acts);
    ReaderStops(START, acts);
  }

  /** An open client has recorded no error, and its reader has not stopped. */
  lemma {:induction false} NoErrYet(s: State, acts: seq<Action>)
    requires Legal(s, acts) && (s.shared.closed || s.shared.err == None)
    ensures Run(s, acts).shared.closed || Run(s, acts).shared.err == None
    decreases |acts|
  {
    if acts != [] { NoErrYet(Apply(s, acts[0]), acts[1..]); }
  }

  lemma {:induction false} ReaderStops(s: State, acts: seq<Action>)
    requires Legal(s, acts) && (s.shared.closed || s.reader != Stopped)
    ensures Run(s, acts).shared.closed || Run(s, acts).reader != Stopped
    decreases |acts|
  {
    if acts != [] { ReaderStops(Apply(s, acts[0]), acts[1..]); }
  }

  /** Close on an open client goes through: unless someone fails it first, its fail closes it. */
  lemma CloseCloses(acts: seq<Action>)
    requires Legal(START, acts)
    ensures var s := Run(START, acts);
            if s.shared.closed then Apply(s, CloseCheck) == s
            else Legal(s, [CloseCheck, CloseFail]) && Run(s, [CloseCheck, CloseFail]).shared.closed
  {
    var s := Run(START, acts);
    if !s.shared.closed { TwoSteps(s, CloseCheck, CloseFail); }
  }

  /** Call `c` has registered and is no longer in the map. */
  predicate Spent(s: State, c: CallId) {
    c < |s.calls| && s.calls[c].pc != Issued && !InMap(s, c)
  }

  /** Registering happens once: a call that has left the map never returns to it. */
  lemma {:induction false} SpentStays(s: State, acts: seq<Action>, c: CallId)
    requires Legal(s, acts) && Spent(s, c)
    ensures Spent(Run(s, acts), c)
    decreases |acts|
  {
    if acts != [] {
      SpentStep(s, acts[0], c);
      SpentStays(Apply(s, acts[0]), acts[1..], c);
    }
  }

  lemma SpentStep(s: State, a: Action, c: CallId)
    requires Enabled(s, a) && Spent(s, c)
    ensures Spent(Apply(s, a), c)
  {
    var t := Apply(s, a);
    forall k | k in t.shared.pending ensures t.shared.pending[k] != c {
      if k in s.shared.pending { assert s.shared.pending[k] in s.shared.pending.Values; }
    }
  }

  /** A second, late or cancelled answer to a call is discarded, at any later point of any run. */
  lemma LateResponseDiscarded(acts: seq<Action>, c: CallId, m: Message)
    requires Legal(START, acts) && Spent(Run(START, acts), c) && |Run(START, acts).calls| <= TWO64
    requires Answers(m, c) && Run(START, acts).reader == Reading
    ensures var s := Run(START, acts);
            Apply(s, Take(m)) == s.(taken := s.taken + 1, discards := s.discards + 1)
  {
    StartInv();
    RunSafe(START, acts);
    var s := Run(START, acts);
    var k := KeyOf(c);
    if k in s.shared.pending {
      KeysDistinct(c, s.shared.pending[k]);
    }
    assert s.shared.pending - {k} == s.shared.pending;
  }

  /** What a call returns is a response, and carries that call's own numeric id. */
  lemma ResponsesCorrelate(acts: seq<Action>, c: CallId)
    requires Legal(START, acts) && c < |Run(START, acts).calls|
    ensures var x := Run(START, acts).calls[c];
            x.chan.sends <= 1 &&
            (x.pc.Finished? && x.pc.r.Response? ==>
               x.pc.r.m.id == Some(IntID(Wrap64(c + 1))) && x.pc.r.m.verb == [])
  {
    StartInv();
    RunSafe(START, acts);
    var x := Run(START, acts).calls[c];
    assert CallOk(Run(START, acts), c);
    if x.pc.Finished? && x.pc.r.Response? {
      KeySeparates(x.pc.r.m.id.value, IntID(Wrap64(c + 1)));
    }
  }

  function Sends(calls: seq<Call>): nat {
    if calls == [] then 0 else Sends(calls[..|calls| - 1]) + calls[|calls| - 1].chan.sends
  }

  lemma {:induction false} SendsUpdate(calls: seq<Call>, c: CallId, x: Call)
    requires c < |calls|
    ensures Sends(calls[c := x]) == Sends(calls) - calls[c].chan.sends + x.chan.sends
    decreases |calls|
  {
    var n := |calls| - 1;
    if c == n {
      assert calls[c := x][..n] == calls[..n];
    } else {
      assert calls[c := x][..n] == calls[..n][c := x];
      SendsUpdate(calls[..n], c, x);
    }
  }

  /** Every response the reader looked up was discarded, is in its hand, or went into one channel. */
  predicate Balanced(s: State) {
    s.taken == s.discards + Sends(s.calls) + (if s.reader.Holding? then 1 else 0)
  }

  lemma BalancedStep(s: State, a: Action)
    requires Inv(s) && Balanced(s) && Enabled(s, a)
    ensures Balanced(Apply(s, a))
  {
    match a
    case NewCall => assert (s.calls + [Call(Issued, OPEN)])[..|s.calls|] == s.calls;
    case Register(c) => BalancedLocal(s, a, c);
    case Written(c) => BalancedLocal(s, a, c);
    case WriteError(c) => BalancedLocal(s, a, c);
    case Withdraw(c) => BalancedLocal(s, a, c);
    case Receive(c) => BalancedLocal(s, a, c);
    case Cancel(c) => BalancedLocal(s, a, c);
    case CloseOne(c) => BalancedLocal(s, a, c);
    case Send => BalancedSend(s);
    case _ =>
  }

  lemma BalancedSend(s: State)
    requires Inv(s) && Balanced(s) && Enabled(s, Send)
    ensures Balanced(SendStep(s))
  {
    var c := s.reader.c;
    var x := s.calls[c].(chan := Chan(Some(s.reader.m), false, s.calls[c].chan.sends + 1));
    HandIsOpen(s);
    assert SendStep(s).calls == s.calls[c := x] && SendStep(s).reader == Reading;
    SendsUpdate(s.calls, c, x);
  }

  lemma HandIsOpen(s: State)
    requires Inv(s) && Enabled(s, Send)
    ensures !s.calls[s.reader.c].chan.closed
  {
    assert InHand(s, s.reader.c) && CallOk(s, s.reader.c);
  }

  /** A step that rewrites one call without a send. */
  lemma BalancedLocal(s: State, a: Action, c: CallId)
    requires Balanced(s) && Enabled(s, a) && c < |s.calls|
    requires a in {Register(c), Written(c), WriteError(c), Withdraw(c), Receive(c), Cancel(c), CloseOne(c)}
    ensures Balanced(Apply(s, a))
  {
    var t := Apply(s, a);
    assert t.calls == s.calls || t.calls == s.calls[c := t.calls[c]];
    SendsUpdate(s.calls, c, t.calls[c]);
  }

  lemma {:induction false} ResponsesConserved(s: State, acts: seq<Action>)
    requires Inv(s) && Balanced(s) && Legal(s, acts)
    ensures Balanced(Run(s, acts))
    decreases |acts|
  {
    if acts != [] {
      InvStep(s, acts[0]);
      BalancedStep(s, acts[0]);
      ResponsesConserved(Apply(s, acts[0]), acts[1..]);
    }
  }

  // ------------------------------------------------- the locked blocks in place

  /** The client's mutable fields and the blocks that run under its lock, each
      the step the run system takes. */
  class Client {
    var pending: map<bytes, CallId>
    var closed: bool
    var err: Option<Err>
    var doneCloses: nat
    var chans: map<CallId, Chan>

    ghost function View(): Shared reads this { Shared(pending, closed, err) }

    ghost predicate Valid() reads this {
      && pending.Values <= chans.Keys
      && (forall k :: k in pending ==> Untouched(chans[pending[k]]))
      && (closed ==> pending == map[])
      && (doneCloses == if closed then 1 else 0)
    }

    constructor ()
      ensures Valid() && View() == START.shared && chans == map[]
    {
      pending, closed, err, doneCloses, chans := map[], false, None, 0, map[];
    }

    /** readLoop: look the response's key up and forget it. */
    method Lookup(key: bytes) returns (c: Option<CallId>)
      requires Valid()
      modifies this`pending
      ensures Valid() && View() == Remove(old(View()), key)
      ensures c == if key in old(pending) then Some(old(pending)[key]) else None
    {
      c := if key in pending then Some(pending[key]) else None;
      pending := pending - {key};
    }

    /** Call: make a channel and register it, unless the client is closed. */
    method Enter(key: bytes, c: CallId) returns (ok: bool)
      requires Valid() && c !in chans
      modifies this`pending, this`chans
      ensures Valid() && ok == !closed && chans == old(chans)[c := OPEN]
      ensures View() == if ok then Enroll(old(View()), key, c) else old(View())
    {
      chans := chans[c := OPEN];
      ok := !closed;
      if ok {
        pending := pending[key := c];
      }
    }

    /** fail: record the error and empty the map under the lock, then close every
        channel that was in it, then `done`. No channel is closed twice. */
    method Fail(e: Err)
      requires Valid()
      modifies this
      ensures Valid() && View() == if old(closed) then old(View()) else Trip(old(View()), e)
      ensures chans.Keys == old(chans).Keys
      ensures forall c :: c in chans ==>
                chans[c] == if !old(closed) && c in old(pending).Values then OPEN.(closed := true) else old(chans)[c]
    {
      if closed { return; }
      closed := true;
      if err == None && e != EOF { err := Some(e); }
      var left := pending.Values;
      pending := map[];
      while left != {}
        modifies this`chans
        invariant left <= old(pending).Values && chans.Keys == old(chans).Keys
        invariant forall c :: c in chans ==>
                    chans[c] == if c in old(pending).Values && c !in left then OPEN.(closed := true) else old(chans)[c]
        decreases left
      {
        var c :| c in left;
        assert !chans[c].closed;
        chans := chans[c := chans[c].(closed := true)];
        left := left - {c};
      }
      doneCloses := doneCloses + 1;
    }
  }
}
