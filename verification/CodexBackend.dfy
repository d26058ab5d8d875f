/** The Codex backend (deliver/codex.go): a target latched once, and one
    connection that concurrent deliveries share. Every lock-protected block is
    one step; dialling, initialising, queueing and closing are steps of their own. */
module CodexBackend {
  import opened Bytes
  import Utf8
  import Frames
  import JsonText
  import Envelope
  import Delivery
  import Sizes
  import Floor

  type Proc = nat
  type ClientId = nat

  // ----------------------------------------------------------- the thread id

  datatype MetaValue = Text(s: bytes) | Other

  type Meta = Option<map<bytes, MetaValue>>

  datatype ThreadId = Id(s: bytes) | NoId | BadId

  const THREAD_ID := Lit("threadId")

  predicate Blank(s: bytes) { Envelope.Trim(Utf8.Runes(s)) == [] }

  /** threadIDFromMeta. */
  function ThreadIdFromMeta(meta: Meta): (t: ThreadId)
    ensures t.Id? ==> t.s != []
  {
    if meta.None? || THREAD_ID !in meta.value then NoId
    else match meta.value[THREAD_ID]
      case Text(s) => if Blank(s) then BadId else Id(s)
      case Other => BadId
  }

  predicate HasSolid(s: bytes) { exists i :: 0 <= i < |Utf8.Runes(s)| && !Envelope.IsSpace(Utf8.Runes(s)[i]) }

  lemma BlankExactly(s: bytes)
    ensures Blank(s) <==> !HasSolid(s)
  {
    Envelope.TrimBlank(Utf8.Runes(s));
  }

  /** The id is the metadata's own text, untrimmed, whenever that is a text with
      something in it; any other value is an error, and no value none. */
  lemma IdIsTheText(m: map<bytes, MetaValue>, s: bytes)
    ensures ThreadIdFromMeta(Some(m)) == Id(s) <==> THREAD_ID in m && m[THREAD_ID] == Text(s) && HasSolid(s)
    ensures ThreadIdFromMeta(Some(m)) == NoId <==> THREAD_ID !in m
    ensures ThreadIdFromMeta(None) == NoId
  {
    if THREAD_ID in m && m[THREAD_ID].Text? { BlankExactly(m[THREAD_ID].s); }
  }

  // ------------------------------------------------------------------- Fits

  const MAX_CHARS: nat := 0x10_0000
  const OVERHEAD: nat := 0x1000

  /** The daemon counts characters; MaxIntactBytes promises bytes. */
  predicate Fits(d: Delivery.Delivery) { |Utf8.Runes(Delivery.Compose(d))| <= MAX_CHARS }

  lemma {:induction false} CharactersAtMostBytes(s: bytes)
    ensures |Utf8.Runes(s)| <= |s|
  {
    if s != [] { CharactersAtMostBytes(s[Utf8.DecodeRune(s).width..]); }
  }

  lemma BracketedCharacters(front: bytes, l: byte, trailer: bytes, r: byte)
    requires l < 0x80 && r < 0x80
    ensures |Utf8.Runes(front + [l] + trailer + [r])| == |Utf8.Runes(front)| + |Utf8.Runes(trailer)| + 2
  {
    JsonText.SplitBeforeAscii(front + [l] + trailer, [r]);
    JsonText.SplitBeforeAscii(front, [l] + trailer);
    Assoc(front, [l], trailer);
    Utf8.AsciiValid([l]);
    Utf8.RunesAppend([l], trailer);
    Floor.AsciiRunes([l]);
    Floor.AsciiRunes([r]);
  }

  /** The characters of a composed text: the body's, the trailer's, and the gap and brackets. */
  lemma ComposedCharacters(d: Delivery.Delivery)
    ensures |Utf8.Runes(Delivery.Compose(d))|
         == |Utf8.Runes(d.body)| + |Utf8.Runes(Delivery.Trailer(d))| + if d.body == [] then 2 else 4
  {
    JsonText.SplitBeforeAscii(d.body, Delivery.Gap(d));
    Floor.AsciiRunes(Delivery.Gap(d));
    BracketedCharacters(d.body + Delivery.Gap(d), Delivery.L_BRACKET, Delivery.Trailer(d), Delivery.R_BRACKET);
  }

  const MORE_CHARS: nat := 44

  lemma MoreCharacters()
    ensures |Utf8.Runes(Delivery.MORE)| == MORE_CHARS
  {
    var dot, words := [32, 0xC2, 0xB7], Lit(" more is waiting than this message carries");
    assert dot[1..][2..] == [];
    assert dot[1..] == [0xC2, 0xB7];
    assert |Utf8.Runes(dot)| == 2 && Utf8.Valid(dot);
    Frames.LitAscii(" more is waiting than this message carries");
    Floor.AsciiRunes(words);
    Utf8.RunesAppend(dot, words);
  }

  /** What the trailer takes of the reserve, in characters, with its surroundings. */
  function Reserved(cursor: bytes, more: bool): nat {
    (if cursor == [] then 48 else 12 + |Utf8.Runes(cursor)|) + if more then MORE_CHARS else 0
  }

  lemma TrailerCharacters(d: Delivery.Delivery)
    ensures |Utf8.Runes(Delivery.Trailer(d))| + 4 == Reserved(d.cursor, d.more)
  {
    AnchorCharacters(d);
    Floor.WaitingAscii(d);
    JsonText.SplitBeforeAscii(Delivery.Anchor(d), Delivery.Waiting(d));
    MoreCharacters();
  }

  lemma AnchorCharacters(d: Delivery.Delivery)
    ensures |Utf8.Runes(Delivery.Anchor(d))| == if d.cursor == [] then 44 else 8 + |Utf8.Runes(d.cursor)|
  {
    if d.cursor == [] {
      Frames.LitAscii("no cursor: this message cannot be re-fetched");
      Floor.AsciiRunes(Delivery.NO_CURSOR);
    } else {
      TagCharacters();
      Utf8.RunesAppend(Delivery.CURSOR, d.cursor);
    }
  }

  lemma TagCharacters()
    ensures Utf8.Valid(Delivery.CURSOR) && |Utf8.Runes(Delivery.CURSOR)| == 8
  {
    Frames.LitAscii("cursor: ");
    Utf8.AsciiValid(Delivery.CURSOR);
    Floor.AsciiRunes(Delivery.CURSOR);
  }

  lemma LongestBody(cursor: bytes, more: bool, k: nat)
    requires k > 0
    ensures |Utf8.Runes(Delivery.Compose(Delivery.Delivery(cursor, Sizes.Repeat(120, k), more)))| == k + Reserved(cursor, more)
  {
    var d := Delivery.Delivery(cursor, Sizes.Repeat(120, k), more);
    ComposedCharacters(d);
    TrailerCharacters(d);
    Floor.AsciiRunes(d.body);
  }

  /** The reserve, exactly: every body of at most MaxIntactBytes bytes fits if and
      only if the trailer it travels with is within the reserve, in characters.
      The cursor has no limit of its own, so it may not be. */
  lemma IntactBodiesFit(cursor: bytes, more: bool)
    ensures (forall body: bytes :: |body| <= MAX_CHARS - OVERHEAD ==> Fits(Delivery.Delivery(cursor, body, more))) <==>
            Reserved(cursor, more) <= OVERHEAD
  {
    var k := MAX_CHARS - OVERHEAD;
    LongestBody(cursor, more, k);
    if Reserved(cursor, more) <= OVERHEAD {
      forall body: bytes | |body| <= k ensures Fits(Delivery.Delivery(cursor, body, more)) {
        var d := Delivery.Delivery(cursor, body, more);
        ComposedCharacters(d);
        TrailerCharacters(d);
        CharactersAtMostBytes(body);
      }
    }
  }

  // --------------------------------------------------- lock-protected blocks

  /** The fields the mutex protects. */
  datatype Core = Core(thread: bytes, disabled: bool, client: Option<ClientId>)

  /** Adopt's block. */
  function Latch(k: Core, id: bytes): Core {
    if k.disabled then k
    else if k.thread == [] then k.(thread := id)
    else if k.thread == id then k
    else k.(disabled := true, thread := [])
  }

  function AdoptMeta(k: Core, meta: Meta): Core {
    match ThreadIdFromMeta(meta) case Id(s) => Latch(k, s) case _ => k
  }

  /** Whose client connect goes on with: the one already stored, else its own. */
  function Winner(k: Core, mine: ClientId): ClientId { if k.client.Some? then k.client.value else mine }

  predicate Available(k: Core, reachable: bool) { !k.disabled && reachable && k.thread != [] }

  datatype Adopted = Fine | Malformed | Disabled | NowDisabled

  /** codexBackend itself, one method per block. */
  class Backend {
    var thread: bytes
    var disabled: bool
    var client: Option<ClientId>

    ghost function View(): Core reads this { Core(thread, disabled, client) }

    constructor ()
      ensures View() == Core([], false, None)
    {
      thread, disabled, client := [], false, None;
    }

    /** Adopt: latches once, disables on a second id, and reports which. */
    method Adopt(meta: Meta) returns (r: Adopted)
      modifies this`thread, this`disabled
      ensures View() == AdoptMeta(old(View()), meta)
      ensures r == NowDisabled <==> disabled && !old(disabled)
      ensures r == Malformed <==> ThreadIdFromMeta(meta) == BadId
      ensures r == Disabled <==> old(disabled) && ThreadIdFromMeta(meta).Id?
    {
      var id := ThreadIdFromMeta(meta);
      if id.NoId? { return Fine; }
      if id.BadId? { return Malformed; }
      if disabled { return Disabled; }
      if thread == [] {
        thread := id.s;
        return Fine;
      }
      if thread == id.s { return Fine; }
      disabled := true;
      thread := [];
      return NowDisabled;
    }

    /** Close's block: take the stored client, to close it after unlocking. */
    method Take() returns (c: Option<ClientId>)
      modifies this`client
      ensures c == old(client) && View() == old(View()).(client := None)
    {
      c := client;
      client := None;
    }

    /** connect's second block: keep ours, or learn whose won. */
    method Store(mine: ClientId) returns (winner: ClientId)
      modifies this`client
      ensures winner == Winner(old(View()), mine)
      ensures View() == old(View()).(client := Some(winner))
    {
      if client.Some? { return client.value; }
      client := Some(mine);
      winner := mine;
    }
  }

  // ------------------------------------------------------------ the processes

  /** Where one goroutine is, inside Deliver or Close. `t` is the thread it read. */
  datatype Phase =
    | Idle
    | Checked                                            // Available said yes
    | Aimed(t: bytes)                                    // thread re-read
    | Dialling(t: bytes)
    | Initialising(t: bytes, c: ClientId)
    | Ready(t: bytes, c: ClientId)                       // initialised, not stored
    | Losing(t: bytes, c: ClientId, other: ClientId)     // another caller won
    | Doomed(c: ClientId)                                // Initialize failed
    | Connected(t: bytes, c: ClientId)                   // using the shared client
    | Dropping                                           // queueing failed: Close next
    | Closing(c: ClientId)                               // taken out, not yet closed

  /** The client this goroutine alone must dispose of. */
  function Hand(p: Phase): Option<ClientId> {
    match p
    case Initialising(_, c) => Some(c)
    case Ready(_, c) => Some(c)
    case Losing(_, c, _) => Some(c)
    case Doomed(c) => Some(c)
    case Closing(c) => Some(c)
    case _ => None
  }

  /** One message handed to the daemon: by whom, for which thread, over which client. */
  datatype Queued = Queued(p: Proc, thread: bytes, client: ClientId)

  datatype State = State(
    core: Core, dialled: nat, closed: multiset<ClientId>,
    closedBy: set<(Proc, ClientId)>,   // which goroutine closed what
    procs: map<Proc, Phase>, queued: seq<Queued>)

  const START := State(Core([], false, None), 0, multiset{}, {}, map[], [])

  function At(s: State, p: Proc): Phase { if p in s.procs then s.procs[p] else Idle }

  function Move(s: State, p: Proc, ph: Phase): State { s.(procs := s.procs[p := ph]) }

  datatype Action =
    | Adopt(meta: Meta)
    | Check(p: Proc, reachable: bool)
    | Aim(p: Proc)
    | Refuse(p: Proc)
    | Enter(p: Proc)
    | DialFails(p: Proc)
    | Dials(p: Proc)
    | InitFails(p: Proc)
    | Inits(p: Proc)
    | Stores(p: Proc)
    | CloseLoser(p: Proc)
    | CloseDoomed(p: Proc)
    | Queue(p: Proc, ok: bool)
    | Takes(p: Proc)
    | CloseTaken(p: Proc)

  predicate Enabled(s: State, a: Action) {
    match a
    case Adopt(_) => true
    case Check(p, _) => At(s, p).Idle?
    case Aim(p) => At(s, p).Checked?
    case Refuse(p) => At(s, p).Aimed?
    case Enter(p) => At(s, p).Aimed?
    case DialFails(p) => At(s, p).Dialling?
    case Dials(p) => At(s, p).Dialling?
    case InitFails(p) => At(s, p).Initialising?
    case Inits(p) => At(s, p).Initialising?
    case Stores(p) => At(s, p).Ready?
    case CloseLoser(p) => At(s, p).Losing?
    case CloseDoomed(p) => At(s, p).Doomed?
    case Queue(p, _) => At(s, p).Connected?
    case Takes(p) => At(s, p).Idle? || At(s, p).Dropping?
    case CloseTaken(p) => At(s, p).Closing?
  }

  function CloseClient(s: State, p: Proc, c: ClientId): State {
    s.(closed := s.closed + multiset{c}, closedBy := s.closedBy + {(p, c)})
  }

  function Apply(s: State, a: Action): State
    requires Enabled(s, a)
  {
    match a
    case Adopt(meta) => s.(core := AdoptMeta(s.core, meta))
    case Check(p, reachable) => if Available(s.core, reachable) then Move(s, p, Checked) else s
    case Aim(p) => Move(s, p, Aimed(s.core.thread))
    case Refuse(p) => Move(s, p, Idle)
    case Enter(p) =>
      if s.core.client.Some? then Move(s, p, Connected(At(s, p).t, s.core.client.value))
      else Move(s, p, Dialling(At(s, p).t))
    case DialFails(p) => Move(s, p, Idle)
    case Dials(p) => Move(s, p, Initialising(At(s, p).t, s.dialled)).(dialled := s.dialled + 1)
    case InitFails(p) => Move(s, p, Doomed(At(s, p).c))
    case Inits(p) => Move(s, p, Ready(At(s, p).t, At(s, p).c))
    case Stores(p) =>
      var mine, winner := At(s, p).c, Winner(s.core, At(s, p).c);
      Move(s, p, if s.core.client.Some? then Losing(At(s, p).t, mine, winner) else Connected(At(s, p).t, mine))
        .(core := s.core.(client := Some(winner)))
    case CloseLoser(p) => CloseClient(Move(s, p, Connected(At(s, p).t, At(s, p).other)), p, At(s, p).c)
    case CloseDoomed(p) => CloseClient(Move(s, p, Idle), p, At(s, p).c)
    case Queue(p, ok) =>
      Move(s, p, if ok then Idle else Dropping).(queued := s.queued + [Queued(p, At(s, p).t, At(s, p).c)])
    case Takes(p) =>
      Move(s, p, if s.core.client.Some? then Closing(s.core.client.value) else Idle).(core := s.core.(client := None))
    case CloseTaken(p) => CloseClient(Move(s, p, Idle), p, At(s, p).c)
  }

  predicate Legal(s: State, acts: seq<Action>)
    decreases |acts|
  {
    acts == [] || (Enabled(s, acts[0]) && Legal(Apply(s, acts[0]), acts[1..]))
  }

  function Run(s: State, acts: seq<Action>): State
    requires Legal(s, acts)
    decreases |acts|
  {
    if acts == [] then s else Run(Apply(s, acts[0]), acts[1..])
  }

  // ---------------------------------------------------------------- the latch

  function IdOf(a: Action): seq<bytes> {
    if a.Adopt? && ThreadIdFromMeta(a.meta).Id? then [ThreadIdFromMeta(a.meta).s] else []
  }

  /** The valid ids a run has adopted, in order. */
  function Ids(acts: seq<Action>): seq<bytes>
  {
    if acts == [] then [] else IdOf(acts[0]) + Ids(acts[1..])
  }

  predicate Distinct(ids: seq<bytes>) { exists i, j :: 0 <= i < |ids| && 0 <= j < |ids| && ids[i] != ids[j] }

  /** Either nothing or the first id: what anything may ever aim at. */
  predicate Target(ids: seq<bytes>, t: bytes) { t == [] || (ids != [] && t == ids[0]) }

  predicate HasTarget(p: Phase) {
    p.Aimed? || p.Dialling? || p.Initialising? || p.Ready? || p.Losing? || p.Connected?
  }

  predicate PhaseOk(ids: seq<bytes>, p: Phase) {
    (p.Checked? ==> ids != []) && (HasTarget(p) ==> ids != [] && Target(ids, p.t) && (p.t == [] ==> Distinct(ids)))
  }

  predicate QueuedOk(ids: seq<bytes>, t: bytes) { ids != [] && Target(ids, t) && (t == [] ==> Distinct(ids)) }

  /** The shared state as a function of the ids seen, and every target within bounds. */
  predicate LatchInv(s: State, ids: seq<bytes>) {
    && (forall i :: 0 <= i < |ids| ==> ids[i] != [])
    && s.core.disabled == Distinct(ids)
    && s.core.thread == (if ids == [] || Distinct(ids) then [] else ids[0])
    && (forall p :: p in s.procs ==> PhaseOk(ids, s.procs[p]))
    && (forall i :: 0 <= i < |s.queued| ==> QueuedOk(ids, s.queued[i].thread))
  }

  lemma DistinctGrows(ids: seq<bytes>, id: bytes)
    ensures ids != [] ==> (Distinct(ids + [id]) <==> Distinct(ids) || ids[0] != id)
    ensures ids == [] ==> !Distinct(ids + [id])
  {
    var more := ids + [id];
    if Distinct(ids) {
      var i, j :| 0 <= i < |ids| && 0 <= j < |ids| && ids[i] != ids[j];
      assert more[i] != more[j];
    } else if ids != [] && ids[0] != id {
      assert more[0] != more[|ids|];
    } else if ids != [] {
      forall i | 0 <= i < |more| ensures more[i] == ids[0] {
        if i < |ids| { assert ids[i] == ids[0]; }
      }
    }
  }

  lemma AdoptKeeps(s: State, ids: seq<bytes>, id: bytes)
    requires LatchInv(s, ids) && id != []
    ensures LatchInv(s.(core := Latch(s.core, id)), ids + [id])
  {
    DistinctGrows(ids, id);
    var more := ids + [id];
    assert ids != [] ==> more[0] == ids[0];
  }

  lemma MoverOk(s: State, ids: seq<bytes>, a: Action)
    requires LatchInv(s, ids) && Enabled(s, a) && !a.Adopt?
    ensures PhaseOk(ids, At(Apply(s, a), a.p))
    ensures a.Queue? ==> QueuedOk(ids, At(s, a.p).t)
  {
    assert PhaseOk(ids, At(s, a.p));
  }

  lemma StepKeeps(s: State, ids: seq<bytes>, a: Action)
    requires LatchInv(s, ids) && Enabled(s, a) && !a.Adopt?
    ensures LatchInv(Apply(s, a), ids)
  {
    var z := Apply(s, a);
    MoverOk(s, ids, a);
    assert z.core.thread == s.core.thread && z.core.disabled == s.core.disabled;
    forall p | p in z.procs ensures PhaseOk(ids, z.procs[p]) {
      if p != a.p { assert z.procs[p] == s.procs[p]; }
    }
    forall i | 0 <= i < |z.queued| ensures QueuedOk(ids, z.queued[i].thread) {
      if i < |s.queued| { assert QueuedOk(ids, s.queued[i].thread); }
    }
  }

  lemma {:induction false} RunLatches(s: State, acts: seq<Action>, ids: seq<bytes>)
    requires LatchInv(s, ids) && Legal(s, acts)
    ensures LatchInv(Run(s, acts), ids + Ids(acts))
    decreases |acts|
  {
    if acts == [] {
      assert ids + [] == ids;
    } else {
      var a := acts[0];
      if a.Adopt? && ThreadIdFromMeta(a.meta).Id? {
        var id := ThreadIdFromMeta(a.meta).s;
        AdoptKeeps(s, ids, id);
        Assoc(ids, [id], Ids(acts[1..]));
        RunLatches(Apply(s, a), acts[1..], ids + [id]);
      } else {
        assert Ids(acts) == Ids(acts[1..]);
        if !a.Adopt? { StepKeeps(s, ids, a); }
        RunLatches(Apply(s, a), acts[1..], ids);
      }
    }
  }

  /** Over every interleaving: the backend is disabled exactly when two distinct
      valid ids have been adopted, its thread is the first of them or nothing,
      and no delivery is ever queued for any other; for nothing only once disabled. */
  lemma EveryRunLatches(acts: seq<Action>)
    requires Legal(START, acts)
    ensures var s, ids := Run(START, acts), Ids(acts);
            (s.core.disabled <==> Distinct(ids))
            && s.core.thread == (if ids == [] || Distinct(ids) then [] else ids[0])
            && (forall i :: 0 <= i < |s.queued| ==> QueuedOk(ids, s.queued[i].thread))
  {
    RunLatches(START, acts, []);
    assert [] + Ids(acts) == Ids(acts);
  }

  /** The first text with something in it is what the backend then aims at. */
  lemma FirstTextLatches(acts: seq<Action>, m: map<bytes, MetaValue>, s: bytes)
    requires Legal(START, acts) && Ids(acts) == [] && THREAD_ID in m && m[THREAD_ID] == Text(s) && HasSolid(s)
    ensures Apply(Run(START, acts), Adopt(Some(m))).core.thread == s && !Apply(Run(START, acts), Adopt(Some(m))).core.disabled
  {
    IdIsTheText(m, s);
    EveryRunLatches(acts);
  }

  lemma {:induction false} RunAppend(s: State, acts: seq<Action>, more: seq<Action>)
    requires Legal(s, acts + more)
    ensures Legal(s, acts) && Legal(Run(s, acts), more) && Run(s, acts + more) == Run(Run(s, acts), more)
    decreases |acts|
  {
    if acts == [] {
      assert acts + more == more;
    } else {
      assert (acts + more)[0] == acts[0] && (acts + more)[1..] == acts[1..] + more;
      RunAppend(Apply(s, acts[0]), acts[1..], more);
    }
  }

  lemma {:induction false} IdsAppend(acts: seq<Action>, more: seq<Action>)
    ensures Ids(acts + more) == Ids(acts) + Ids(more)
    decreases |acts|
  {
    if acts == [] {
      assert acts + more == more;
    } else {
      assert (acts + more)[0] == acts[0] && (acts + more)[1..] == acts[1..] + more;
      IdsAppend(acts[1..], more);
      Assoc(IdOf(acts[0]), Ids(acts[1..]), Ids(more));
    }
  }

  /** Disabled is for life, and no later target replaces the first. */
  lemma LatchIsFinal(acts: seq<Action>, more: seq<Action>)
    requires Legal(START, acts + more)
    ensures Legal(START, acts)
    ensures var s, z := Run(START, acts), Run(START, acts + more);
            (s.core.disabled ==> z.core.disabled && z.core.thread == [])
            && (s.core.thread != [] ==> z.core.thread == s.core.thread || (z.core.disabled && z.core.thread == []))
  {
    RunAppend(START, acts, more);
    IdsAppend(acts, more);
    EveryRunLatches(acts);
    EveryRunLatches(acts + more);
    var ids, all := Ids(acts), Ids(acts + more);
    if Distinct(ids) {
      var i, j :| 0 <= i < |ids| && 0 <= j < |ids| && ids[i] != ids[j];
      assert all[i] != all[j];
    }
  }

  /** The window between Deliver's two locks: a delivery that was told the
      thread is reachable re-reads nothing exactly when a second id got in. */
  lemma RereadExactly(acts: seq<Action>, p: Proc)
    requires Legal(START, acts) && At(Run(START, acts), p).Checked?
    ensures var s, ids := Run(START, acts), Ids(acts);
            ids != [] && At(Apply(s, Aim(p)), p) == Aimed(if Distinct(ids) then [] else ids[0])
  {
    RunLatches(START, acts, []);
    assert [] + Ids(acts) == Ids(acts);
    assert PhaseOk(Ids(acts), At(Run(START, acts), p));
  }

  /** What Available answers, over every run: yes when the harness is reachable and
      exactly one id has been adopted. */
  lemma CheckedExactly(acts: seq<Action>, p: Proc, reachable: bool)
    requires Legal(START, acts) && At(Run(START, acts), p).Idle?
    ensures var s, ids := Run(START, acts), Ids(acts);
            At(Apply(s, Check(p, reachable)), p) == if reachable && ids != [] && !Distinct(ids) then Checked else Idle
  {
    IdsNonEmpty(acts);
    EveryRunLatches(acts);
  }

  lemma {:induction false} IdsNonEmpty(acts: seq<Action>)
    ensures forall i :: 0 <= i < |Ids(acts)| ==> Ids(acts)[i] != []
    decreases |acts|
  {
    if acts != [] { IdsNonEmpty(acts[1..]); }
  }

  function Stamp(id: bytes): Meta { Some(map[THREAD_ID := Text(id)]) }

  lemma Step(s: State, a: Action, rest: seq<Action>)
    requires Enabled(s, a) && Legal(Apply(s, a), rest)
    ensures Legal(s, [a] + rest) && Run(s, [a] + rest) == Run(Apply(s, a), rest)
  {
    assert ([a] + rest)[1..] == rest;
  }

  /** Some run from here queues a message for no thread. */
  ghost predicate Strays(s: State) { exists acts :: Legal(s, acts) && ForNoThread(Run(s, acts).queued) }

  predicate ForNoThread(queued: seq<Queued>) { exists i :: 0 <= i < |queued| && queued[i].thread == [] }

  lemma StraysAfter(s: State, a: Action)
    requires Enabled(s, a) && Strays(Apply(s, a))
    ensures Strays(s)
  {
    var acts :| Legal(Apply(s, a), acts) && ForNoThread(Run(Apply(s, a), acts).queued);
    Step(s, a, acts);
  }

  lemma ConnectedStrays(s: State)
    requires At(s, 0).Connected? && At(s, 0).t == []
    ensures Strays(s)
  {
    var z := Apply(s, Queue(0, true));
    assert z.queued[|s.queued|].thread == [] && Legal(z, []) && Run(z, []) == z;
    StraysAfter(s, Queue(0, true));
  }

  lemma DiallingStrays(s: State)
    requires At(s, 0) == Dialling([]) && s.core.client == None
    ensures Strays(s)
  {
    var s1 := Apply(s, Dials(0));
    var s2 := Apply(s1, Inits(0));
    ConnectedStrays(Apply(s2, Stores(0)));
    StraysAfter(s2, Stores(0));
    StraysAfter(s1, Inits(0));
    StraysAfter(s, Dials(0));
  }

  lemma AimedStrays(s: State)
    requires At(s, 0) == Aimed([]) && s.core.client == None
    ensures Strays(s)
  {
    DiallingStrays(Apply(s, Enter(0)));
    StraysAfter(s, Enter(0));
  }

  /** So a delivery can be queued for no thread at all. */
  lemma EmptyTargetIsReached(a: bytes, b: bytes, s: State)
    requires !Blank(a) && !Blank(b) && a != b && s == START
    ensures Strays(s)
  {
    var s1 := Apply(s, Adopt(Stamp(a)));
    assert s1.core == Core(a, false, None);
    CheckedStrays(Apply(s1, Check(0, true)), a, b);
    StraysAfter(s1, Check(0, true));
    StraysAfter(s, Adopt(Stamp(a)));
  }

  lemma CheckedStrays(s: State, a: bytes, b: bytes)
    requires !Blank(b) && a != b && a != [] && s.core == Core(a, false, None) && At(s, 0).Checked?
    ensures Strays(s)
  {
    var z := Apply(s, Adopt(Stamp(b)));
    assert z.core == Core([], true, None);
    AimedStrays(Apply(z, Aim(0)));
    StraysAfter(z, Aim(0));
    StraysAfter(s, Adopt(Stamp(b)));
  }

  // --------------------------------------------------------------- ownership

  function HandOf(s: State, p: Proc): Option<ClientId> { Hand(At(s, p)) }

  /** Nobody's hand holds `c`. */
  ghost predicate Unheld(s: State, c: ClientId) { forall p: Proc :: HandOf(s, p) != Some(c) }

  /** A client's one place: stored, in one goroutine's hand, or closed once. */
  ghost predicate Placed(s: State, c: ClientId) {
    || (s.core.client == Some(c) && Unheld(s, c) && s.closed[c] == 0)
    || (s.core.client != Some(c) && Unheld(s, c) && s.closed[c] == 1)
    || (s.core.client != Some(c) && s.closed[c] == 0 &&
        exists p: Proc :: HandOf(s, p) == Some(c) && forall q: Proc :: HandOf(s, q) == Some(c) ==> q == p)
  }

  ghost predicate Absent(s: State, c: ClientId) {
    s.core.client != Some(c) && Unheld(s, c) && s.closed[c] == 0
  }

  ghost predicate OwnInv(s: State) {
    forall c: ClientId :: if c < s.dialled then Placed(s, c) else Absent(s, c)
  }

  ghost predicate Others(s: State, z: State, p: Proc) { forall q: Proc :: q != p ==> HandOf(z, q) == HandOf(s, q) }

  /** The five things a step can do to a client, seen from one client. */
  lemma Unmoved(s: State, z: State, p: Proc, c: ClientId)
    requires Others(s, z, p) && z.closed[c] == s.closed[c]
    requires z.core.client == Some(c) <==> s.core.client == Some(c)
    requires HandOf(z, p) == Some(c) <==> HandOf(s, p) == Some(c)
    ensures Placed(s, c) ==> Placed(z, c)
    ensures Absent(s, c) ==> Absent(z, c)
  {
    forall q: Proc ensures HandOf(z, q) == Some(c) <==> HandOf(s, q) == Some(c) { }
    if Placed(s, c) && s.core.client != Some(c) && s.closed[c] == 0 {
      var o: Proc :| HandOf(s, o) == Some(c) && forall q: Proc :: HandOf(s, q) == Some(c) ==> q == o;
      assert HandOf(z, o) == Some(c);
    }
  }

  lemma PickedUp(s: State, z: State, p: Proc, c: ClientId)
    requires Others(s, z, p) && Unheld(s, c) && s.closed[c] == z.closed[c] == 0
    requires z.core.client != Some(c) && HandOf(z, p) == Some(c)
    ensures Placed(z, c)
  {
    forall q: Proc | HandOf(z, q) == Some(c) ensures q == p { }
  }

  lemma PutDown(s: State, z: State, p: Proc, c: ClientId)
    requires Placed(s, c) && Others(s, z, p) && HandOf(s, p) == Some(c) && HandOf(z, p) == None
    requires (z.core.client == Some(c) && z.closed[c] == 0) || (z.core.client != Some(c) && z.closed[c] == 1)
    ensures Placed(z, c)
  {
    forall q: Proc ensures HandOf(z, q) != Some(c) {
      if q != p { assert HandOf(s, q) != Some(c); }
    }
  }

  lemma OwnStep(s: State, a: Action)
    requires OwnInv(s) && Enabled(s, a)
    ensures OwnInv(Apply(s, a))
  {
    var z := Apply(s, a);
    var p := if a.Adopt? then 0 else a.p;
    assert Others(s, z, p);
    forall c: ClientId ensures if c < z.dialled then Placed(z, c) else Absent(z, c) {
      assert if c < s.dialled then Placed(s, c) else Absent(s, c);
      if z.core.client != Some(c) && HandOf(z, p) == Some(c) && HandOf(s, p) != Some(c) {
        PickedUp(s, z, p, c);
      } else if HandOf(s, p) == Some(c) && HandOf(z, p) != Some(c) {
        PutDown(s, z, p, c);
      } else {
        Unmoved(s, z, p, c);
      }
    }
  }

  lemma {:induction false} RunOwns(s: State, acts: seq<Action>)
    requires OwnInv(s) && Legal(s, acts)
    ensures OwnInv(Run(s, acts))
    decreases |acts|
  {
    if acts != [] {
      OwnStep(s, acts[0]);
      RunOwns(Apply(s, acts[0]), acts[1..]);
    }
  }

  /** Outside connect and Close, though perhaps inside Deliver. */
  predicate Outside(p: Phase) { p.Idle? || p.Checked? || p.Aimed? || p.Connected? || p.Dropping? }

  ghost predicate Quiescent(s: State) { forall p: Proc :: Outside(At(s, p)) }

  /** Over every interleaving of deliveries and closes, every client dialled has
      exactly one place, and when no connect or Close is in progress that place is
      the stored one or a single close: nothing leaks and nothing is closed twice. */
  lemma EveryClientIsPlaced(acts: seq<Action>)
    requires Legal(START, acts)
    ensures var s := Run(START, acts);
            (forall c: ClientId :: c < s.dialled ==> Placed(s, c))
            && (s.core.client.Some? ==> s.core.client.value < s.dialled && s.closed[s.core.client.value] == 0)
            && (Quiescent(s) ==>
                  forall c: ClientId :: s.closed[c] == if c < s.dialled && s.core.client != Some(c) then 1 else 0)
  {
    assert OwnInv(START);
    RunOwns(START, acts);
    var s := Run(START, acts);
    if s.core.client.Some? { assert !Absent(s, s.core.client.value); }
    if Quiescent(s) {
      forall c: ClientId ensures s.closed[c] == if c < s.dialled && s.core.client != Some(c) then 1 else 0 {
        assert if c < s.dialled then Placed(s, c) else Absent(s, c);
        forall p: Proc ensures HandOf(s, p) == None { assert Outside(At(s, p)); }
      }
    }
  }

  // ------------------------------------------------- whose client, which thread

  lemma LastStep(acts: seq<Action>)
    requires acts != [] && Legal(START, acts)
    ensures var front, a := acts[..|acts| - 1], acts[|acts| - 1];
            Legal(START, front) && Enabled(Run(START, front), a) && Run(START, acts) == Apply(Run(START, front), a)
  {
    var front, a := acts[..|acts| - 1], acts[|acts| - 1];
    assert acts == front + [a];
    RunAppend(START, front, [a]);
    assert [a][1..] == [];
  }

  /** What `core.client` held at the end of the locked block in which connect,
      called by `p`, last looked at it. */
  function Look(acts: seq<Action>, p: Proc): Option<ClientId>
    requires Legal(START, acts)
    decreases |acts|
  {
    if acts == [] then None
    else
      LastStep(acts);
      if acts[|acts| - 1] == Enter(p) || acts[|acts| - 1] == Stores(p) then Run(START, acts).core.client
      else Look(acts[..|acts| - 1], p)
  }

  /** The thread `p` last re-read under the lock. */
  function Reread(acts: seq<Action>, p: Proc): bytes
    requires Legal(START, acts)
    decreases |acts|
  {
    if acts == [] then []
    else
      LastStep(acts);
      if acts[|acts| - 1] == Aim(p) then Run(START, acts).core.thread else Reread(acts[..|acts| - 1], p)
  }

  /** What a goroutine goes by, in terms of what it last saw. */
  predicate GoesBy(ph: Phase, t: bytes, look: Option<ClientId>) {
    (HasTarget(ph) ==> ph.t == t) && (ph.Connected? ==> look == Some(ph.c)) && (ph.Losing? ==> look == Some(ph.other))
  }

  lemma {:induction false} EveryoneGoesBy(acts: seq<Action>, p: Proc)
    requires Legal(START, acts)
    ensures GoesBy(At(Run(START, acts), p), Reread(acts, p), Look(acts, p))
    decreases |acts|
  {
    if acts != [] {
      LastStep(acts);
      var front := acts[..|acts| - 1];
      EveryoneGoesBy(front, p);
      GoesByStep(Run(START, front), acts[|acts| - 1], p, Reread(front, p), Look(front, p));
    }
  }

  lemma GoesByStep(s: State, a: Action, p: Proc, t: bytes, look: Option<ClientId>)
    requires Enabled(s, a) && GoesBy(At(s, p), t, look)
    ensures var z := Apply(s, a);
            GoesBy(At(z, p), if a == Aim(p) then z.core.thread else t,
                   if a == Enter(p) || a == Stores(p) then z.core.client else look)
  {
  }

  /** Who has closed what: only clients that are closed, and never the one it goes on with. */
  ghost predicate UseInv(s: State) {
    && (forall p, c :: (p, c) in s.closedBy ==> s.closed[c] > 0)
    && (forall p: Proc :: UseOk(s, p))
  }

  predicate UseOk(s: State, p: Proc) {
    (At(s, p).Connected? ==> (p, At(s, p).c) !in s.closedBy)
    && (At(s, p).Losing? ==> (p, At(s, p).other) !in s.closedBy && At(s, p).c != At(s, p).other)
  }

  lemma HandIsOpen(s: State, p: Proc, c: ClientId)
    requires OwnInv(s) && HandOf(s, p) == Some(c)
    ensures s.core.client != Some(c) && s.closed[c] == 0
  {
    assert if c < s.dialled then Placed(s, c) else Absent(s, c);
  }

  lemma StoredIsOpen(s: State)
    requires OwnInv(s) && s.core.client.Some?
    ensures s.closed[s.core.client.value] == 0
  {
    var c := s.core.client.value;
    assert if c < s.dialled then Placed(s, c) else Absent(s, c);
  }

  lemma UseStep(s: State, a: Action)
    requires OwnInv(s) && UseInv(s) && Enabled(s, a)
    ensures UseInv(Apply(s, a))
  {
    var z := Apply(s, a);
    forall p: Proc ensures UseOk(z, p) {
      assert UseOk(s, p);
      if HandOf(s, p).Some? { HandIsOpen(s, p, HandOf(s, p).value); }
      if s.core.client.Some? { StoredIsOpen(s); }
    }
  }

  lemma {:induction false} RunUses(s: State, acts: seq<Action>)
    requires OwnInv(s) && UseInv(s) && Legal(s, acts)
    ensures UseInv(Run(s, acts))
    decreases |acts|
  {
    if acts != [] {
      OwnStep(s, acts[0]);
      UseStep(s, acts[0]);
      RunUses(Apply(s, acts[0]), acts[1..]);
    }
  }

  /** Over every interleaving: the client a delivery goes on with is the one
      `core.client` held when its connect last looked, found there, put there or lost
      to; and it is never one its own goroutine closed. */
  lemma EveryConnectionIsShared(acts: seq<Action>, p: Proc)
    requires Legal(START, acts) && At(Run(START, acts), p).Connected?
    ensures var s := Run(START, acts);
            var c := At(s, p).c;
            Look(acts, p) == Some(c) && c < s.dialled && (p, c) !in s.closedBy
  {
    EveryoneGoesBy(acts, p);
    LookWasDialled(acts, p);
    assert OwnInv(START) && UseInv(START);
    RunUses(START, acts);
    assert UseOk(Run(START, acts), p);
  }

  lemma {:induction false} LookWasDialled(acts: seq<Action>, p: Proc)
    requires Legal(START, acts)
    ensures Look(acts, p).Some? ==> Look(acts, p).value < Run(START, acts).dialled
    decreases |acts|
  {
    if acts != [] {
      LastStep(acts);
      LookWasDialled(acts[..|acts| - 1], p);
      EveryClientIsPlaced(acts);
    }
  }

  /** The losing goroutine closes its own client, once, and no other. */
  lemma LoserClosesItsOwn(acts: seq<Action>, p: Proc)
    requires Legal(START, acts) && At(Run(START, acts), p).Losing?
    ensures var s := Run(START, acts);
            var z := Apply(s, CloseLoser(p));
            At(z, p).Connected? && Look(acts, p) == Some(At(z, p).c) && At(s, p).c != At(z, p).c
            && z.closed[At(s, p).c] == 1 && (forall c :: c != At(s, p).c ==> z.closed[c] == s.closed[c])
            && z.core == s.core
  {
    EveryoneGoesBy(acts, p);
    assert OwnInv(START) && UseInv(START);
    RunOwns(START, acts);
    RunUses(START, acts);
    assert UseOk(Run(START, acts), p);
    HandIsOpen(Run(START, acts), p, At(Run(START, acts), p).c);
  }

  /** What a run's Queue steps hand to the daemon: for each, the thread its
      goroutine last re-read and the client its connect last saw. */
  function Submissions(acts: seq<Action>): seq<Queued>
    requires Legal(START, acts)
    decreases |acts|
  {
    if acts == [] then []
    else
      LastStep(acts);
      var front, a := acts[..|acts| - 1], acts[|acts| - 1];
      Submissions(front) +
      if a.Queue? && Look(front, a.p).Some? then [Queued(a.p, Reread(front, a.p), Look(front, a.p).value)] else []
  }

  /** The whole record of every run, exactly. */
  lemma {:induction false} EverySubmission(acts: seq<Action>)
    requires Legal(START, acts)
    ensures Run(START, acts).queued == Submissions(acts)
    decreases |acts|
  {
    if acts != [] {
      LastStep(acts);
      var front, a := acts[..|acts| - 1], acts[|acts| - 1];
      EverySubmission(front);
      if a.Queue? {
        EveryoneGoesBy(front, a.p);
      } else {
        NothingQueued(Run(START, front), a);
        NoneAdded(Submissions(front));
      }
    }
  }

  lemma NothingQueued(s: State, a: Action)
    requires Enabled(s, a) && !a.Queue?
    ensures Apply(s, a).queued == s.queued
  {
  }

  lemma NoneAdded(qs: seq<Queued>)
    ensures qs + [] == qs
  {
  }

  /** After a failed Queue a goroutine can do nothing before it has dropped the shared
      client, whichever that is by then, so that the next delivery dials again. */
  lemma FailedQueueDrops(acts: seq<Action>, p: Proc)
    requires Legal(START, acts) && At(Run(START, acts), p).Connected?
    ensures var s := Apply(Run(START, acts), Queue(p, false));
            (forall a: Action :: Enabled(s, a) && !a.Adopt? && a.p == p ==> a == Takes(p)) && Enabled(s, Takes(p))
            && Apply(s, Takes(p)).core.client == None
  {
  }

  function Fresh(p: Proc): seq<Action> { [Aim(p), Enter(p), Dials(p), Inits(p), Stores(p), Queue(p, true)] }

  function Reuse(p: Proc): seq<Action> { [Aim(p), Enter(p), Queue(p, true)] }

  /** A delivery that was told the thread is reachable can always be carried through
      by its own goroutine: over the stored client, or over one it dials and stores. */
  lemma DeliveryGoesThrough(acts: seq<Action>, p: Proc)
    requires Legal(START, acts) && At(Run(START, acts), p).Checked?
    ensures var s := Run(START, acts);
            var mine := if s.core.client.Some? then Reuse(p) else Fresh(p);
            var c := if s.core.client.Some? then s.core.client.value else s.dialled;
            Legal(s, mine) && var z := Run(s, mine);
            z.queued == s.queued + [Queued(p, s.core.thread, c)] && z.core == s.core.(client := Some(c))
            && At(z, p).Idle? && z.closed == s.closed
  {
    var s := Run(START, acts);
    if s.core.client.Some? { ReuseRuns(s, p); } else { FreshRuns(s, p); }
  }

  lemma ReuseRuns(s: State, p: Proc)
    requires At(s, p).Checked? && s.core.client.Some?
    ensures Legal(s, Reuse(p)) && var z := Run(s, Reuse(p));
            z.queued == s.queued + [Queued(p, s.core.thread, s.core.client.value)] && z.core == s.core
            && At(z, p).Idle? && z.closed == s.closed
  {
    var s1 := Apply(s, Aim(p));
    var s2 := Apply(s1, Enter(p));
    var s3 := Apply(s2, Queue(p, true));
    assert Legal(s3, []) && Run(s3, []) == s3;
    Step(s2, Queue(p, true), []);
    Step(s1, Enter(p), [Queue(p, true)]);
    Step(s, Aim(p), [Enter(p), Queue(p, true)]);
  }

  lemma FreshRuns(s: State, p: Proc)
    requires At(s, p).Checked? && s.core.client == None
    ensures Legal(s, Fresh(p)) && var z := Run(s, Fresh(p));
            z.queued == s.queued + [Queued(p, s.core.thread, s.dialled)] && z.core == s.core.(client := Some(s.dialled))
            && At(z, p).Idle? && z.closed == s.closed
  {
    var s1 := Apply(s, Aim(p));
    var s2 := Apply(s1, Enter(p));
    DiallingRuns(s2, p);
    var rest := Dialled(p);
    Step(s1, Enter(p), rest);
    Step(s, Aim(p), [Enter(p)] + rest);
    assert [Aim(p)] + ([Enter(p)] + rest) == Fresh(p);
  }

  function Dialled(p: Proc): seq<Action> { [Dials(p), Inits(p), Stores(p), Queue(p, true)] }

  lemma DiallingRuns(s: State, p: Proc)
    requires At(s, p).Dialling? && s.core.client == None
    ensures Legal(s, Dialled(p)) && var z := Run(s, Dialled(p));
            z.queued == s.queued + [Queued(p, At(s, p).t, s.dialled)] && z.core == s.core.(client := Some(s.dialled))
            && At(z, p).Idle? && z.closed == s.closed
  {
    var s1 := Apply(s, Dials(p));
    var s2 := Apply(s1, Inits(p));
    ReadyRuns(s2, p);
    var rest := [Stores(p), Queue(p, true)];
    Step(s1, Inits(p), rest);
    Step(s, Dials(p), [Inits(p)] + rest);
    assert [Dials(p)] + ([Inits(p)] + rest) == Dialled(p);
  }

  lemma ReadyRuns(s: State, p: Proc)
    requires At(s, p).Ready? && s.core.client == None
    ensures Legal(s, [Stores(p), Queue(p, true)]) && var z := Run(s, [Stores(p), Queue(p, true)]);
            z.queued == s.queued + [Queued(p, At(s, p).t, At(s, p).c)] && z.core == s.core.(client := Some(At(s, p).c))
            && At(z, p).Idle? && z.closed == s.closed && z.dialled == s.dialled
  {
    var s1 := Apply(s, Stores(p));
    var s2 := Apply(s1, Queue(p, true));
    assert Legal(s2, []) && Run(s2, []) == s2;
    Step(s1, Queue(p, true), []);
    Step(s, Stores(p), [Queue(p, true)]);
    assert [Stores(p)] + [Queue(p, true)] == [Stores(p), Queue(p, true)];
  }

  /** A dial or an Initialize that fails ends the delivery and leaves nothing behind:
      no client stored or queued on, and the one that was dialled closed, once. */
  lemma FailedDialLeavesNothing(acts: seq<Action>, p: Proc)
    requires Legal(START, acts) && At(Run(START, acts), p).Dialling?
    ensures var s := Run(START, acts);
            var fails := [Dials(p), InitFails(p), CloseDoomed(p)];
            At(Apply(s, DialFails(p)), p).Idle? && Apply(s, DialFails(p)).closed == s.closed
            && Apply(s, DialFails(p)).core == s.core && Apply(s, DialFails(p)).dialled == s.dialled
            && Legal(s, fails) && var z := Run(s, fails);
            At(z, p).Idle? && z.core == s.core && z.queued == s.queued && z.dialled == s.dialled + 1
            && z.closed == s.closed + multiset{s.dialled}
  {
    var s := Run(START, acts);
    var s1 := Apply(s, Dials(p));
    var s2 := Apply(s1, InitFails(p));
    var s3 := Apply(s2, CloseDoomed(p));
    assert Legal(s3, []) && Run(s3, []) == s3;
    Step(s2, CloseDoomed(p), []);
    Step(s1, InitFails(p), [CloseDoomed(p)]);
    Step(s, Dials(p), [InitFails(p), CloseDoomed(p)]);
    assert [Dials(p)] + [InitFails(p), CloseDoomed(p)] == [Dials(p), InitFails(p), CloseDoomed(p)];
  }
}
