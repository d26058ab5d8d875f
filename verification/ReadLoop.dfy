/** What readLoop (codexmsg/client.go) gets of a connection: ReadMessage called
    again and again on one stream, until it fails. */
module ReadLoop {
  import opened Bytes
  import opened Reassembly
  import WebSocket

  datatype Session = Session(messages: seq<bytes>, replies: seq<Reply>, end: ReadError)

  function Ahead(messages: seq<bytes>, replies: seq<Reply>, x: Session): Session {
    Session(messages + x.messages, replies + x.replies, x.end)
  }

  lemma AheadTwice(m: seq<bytes>, r: seq<Reply>, n: seq<bytes>, q: seq<Reply>, x: Session)
    ensures Ahead(m, r, Ahead(n, q, x)) == Ahead(m + n, r + q, x)
  {
    Assoc(m, n, x.messages);
    Assoc(r, q, x.replies);
  }

  lemma NothingAhead(x: Session)
    ensures Ahead([], [], x) == x
  {
  }

  function ReadAll(s: bytes, budget: nat): Session
    decreases |s|
  {
    var r := ReadMessage(s, FRESH, budget);
    match r.outcome
    case Failed(e) => Session([], r.replies, e)
    case Message(data, rest) => Ahead([data], r.replies, ReadAll(rest, budget - |r.replies|))
  }

  lemma MessageAhead(s: bytes, budget: nat, data: bytes, replies: seq<Reply>, rest: bytes)
    requires ReadMessage(s, FRESH, budget) == Reading(Message(data, rest), replies)
    ensures |replies| <= budget && ReadAll(s, budget) == Ahead([data], replies, ReadAll(rest, budget - |replies|))
  {
  }

  lemma NoneAhead(s: bytes, budget: nat, messages: seq<bytes>, replies: seq<Reply>)
    requires ReadMessage(s, FRESH, budget).outcome.Failed?
    ensures var r := ReadMessage(s, FRESH, budget);
            Ahead(messages, replies, ReadAll(s, budget)) == Session(messages, replies + r.replies, r.outcome.e)
  {
    assert messages + [] == messages;
  }

  // ------------------------------------------------------------ pieces in a row

  /** Bytes of one message, what it says and what is replied to it. */
  datatype Piece = Piece(wire: bytes, message: bytes, replies: seq<Reply>)

  function Wires(ps: seq<Piece>): bytes { if ps == [] then [] else ps[0].wire + Wires(ps[1..]) }
  function Messages(ps: seq<Piece>): seq<bytes> { if ps == [] then [] else [ps[0].message] + Messages(ps[1..]) }
  function Replies(ps: seq<Piece>): seq<Reply> { if ps == [] then [] else ps[0].replies + Replies(ps[1..]) }

  // The two inductions below are over any reader and any kind of piece, so that
  // they do not look inside ReadMessage.

  type Reader = (bytes, nat) -> Reading
  type Kind = Piece -> bool

  ghost predicate Steady(read: Reader) {
    forall s: bytes, b: nat :: |read(s, b).replies| <= b && (read(s, b).outcome.Message? ==> |read(s, b).outcome.rest| < |s|)
  }

  ghost function Repeated(read: Reader, s: bytes, budget: nat): Session
    requires Steady(read)
    decreases |s|
  {
    var r := read(s, budget);
    match r.outcome
    case Failed(e) => Session([], r.replies, e)
    case Message(data, rest) => Ahead([data], r.replies, Repeated(read, rest, budget - |r.replies|))
  }

  ghost predicate ReadsPiece(read: Reader, p: Piece, t: bytes, b: nat) {
    |p.replies| <= b ==> read(p.wire + t, b) == Reading(Message(p.message, t), p.replies)
  }

  /** The reader takes every piece of the kind, whatever follows it. */
  ghost predicate ReadsKind(read: Reader, kind: Kind) {
    forall p: Piece, t: bytes, b: nat :: kind(p) ==> ReadsPiece(read, p, t, b)
  }

  /** `r` is what reading piece `p` at the start of `s` gives. */
  predicate ReadOf(s: bytes, r: Reading, p: Piece) {
    r.outcome.Message? && s == p.wire + r.outcome.rest && r.outcome.data == p.message && r.replies == p.replies
  }

  /** And takes nothing else. */
  ghost predicate ReadsOnlyKind(read: Reader, kind: Kind) {
    forall s: bytes, b: nat :: read(s, b).outcome.Message? ==> exists p :: kind(p) && ReadOf(s, read(s, b), p)
  }

  ghost predicate AllOf(kind: Kind, ps: seq<Piece>) { forall i :: 0 <= i < |ps| ==> kind(ps[i]) }

  lemma {:induction false} RepeatsPieces(read: Reader, kind: Kind, ps: seq<Piece>, t: bytes, budget: nat)
    requires Steady(read) && ReadsKind(read, kind) && AllOf(kind, ps) && budget >= |Replies(ps)|
    ensures Repeated(read, Wires(ps) + t, budget) == Ahead(Messages(ps), Replies(ps), Repeated(read, t, budget - |Replies(ps)|))
    decreases |ps|
  {
    if ps == [] {
      assert Wires(ps) + t == t;
      NothingAhead(Repeated(read, t, budget));
    } else {
      var p, rest := ps[0], ps[1..];
      var u := Wires(rest) + t;
      Assoc(p.wire, Wires(rest), t);
      assert kind(p) && ReadsPiece(read, p, u, budget);
      RepeatsPieces(read, kind, rest, t, budget - |p.replies|);
      AheadTwice([p.message], p.replies, Messages(rest), Replies(rest), Repeated(read, t, budget - |Replies(ps)|));
    }
  }

  lemma PiecesAhead(read: Reader, kind: Kind, s: bytes, ps: seq<Piece>, t: bytes, budget: nat, left: nat)
    requires Steady(read) && ReadsKind(read, kind)
    requires AllOf(kind, ps) && s == Wires(ps) + t && budget == |Replies(ps)| + left
    ensures Repeated(read, s, budget) == Ahead(Messages(ps), Replies(ps), Repeated(read, t, left))
  {
    RepeatsPieces(read, kind, ps, t, budget);
  }

  /** The stream is pieces of the kind, and then bytes of which the next read fails, as `last`. */
  ghost predicate Divides(read: Reader, kind: Kind, s: bytes, budget: nat, ps: seq<Piece>, t: bytes, last: Reading) {
    AllOf(kind, ps) && s == Wires(ps) + t && |Replies(ps)| <= budget
    && last == read(t, budget - |Replies(ps)|) && last.outcome.Failed?
  }

  lemma PieceFirst(p: Piece, ps: seq<Piece>)
    ensures Wires([p] + ps) == p.wire + Wires(ps) && Replies([p] + ps) == p.replies + Replies(ps)
  {
    assert ([p] + ps)[1..] == ps;
  }

  lemma {:induction false} StreamDivides(read: Reader, kind: Kind, s: bytes, budget: nat)
    returns (ps: seq<Piece>, t: bytes, last: Reading)
    requires Steady(read) && ReadsOnlyKind(read, kind)
    ensures Divides(read, kind, s, budget, ps, t, last)
    decreases |s|
  {
    var r := read(s, budget);
    if r.outcome.Failed? {
      ps, t, last := [], s, r;
      assert Wires(ps) + t == s;
    } else {
      var p :| kind(p) && ReadOf(s, r, p);
      var more;
      more, t, last := StreamDivides(read, kind, r.outcome.rest, budget - |r.replies|);
      PieceFirst(p, more);
      Assoc(p.wire, Wires(more), t);
      ps := [p] + more;
    }
  }

  lemma StreamRead(read: Reader, kind: Kind, s: bytes, budget: nat) returns (ps: seq<Piece>, t: bytes, last: Reading)
    requires Steady(read) && ReadsKind(read, kind) && ReadsOnlyKind(read, kind)
    ensures Divides(read, kind, s, budget, ps, t, last)
    ensures Repeated(read, s, budget) == Session(Messages(ps), Replies(ps) + last.replies, last.outcome.e)
  {
    ps, t, last := StreamDivides(read, kind, s, budget);
    RepeatsPieces(read, kind, ps, t, budget);
    assert Messages(ps) + [] == Messages(ps);
  }

  // ----------------------------------------------------------- accepted runs

  /** The encoding of an accepted run of frames, its payloads and its pongs. */
  ghost predicate Encodes(p: Piece, ws: seq<WebSocket.WireFrame>) {
    AcceptedRun(ws) && p == Piece(Wire(ws), Payloads(DataOf(Decoded(ws))), PongsFor(Decoded(ws)))
  }

  ghost predicate IsRun(p: Piece) { exists ws :: Encodes(p, ws) }

  function Fresh(s: bytes, budget: nat): Reading { ReadMessage(s, FRESH, budget) }

  lemma FreshReadsRun(p: Piece, t: bytes, b: nat)
    requires IsRun(p)
    ensures ReadsPiece(Fresh, p, t, b)
  {
    var ws :| Encodes(p, ws);
    if |p.replies| <= b { ReadMessageExact(ws, t, b); }
  }

  lemma FreshReadsOnlyRuns(s: bytes, b: nat) returns (p: Piece)
    requires Fresh(s, b).outcome.Message?
    ensures IsRun(p) && ReadOf(s, Fresh(s, b), p)
  {
    var ws := MessageIsRun(s, b);
    p := Piece(Wire(ws), Payloads(DataOf(Decoded(ws))), PongsFor(Decoded(ws)));
    assert Encodes(p, ws);
  }

  lemma FreshReads()
    ensures Steady(Fresh) && ReadsKind(Fresh, IsRun) && ReadsOnlyKind(Fresh, IsRun)
  {
    forall p: Piece, t: bytes, b: nat | IsRun(p) ensures ReadsPiece(Fresh, p, t, b) { FreshReadsRun(p, t, b); }
    forall s: bytes, b: nat | Fresh(s, b).outcome.Message? ensures exists p :: IsRun(p) && ReadOf(s, Fresh(s, b), p) {
      var p := FreshReadsOnlyRuns(s, b);
    }
  }

  lemma {:induction false} ReadAllRepeats(s: bytes, budget: nat)
    ensures Steady(Fresh) && ReadAll(s, budget) == Repeated(Fresh, s, budget)
    decreases |s|
  {
    FreshReads();
    var r := Fresh(s, budget);
    if r.outcome.Message? { ReadAllRepeats(r.outcome.rest, budget - |r.replies|); }
  }

  lemma RunsRepeat(s: bytes, ps: seq<Piece>, t: bytes, budget: nat, left: nat)
    requires AllOf(IsRun, ps) && s == Wires(ps) + t && budget == |Replies(ps)| + left
    ensures Steady(Fresh) && Repeated(Fresh, s, budget) == Ahead(Messages(ps), Replies(ps), Repeated(Fresh, t, left))
  {
    FreshReads();
    PiecesAhead(Fresh, IsRun, s, ps, t, budget, left);
  }

  /** A stream of accepted runs is read message by message: their payloads in
      order, every ping answered in order, and then whatever follows them. */
  lemma ReadsInOrder(s: bytes, ps: seq<Piece>, t: bytes, budget: nat, left: nat)
    requires AllOf(IsRun, ps) && s == Wires(ps) + t && budget == |Replies(ps)| + left
    ensures ReadAll(s, budget) == Ahead(Messages(ps), Replies(ps), ReadAll(t, left))
  {
    RunsRepeat(s, ps, t, budget, left);
    ReadAllRepeats(s, budget);
    ReadAllRepeats(t, left);
  }

  lemma FreshDivides(s: bytes, budget: nat) returns (ps: seq<Piece>, t: bytes, last: Reading)
    ensures Steady(Fresh) && Divides(Fresh, IsRun, s, budget, ps, t, last)
    ensures Repeated(Fresh, s, budget) == Session(Messages(ps), Replies(ps) + last.replies, last.outcome.e)
  {
    FreshReads();
    ps, t, last := StreamRead(Fresh, IsRun, s, budget);
  }

  /** And on any stream at all, what readLoop gets is the messages of the accepted
      runs the stream begins with, up to the first byte from which no further
      message can be read. */
  lemma EveryStream(s: bytes, budget: nat) returns (ps: seq<Piece>, t: bytes, last: Reading)
    ensures Divides(Fresh, IsRun, s, budget, ps, t, last)
    ensures ReadAll(s, budget) == Session(Messages(ps), Replies(ps) + last.replies, last.outcome.e)
  {
    ReadAllRepeats(s, budget);
    ps, t, last := FreshDivides(s, budget);
  }
}
