/** wsConn (codexmsg/ws.go) in its own form: an object over a byte stream whose
    methods fill a header array, mask in a loop and reassemble in a loop. Each is
    proved against the functions of `WebSocket`, `Reassembly` and `ReadLoop`. */
module WsConn {
  import opened Bytes
  import Bits
  import WS = WebSocket
  import R = Reassembly
  import L = ReadLoop

  /** Writes `n` big-endian into `a[off..off+k]`. */
  method PutBigEndian(a: array<byte>, off: nat, n: nat, k: nat)
    requires off + k <= a.Length
    modifies a
    ensures a[off..off + k] == BigEndian(n, k)
    ensures forall i :: 0 <= i < a.Length && !(off <= i < off + k) ==> a[i] == old(a[i])
  {
    var v, i := n, k;
    ghost var tail: bytes := [];
    while i > 0
      invariant 0 <= i <= k
      invariant |tail| == k - i && a[off + i..off + k] == tail
      invariant BigEndian(v, i) + tail == BigEndian(n, k)
      invariant forall j :: 0 <= j < a.Length && !(off <= j < off + k) ==> a[j] == old(a[j])
    {
      i := i - 1;
      a[off + i] := v % 256;
      tail := [v % 256] + tail;
      assert BigEndian(v, i + 1) + tail[1..] == BigEndian(v / 256, i) + tail;
      assert a[off + i..off + k] == [a[off + i]] + a[off + i + 1..off + k];
      v := v / 256;
    }
  }

  method SetHighBit(b: byte) returns (r: byte)
    ensures r == 128 + b % 128
  {
    Bits.SetHighBit(b);
    r := Bits.Or(b, 0x80);
  }

  /** FIN, opcode, mask bit and seven-bit length of a header's two bytes. */
  method SplitBits(b0: byte, b1: byte) returns (fin: bool, opcode: nat, masked: bool, length: nat)
    ensures fin == (b0 >= 128) && opcode == b0 % 16 && masked == (b1 >= 128) && length == b1 % 128
  {
    Bits.And128(b0);
    Bits.And15(b0);
    Bits.And128(b1);
    Bits.And127(b1);
    fin := Bits.And(b0, 0x80) != 0;
    opcode := Bits.And(b0, 0x0F);
    masked := Bits.And(b1, 0x80) != 0;
    length := Bits.And(b1, 0x7F);
  }

  /** The header array, without the mask key. */
  method BuildHeader(opcode: byte, length: nat) returns (head: bytes)
    requires length <= WS.MAX_LEN
    ensures head == WS.Header(true, opcode / 16 % 8, opcode % 16, true, WS.Shortest(length), length)
  {
    var h := new byte[14](_ => 0);
    h[0] := SetHighBit(opcode);
    var n := 2;
    if length < 126 {
      h[1] := length;
    } else if length <= 0xFFFF {
      h[1] := 126;
      PutBigEndian(h, 2, length, 2);
      n := 4;
    } else {
      h[1] := 127;
      PutBigEndian(h, 2, length, 8);
      n := 10;
    }
    ghost var code, ext := h[1], h[2..n];
    var second := SetHighBit(h[1]);
    h[1] := second;
    assert h[2..n] == ext;
    head := h[..n];
    TwoAndRest(head, ext);
    HeaderIs(opcode, length, code, ext);
  }

  lemma TwoAndRest(head: bytes, ext: bytes)
    requires |head| >= 2 && head[2..] == ext
    ensures head == [head[0], head[1]] + ext
  {
  }

  lemma HeaderIs(opcode: byte, length: nat, code: byte, ext: bytes)
    requires length <= WS.MAX_LEN
    requires length < 126 ==> code == length && ext == []
    requires 126 <= length <= 0xFFFF ==> code == 126 && ext == BigEndian(length, 2)
    requires length > 0xFFFF ==> code == 127 && ext == BigEndian(length, 8)
    ensures [128 + opcode % 128, 128 + code % 128] + ext
         == WS.Header(true, opcode / 16 % 8, opcode % 16, true, WS.Shortest(length), length)
  {
    OpcodeByte(opcode);
    LengthByte(code);
    if length < 126 { assert [128 + opcode % 128, 128 + code % 128] + [] == [128 + opcode % 128, 128 + code % 128]; }
  }

  lemma OpcodeByte(opcode: byte)
    ensures 128 + opcode % 128 == 128 + 16 * (opcode / 16 % 8) + opcode % 16
  {
  }

  lemma LengthByte(code: byte)
    requires code < 128
    ensures 128 + code % 128 == 128 + code
  {
  }

  /** The two pieces writeFrame hands to the connection. */
  method BuildFrame(opcode: byte, payload: bytes, mask: bytes) returns (head: bytes, masked: bytes)
    requires |payload| <= WS.MAX_LEN && |mask| == 4
    ensures head + masked == WS.Encode(WS.Outgoing(opcode, payload, mask)) && |head| > 0
    ensures masked == WS.Mask(payload, mask)
  {
    var h := BuildHeader(opcode, |payload|);
    masked := MaskLoop(payload, mask);
    head := h + mask;
    assert head + masked == h + (mask + masked);
  }

  method MaskLoop(payload: bytes, mask: bytes) returns (out: bytes)
    requires |mask| == 4
    ensures out == WS.Mask(payload, mask)
  {
    var a := new byte[|payload|](_ => 0);
    for i := 0 to |payload|
      invariant a[..i] == WS.Mask(payload, mask)[..i]
    {
      a[i] := Bits.Xor(payload[i], mask[i % 4]);
      assert a[..i + 1] == a[..i] + [a[i]];
    }
    out := a[..];
    assert a[..|payload|] == a[..];
  }

  /** Unmasking in place, as the reader does it. */
  method Unmask(a: array<byte>, mask: bytes)
    requires |mask| == 4
    modifies a
    ensures a[..] == WS.Mask(old(a[..]), mask)
  {
    for i := 0 to a.Length
      invariant forall j :: 0 <= j < i ==> a[j] == WS.Mask(old(a[..]), mask)[j]
      invariant forall j :: i <= j < a.Length ==> a[j] == old(a[j])
    {
      a[i] := Bits.Xor(a[i], mask[i % 4]);
    }
  }

  predicate Small(replies: seq<R.Reply>) {
    forall i :: 0 <= i < |replies| ==> |replies[i].payload| <= WS.MAX_FRAME
  }

  /** The frames a run of replies puts on the wire, the i-th masked with `keys(n + i)`. */
  ghost function ReplyFrames(replies: seq<R.Reply>, keys: nat -> bytes, n: nat): (fs: seq<bytes>)
    requires (forall i: nat :: |keys(i)| == 4) && Small(replies)
    ensures |fs| == |replies|
  {
    seq(|replies|, i requires 0 <= i < |replies| =>
      WS.Encode(WS.Outgoing(replies[i].opcode, replies[i].payload, keys(n + i))))
  }

  lemma OneReply(r: R.Reply, keys: nat -> bytes, n: nat)
    requires (forall i: nat :: |keys(i)| == 4) && |r.payload| <= WS.MAX_FRAME
    ensures Small([r]) && ReplyFrames([r], keys, n) == [WS.Encode(WS.Outgoing(r.opcode, r.payload, keys(n)))]
  {
  }

  lemma ReplyFramesAppend(a: seq<R.Reply>, b: seq<R.Reply>, keys: nat -> bytes, n: nat)
    requires (forall i: nat :: |keys(i)| == 4) && Small(a) && Small(b)
    ensures Small(a + b)
    ensures ReplyFrames(a + b, keys, n) == ReplyFrames(a, keys, n) + ReplyFrames(b, keys, n + |a|)
  {
  }

  /** The frame a decision makes ReadMessage write, if the connection takes it. */
  ghost function Sent(step: R.Step, room: nat): seq<R.Reply> {
    if room == 0 then []
    else match step
      case Pong(x) => [R.Reply(WS.OP_PONG, x)]
      case Closing(x) => [R.Reply(WS.OP_CLOSE, x)]
      case _ => []
  }

  /** What is still to be read and written once that frame is out. */
  ghost function After(step: R.Step, p: R.Partial, rest: bytes, room: nat): R.Reading {
    match step
    case More(q) => R.ReadMessage(rest, q, room)
    case Pong(_) =>
      if room == 0 then R.Reading(R.Failed(R.ReplyFailed), []) else R.ReadMessage(rest, p, room - 1)
    case Finished(data) => R.Reading(R.Message(data, rest), [])
    case Rejected(e) => R.Reading(R.Failed(e), [])
    case Closing(_) => R.Reading(R.Failed(R.PeerClosed), [])
  }

  /** The whole reading, when `done` has been replied and `r` is what remains. */
  ghost function Owed(done: seq<R.Reply>, r: R.Reading): R.Reading {
    r.(replies := done + r.replies)
  }

  lemma Turn(step: R.Step, p: R.Partial, rest: bytes, room: nat)
    ensures R.Proceed(step, p, rest, room) == Owed(Sent(step, room), After(step, p, rest, room))
  {
    var a := After(step, p, rest, room);
    assert [] + a.replies == a.replies;
    assert step.Closing? ==> Sent(step, room) + a.replies == Sent(step, room);
  }

  /** One iteration on a frame: what it sends, then what remains. */
  lemma FrameTurn(s: bytes, p: R.Partial, room: nat, f: WS.FrameResult)
    requires f == WS.ReadFrame(s) && f.Frame?
    ensures var step := R.OnFrame(p, R.Incoming(f.opcode, f.payload, f.fin));
            R.ReadMessage(s, p, room) == Owed(Sent(step, room), After(step, p, f.rest, room))
  {
    Turn(R.OnFrame(p, R.Incoming(f.opcode, f.payload, f.fin)), p, f.rest, room);
  }

  lemma Settled(sent: seq<R.Reply>, r: R.Reading)
    ensures r.replies == [] ==> Owed(sent, r).replies == sent && Owed(sent, r).outcome == r.outcome
  {
    assert sent + [] == sent;
  }

  /** The caller's view of an outcome, the stream position being kept apart. */
  ghost predicate Agrees(o: R.Outcome, answer: Answer, input: bytes) {
    match o
    case Message(data, rest) => answer == Data(data) && input == rest
    case Failed(e) => answer == Error(e)
  }

  /** A reader's answer, without the stream position the object keeps itself. */
  datatype Answer = Data(data: bytes) | Error(e: R.ReadError)

  predicate IsControl(f: R.Incoming) { f.opcode == WS.OP_PING || f.opcode == WS.OP_PONG || f.opcode == WS.OP_CLOSE }

  /** The switch of ReadMessage, on any other frame: it only updates the loop's variables. */
  method HandleData(f: R.Incoming, buf: bytes, msgOp: nat, ghost rest: bytes, ghost room: nat)
    returns (stop: Option<Answer>, buf': bytes, msgOp': nat)
    requires !IsControl(f)
    ensures var step := R.OnFrame(R.Partial(buf, msgOp), f);
            var after := After(step, R.Partial(buf, msgOp), rest, room);
            Sent(step, room) == []
            && match stop
               case None => after == R.ReadMessage(rest, R.Partial(buf', msgOp'), room)
               case Some(a) => after.replies == [] && Agrees(after.outcome, a, rest)
  {
    stop, buf', msgOp' := None, buf, msgOp;
    if f.opcode == WS.OP_TEXT || f.opcode == WS.OP_BINARY {
      if |buf| > 0 {
        stop := Some(Error(R.NestedData));
        return;
      }
      msgOp', buf' := f.opcode, f.payload;
    } else if f.opcode == WS.OP_CONTINUATION {
      if msgOp == 0 {
        stop := Some(Error(R.NothingToContinue));
        return;
      }
      buf' := buf + f.payload;
    } else {
      stop := Some(Error(R.UnknownOpcode(f.opcode)));
      return;
    }
    if f.fin {
      stop := Some(Data(buf'));
    }
  }

  class Conn {
    var input: bytes          // unread
    var output: seq<bytes>    // written whole, one entry a frame
    var torn: bytes           // what the one failed write left behind it
    var broken: bool          // a write has failed
    var budget: nat           // frames the peer takes before a write fails
    var drawn: nat            // masks drawn so far
    const keys: nat -> bytes  // the random source
    const cut: nat -> nat     // how far a write that fails gets

    ghost predicate Valid() reads this`broken, this`budget { (forall i: nat :: |keys(i)| == 4) && (broken ==> budget == 0) }

    constructor (input: bytes, budget: nat, keys: nat -> bytes, cut: nat -> nat)
      requires forall i: nat :: |keys(i)| == 4
      ensures Valid() && this.input == input && this.budget == budget && output == [] && drawn == 0
      ensures torn == [] && !broken && this.keys == keys && this.cut == cut
    {
      this.input, this.budget, this.keys, this.cut, this.output, this.drawn := input, budget, keys, cut, [], 0;
      torn, broken := [], false;
    }

    /** `n` frames have gone out since the counters stood at these values. */
    ghost predicate Drew(drawn0: nat, budget0: nat, n: nat) reads this`drawn, this`budget {
      drawn == drawn0 + n && budget + n == budget0
    }

    method ReadFull(n: nat) returns (ok: bool, b: bytes)
      modifies this`input
      ensures ok == (n <= |old(input)|)
      ensures ok ==> b == old(input)[..n] && input == old(input)[n..]
      ensures !ok ==> input == []
    {
      ok := n <= |input|;
      if ok {
        b, input := input[..n], input[n..];
      } else {
        b, input := [], [];
      }
    }

    /** writeFrame: header, then payload. The first write that fails may leave any
        proper prefix of its frame behind; a later one fails with nothing. */
    method WriteFrame(opcode: byte, payload: bytes) returns (ok: bool)
      requires Valid() && |payload| <= WS.MAX_LEN
      modifies this`output, this`torn, this`broken, this`budget, this`drawn
      ensures Valid() && ok == (old(budget) > 0) && drawn == old(drawn) + 1
      ensures budget == (if ok then old(budget) - 1 else 0) && broken == (old(broken) || !ok)
      ensures var frame := WS.Encode(WS.Outgoing(opcode, payload, keys(old(drawn))));
              output == (if ok then old(output) + [frame] else old(output))
              && |frame| > 0
              && torn == if ok || old(broken) then old(torn) else frame[..cut(old(drawn)) % |frame|]
    {
      var head, masked := BuildFrame(opcode, payload, keys(drawn));
      var n := cut(drawn) % |head + masked|;
      drawn := drawn + 1;
      ok := budget > 0;
      if ok {
        budget := budget - 1;
        var frame := head;
        if |masked| != 0 {
          frame := frame + masked;
        }
        assert masked == [] ==> head + masked == head;
        output := output + [frame];
      } else if !broken {
        broken := true;
        torn := (head + masked)[..n];
      }
    }

    /** The fixed two bytes and the extended length. */
    method ReadHeader() returns (ok: bool, fin: bool, opcode: nat, masked: bool, length: nat)
      modifies this`input
      ensures var s := old(input);
              ok == (|s| >= 2 && |s| >= 2 + WS.Extra(s[1] % 128))
              && (ok ==> fin == (s[0] >= 128) && opcode == s[0] % 16 && masked == (s[1] >= 128)
                         && length == WS.Length(s) && input == s[2 + WS.Extra(s[1] % 128)..])
    {
      ghost var s := input;
      var head;
      ok, head := ReadFull(2);
      fin, opcode, masked, length := false, 0, false, 0;
      if !ok { return; }
      fin, opcode, masked, length := SplitBits(head[0], head[1]);
      if length == 126 || length == 127 {
        var k := if length == 126 then 2 else 8;
        var ext;
        ok, ext := ReadFull(k);
        if !ok { return; }
        assert ext == s[2..2 + k] && input == s[2 + k..];
        length := FromBigEndian(ext);
      }
    }

    /** One frame off the stream; a refused or truncated one leaves the stream unusable. */
    method ReadFrame() returns (r: WS.FrameResult)
      modifies this`input
      ensures r == WS.ReadFrame(old(input))
      ensures r.Frame? ==> input == r.rest
    {
      var ok, fin, opcode, masked, length := ReadHeader();
      if !ok { return WS.Truncated; }
      if length > WS.MAX_FRAME { return WS.Oversized(length, input); }
      r := ReadBody(opcode, fin, masked, length);
    }

    method ReadBody(opcode: nat, fin: bool, masked: bool, length: nat) returns (r: WS.FrameResult)
      modifies this`input
      ensures r == WS.ReadBody(old(input), opcode, fin, masked, length)
      ensures r.Frame? ==> input == r.rest
    {
      var mask: bytes := [0, 0, 0, 0];
      if masked {
        var ok, m := ReadFull(4);
        if !ok { return WS.Truncated; }
        mask := m;
      }
      var ok, raw := ReadFull(length);
      if !ok { return WS.Truncated; }
      var payload := new byte[length](i requires 0 <= i < length => raw[i]);
      assert payload[..] == raw;
      if masked {
        Unmask(payload, mask);
      }
      r := WS.Frame(opcode, payload[..], fin, input);
    }

    /** One reply, or the failure to send it. */
    method WriteReply(opcode: byte, payload: bytes) returns (ok: bool)
      requires Valid() && |payload| <= WS.MAX_FRAME
      modifies this`output, this`torn, this`broken, this`budget, this`drawn
      ensures Valid() && ok == (old(budget) > 0) && budget == if ok then old(budget) - 1 else 0
      ensures var sent := if ok then [R.Reply(opcode, payload)] else [];
              Small(sent) && output == old(output) + ReplyFrames(sent, keys, old(drawn))
      ensures drawn == old(drawn) + 1
    {
      ok := WriteFrame(opcode, payload);
      OneReply(R.Reply(opcode, payload), keys, old(drawn));
      if !ok { assert output == old(output) + []; }
    }

    /** The switch of ReadMessage, on a control frame: a reply for a ping or a close. */
    method HandleControl(f: R.Incoming, p: R.Partial) returns (stop: Option<Answer>)
      requires Valid() && |f.payload| <= WS.MAX_FRAME && IsControl(f)
      modifies this`output, this`torn, this`broken, this`budget, this`drawn
      ensures Valid()
      ensures var step := R.OnFrame(p, f);
              var sent := Sent(step, old(budget));
              var after := After(step, p, input, old(budget));
              Small(sent) && output == old(output) + ReplyFrames(sent, keys, old(drawn))
              && (match stop
                  case None =>
                    after == R.ReadMessage(input, p, budget) && Drew(old(drawn), old(budget), |sent|)
                  case Some(a) => after.replies == [] && a.Error? && Agrees(after.outcome, a, input))
    {
      stop := None;
      if f.opcode == WS.OP_PING {
        var ok := WriteReply(WS.OP_PONG, f.payload);
        if !ok { stop := Some(Error(R.ReplyFailed)); }
      } else if f.opcode == WS.OP_CLOSE {
        var _ := WriteReply(WS.OP_CLOSE, f.payload);
        stop := Some(Error(R.PeerClosed));
      } else {
        assert output == output + [];
      }
    }

    /** One turn of ReadMessage's loop: a frame read and handled. */
    method ReadOne(buf: bytes, msgOp: nat) returns (stop: Option<Answer>, buf': bytes, msgOp': nat, ghost sent: seq<R.Reply>)
      requires Valid()
      modifies this
      ensures Valid() && Small(sent) && output == old(output) + ReplyFrames(sent, keys, old(drawn))
      ensures var whole := R.ReadMessage(old(input), R.Partial(buf, msgOp), old(budget));
              match stop
              case None =>
                whole == Owed(sent, R.ReadMessage(input, R.Partial(buf', msgOp'), budget))
                && Drew(old(drawn), old(budget), |sent|) && |input| < |old(input)|
              case Some(a) =>
                whole.replies == sent && Agrees(whole.outcome, a, input)
                && (a.Data? ==> Drew(old(drawn), old(budget), |sent|))
    {
      buf', msgOp', sent := buf, msgOp, [];
      var f := ReadFrame();
      if !f.Frame? {
        stop := Some(Error(if f.Truncated? then R.EndOfStream else R.FrameTooLong(f.length)));
        return;
      }
      var g := R.Incoming(f.opcode, f.payload, f.fin);
      ghost var p, room := R.Partial(buf, msgOp), budget;
      ghost var step := R.OnFrame(p, g);
      FrameTurn(old(input), p, room, f);
      sent := Sent(step, room);
      if IsControl(g) {
        stop := HandleControl(g, R.Partial(buf, msgOp));
      } else {
        stop, buf', msgOp' := HandleData(g, buf, msgOp, input, room);
        assert output == output + [];
      }
      Settled(sent, After(step, p, input, room));
    }

    /** ReadMessage: the answer, the position it leaves the stream at and the
        replies it wrote are those of `Reassembly.ReadMessage`. */
    method ReadMessage() returns (answer: Answer)
      requires Valid()
      modifies this
      ensures Valid()
      ensures var r := R.ReadMessage(old(input), R.FRESH, old(budget));
              Small(r.replies) && output == old(output) + ReplyFrames(r.replies, keys, old(drawn))
              && Agrees(r.outcome, answer, input)
              && (answer.Data? ==> Drew(old(drawn), old(budget), |r.replies|))
    {
      var buf: bytes, msgOp: nat := [], 0;
      ghost var whole := R.ReadMessage(input, R.FRESH, budget);
      ghost var done: seq<R.Reply> := [];
      while true
        invariant Valid() && whole == Owed(done, R.ReadMessage(input, R.Partial(buf, msgOp), budget))
        invariant Small(done) && output == old(output) + ReplyFrames(done, keys, old(drawn))
        invariant Drew(old(drawn), old(budget), |done|)
        decreases |input|
      {
        ghost var was := output;
        var stop, buf', msgOp', sent := ReadOne(buf, msgOp);
        Advance(old(output), was, output, done, sent, keys, old(drawn));
        if stop.Some? { return stop.value; }
        OwedTwice(done, sent, R.ReadMessage(input, R.Partial(buf', msgOp'), budget));
        done := done + sent;
        buf, msgOp := buf', msgOp';
      }
    }

    /** readLoop's reading: message after message until one fails. */
    method ReadLoop() returns (messages: seq<bytes>, end: R.ReadError)
      requires Valid()
      modifies this
      ensures Valid()
      ensures var all := L.ReadAll(old(input), old(budget));
              messages == all.messages && end == all.end
              && Small(all.replies) && output == old(output) + ReplyFrames(all.replies, keys, old(drawn))
    {
      messages := [];
      ghost var done: seq<R.Reply> := [];
      L.NothingAhead(L.ReadAll(input, budget));
      while true
        invariant Valid() && Small(done) && output == old(output) + ReplyFrames(done, keys, old(drawn))
        invariant Drew(old(drawn), old(budget), |done|)
        invariant L.ReadAll(old(input), old(budget)) == L.Ahead(messages, done, L.ReadAll(input, budget))
        decreases |input|
      {
        ghost var was, s, room := output, input, budget;
        var answer := ReadMessage();
        ghost var sent := R.ReadMessage(s, R.FRESH, room).replies;
        Advance(old(output), was, output, done, sent, keys, old(drawn));
        if answer.Error? {
          L.NoneAhead(s, room, messages, done);
          end := answer.e;
          return;
        }
        L.MessageAhead(s, room, answer.data, sent, input);
        L.AheadTwice(messages, done, [answer.data], sent, L.ReadAll(input, budget));
        messages := messages + [answer.data];
        done := done + sent;
      }
    }
  }

  lemma OwedTwice(a: seq<R.Reply>, b: seq<R.Reply>, r: R.Reading)
    ensures Owed(a, Owed(b, r)) == Owed(a + b, r)
  {
    Assoc(a, b, r.replies);
  }

  /** Output accumulates: replies already out, then the ones just sent. */
  lemma Advance(base: seq<bytes>, was: seq<bytes>, now: seq<bytes>,
                done: seq<R.Reply>, sent: seq<R.Reply>, keys: nat -> bytes, n: nat)
    requires (forall i: nat :: |keys(i)| == 4) && Small(done) && Small(sent)
    requires was == base + ReplyFrames(done, keys, n) && now == was + ReplyFrames(sent, keys, n + |done|)
    ensures Small(done + sent) && now == base + ReplyFrames(done + sent, keys, n)
  {
    ReplyFramesAppend(done, sent, keys, n);
    Assoc(base, ReplyFrames(done, keys, n), ReplyFrames(sent, keys, n + |done|));
  }
}
