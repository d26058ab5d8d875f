/** How long a line is (udsmsg/client.go, udsmsg/attrib.go): the escaped length of
    strings, and the exact size of any frame and any envelope. */
module Sizes {
  import opened Bytes
  import opened Frames
  import opened JsonText
  import opened Json
  import opened Delivery
  import Utf8
  import Envelope
  import Decimal

  /** The length of a string once escaped. */
  function E(s: bytes): nat { |Escape(s)| }

  // ------------------------------------------------------- escaped lengths

  lemma {:induction false} EscapeAfterValid(a: bytes, b: bytes)
    requires Utf8.Valid(a)
    ensures E(a + b) == E(a) + E(b)
    decreases |a|
  {
    if a == [] {
      assert a + b == b;
    } else {
      var w := Utf8.DecodeRune(a).width;
      var t := a[w..];
      Utf8.StepIsLocal(a, t + b);
      assert a + b == a[..w] + (t + b);
      assert (a + b)[w..] == t + b;
      assert EscapeFirst(a + b) == EscapeFirst(a) by { assert (a + b)[..w] == a[..w]; }
      EscapeAfterValid(t, b);
    }
  }

  lemma EscapeBeforeAscii(a: bytes, b: bytes)
    requires b == [] || b[0] < 0x80
    ensures E(a + b) == E(a) + E(b)
  {
    SplitBeforeAscii(a, b);
  }

  /** Six bytes per character, however many bytes the character took. */
  lemma {:induction false} EscapePerRune(s: bytes)
    ensures E(s) <= 6 * |Utf8.Runes(s)|
  {
    if s != [] { EscapePerRune(s[Utf8.DecodeRune(s).width..]); }
  }

  function Repeat(b: byte, k: nat): (s: bytes)
    ensures |s| == k && forall i :: 0 <= i < k ==> s[i] == b
  {
    seq(k, _ => b)
  }

  lemma {:induction false} EscapeRepeat(b: byte, k: nat)
    requires b < 0x80
    ensures E(Repeat(b, k)) == k * |EscapeAscii(b)|
  {
    if k > 0 {
      EscapeRepeat(b, k - 1);
      assert Repeat(b, k)[1..] == Repeat(b, k - 1);
    }
  }

  /** The factor six is attained, at every length. */
  lemma SixIsTight(k: nat)
    ensures E(Repeat(Envelope.LT, k)) == 6 * |Repeat(Envelope.LT, k)|
  {
    EscapeRepeat(Envelope.LT, k);
  }

  predicate PlainChar(c: char) { ' ' <= c < '\U{7F}' && c != '"' && c != '\\' && c != '<' && c != '>' && c != '&' }

  lemma LitPlain(s: string)
    requires forall i :: 0 <= i < |s| ==> PlainChar(s[i])
    ensures Plain(Lit(s)) && E(Lit(s)) == |s|
  {
    var b := Lit(s);
    forall i | 0 <= i < |b| ensures b[i] < 0x80 && EscapeAscii(b[i]) == [b[i]] { PlainByte(s[i]); }
    EscapePlain(b);
  }

  lemma PlainByte(c: char)
    requires PlainChar(c)
    ensures var b := c as int % 256; b < 0x80 && EscapeAscii(b) == [b]
  {
  }

  // ---------------------------------------------------------- object sizes

  /** What a member adds to its object: key, colon, value and one separator. */
  function MembersCost(ms: seq<Member>): nat {
    if ms == [] then 0 else E(ms[0].key) + 4 + |Print(ms[0].v)| + MembersCost(ms[1..])
  }

  lemma {:induction false} MembersSize(ms: seq<Member>)
    requires ms != []
    ensures |PrintMembers(ms)| + 1 == MembersCost(ms)
    decreases |ms|
  {
    if |ms| > 1 { MembersSize(ms[1..]); } else { assert MembersCost(ms[1..]) == 0; }
  }

  lemma {:induction false} CostAppend(a: seq<Member>, b: seq<Member>)
    ensures MembersCost(a + b) == MembersCost(a) + MembersCost(b)
    decreases |a|
  {
    if a == [] {
      assert a + b == b;
    } else {
      assert (a + b)[1..] == a[1..] + b;
      CostAppend(a[1..], b);
    }
  }

  lemma CostFour(a: seq<Member>, b: seq<Member>, c: seq<Member>, d: seq<Member>)
    ensures MembersCost(a + b + c + d) == MembersCost(a) + MembersCost(b) + MembersCost(c) + MembersCost(d)
  {
    CostAppend(a + b + c, d);
    CostAppend(a + b, c);
    CostAppend(a, b);
  }

  lemma CostOne(m: Member)
    ensures MembersCost([m]) == E(m.key) + 4 + |Print(m.v)|
  {
    assert [m][1..] == [];
  }

  function FieldCost(key: nat, s: bytes): nat { if s == [] then 0 else key + 6 + E(s) }

  lemma CostField(key: bytes, s: bytes)
    requires E(key) == |key|
    ensures MembersCost(Field(key, s)) == FieldCost(|key|, s)
  {
    if s != [] { CostOne(Member(key, Str(s))); }
  }

  // One literal at a time: a key escapes to itself.
  lemma PlainMsgV() ensures E(K_MSGV) == 4 { LitPlain("msgV"); }
  lemma PlainType() ensures E(K_TYPE) == 4 { LitPlain("type"); }
  lemma PlainMsgID() ensures E(K_MSGID) == 6 { LitPlain("msg_id"); }
  lemma PlainFrom() ensures E(K_FROM) == 4 { LitPlain("from"); }
  lemma PlainFromMode() ensures E(K_FROM_MODE) == 9 { LitPlain("from_mode"); }
  lemma PlainPriority() ensures E(K_PRIORITY) == 8 { LitPlain("priority"); }
  lemma PlainToken() ensures E(K_TOKEN) == 5 { LitPlain("token"); }
  lemma PlainMessage() ensures E(K_MESSAGE) == 7 { LitPlain("message"); }
  lemma PlainRole() ensures E(K_ROLE) == 4 { LitPlain("role"); }
  lemma PlainContent() ensures E(K_CONTENT) == 7 { LitPlain("content"); }

  lemma KeysPlain()
    ensures E(K_MSGV) == 4 && E(K_TYPE) == 4 && E(K_MSGID) == 6 && E(K_FROM) == 4 && E(K_FROM_MODE) == 9
    ensures E(K_PRIORITY) == 8 && E(K_TOKEN) == 5 && E(K_MESSAGE) == 7 && E(K_ROLE) == 4 && E(K_CONTENT) == 7
  {
    PlainMsgV();
    PlainType();
    PlainMsgID();
    PlainFrom();
    PlainFromMode();
    PlainPriority();
    PlainToken();
    PlainMessage();
    PlainRole();
    PlainContent();
  }

  lemma MessageMembersCost(u: UserMessage)
    ensures MembersCost(MessageMembers(u)) == 23 + E(u.role) + E(u.content)
  {
    var a, b := Member(K_ROLE, Str(u.role)), Member(K_CONTENT, Str(u.content));
    PlainRole();
    PlainContent();
    CostOne(a);
    CostOne(b);
    CostAppend([a], [b]);
    assert MessageMembers(u) == [a] + [b];
  }

  lemma CostMessage(u: UserMessage)
    ensures MembersCost(MessageField(Some(u))) == 35 + E(u.role) + E(u.content)
  {
    var ms := MessageMembers(u);
    assert MembersCost(ms) == 23 + E(u.role) + E(u.content) by { MessageMembersCost(u); }
    MembersSize(ms);
    PlainMessage();
    CostOne(Member(K_MESSAGE, Obj(ms)));
  }

  /** The members a frame's line is made of, each at its own cost. */
  function FrameCost(f: Frames.Frame): nat {
    (if f.msgV == 0 then 0 else 8 + |Decimal.PrintNat(f.msgV)|) + 10 + E(f.kind) + FieldCost(6, f.msgID) + FieldCost(4, f.from) +
    FieldCost(9, f.fromMode) + FieldCost(8, f.priority) + FieldCost(5, f.token) +
    (match f.message case None => 0 case Some(u) => 35 + E(u.role) + E(u.content))
  }

  lemma CostOfMembers(f: Frames.Frame)
    ensures MembersCost(Members(f)) == FrameCost(f)
  {
    var a, b := VersionField(f.msgV), [Member(K_TYPE, Str(f.kind))];
    var c, d := Field(K_MSGID, f.msgID), Field(K_FROM, f.from);
    var e, g, h := Field(K_FROM_MODE, f.fromMode), Field(K_PRIORITY, f.priority), Field(K_TOKEN, f.token);
    var front := a + b + c + d;
    CostFour(a, b, c, d);
    CostFour(front, e, g, h);
    CostAppend(front + e + g + h, MessageField(f.message));
    KeysPlain();
    CostOne(b[0]);
    CostOne(Member(K_MSGV, Num(f.msgV)));
    CostField(K_MSGID, f.msgID);
    CostField(K_FROM, f.from);
    CostField(K_FROM_MODE, f.fromMode);
    CostField(K_PRIORITY, f.priority);
    CostField(K_TOKEN, f.token);
    if f.message.Some? { CostMessage(f.message.value); }
  }

  /** The exact length of any frame's line. */
  lemma FrameSize(f: Frames.Frame)
    ensures LineSize(f) == FrameCost(f) + 2
  {
    MembersSize(Members(f));
    CostOfMembers(f);
  }

  // ---------------------------------------------------------- the envelope

  /** An angle bracket costs six, the rest of the tag one each. */
  lemma OpenTagSize(open: bytes, s: string)
    requires (forall i :: 0 <= i < |s| ==> PlainChar(s[i])) && open == [Envelope.LT] + Lit(s)
    ensures E(open) == 6 + |s|
  {
    LitPlain(s);
    EscapeOne(Envelope.LT);
    EscapeBeforeAscii([Envelope.LT], Lit(s));
  }

  lemma CloseTagSize(close: bytes, s: string)
    requires (forall i :: 0 <= i < |s| ==> PlainChar(s[i])) && close == [Envelope.LT] + Lit(s) + [Envelope.GT]
    ensures E(close) == 12 + |s|
  {
    OpenTagSize([Envelope.LT] + Lit(s), s);
    EscapeOne(Envelope.GT);
    EscapeBeforeAscii([Envelope.LT] + Lit(s), [Envelope.GT]);
  }

  lemma OpenSize() ensures E(Envelope.OPEN) == 27 { OpenTagSize(Envelope.OPEN, "cross-session-message"); }
  lemma CloseSize() ensures E(Envelope.CLOSE) == 34 { CloseTagSize(Envelope.CLOSE, "/cross-session-message"); }

  function AttrCost(key: nat, v: bytes): nat { if v == [] then 0 else key + 6 + E(v) }

  lemma EqualsQuote()
    ensures E([Envelope.EQUALS, Envelope.DQUOTE]) == 3
  {
    EscapeOne(Envelope.DQUOTE);
    EscapeOne(Envelope.EQUALS);
    assert [Envelope.EQUALS, Envelope.DQUOTE] == [Envelope.EQUALS] + [Envelope.DQUOTE];
    EscapeBeforeAscii([Envelope.EQUALS], [Envelope.DQUOTE]);
  }

  lemma AttrSize(k: bytes, v: bytes)
    requires Utf8.Ascii(k) && E(k) == |k| && Utf8.Valid(v)
    ensures E(Envelope.Attr(k, v)) == AttrCost(|k|, v)
  {
    if v != [] {
      var q, eq := [Envelope.DQUOTE], [Envelope.EQUALS, Envelope.DQUOTE];
      var head := [Envelope.SPACE] + k + eq;
      EscapeOne(Envelope.SPACE);
      EscapeOne(Envelope.DQUOTE);
      EqualsQuote();
      EscapeBeforeAscii([Envelope.SPACE], k);
      EscapeBeforeAscii([Envelope.SPACE] + k, eq);
      Utf8.AsciiValid(head);
      EscapeAfterValid(head, v);
      EscapeBeforeAscii(head + v, q);
    }
  }

  lemma PlainFromName() ensures E(Envelope.K_NAME) == 9 { LitPlain("from-name"); }
  lemma PlainFromModeAttr() ensures E(Envelope.K_MODE) == 9 { LitPlain("from-mode"); }
  lemma PlainPrompting() ensures E(PROMPTING) == 9 { LitPlain("prompting"); }
  lemma PlainUser() ensures E(TYPE_USER) == 4 { LitPlain("user"); }
  lemma PlainAuth() ensures E(TYPE_AUTH) == 4 { LitPlain("auth"); }
  lemma PlainNext() ensures E(NEXT) == 4 { LitPlain("next"); }
  lemma PlainScheme() ensures E(UDS) == 4 { LitPlain("uds:"); }
  lemma PlainCursor() ensures E(CURSOR) == 8 { LitPlain("cursor: "); }
  lemma PlainNoCursor() ensures E(NO_CURSOR) == 44 { LitPlain("no cursor: this message cannot be re-fetched"); }

  lemma AttrsSize(n: Envelope.CrossSession)
    requires Utf8.Valid(n.from) && Utf8.Valid(n.name) && Utf8.Valid(n.mode)
    ensures E(Envelope.Attrs(n)) == AttrCost(4, n.from) + AttrCost(9, n.name) + AttrCost(9, n.mode)
  {
    AttrKeysAscii();
    PlainFrom();
    PlainFromName();
    PlainFromModeAttr();
    AttrSize(Envelope.K_FROM, n.from);
    AttrSize(Envelope.K_NAME, n.name);
    AttrSize(Envelope.K_MODE, n.mode);
    var a, b, c := Envelope.Attr(Envelope.K_FROM, n.from), Envelope.Attr(Envelope.K_NAME, n.name), Envelope.Attr(Envelope.K_MODE, n.mode);
    EscapeBeforeAscii(a, b);
    EscapeBeforeAscii(a + b, c);
  }

  lemma AttrKeysAscii()
    ensures Utf8.Ascii(Envelope.K_FROM) && Utf8.Ascii(Envelope.K_NAME) && Utf8.Ascii(Envelope.K_MODE)
  {
    LitAscii("from");
    LitAscii("from-name");
    LitAscii("from-mode");
  }

  lemma AroundSize(open: bytes, attrs: bytes, text: bytes, close: bytes)
    requires Utf8.Ascii(open) && Utf8.Valid(attrs) && Utf8.Ascii(close)
    ensures E(open + attrs + [Envelope.GT, NEWLINE] + text + [NEWLINE] + close)
         == E(open) + E(attrs) + 8 + E(text) + 2 + E(close)
  {
    var mid := [Envelope.GT, NEWLINE];
    var tag := open + attrs + mid;
    EscapeOne(Envelope.GT);
    EscapeOne(NEWLINE);
    assert mid == [Envelope.GT] + [NEWLINE];
    EscapeBeforeAscii([Envelope.GT], [NEWLINE]);
    Utf8.AsciiValid(open);
    EscapeAfterValid(open, attrs);
    EscapeBeforeAscii(open + attrs, mid);
    TagValid(open, attrs);
    EscapeAfterValid(tag, text);
    EscapeBeforeAscii(tag + text, [NEWLINE]);
    EscapeBeforeAscii(tag + text + [NEWLINE], close);
  }

  /** What the envelope adds to a text, escaped. */
  function EnvelopeCost(cs: Envelope.CrossSession): nat {
    71 + (if Envelope.FromOk(cs.from) then 10 + |cs.from| else 0) +
    (if Envelope.Scrub(cs.name) == [] then 0 else 15 + E(Envelope.Scrub(cs.name))) +
    (if cs.mode == PROMPTING then 24 else 0)
  }

  lemma AddressPlain(from: bytes)
    requires Envelope.FromOk(from)
    ensures E(from) == |from|
  {
    EscapePlain(from);
  }

  lemma NormalCost(cs: Envelope.CrossSession)
    ensures var n := Envelope.Normal(cs);
            AttrCost(4, n.from) + AttrCost(9, n.name) + AttrCost(9, n.mode) + 71 == EnvelopeCost(cs)
  {
    PlainPrompting();
    if Envelope.FromOk(cs.from) { AddressPlain(cs.from); }
  }

  lemma WrapSize(cs: Envelope.CrossSession, text: bytes)
    ensures E(Envelope.Wrap(cs, text)) == EnvelopeCost(cs) + E(text)
  {
    var n := Envelope.Normal(cs);
    var open, close, attrs := Envelope.OPEN, Envelope.CLOSE, Envelope.Attrs(n);
    NormalValid(cs);
    AttrsValid(n);
    AttrsSize(n);
    TagsAscii();
    AroundSize(open, attrs, text, close);
    OpenSize();
    CloseSize();
    NormalCost(cs);
  }
}
