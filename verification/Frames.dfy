/** One protocol line of the inbox (udsmsg/frame.go): the frame, its JSON and
    the cap both sides apply. */
module Frames {
  import opened Bytes
  import opened Utf8
  import opened JsonText
  import opened Json

  const MAX_LINE: nat := 0x10_0000

  const TYPE_AUTH := Lit("auth")
  const TYPE_USER := Lit("user")
  const PROMPTING := Lit("prompting")

  datatype UserMessage = UserMessage(role: bytes, content: bytes)

  datatype Frame = Frame(
    msgV: nat, kind: bytes, msgID: bytes, from: bytes, fromMode: bytes, priority: bytes,
    token: bytes, message: Option<UserMessage>)

  const EMPTY := Frame(0, [], [], [], [], [], [], None)

  const K_MSGV := Lit("msgV")
  const K_TYPE := Lit("type")
  const K_MSGID := Lit("msg_id")
  const K_FROM := Lit("from")
  const K_FROM_MODE := Lit("from_mode")
  const K_PRIORITY := Lit("priority")
  const K_TOKEN := Lit("token")
  const K_MESSAGE := Lit("message")
  const K_ROLE := Lit("role")
  const K_CONTENT := Lit("content")

  // ---------------------------------------------------------------- printing

  /** A field tagged omitempty. */
  function Field(key: bytes, s: bytes): seq<Member> {
    if s == [] then [] else [Member(key, Str(s))]
  }

  function MessageMembers(m: UserMessage): seq<Member> {
    [Member(K_ROLE, Str(m.role)), Member(K_CONTENT, Str(m.content))]
  }

  function VersionField(n: nat): seq<Member> {
    if n == 0 then [] else [Member(K_MSGV, Num(n))]
  }

  function MessageField(m: Option<UserMessage>): seq<Member> {
    match m case None => [] case Some(u) => [Member(K_MESSAGE, Obj(MessageMembers(u)))]
  }

  function Members(f: Frame): seq<Member> {
    VersionField(f.msgV) + [Member(K_TYPE, Str(f.kind))] + Field(K_MSGID, f.msgID) + Field(K_FROM, f.from) +
    Field(K_FROM_MODE, f.fromMode) + Field(K_PRIORITY, f.priority) + Field(K_TOKEN, f.token) + MessageField(f.message)
  }

  /** json.Marshal of a frame. */
  function Marshal(f: Frame): bytes { Json.Print(Obj(Members(f))) }

  /** encodeFrame: the newline-terminated line, or a refusal over the cap. */
  function EncodeFrame(f: Frame): (line: Option<bytes>)
    ensures line.Some? ==> 0 < |line.value| <= MAX_LINE && line.value[|line.value| - 1] == NEWLINE
  {
    var b := Marshal(f);
    if |b| + 1 > MAX_LINE then None else Some(b + [NEWLINE])
  }

  // ----------------------------------------------------------------- reading

  function SetMessageField(u: UserMessage, m: Member): Option<UserMessage> {
    if m.key == K_ROLE then (if m.v.Str? then Some(u.(role := m.v.s)) else None)
    else if m.key == K_CONTENT then (if m.v.Str? then Some(u.(content := m.v.s)) else None)
    else Some(u)
  }

  function SetMessageFields(u: UserMessage, ms: seq<Member>): Option<UserMessage>
    decreases |ms|
  {
    if ms == [] then Some(u)
    else match SetMessageField(u, ms[0])
      case None => None
      case Some(v) => SetMessageFields(v, ms[1..])
  }

  /** One member applied to the frame under construction. An unknown key is
      ignored; a known one of the wrong type fails the line. */
  function SetField(f: Frame, m: Member): Option<Frame> {
    if m.key == K_MSGV then (if m.v.Num? then Some(f.(msgV := m.v.n)) else None)
    else if m.key == K_TYPE then (if m.v.Str? then Some(f.(kind := m.v.s)) else None)
    else if m.key == K_MSGID then (if m.v.Str? then Some(f.(msgID := m.v.s)) else None)
    else if m.key == K_FROM then (if m.v.Str? then Some(f.(from := m.v.s)) else None)
    else if m.key == K_FROM_MODE then (if m.v.Str? then Some(f.(fromMode := m.v.s)) else None)
    else if m.key == K_PRIORITY then (if m.v.Str? then Some(f.(priority := m.v.s)) else None)
    else if m.key == K_TOKEN then (if m.v.Str? then Some(f.(token := m.v.s)) else None)
    else if m.key == K_MESSAGE then
      if !m.v.Obj? then None
      else match SetMessageFields(if f.message.Some? then f.message.value else UserMessage([], []), m.v.ms)
        case None => None
        case Some(u) => Some(f.(message := Some(u)))
    else Some(f)
  }

  function SetFields(f: Frame, ms: seq<Member>): Option<Frame>
    decreases |ms|
  {
    if ms == [] then Some(f)
    else match SetField(f, ms[0])
      case None => None
      case Some(g) => SetFields(g, ms[1..])
  }

  /** decodeFrame on the lines this model reads: one object and nothing after it. */
  function DecodeFrame(line: bytes): Option<Frame> {
    match Parse(line)
    case None => None
    case Some(p) => if p.v.Obj? && p.rest == [] then SetFields(EMPTY, p.v.ms) else None
  }

  // ---------------------------------------------------------------- theorems

  lemma KeysDiffer()
    ensures K_MSGV != K_TYPE && K_MSGV != K_FROM && K_TYPE != K_FROM
  {
    assert K_MSGV[0] == 109 && K_TYPE[0] == 116 && K_FROM[0] == 102;
  }

  lemma {:induction false} SetFieldsAppend(f: Frame, a: seq<Member>, b: seq<Member>)
    ensures SetFields(f, a + b) == match SetFields(f, a) case None => None case Some(g) => SetFields(g, b)
    decreases |a|
  {
    if a == [] {
      assert a + b == b;
    } else {
      assert (a + b)[1..] == a[1..] + b;
      match SetField(f, a[0])
      case None =>
      case Some(g) => SetFieldsAppend(g, a[1..], b);
    }
  }

  lemma SetOne(f: Frame, m: Member)
    ensures SetFields(f, [m]) == SetField(f, m)
  {
    assert [m][1..] == [];
  }

  lemma SetMessage(u: UserMessage, v: UserMessage)
    ensures SetMessageFields(u, MessageMembers(v)) == Some(v)
  {
    var ms := MessageMembers(v);
    assert ms[1..] == [ms[1]] && ms[1..][1..] == [];
    assert |K_ROLE| != |K_CONTENT|;
    assert SetMessageField(u, ms[0]) == Some(u.(role := v.role));
    assert SetMessageField(u.(role := v.role), ms[1]) == Some(v);
    assert SetMessageFields(v, []) == Some(v);
    assert SetMessageFields(u.(role := v.role), [ms[1]]) == Some(v);
  }

  /** Reading the members of a frame rebuilds it. */
  lemma MembersRebuild(f: Frame)
    ensures SetFields(EMPTY, Members(f)) == Some(f)
  {
    KeysDiffer();
    var f1 := EMPTY.(msgV := f.msgV);
    var m1 := VersionField(f.msgV);
    assert SetFields(EMPTY, m1) == Some(f1) by { SetOne(EMPTY, Member(K_MSGV, Num(f.msgV))); }
    var f2 := f1.(kind := f.kind);
    var m2 := m1 + [Member(K_TYPE, Str(f.kind))];
    AddField(EMPTY, m1, f1, [Member(K_TYPE, Str(f.kind))], f2) by { SetOne(f1, Member(K_TYPE, Str(f.kind))); }
    var f3 := f2.(msgID := f.msgID);
    var m3 := m2 + Field(K_MSGID, f.msgID);
    AddField(EMPTY, m2, f2, Field(K_MSGID, f.msgID), f3) by { SetOne(f2, Member(K_MSGID, Str(f.msgID))); }
    var f4 := f3.(from := f.from);
    var m4 := m3 + Field(K_FROM, f.from);
    AddField(EMPTY, m3, f3, Field(K_FROM, f.from), f4) by { SetOne(f3, Member(K_FROM, Str(f.from))); }
    var f5 := f4.(fromMode := f.fromMode);
    var m5 := m4 + Field(K_FROM_MODE, f.fromMode);
    AddField(EMPTY, m4, f4, Field(K_FROM_MODE, f.fromMode), f5) by { SetOne(f4, Member(K_FROM_MODE, Str(f.fromMode))); }
    var f6 := f5.(priority := f.priority);
    var m6 := m5 + Field(K_PRIORITY, f.priority);
    AddField(EMPTY, m5, f5, Field(K_PRIORITY, f.priority), f6) by { SetOne(f5, Member(K_PRIORITY, Str(f.priority))); }
    var f7 := f6.(token := f.token);
    var m7 := m6 + Field(K_TOKEN, f.token);
    AddField(EMPTY, m6, f6, Field(K_TOKEN, f.token), f7) by { SetOne(f6, Member(K_TOKEN, Str(f.token))); }
    AddField(EMPTY, m7, f7, MessageField(f.message), f) by {
      if f.message.Some? {
        SetMessage(UserMessage([], []), f.message.value);
        SetOne(f7, Member(K_MESSAGE, Obj(MessageMembers(f.message.value))));
      }
    }
  }

  lemma AddField(f: Frame, a: seq<Member>, g: Frame, b: seq<Member>, h: Frame)
    requires SetFields(f, a) == Some(g) && SetFields(g, b) == Some(h)
    ensures SetFields(f, a + b) == Some(h)
  {
    SetFieldsAppend(f, a, b);
  }

  function CleanMessage(m: Option<UserMessage>): Option<UserMessage> {
    match m case None => None case Some(u) => Some(UserMessage(Sanitize(u.role), Sanitize(u.content)))
  }

  /** The frame with every string sanitized. */
  function CleanFrame(f: Frame): Frame {
    Frame(f.msgV, Sanitize(f.kind), Sanitize(f.msgID), Sanitize(f.from), Sanitize(f.fromMode),
          Sanitize(f.priority), Sanitize(f.token), CleanMessage(f.message))
  }

  lemma KeysAscii()
    ensures Ascii(K_MSGV) && Ascii(K_TYPE) && Ascii(K_MSGID) && Ascii(K_FROM) && Ascii(K_FROM_MODE)
    ensures Ascii(K_PRIORITY) && Ascii(K_TOKEN) && Ascii(K_MESSAGE) && Ascii(K_ROLE) && Ascii(K_CONTENT)
  {
    LitAscii("msgV");
    LitAscii("type");
    LitAscii("msg_id");
    LitAscii("from");
    LitAscii("from_mode");
    LitAscii("priority");
    LitAscii("token");
    LitAscii("message");
    LitAscii("role");
    LitAscii("content");
  }

  lemma LitAscii(s: string)
    requires forall i :: 0 <= i < |s| ==> s[i] < '\U{80}'
    ensures Ascii(Lit(s))
  {
  }

  lemma SanitizeAscii(s: bytes)
    requires Ascii(s)
    ensures Sanitize(s) == s
  {
    AsciiValid(s);
    SanitizeFixes(s);
  }

  lemma CleanOne(key: bytes, v: Value)
    requires Ascii(key)
    ensures CleanMembers([Member(key, v)]) == [Member(key, Clean(v))]
  {
    SanitizeAscii(key);
    assert [Member(key, v)][1..] == [];
  }

  lemma CleanField(key: bytes, s: bytes)
    requires Ascii(key)
    ensures CleanMembers(Field(key, s)) == Field(key, Sanitize(s))
  {
    SanitizeLength(s);
    CleanOne(key, Str(s));
  }

  lemma CleanMessageMembers(u: UserMessage)
    ensures CleanMembers(MessageMembers(u)) == MessageMembers(UserMessage(Sanitize(u.role), Sanitize(u.content)))
  {
    var a, b := [Member(K_ROLE, Str(u.role))], [Member(K_CONTENT, Str(u.content))];
    KeysAscii();
    CleanOne(K_ROLE, Str(u.role));
    CleanOne(K_CONTENT, Str(u.content));
    CleanAppend(a, b);
    assert MessageMembers(u) == a + b;
  }

  lemma CleanMessageField(m: Option<UserMessage>)
    ensures CleanMembers(MessageField(m)) == MessageField(CleanMessage(m))
  {
    if m.Some? {
      var ms := MessageMembers(m.value);
      CleanMessageMembers(m.value);
      assert Clean(Obj(ms)) == Obj(CleanMembers(ms));
      assert CleanMembers([Member(K_MESSAGE, Obj(ms))]) == [Member(K_MESSAGE, Clean(Obj(ms)))] by {
        KeysAscii();
        CleanOne(K_MESSAGE, Obj(ms));
      }
    }
  }

  lemma CleanVersion(n: nat)
    ensures CleanMembers(VersionField(n)) == VersionField(n)
  {
    if n != 0 {
      KeysAscii();
      CleanOne(K_MSGV, Num(n));
    }
  }

  lemma CleanFour(a: seq<Member>, b: seq<Member>, c: seq<Member>, d: seq<Member>)
    ensures CleanMembers(a + b + c + d) == CleanMembers(a) + CleanMembers(b) + CleanMembers(c) + CleanMembers(d)
  {
    CleanAppend(a + b + c, d);
    CleanAppend(a + b, c);
    CleanAppend(a, b);
  }

  lemma CleanFrameMembers(f: Frame)
    ensures CleanMembers(Members(f)) == Members(CleanFrame(f))
  {
    var b := [Member(K_TYPE, Str(f.kind))];
    var c, d := Field(K_MSGID, f.msgID), Field(K_FROM, f.from);
    var e, g, h := Field(K_FROM_MODE, f.fromMode), Field(K_PRIORITY, f.priority), Field(K_TOKEN, f.token);
    var front := VersionField(f.msgV) + b + c + d;
    CleanFour(VersionField(f.msgV), b, c, d);
    CleanFour(front, e, g, h);
    CleanAppend(front + e + g + h, MessageField(f.message));
    CleanVersion(f.msgV);
    CleanMessageField(f.message);
    assert CleanMembers(b) == [Member(K_TYPE, Str(Sanitize(f.kind)))]
        && CleanMembers(c) == Field(K_MSGID, Sanitize(f.msgID)) && CleanMembers(d) == Field(K_FROM, Sanitize(f.from))
        && CleanMembers(e) == Field(K_FROM_MODE, Sanitize(f.fromMode))
        && CleanMembers(g) == Field(K_PRIORITY, Sanitize(f.priority))
        && CleanMembers(h) == Field(K_TOKEN, Sanitize(f.token)) by
    {
      KeysAscii();
      CleanOne(K_TYPE, Str(f.kind));
      CleanField(K_MSGID, f.msgID);
      CleanField(K_FROM, f.from);
      CleanField(K_FROM_MODE, f.fromMode);
      CleanField(K_PRIORITY, f.priority);
      CleanField(K_TOKEN, f.token);
    }
  }

  lemma DecodePrinted(ms: seq<Member>)
    ensures DecodeFrame(Json.Print(Obj(ms))) == SetFields(EMPTY, CleanMembers(ms))
  {
    var v := Obj(ms);
    var s := Json.Print(v);
    assert Clean(v) == Obj(CleanMembers(ms));
    ParsePrinted(v, []);
    assert s + [] == s;
  }

  /** Every frame reads back as itself with its strings sanitized. */
  lemma FrameRoundTrip(f: Frame)
    ensures DecodeFrame(Marshal(f)) == Some(CleanFrame(f))
  {
    DecodePrinted(Members(f));
    CleanFrameMembers(f);
    MembersRebuild(CleanFrame(f));
  }

  predicate ValidText(f: Frame) {
    Valid(f.kind) && Valid(f.msgID) && Valid(f.from) && Valid(f.fromMode) && Valid(f.priority) && Valid(f.token) &&
    (f.message.Some? ==> Valid(f.message.value.role) && Valid(f.message.value.content))
  }

  /** A frame of valid UTF-8 reads back exactly. */
  lemma ValidFrameRoundTrip(f: Frame)
    requires ValidText(f)
    ensures DecodeFrame(Marshal(f)) == Some(f)
  {
    FrameRoundTrip(f);
    SanitizeFixes(f.kind);
    SanitizeFixes(f.msgID);
    SanitizeFixes(f.from);
    SanitizeFixes(f.fromMode);
    SanitizeFixes(f.priority);
    SanitizeFixes(f.token);
    if f.message.Some? {
      SanitizeFixes(f.message.value.role);
      SanitizeFixes(f.message.value.content);
    }
  }

  /** A line is one line: the printed frame holds no newline and is never empty. */
  lemma MarshalIsOneLine(f: Frame)
    ensures NEWLINE !in Marshal(f) && |Marshal(f)| > 0
  {
    PrintPrintable(Obj(Members(f)));
  }

  // ------------------------------------------------- members in any order

  /** The last member under a key is the one that counts; earlier ones are overwritten. */
  function LastOf(ms: seq<Member>, key: bytes): Option<Value>
    decreases |ms|
  {
    if ms == [] then None
    else if ms[|ms| - 1].key == key then Some(ms[|ms| - 1].v)
    else LastOf(ms[..|ms| - 1], key)
  }

  predicate TextKey(key: bytes) {
    key == K_TYPE || key == K_MSGID || key == K_FROM || key == K_FROM_MODE || key == K_PRIORITY || key == K_TOKEN
  }

  /** A member the frame can take: the right type under a key it knows, anything under any other. */
  predicate Takes(m: Member) {
    (m.key == K_MSGV ==> m.v.Num?) && (TextKey(m.key) ==> m.v.Str?) &&
    (m.key == K_MESSAGE ==> m.v.Obj? && forall i :: 0 <= i < |m.v.ms| ==> TakesMessage(m.v.ms[i]))
  }

  predicate TakesMessage(m: Member) { m.key == K_ROLE || m.key == K_CONTENT ==> m.v.Str? }

  lemma AllKeysDiffer()
    ensures K_MSGV != K_TYPE && K_MSGV != K_FROM && K_TYPE != K_FROM && |K_MSGV| == |K_TYPE| == |K_FROM| == 4
    ensures |K_MSGID| == 6 && |K_FROM_MODE| == 9 && |K_PRIORITY| == 8 && |K_TOKEN| == 5 && |K_MESSAGE| == 7
    ensures |K_ROLE| != |K_CONTENT|
  {
    KeysDiffer();
  }

  function TextOr(v: Option<Value>, unset: bytes): bytes { if v.Some? && v.value.Str? then v.value.s else unset }

  /** A frame's fields after its members, each under its own key. */
  predicate Reads(ms: seq<Member>, f: Frame, g: Frame) {
    && g.kind == TextOr(LastOf(ms, K_TYPE), f.kind) && g.msgID == TextOr(LastOf(ms, K_MSGID), f.msgID)
    && g.from == TextOr(LastOf(ms, K_FROM), f.from) && g.fromMode == TextOr(LastOf(ms, K_FROM_MODE), f.fromMode)
    && g.priority == TextOr(LastOf(ms, K_PRIORITY), f.priority) && g.token == TextOr(LastOf(ms, K_TOKEN), f.token)
    && g.msgV == (match LastOf(ms, K_MSGV) case Some(Num(n)) => n case _ => f.msgV)
    && (g.message.Some? <==> f.message.Some? || LastOf(ms, K_MESSAGE).Some?)
  }

  lemma {:induction false} MessageTaken(u: UserMessage, ms: seq<Member>)
    ensures SetMessageFields(u, ms).Some? <==> forall i :: 0 <= i < |ms| ==> TakesMessage(ms[i])
    decreases |ms|
  {
    if ms != [] && SetMessageField(u, ms[0]).Some? {
      MessageTaken(SetMessageField(u, ms[0]).value, ms[1..]);
      assert forall i :: 0 < i < |ms| ==> ms[i] == ms[1..][i - 1];
    }
  }

  lemma FieldTaken(f: Frame, m: Member)
    ensures SetField(f, m).Some? <==> Takes(m)
    ensures Takes(m) ==> Reads([m], f, SetField(f, m).value)
  {
    AllKeysDiffer();
    assert [m][..0] == [];
    if m.key == K_MESSAGE && m.v.Obj? {
      MessageTaken(if f.message.Some? then f.message.value else UserMessage([], []), m.v.ms);
    }
    forall key ensures LastOf([m], key) == if m.key == key then Some(m.v) else None { LastOfOne(m, key); }
  }

  lemma LastOfOne(m: Member, key: bytes)
    ensures LastOf([m], key) == if m.key == key then Some(m.v) else None
  {
    assert [m][..0] == [];
  }

  /** Members may come in any order and more than once, and any others with them: the
      line is read if and only if every member is of its key's type, and then each
      field is the last one under its key. */
  lemma {:induction false} FieldsExactly(f: Frame, ms: seq<Member>)
    ensures SetFields(f, ms).Some? <==> forall i :: 0 <= i < |ms| ==> Takes(ms[i])
    ensures SetFields(f, ms).Some? ==> Reads(ms, f, SetFields(f, ms).value)
    decreases |ms|
  {
    if ms != [] {
      var n := |ms| - 1;
      var front, m := ms[..n], ms[n];
      assert ms == front + [m];
      SetFieldsAppend(f, front, [m]);
      FieldsExactly(f, front);
      assert forall i :: 0 <= i < n ==> ms[i] == front[i];
      if SetFields(f, front).Some? {
        var g := SetFields(f, front).value;
        SetOne(g, m);
        FieldTaken(g, m);
        if Takes(m) { ReadsOn(front, m, ms, f, g, SetField(g, m).value); }
      }
    }
  }

  lemma ReadsOn(front: seq<Member>, m: Member, ms: seq<Member>, f: Frame, g: Frame, h: Frame)
    requires ms == front + [m] && Reads(front, f, g) && Reads([m], g, h) && Takes(m) && forall i :: 0 <= i < |front| ==> Takes(front[i])
    ensures Reads(ms, f, h)
  {
    assert ms[..|front|] == front;
    forall key ensures LastOf(ms, key) == if m.key == key then Some(m.v) else LastOf(front, key) { }
    forall key ensures LastOf([m], key) == if m.key == key then Some(m.v) else None { LastOfOne(m, key); }
  }

  function Lower(b: byte): byte { if 65 <= b <= 90 then b + 32 else b }

  /** Two ASCII keys that differ at most in case. */
  predicate FoldsTo(key: bytes, known: bytes) {
    |key| == |known| && forall i :: 0 <= i < |key| ==> Lower(key[i]) == Lower(known[i])
  }

  /** Spelled as the frame spells it, or not a spelling of it at all. */
  predicate Unfolded(key: bytes, known: bytes) { key == known || !FoldsTo(key, known) }

  /** No member's key is another spelling of one the frame knows. */
  predicate PlainKeys(ms: seq<Member>) {
    forall i :: 0 <= i < |ms| ==>
      var k := ms[i].key;
      Ascii(k) && Unfolded(k, K_MSGV) && Unfolded(k, K_TYPE) && Unfolded(k, K_MSGID) && Unfolded(k, K_FROM) && Unfolded(k, K_FROM_MODE)
      && Unfolded(k, K_PRIORITY) && Unfolded(k, K_TOKEN) && Unfolded(k, K_MESSAGE) && Unfolded(k, K_ROLE) && Unfolded(k, K_CONTENT)
      && (ms[i].v.Obj? ==> PlainKeys(ms[i].v.ms))
  }

  /** So on the wire: any object of plainly spelled members, each string sanitized. */
  lemma LineExactly(ms: seq<Member>)
    requires PlainKeys(ms)
    ensures var o := DecodeFrame(Json.Print(Obj(ms)));
            (o.Some? <==> forall i :: 0 <= i < |ms| ==> Takes(CleanMembers(ms)[i]))
            && (o.Some? ==> Reads(CleanMembers(ms), EMPTY, o.value))
  {
    DecodePrinted(ms);
    FieldsExactly(EMPTY, CleanMembers(ms));
  }

  /** A line with anything but white space after its object is refused. */
  lemma TrailingBytesRefused(f: Frame, t: bytes)
    requires t != [] && t[0] !in {9, 10, 13, 32}
    ensures DecodeFrame(Marshal(f) + t) == None
  {
    ParsePrinted(Obj(Members(f)), t);
  }
}
