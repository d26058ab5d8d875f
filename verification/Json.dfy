/** The JSON a frame is made of: strings, natural numbers and objects, printed
    compactly as encoding/json does and read back in any member order. */
module Json {
  import opened Bytes
  import opened Utf8
  import opened JsonText
  import Decimal

  datatype Value = Str(s: bytes) | Num(n: nat) | Obj(ms: seq<Member>)
  datatype Member = Member(key: bytes, v: Value)

  function Quote(s: bytes): bytes { [QUOTE] + Escape(s) + [QUOTE] }

  const OPEN_BRACE: byte := 123
  const CLOSE_BRACE: byte := 125
  const COLON: byte := 58
  const COMMA: byte := 44

  function Print(v: Value): bytes
    decreases v, 0
  {
    match v
    case Str(s) => Quote(s)
    case Num(n) => Decimal.PrintNat(n)
    case Obj(ms) => [OPEN_BRACE] + PrintMembers(ms) + [CLOSE_BRACE]
  }

  function PrintMembers(ms: seq<Member>): bytes
    decreases ms, 1
  {
    if ms == [] then []
    else
      Quote(ms[0].key) + [COLON] + Print(ms[0].v) +
      (if |ms| == 1 then [] else [COMMA] + PrintMembers(ms[1..]))
  }

  // ---------------------------------------------------------------- reading

  datatype Parsed = Parsed(v: Value, rest: bytes)
  datatype ParsedMembers = ParsedMembers(ms: seq<Member>, rest: bytes)

  function Parse(s: bytes): (p: Option<Parsed>)
    ensures p.Some? ==> |p.value.rest| < |s|
    decreases |s|, 0
  {
    if s == [] then None
    else if s[0] == QUOTE then
      match Unquote(s[1..])
      case None => None
      case Some(t) => Some(Parsed(Str(t.value), t.rest))
    else if Decimal.IsDigit(s[0]) then
      var k := Decimal.DigitRun(s);
      if s[0] == 48 && k > 1 then None
      else Some(Parsed(Num(Decimal.Value(s[..k])), s[k..]))
    else if s[0] == OPEN_BRACE then
      if |s| > 1 && s[1] == CLOSE_BRACE then Some(Parsed(Obj([]), s[2..]))
      else
        match ParseMembers(s[1..])
        case None => None
        case Some(m) => Some(Parsed(Obj(m.ms), m.rest))
    else None
  }

  /** Members up to and including the closing brace. */
  function ParseMembers(s: bytes): (p: Option<ParsedMembers>)
    ensures p.Some? ==> |p.value.rest| < |s|
    decreases |s|, 1
  {
    if s == [] || s[0] != QUOTE then None
    else
      match Unquote(s[1..])
      case None => None
      case Some(k) =>
        if k.rest == [] || k.rest[0] != COLON then None
        else
          match Parse(k.rest[1..])
          case None => None
          case Some(p) => Continue(Member(k.value, p.v), p.rest)
  }

  /** After one member: another one, or the end. */
  function Continue(m: Member, s: bytes): (p: Option<ParsedMembers>)
    ensures p.Some? ==> |p.value.rest| < |s|
    decreases |s|, 2
  {
    if s == [] then None
    else if s[0] == CLOSE_BRACE then Some(ParsedMembers([m], s[1..]))
    else if s[0] != COMMA then None
    else
      match ParseMembers(s[1..])
      case None => None
      case Some(q) => Some(ParsedMembers([m] + q.ms, q.rest))
  }

  // --------------------------------------------------------------- theorems

  /** A value with every string in it sanitized. */
  function Clean(v: Value): Value
    decreases v, 0
  {
    match v
    case Str(s) => Str(Sanitize(s))
    case Num(n) => Num(n)
    case Obj(ms) => Obj(CleanMembers(ms))
  }

  function CleanMembers(ms: seq<Member>): (r: seq<Member>)
    ensures |r| == |ms|
    decreases ms, 1
  {
    if ms == [] then [] else [Member(Sanitize(ms[0].key), Clean(ms[0].v))] + CleanMembers(ms[1..])
  }

  lemma {:induction false} CleanAppend(a: seq<Member>, b: seq<Member>)
    ensures CleanMembers(a + b) == CleanMembers(a) + CleanMembers(b)
    decreases |a|
  {
    if a == [] {
      assert a + b == b;
    } else {
      assert (a + b)[1..] == a[1..] + b;
      CleanAppend(a[1..], b);
    }
  }

  predicate EndsNumber(t: bytes) { t == [] || !Decimal.IsDigit(t[0]) }

  lemma {:induction false} NoLeadingZero(n: nat)
    ensures Decimal.PrintNat(n)[0] == 48 ==> n == 0
  {
    if n >= 10 { NoLeadingZero(n / 10); }
  }

  lemma UnquoteQuoted(s: bytes, t: bytes)
    ensures var q := Quote(s) + t; q[0] == QUOTE && Unquote(q[1..]) == Some(Text(Sanitize(s), t))
  {
    var q := Quote(s) + t;
    assert q[1..] == Escape(s) + [QUOTE] + t;
    QuoteRoundTrip(s, t);
  }

  lemma ParseNumber(n: nat, t: bytes)
    requires EndsNumber(t)
    ensures Parse(Decimal.PrintNat(n) + t) == Some(Parsed(Num(n), t))
  {
    var d := Decimal.PrintNat(n);
    var s := d + t;
    assert Decimal.IsDigit(d[0]) && s[0] == d[0];
    Decimal.DigitRunStops(d, t);
    Decimal.ValueInverts(n);
    NoLeadingZero(n);
    assert s[..|d|] == d && s[|d|..] == t;
  }

  /** Every value reads back, whatever follows it, with its strings sanitized;
      after a number that is anything but another digit. */
  lemma {:induction false} ParsePrinted(v: Value, t: bytes)
    requires v.Num? ==> EndsNumber(t)
    ensures Parse(Print(v) + t) == Some(Parsed(Clean(v), t))
    decreases v, 0
  {
    match v
    case Str(s) => UnquoteQuoted(s, t);
    case Num(n) => ParseNumber(n, t);
    case Obj(ms) =>
      var s := Print(v) + t;
      if ms == [] {
        assert Print(v) == [OPEN_BRACE, CLOSE_BRACE];
        assert s[2..] == t;
      } else {
        var u := PrintMembers(ms) + [CLOSE_BRACE] + t;
        assert s[0] == OPEN_BRACE && s[1..] == u by {
          Assoc([OPEN_BRACE], PrintMembers(ms), [CLOSE_BRACE]);
          Assoc([OPEN_BRACE], PrintMembers(ms) + [CLOSE_BRACE], t);
        }
        ParsePrintedMembers(ms, t);
        assert u[0] == QUOTE;
      }
  }

  lemma {:induction false} ParsePrintedMembers(ms: seq<Member>, t: bytes)
    requires ms != []
    ensures var u := PrintMembers(ms) + [CLOSE_BRACE] + t;
            u[0] == QUOTE && ParseMembers(u) == Some(ParsedMembers(CleanMembers(ms), t))
    decreases ms, 1
  {
    var m := ms[0];
    var tail := AfterFirst(ms, t);
    MembersShape(ms, t);
    ParsePrinted(m.v, tail);
    ReadMember(m.key, Print(m.v) + tail);
    if |ms| == 1 {
      assert CleanMembers(ms[1..]) == [];
      assert CleanMembers(ms) == [Member(Sanitize(m.key), Clean(m.v))];
      ContinueLast(Member(Sanitize(m.key), Clean(m.v)), t);
    } else {
      ParsePrintedMembers(ms[1..], t);
      ContinueMore(Member(Sanitize(m.key), Clean(m.v)), PrintMembers(ms[1..]) + [CLOSE_BRACE] + t);
    }
  }

  /** What follows the first member in a printed object. */
  function AfterFirst(ms: seq<Member>, t: bytes): (tail: bytes)
    requires ms != []
    ensures EndsNumber(tail)
  {
    if |ms| == 1 then [CLOSE_BRACE] + t else [COMMA] + (PrintMembers(ms[1..]) + [CLOSE_BRACE] + t)
  }

  lemma ContinueLast(m: Member, t: bytes)
    ensures Continue(m, [CLOSE_BRACE] + t) == Some(ParsedMembers([m], t))
  {
    assert ([CLOSE_BRACE] + t)[1..] == t;
  }

  lemma ContinueMore(m: Member, x: bytes)
    requires ParseMembers(x).Some?
    ensures Continue(m, [COMMA] + x) == Some(ParsedMembers([m] + ParseMembers(x).value.ms, ParseMembers(x).value.rest))
  {
    assert ([COMMA] + x)[1..] == x;
  }

  lemma ReadMember(key: bytes, x: bytes)
    requires Parse(x).Some?
    ensures var u := Quote(key) + ([COLON] + x);
            u[0] == QUOTE && ParseMembers(u) == Continue(Member(Sanitize(key), Parse(x).value.v), Parse(x).value.rest)
  {
    UnquoteQuoted(key, [COLON] + x);
    assert ([COLON] + x)[1..] == x;
  }

  lemma MembersShape(ms: seq<Member>, t: bytes)
    requires ms != []
    ensures PrintMembers(ms) + [CLOSE_BRACE] + t == Quote(ms[0].key) + ([COLON] + (Print(ms[0].v) + AfterFirst(ms, t)))
  {
    var q, p := Quote(ms[0].key), Print(ms[0].v);
    if |ms| == 1 {
      Regroup(q, p, [], t);
      assert [] + [CLOSE_BRACE] == [CLOSE_BRACE];
    } else {
      var more := PrintMembers(ms[1..]);
      Regroup(q, p, [COMMA] + more, t);
      Assoc([COMMA], more, [CLOSE_BRACE]);
      Assoc([COMMA], more + [CLOSE_BRACE], t);
    }
  }

  lemma Regroup(q: bytes, p: bytes, more: bytes, t: bytes)
    ensures q + [COLON] + p + more + [CLOSE_BRACE] + t == q + ([COLON] + (p + (more + [CLOSE_BRACE] + t)))
  {
  }

  /** No control character, and so no newline, is printed. */
  lemma {:induction false} PrintPrintable(v: Value)
    ensures Printable(Print(v))
    decreases v, 0
  {
    match v
    case Str(s) => EscapePrintable(s);
    case Num(n) =>
      forall i | 0 <= i < |Decimal.PrintNat(n)| ensures Decimal.PrintNat(n)[i] >= 32 {
        assert Decimal.IsDigit(Decimal.PrintNat(n)[i]);
      }
    case Obj(ms) => MembersPrintable(ms);
  }

  lemma {:induction false} MembersPrintable(ms: seq<Member>)
    ensures Printable(PrintMembers(ms))
    decreases ms, 1
  {
    if ms != [] {
      EscapePrintable(ms[0].key);
      PrintPrintable(ms[0].v);
      MembersPrintable(ms[1..]);
    }
  }
}
