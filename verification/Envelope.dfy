/** The attribution envelope (udsmsg/attrib.go): what Wrap renders, what the two
    patterns of Unwrap match, and that they undo each other. */
module Envelope {
  import opened Bytes
  import opened Utf8
  import Frames

  const OPEN := Lit("<cross-session-message")
  const CLOSE := Lit("</cross-session-message>")
  const K_FROM := Lit("from")
  const K_NAME := Lit("from-name")
  const K_MODE := Lit("from-mode")

  const SPACE: byte := 32
  const DQUOTE: byte := 34
  const EQUALS: byte := 61
  const LT: byte := 60
  const GT: byte := 62

  datatype CrossSession = CrossSession(from: bytes, name: bytes, mode: bytes)

  // --------------------------------------------------------------- the guards

  predicate AddressByte(b: byte) {
    65 <= b <= 90 || 97 <= b <= 122 || 48 <= b <= 58 || b == 95 || b == 47 || b == 46 || b == 45
  }

  /** fromRe: at most the scheme, its colon and the longest socket path. */
  predicate FromOk(s: bytes) {
    1 <= |s| <= 3 + 1 + 107 && forall i :: 0 <= i < |s| ==> AddressByte(s[i])
  }

  /** What scrubName keeps: no quote, no angle bracket, no control character. */
  predicate Kept(r: rune) {
    r != 34 && r != 60 && r != 62 && r >= 0x20 && !(0x7F <= r <= 0x9F)
  }

  /** unicode.IsSpace. */
  predicate IsSpace(r: rune) {
    9 <= r <= 13 || r == 32 || r == 0x85 || r == 0xA0 || r == 0x1680 || 0x2000 <= r <= 0x200A ||
    r == 0x2028 || r == 0x2029 || r == 0x202F || r == 0x205F || r == 0x3000
  }

  /** Unicode's White_Space property, all twenty-five characters of it. */
  lemma SpacesAre(r: rune)
    ensures IsSpace(r) <==>
            r in {0x9, 0xA, 0xB, 0xC, 0xD, 0x20, 0x85, 0xA0, 0x1680, 0x2000, 0x2001, 0x2002, 0x2003, 0x2004, 0x2005,
                  0x2006, 0x2007, 0x2008, 0x2009, 0x200A, 0x2028, 0x2029, 0x202F, 0x205F, 0x3000}
  {
  }

  function Keep(rs: seq<rune>): (ks: seq<rune>)
    ensures forall i :: 0 <= i < |ks| ==> Kept(ks[i])
  {
    if rs == [] then [] else (if Kept(rs[0]) then [rs[0]] else []) + Keep(rs[1..])
  }

  function TrimLeft(rs: seq<rune>): (t: seq<rune>)
    ensures |t| <= |rs| && t == rs[|rs| - |t|..]
    ensures t != [] ==> !IsSpace(t[0])
  {
    if rs == [] || !IsSpace(rs[0]) then rs else TrimLeft(rs[1..])
  }

  function TrimRight(rs: seq<rune>): (t: seq<rune>)
    ensures |t| <= |rs| && t == rs[..|t|]
    ensures t != [] ==> !IsSpace(t[|t| - 1])
    decreases |rs|
  {
    if rs == [] || !IsSpace(rs[|rs| - 1]) then rs else TrimRight(rs[..|rs| - 1])
  }

  /** strings.TrimSpace. */
  function Trim(rs: seq<rune>): seq<rune> { TrimRight(TrimLeft(rs)) }

  function Scrub(name: bytes): bytes { Encode(Trim(Keep(Runes(name)))) }

  // --------------------------------------------------------------------- Wrap

  function Attr(k: bytes, v: bytes): bytes {
    if v == [] then [] else [SPACE] + k + [EQUALS, DQUOTE] + v + [DQUOTE]
  }

  function SaidFrom(from: bytes): bytes { if FromOk(from) then from else [] }

  function SaidMode(mode: bytes): bytes { if mode == Frames.PROMPTING then mode else [] }

  /** What Wrap will actually say about the sender. */
  function Normal(cs: CrossSession): CrossSession {
    CrossSession(SaidFrom(cs.from), Scrub(cs.name), SaidMode(cs.mode))
  }

  function Attrs(n: CrossSession): bytes {
    Attr(K_FROM, n.from) + Attr(K_NAME, n.name) + Attr(K_MODE, n.mode)
  }

  function Wrap(cs: CrossSession, text: bytes): bytes {
    OPEN + Attrs(Normal(cs)) + [GT, NEWLINE] + text + [NEWLINE] + CLOSE
  }

  /** The bytes themselves: the attributes said, in the order a session sends them,
      then the text between its two newlines. */
  lemma WrapReads(cs: CrossSession, text: bytes)
    ensures var n := Normal(cs);
            Wrap(cs, text) ==
              OPEN
              + (if n.from == [] then [] else [32] + K_FROM + [61, 34] + n.from + [34])
              + (if n.name == [] then [] else [32] + K_NAME + [61, 34] + n.name + [34])
              + (if n.mode == [] then [] else [32] + K_MODE + [61, 34] + n.mode + [34])
              + [62, 10] + text + [10] + CLOSE
  {
    var n := Normal(cs);
    WrapPieces(OPEN, Attr(K_FROM, n.from), Attr(K_NAME, n.name), Attr(K_MODE, n.mode), text, CLOSE);
  }

  lemma WrapPieces(open: bytes, a: bytes, b: bytes, c: bytes, text: bytes, close: bytes)
    ensures open + (a + b + c) + [GT, NEWLINE] + text + [NEWLINE] + close
         == open + a + b + c + [62, 10] + text + [10] + close
  {
    assert open + (a + b + c) == open + a + b + c;
  }

  method AddAttr(b: bytes, k: bytes, v: bytes) returns (r: bytes)
    ensures r == b + Attr(k, v)
  {
    r := b;
    if v == [] { return; }
    r := r + [SPACE];
    r := r + k;
    r := r + [EQUALS, DQUOTE];
    r := r + v;
    r := r + [DQUOTE];
  }

  /** Wrap with its builder: attributes that fail their guard are left out. */
  method WrapBuilder(cs: CrossSession, text: bytes) returns (b: bytes)
    ensures b == Wrap(cs, text)
  {
    b := OPEN;
    ghost var n := Normal(cs);
    var f, m := if FromOk(cs.from) then cs.from else [], if cs.mode == Frames.PROMPTING then cs.mode else [];
    b := AddAttr(b, K_FROM, f);
    b := AddAttr(b, K_NAME, Scrub(cs.name));
    b := AddAttr(b, K_MODE, m);
    Assoc(OPEN, Attr(K_FROM, n.from), Attr(K_NAME, n.name));
    Assoc(OPEN, Attr(K_FROM, n.from) + Attr(K_NAME, n.name), Attr(K_MODE, n.mode));
    b := b + [GT, NEWLINE] + text + [NEWLINE] + CLOSE;
  }

  // ------------------------------------------------------------------- Unwrap

  predicate KeyByte(b: byte) { 97 <= b <= 122 || b == 45 }

  predicate WordByte(b: byte) { 48 <= b <= 57 || 65 <= b <= 90 || b == 95 || 97 <= b <= 122 }

  function KeyRun(s: bytes): (k: nat)
    ensures k <= |s| && (k < |s| ==> !KeyByte(s[k])) && forall i :: 0 <= i < k ==> KeyByte(s[i])
  {
    if s == [] || !KeyByte(s[0]) then 0 else 1 + KeyRun(s[1..])
  }

  datatype Match = Match(key: bytes, value: bytes)

  /** attrRe anchored at the front: the match, if there is one. */
  function MatchFront(s: bytes): (m: Option<Match>)
    ensures m.Some? ==> |m.value.key| > 0 && |m.value.key| + |m.value.value| + 3 <= |s|
  {
    var k := KeyRun(s);
    if k == 0 || |s| < k + 2 || s[k] != EQUALS || s[k + 1] != DQUOTE then None
    else
      var v := IndexOf(s[k + 2..], DQUOTE);
      if v == |s| - k - 2 then None else Some(Match(s[..k], s[k + 2..k + 2 + v]))
  }

  /** FindAllStringSubmatch: leftmost matches, left to right, not overlapping. */
  function FindAll(s: bytes): seq<Match>
    decreases |s|
  {
    if s == [] then []
    else match MatchFront(s)
      case None => FindAll(s[1..])
      case Some(m) => [m] + FindAll(s[|m.key| + |m.value| + 3..])
  }

  function Apply(cs: CrossSession, m: Match): CrossSession {
    if m.key == K_FROM then cs.(from := m.value)
    else if m.key == K_NAME then cs.(name := m.value)
    else if m.key == K_MODE then cs.(mode := m.value)
    else cs
  }

  function ApplyAll(cs: CrossSession, ms: seq<Match>): CrossSession
    decreases |ms|
  {
    if ms == [] then cs else ApplyAll(Apply(cs, ms[0]), ms[1..])
  }

  const NOBODY := CrossSession([], [], [])

  datatype Unwrapped = Unwrapped(cs: CrossSession, body: bytes, ok: bool)

  datatype Parts = Parts(attrs: bytes, body: bytes)

  predicate HasSuffix(s: bytes, t: bytes) { |t| <= |s| && s[|s| - |t|..] == t }

  /** wrapperRe: the open tag, everything up to its first '>', a newline, the
      body, and the close tag at the very end. */
  function MatchWhole(s: bytes): (p: Option<Parts>) {
    if !(OPEN <= s) then None
    else
      var r := s[|OPEN|..];
      var j := IndexOf(r, GT);
      if j == |r| || WordByte(r[0]) || j + 1 == |r| || r[j + 1] != NEWLINE then None
      else
        var b := r[j + 2..];
        if !HasSuffix(b, [NEWLINE] + CLOSE) then None
        else Some(Parts(r[..j], b[..|b| - |CLOSE| - 1]))
  }

  function Unwrap(content: bytes): Unwrapped {
    match MatchWhole(content)
    case None => Unwrapped(NOBODY, content, false)
    case Some(p) => Unwrapped(ApplyAll(NOBODY, FindAll(p.attrs)), p.body, true)
  }

  /** Unwrap with its attribute loop. */
  method UnwrapLoop(content: bytes) returns (cs: CrossSession, body: bytes, ok: bool)
    ensures Unwrapped(cs, body, ok) == Unwrap(content)
  {
    var m := MatchWhole(content);
    if m.None? { return NOBODY, content, false; }
    var found := FindAll(m.value.attrs);
    cs := NOBODY;
    for i := 0 to |found|
      invariant ApplyAll(cs, found[i..]) == ApplyAll(NOBODY, found)
    {
      assert found[i..][1..] == found[i + 1..];
      if found[i].key == K_FROM {
        cs := cs.(from := found[i].value);
      } else if found[i].key == K_NAME {
        cs := cs.(name := found[i].value);
      } else if found[i].key == K_MODE {
        cs := cs.(mode := found[i].value);
      }
    }
    body, ok := m.value.body, true;
  }

  // ---------------------------------------------------------------- scrubbing

  lemma {:induction false} KeepAll(rs: seq<rune>)
    requires forall i :: 0 <= i < |rs| ==> Kept(rs[i])
    ensures Keep(rs) == rs
  {
    if rs != [] { KeepAll(rs[1..]); }
  }

  lemma {:induction false} TrimKept(rs: seq<rune>)
    requires forall i :: 0 <= i < |rs| ==> Kept(rs[i])
    ensures forall i :: 0 <= i < |Trim(rs)| ==> Kept(Trim(rs)[i])
  {
    var l := TrimLeft(rs);
    var t := TrimRight(l);
    forall i | 0 <= i < |t| ensures Kept(t[i]) {
      assert t[i] == l[i] && l[i] == rs[|rs| - |l| + i];
    }
  }

  lemma {:induction false} TrimTwice(rs: seq<rune>)
    ensures Trim(Trim(rs)) == Trim(rs)
  {
    var l := TrimLeft(rs);
    var t := TrimRight(l);
    if t != [] { assert t[0] == l[0]; }
  }

  lemma ScrubIdempotent(name: bytes)
    ensures Scrub(Scrub(name)) == Scrub(name)
  {
    var ks := Keep(Runes(name));
    var t := Trim(ks);
    RunesOfEncode(t);
    TrimKept(ks);
    TrimTwice(ks);
    KeepAll(t);
  }

  /** What the source's comment says is removed: the double quote, the angle
      brackets, and the control characters, category Cc of Unicode. */
  predicate Forbidden(r: rune) {
    r == 34 || r == 60 || r == 62 || r <= 0x1F || 0x7F <= r <= 0x9F
  }

  /** Position j of the name survives: it is allowed, and neither a leading nor a
      trailing run of white space contains it once the forbidden ones are gone. */
  predicate Survives(rs: seq<rune>, j: nat) {
    j < |rs| && !Forbidden(rs[j])
    && (exists a :: 0 <= a <= j && Solid(rs[a]))
    && (exists b :: j <= b < |rs| && Solid(rs[b]))
  }

  predicate Solid(r: rune) { !Forbidden(r) && !IsSpace(r) }

  /** `at` lists positions of `rs` in order, and `ks` is what stands there. */
  ghost predicate Picks(ks: seq<rune>, rs: seq<rune>, at: seq<nat>) {
    |at| == |ks| && (forall i :: 0 <= i < |at| ==> at[i] < |rs| && ks[i] == rs[at[i]])
    && (forall i, k :: 0 <= i < k < |at| ==> at[i] < at[k])
  }

  function Later(at: seq<nat>): seq<nat> { seq(|at|, i requires 0 <= i < |at| => at[i] + 1) }

  lemma LaterPicks(ks: seq<rune>, rs: seq<rune>, at: seq<nat>)
    requires rs != [] && Picks(ks, rs[1..], at)
    ensures Picks(ks, rs, Later(at)) && Picks([rs[0]] + ks, rs, [0] + Later(at))
  {
    assert forall i :: 0 <= i < |at| ==> rs[at[i] + 1] == rs[1..][at[i]];
  }

  lemma LaterMember(at: seq<nat>, j: nat)
    ensures j in Later(at) <==> j > 0 && j - 1 in at
  {
    if j > 0 && j - 1 in at {
      var i :| 0 <= i < |at| && at[i] == j - 1;
      assert Later(at)[i] == j;
    }
  }

  /** Dropping what is forbidden leaves exactly the allowed positions, in order. */
  lemma {:induction false} KeepPicks(rs: seq<rune>) returns (at: seq<nat>)
    ensures Picks(Keep(rs), rs, at) && Allowed(rs, at)
  {
    at := [];
    if rs != [] {
      var rest := KeepPicks(rs[1..]);
      LaterPicks(Keep(rs[1..]), rs, rest);
      LaterAllowed(rs, rest);
      at := if Forbidden(rs[0]) then Later(rest) else [0] + Later(rest);
      KeepHead(rs);
    }
  }

  /** `at` lists the positions of what is allowed. */
  predicate Allowed(rs: seq<rune>, at: seq<nat>) { forall j :: 0 <= j < |rs| ==> (j in at <==> !Forbidden(rs[j])) }

  lemma KeepHead(rs: seq<rune>)
    requires rs != []
    ensures Keep(rs) == if Forbidden(rs[0]) then Keep(rs[1..]) else [rs[0]] + Keep(rs[1..])
  {
  }

  lemma LaterAllowed(rs: seq<rune>, rest: seq<nat>)
    requires rs != [] && Allowed(rs[1..], rest)
    ensures Allowed(rs, if Forbidden(rs[0]) then Later(rest) else [0] + Later(rest))
  {
    var at := if Forbidden(rs[0]) then Later(rest) else [0] + Later(rest);
    forall j | 0 <= j < |rs| ensures j in at <==> !Forbidden(rs[j]) {
      LaterMember(rest, j);
      if j > 0 { assert rs[j] == rs[1..][j - 1]; }
    }
  }

  /** Position `i` of `ks` lies between two solid ones. */
  predicate Inside(ks: seq<rune>, i: nat) {
    i < |ks| && (exists a :: 0 <= a <= i && !IsSpace(ks[a])) && (exists b :: i <= b < |ks| && !IsSpace(ks[b]))
  }

  /** White space up to `lo` and from `hi` on, and neither end of what is between. */
  predicate Stretch(ks: seq<rune>, lo: nat, hi: nat) {
    lo <= hi <= |ks| && (forall i :: 0 <= i < lo ==> IsSpace(ks[i])) && (forall i :: hi <= i < |ks| ==> IsSpace(ks[i]))
    && (lo < hi ==> !IsSpace(ks[lo]) && !IsSpace(ks[hi - 1]))
  }

  lemma StretchInside(ks: seq<rune>, lo: nat, hi: nat, i: nat)
    requires Stretch(ks, lo, hi) && i < |ks|
    ensures lo <= i < hi <==> Inside(ks, i)
  {
  }

  predicate Blanks(rs: seq<rune>) { forall i :: 0 <= i < |rs| ==> IsSpace(rs[i]) }

  lemma StretchOf(ks: seq<rune>, a: seq<rune>, t: seq<rune>, b: seq<rune>)
    requires ks == a + t + b && Blanks(a) && Blanks(b) && (t != [] ==> !IsSpace(t[0]) && !IsSpace(t[|t| - 1]))
    ensures Stretch(ks, |a|, |a| + |t|) && t == ks[|a|..|a| + |t|]
  {
    forall i | |a| + |t| <= i < |ks| ensures IsSpace(ks[i]) { assert ks[i] == b[i - |a| - |t|]; }
    forall i | 0 <= i < |a| ensures IsSpace(ks[i]) { assert ks[i] == a[i]; }
    forall i | 0 <= i < |t| ensures ks[|a| + i] == t[i] { }
  }

  lemma {:induction false} TrimmedLeft(ks: seq<rune>) returns (a: seq<rune>)
    ensures ks == a + TrimLeft(ks) && Blanks(a)
  {
    a := [];
    if ks == [] || !IsSpace(ks[0]) {
      assert [] + ks == ks;
    } else {
      var rest := TrimmedLeft(ks[1..]);
      assert TrimLeft(ks) == TrimLeft(ks[1..]);
      a := [ks[0]] + rest;
      BlankOn(ks[0], rest);
      FirstOn(ks, rest, TrimLeft(ks[1..]));
    }
  }

  lemma BlankOn(x: rune, rest: seq<rune>)
    requires IsSpace(x) && Blanks(rest)
    ensures Blanks([x] + rest) && Blanks(rest + [x])
  {
  }

  lemma FirstOn(ks: seq<rune>, rest: seq<rune>, t: seq<rune>)
    requires ks != [] && ks[1..] == rest + t
    ensures ks == [ks[0]] + rest + t
  {
  }

  lemma {:induction false} TrimmedRight(l: seq<rune>) returns (b: seq<rune>)
    ensures l == TrimRight(l) + b && Blanks(b)
    decreases |l|
  {
    b := [];
    if l == [] || !IsSpace(l[|l| - 1]) {
      assert l + [] == l;
    } else {
      var front, last := l[..|l| - 1], l[|l| - 1];
      var rest := TrimmedRight(front);
      assert TrimRight(l) == TrimRight(front);
      b := rest + [last];
      BlankOn(last, rest);
      LastOff(l, TrimRight(front), rest);
    }
  }

  lemma LastOff(l: seq<rune>, t: seq<rune>, rest: seq<rune>)
    requires l != [] && l[..|l| - 1] == t + rest
    ensures l == t + (rest + [l[|l| - 1]])
  {
  }

  /** Trimming leaves exactly the stretch between the first and the last solid one. */
  lemma TrimStretch(ks: seq<rune>) returns (lo: nat, hi: nat)
    ensures lo <= hi <= |ks| && Trim(ks) == ks[lo..hi]
    ensures forall i :: 0 <= i < |ks| ==> (lo <= i < hi <==> Inside(ks, i))
  {
    var a, t, b := TrimPieces(ks);
    lo, hi := |a|, |a| + |t|;
    StretchOf(ks, a, t, b);
    StretchInsides(ks, lo, hi);
  }

  lemma TrimPieces(ks: seq<rune>) returns (a: seq<rune>, t: seq<rune>, b: seq<rune>)
    ensures t == Trim(ks) && ks == a + t + b && Blanks(a) && Blanks(b)
    ensures t != [] ==> !IsSpace(t[0]) && !IsSpace(t[|t| - 1])
  {
    t := Trim(ks);
    a := TrimmedLeft(ks);
    b := TrimmedRight(TrimLeft(ks));
    Assoc(a, Trim(ks), b);
    TrimEnds(ks);
  }

  lemma StretchInsides(ks: seq<rune>, lo: nat, hi: nat)
    requires Stretch(ks, lo, hi)
    ensures forall i :: 0 <= i < |ks| ==> (lo <= i < hi <==> Inside(ks, i))
  {
    forall i | 0 <= i < |ks| ensures lo <= i < hi <==> Inside(ks, i) { StretchInside(ks, lo, hi, i); }
  }

  lemma StretchPicks(rs: seq<rune>, ks: seq<rune>, at: seq<nat>, lo: nat, hi: nat)
    requires Picks(ks, rs, at) && lo <= hi <= |ks|
    ensures Picks(ks[lo..hi], rs, at[lo..hi])
  {
  }

  /** A kept position is inside the stretch exactly when it survives. */
  lemma InsideSurvives(rs: seq<rune>, ks: seq<rune>, at: seq<nat>, i: nat)
    requires Picks(ks, rs, at) && i < |at| && Allowed(rs, at)
    ensures Inside(ks, i) <==> Survives(rs, at[i])
  {
    if Survives(rs, at[i]) { SurvivorInside(rs, ks, at, i); }
    if Inside(ks, i) { InsiderSurvives(rs, ks, at, i); }
  }

  lemma SurvivorInside(rs: seq<rune>, ks: seq<rune>, at: seq<nat>, i: nat)
    requires Picks(ks, rs, at) && i < |at| && Survives(rs, at[i]) && Allowed(rs, at)
    ensures Inside(ks, i)
  {
    var a :| 0 <= a <= at[i] && Solid(rs[a]);
    var b :| at[i] <= b < |rs| && Solid(rs[b]);
    var x :| 0 <= x < |at| && at[x] == a;
    var y :| 0 <= y < |at| && at[y] == b;
    assert x <= i && !IsSpace(ks[x]);
    assert i <= y && !IsSpace(ks[y]);
  }

  lemma InsiderSurvives(rs: seq<rune>, ks: seq<rune>, at: seq<nat>, i: nat)
    requires Picks(ks, rs, at) && i < |at| && Inside(ks, i) && Allowed(rs, at)
    ensures Survives(rs, at[i])
  {
    var a :| 0 <= a <= i && !IsSpace(ks[a]);
    var b :| i <= b < |ks| && !IsSpace(ks[b]);
    assert at[a] in at && at[i] in at && at[b] in at;
    assert at[a] <= at[i] && Solid(rs[at[a]]);
    assert at[i] <= at[b] && Solid(rs[at[b]]);
  }

  /** For every name: what is left is exactly the surviving characters, in order. */
  lemma ScrubExactly(name: bytes) returns (at: seq<nat>)
    ensures Picks(Runes(Scrub(name)), Runes(name), at)
    ensures forall j: nat :: j < |Runes(name)| ==> (j in at <==> Survives(Runes(name), j))
  {
    var rs := Runes(name);
    var ks := Keep(rs);
    var all := KeepPicks(rs);
    var lo, hi := TrimStretch(ks);
    RunesOfEncode(Trim(ks));
    StretchPicks(rs, ks, all, lo, hi);
    at := all[lo..hi];
    forall j: nat | j < |rs| ensures j in at <==> Survives(rs, j) {
      if j in all {
        var i :| 0 <= i < |all| && all[i] == j;
        InsideSurvives(rs, ks, all, i);
        StretchMember(all, lo, hi, i);
      } else {
        NotInStretch(all, lo, hi, j);
      }
    }
  }

  lemma StretchMember(all: seq<nat>, lo: nat, hi: nat, i: nat)
    requires lo <= hi <= |all| && i < |all| && forall k, m :: 0 <= k < m < |all| ==> all[k] < all[m]
    ensures all[i] in all[lo..hi] <==> lo <= i < hi
  {
    if lo <= i < hi { assert all[lo..hi][i - lo] == all[i]; }
  }

  lemma NotInStretch(all: seq<nat>, lo: nat, hi: nat, j: nat)
    requires lo <= hi <= |all| && j !in all
    ensures j !in all[lo..hi]
  {
  }

  /** A name is its own scrub exactly when it is valid UTF-8, holds nothing
      forbidden, and neither begins nor ends with white space. */
  lemma ScrubSame(name: bytes)
    ensures var rs := Runes(name);
            Scrub(name) == name <==>
              Valid(name) && (forall i :: 0 <= i < |rs| ==> !Forbidden(rs[i]))
              && (rs != [] ==> !IsSpace(rs[0]) && !IsSpace(rs[|rs| - 1]))
  {
    var rs := Runes(name);
    ScrubFixed(name, rs, Trim(Keep(rs)));
    if forall i :: 0 <= i < |rs| ==> !Forbidden(rs[i]) {
      KeepAll(rs);
      if rs != [] && !IsSpace(rs[0]) && !IsSpace(rs[|rs| - 1]) { NothingTrimmed(rs); }
    }
    CleanlyTrimmed(Keep(rs), Trim(Keep(rs)));
  }

  lemma ScrubFixed(name: bytes, rs: seq<rune>, t: seq<rune>)
    requires rs == Runes(name) && Scrub(name) == Encode(t)
    ensures Scrub(name) == name <==> Valid(name) && t == rs
  {
    RunesOfEncode(t);
    SanitizeFixes(name);
  }

  lemma CleanlyTrimmed(ks: seq<rune>, t: seq<rune>)
    requires t == Trim(ks) && forall i :: 0 <= i < |ks| ==> Kept(ks[i])
    ensures forall i :: 0 <= i < |t| ==> !Forbidden(t[i])
    ensures t != [] ==> !IsSpace(t[0]) && !IsSpace(t[|t| - 1])
  {
    TrimKept(ks);
    TrimEnds(ks);
  }

  /** Nothing is left exactly of what is all white space. */
  lemma TrimBlank(ks: seq<rune>)
    ensures Trim(ks) == [] <==> Blanks(ks)
  {
    var a, t, b := TrimPieces(ks);
    PiecesBlank(ks, a, t, b);
  }

  lemma PiecesBlank(ks: seq<rune>, a: seq<rune>, t: seq<rune>, b: seq<rune>)
    requires ks == a + t + b && Blanks(a) && Blanks(b) && (t != [] ==> !IsSpace(t[0]))
    ensures t == [] <==> Blanks(ks)
  {
    if t != [] { assert ks[|a|] == t[0]; }
  }

  lemma NothingTrimmed(rs: seq<rune>)
    requires rs != [] && !IsSpace(rs[0]) && !IsSpace(rs[|rs| - 1])
    ensures Trim(rs) == rs
  {
  }

  lemma TrimEnds(rs: seq<rune>)
    ensures var t := Trim(rs); t != [] ==> !IsSpace(t[0]) && !IsSpace(t[|t| - 1])
  {
    var l := TrimLeft(rs);
    var t := TrimRight(l);
    if t != [] { assert t[0] == l[0]; }
  }

  /** No byte that could end the attribute, the tag or the line. */
  predicate Inert(s: bytes) {
    forall i :: 0 <= i < |s| ==> s[i] != DQUOTE && s[i] != LT && s[i] != GT && s[i] >= 32
  }

  lemma {:induction false} EncodeInert(rs: seq<rune>)
    requires forall i :: 0 <= i < |rs| ==> Kept(rs[i])
    ensures Inert(Encode(rs))
  {
    if rs != [] {
      EncodeInert(rs[1..]);
      var e := EncodeRune(rs[0]);
      assert Inert(e);
    }
  }

  lemma ScrubInert(name: bytes)
    ensures Inert(Scrub(name)) && Valid(Scrub(name))
  {
    var ks := Keep(Runes(name));
    TrimKept(ks);
    EncodeInert(Trim(ks));
    RunesOfEncode(Trim(ks));
  }

  // --------------------------------------------------------------- round trip

  predicate Clean(n: CrossSession) { Inert(n.from) && Inert(n.name) && Inert(n.mode) }

  lemma NormalClean(cs: CrossSession)
    ensures Clean(Normal(cs))
  {
    ScrubInert(cs.name);
    SaidFromInert(cs.from);
    SaidModeInert(cs.mode);
  }

  lemma SaidFromInert(from: bytes)
    ensures Inert(SaidFrom(from))
  {
  }

  lemma SaidModeInert(mode: bytes)
    ensures Inert(SaidMode(mode))
  {
    PromptingInert();
  }

  lemma PromptingInert()
    ensures Inert(Frames.PROMPTING)
  {
    LitInert("prompting");
  }

  lemma LitInert(s: string)
    requires forall i :: 0 <= i < |s| ==> ' ' <= s[i] < '\U{80}' && s[i] != '"' && s[i] != '<' && s[i] != '>'
    ensures Inert(Lit(s))
  {
  }

  lemma KeysOk()
    ensures forall i :: 0 <= i < |K_FROM| ==> KeyByte(K_FROM[i])
    ensures forall i :: 0 <= i < |K_NAME| ==> KeyByte(K_NAME[i])
    ensures forall i :: 0 <= i < |K_MODE| ==> KeyByte(K_MODE[i])
    ensures K_NAME != K_MODE && K_FROM != K_NAME && K_FROM != K_MODE
  {
    assert K_NAME[5] == 110 && K_MODE[5] == 109;
    assert |K_FROM| == 4 && |K_NAME| == 9;
  }

  lemma {:induction false} KeyRunExact(k: bytes, t: bytes)
    requires (forall i :: 0 <= i < |k| ==> KeyByte(k[i])) && t != [] && !KeyByte(t[0])
    ensures KeyRun(k + t) == |k|
  {
    if k == [] {
      assert k + t == t;
    } else {
      assert (k + t)[1..] == k[1..] + t;
      KeyRunExact(k[1..], t);
    }
  }

  lemma MatchRendered(k: bytes, v: bytes, t: bytes)
    requires k != [] && (forall i :: 0 <= i < |k| ==> KeyByte(k[i])) && DQUOTE !in v
    ensures MatchFront(k + ([EQUALS, DQUOTE] + (v + [DQUOTE] + t))) == Some(Match(k, v))
  {
    var u := v + [DQUOTE] + t;
    var s := k + ([EQUALS, DQUOTE] + u);
    KeyRunExact(k, [EQUALS, DQUOTE] + u);
    assert s[|k| + 2..] == u;
    IndexOfAfter(v, DQUOTE, t);
    assert s[..|k|] == k;
    assert s[|k| + 2..|k| + 2 + |v|] == v by { assert u[..|v|] == v; }
  }

  lemma AttrShape(k: bytes, v: bytes, t: bytes)
    requires v != []
    ensures Attr(k, v) + t == [SPACE] + (k + ([EQUALS, DQUOTE] + (v + [DQUOTE] + t)))
  {
  }

  lemma AttrRest(k: bytes, v: bytes, t: bytes)
    ensures (k + ([EQUALS, DQUOTE] + (v + [DQUOTE] + t)))[|k| + |v| + 3..] == t
  {
  }

  /** One rendered attribute is found, and the search goes on after it. */
  lemma FindRendered(k: bytes, v: bytes, t: bytes)
    requires k != [] && (forall i :: 0 <= i < |k| ==> KeyByte(k[i])) && Inert(v)
    ensures FindAll(Attr(k, v) + t) == (if v == [] then [] else [Match(k, v)]) + FindAll(t)
  {
    if v == [] {
      assert Attr(k, v) + t == t;
    } else {
      var s := Attr(k, v) + t;
      var u := k + ([EQUALS, DQUOTE] + (v + [DQUOTE] + t));
      assert s[0] == SPACE && s[1..] == u by { AttrShape(k, v, t); }
      assert MatchFront(s) == None;
      assert MatchFront(u) == Some(Match(k, v)) && u[|k| + |v| + 3..] == t by {
        MatchRendered(k, v, t);
        AttrRest(k, v, t);
      }
    }
  }

  lemma FindAttrs(n: CrossSession)
    requires Clean(n)
    ensures ApplyAll(NOBODY, FindAll(Attrs(n))) == n
  {
    KeysOk();
    var a, b, c := Attr(K_FROM, n.from), Attr(K_NAME, n.name), Attr(K_MODE, n.mode);
    var x := NOBODY.(from := n.from);
    var y := x.(name := n.name);
    Assoc(a, b, c);
    assert FindAll([]) == [];
    FindApply(NOBODY, K_FROM, n.from, b + c);
    FindApply(x, K_NAME, n.name, c);
    FindApply(y, K_MODE, n.mode, []);
    AppendNothing(c);
  }

  lemma AppendNothing(c: bytes)
    ensures c + [] == c
  {
  }

  /** One rendered attribute, read and applied. */
  lemma FindApply(cs: CrossSession, k: bytes, v: bytes, t: bytes)
    requires k != [] && (forall i :: 0 <= i < |k| ==> KeyByte(k[i])) && Inert(v)
    ensures ApplyAll(cs, FindAll(Attr(k, v) + t)) == ApplyAll(if v == [] then cs else Apply(cs, Match(k, v)), FindAll(t))
  {
    FindRendered(k, v, t);
    ApplyOptional(cs, k, v, FindAll(t));
  }

  lemma ApplyOptional(cs: CrossSession, k: bytes, v: bytes, rest: seq<Match>)
    ensures ApplyAll(cs, (if v == [] then [] else [Match(k, v)]) + rest)
         == ApplyAll(if v == [] then cs else Apply(cs, Match(k, v)), rest)
  {
    if v == [] {
      assert [] + rest == rest;
    } else {
      assert ([Match(k, v)] + rest)[1..] == rest;
    }
  }

  lemma AttrInTag(k: bytes, v: bytes)
    requires (forall i :: 0 <= i < |k| ==> KeyByte(k[i])) && Inert(v)
    ensures GT !in Attr(k, v) && (Attr(k, v) != [] ==> Attr(k, v)[0] == SPACE)
  {
  }

  lemma AttrsInTag(n: CrossSession)
    requires Clean(n)
    ensures GT !in Attrs(n) && (Attrs(n) != [] ==> Attrs(n)[0] == SPACE)
  {
    KeysOk();
    AttrInTag(K_FROM, n.from);
    AttrInTag(K_NAME, n.name);
    AttrInTag(K_MODE, n.mode);
  }

  /** The whole pattern finds the tag's attributes and the body, whatever the body holds. */
  lemma MatchRenderedWhole(attrs: bytes, text: bytes)
    requires GT !in attrs && (attrs != [] ==> !WordByte(attrs[0]))
    ensures MatchWhole(OPEN + attrs + [GT, NEWLINE] + text + [NEWLINE] + CLOSE) == Some(Parts(attrs, text))
  {
    var open, close := OPEN, CLOSE;
    var tail := [NEWLINE] + close;
    var b := text + tail;
    var r := attrs + [GT] + ([NEWLINE] + b);
    Regroup(open, attrs, text, close);
    AfterOpen(open, r);
    TagParts(attrs, b);
    BodyParts(text, tail);
  }

  lemma AfterOpen(open: bytes, r: bytes)
    ensures open <= open + r && (open + r)[|open|..] == r
  {
  }

  lemma TagParts(attrs: bytes, b: bytes)
    requires GT !in attrs && (attrs != [] ==> !WordByte(attrs[0]))
    ensures var r := attrs + [GT] + ([NEWLINE] + b);
            IndexOf(r, GT) == |attrs| && r[..|attrs|] == attrs && r[|attrs| + 1] == NEWLINE && r[|attrs| + 2..] == b && !WordByte(r[0])
  {
    IndexOfAfter(attrs, GT, [NEWLINE] + b);
  }

  lemma BodyParts(text: bytes, tail: bytes)
    ensures HasSuffix(text + tail, tail) && (text + tail)[..|text|] == text
  {
  }

  lemma Regroup(o: bytes, a: bytes, t: bytes, c: bytes)
    ensures o + a + [GT, NEWLINE] + t + [NEWLINE] + c == o + (a + [GT] + ([NEWLINE] + (t + ([NEWLINE] + c))))
  {
  }

  lemma TagAgain(s: bytes, open: bytes, close: bytes, r: bytes, attrs: bytes, b: bytes, text: bytes)
    requires s == open + r && r == attrs + [GT] + [NEWLINE] + b && b == text + [NEWLINE] + close
    ensures s == open + attrs + [GT, NEWLINE] + text + [NEWLINE] + close
  {
  }

  lemma OpenedAt(r: bytes, j: nat)
    requires j + 1 < |r| && r[j] == GT && r[j + 1] == NEWLINE
    ensures r == r[..j] + [GT] + [NEWLINE] + r[j + 2..]
  {
  }

  lemma ClosedAt(b: bytes, close: bytes)
    requires HasSuffix(b, [NEWLINE] + close)
    ensures b == b[..|b| - |close| - 1] + [NEWLINE] + close
  {
  }

  lemma MatchIsRendered(s: bytes, p: Parts)
    requires MatchWhole(s) == Some(p)
    ensures GT !in p.attrs && (p.attrs != [] ==> !WordByte(p.attrs[0]))
    ensures s == OPEN + p.attrs + [GT, NEWLINE] + p.body + [NEWLINE] + CLOSE
  {
    var open, close := OPEN, CLOSE;
    var r, j, b := WholeFacts(s, p, open, close);
    OpenedAt(r, j);
    ClosedAt(b, close);
    TagAgain(s, open, close, r, p.attrs, b, p.body);
  }

  lemma WholeFacts(s: bytes, p: Parts, open: bytes, close: bytes) returns (r: bytes, j: nat, b: bytes)
    requires MatchWhole(s) == Some(p) && open == OPEN && close == CLOSE
    ensures s == open + r && j + 1 < |r| && r[j] == GT && r[j + 1] == NEWLINE && b == r[j + 2..] && HasSuffix(b, [NEWLINE] + close)
    ensures p == Parts(r[..j], b[..|b| - |close| - 1]) && GT !in p.attrs && (p.attrs != [] ==> !WordByte(p.attrs[0]))
  {
    r := s[|open|..];
    j := IndexOf(r, GT);
    b := r[j + 2..];
  }

  /** A content is taken for an attributed message exactly when it has the
      envelope's shape from its first byte to its last, and then in one way only. */
  lemma UnwrapExactly(s: bytes, attrs: bytes, text: bytes)
    ensures MatchWhole(s) == Some(Parts(attrs, text)) <==>
            s == OPEN + attrs + [GT, NEWLINE] + text + [NEWLINE] + CLOSE
            && GT !in attrs && (attrs != [] ==> !WordByte(attrs[0]))
  {
    if MatchWhole(s) == Some(Parts(attrs, text)) {
      MatchIsRendered(s, Parts(attrs, text));
    } else if GT !in attrs && (attrs != [] ==> !WordByte(attrs[0])) {
      MatchRenderedWhole(attrs, text);
    }
  }

  /** The value an attribute has after a run of matches: its last one's. */
  function LastValue(ms: seq<Match>, k: bytes, v: bytes): bytes
    decreases |ms|
  {
    if ms == [] then v
    else if ms[|ms| - 1].key == k then ms[|ms| - 1].value
    else LastValue(ms[..|ms| - 1], k, v)
  }

  lemma {:induction false} ApplyAppend(cs: CrossSession, ms: seq<Match>, m: Match)
    ensures ApplyAll(cs, ms + [m]) == Apply(ApplyAll(cs, ms), m)
    decreases |ms|
  {
    if ms == [] {
      assert ([] + [m])[1..] == [];
    } else {
      assert (ms + [m])[1..] == ms[1..] + [m];
      ApplyAppend(Apply(cs, ms[0]), ms[1..], m);
    }
  }

  /** Attributes may come in any order: each field is the last value under its own
      name, and every other name is ignored. */
  lemma {:induction false} AttributesExactly(cs: CrossSession, ms: seq<Match>)
    ensures ApplyAll(cs, ms) ==
            CrossSession(LastValue(ms, K_FROM, cs.from), LastValue(ms, K_NAME, cs.name), LastValue(ms, K_MODE, cs.mode))
    decreases |ms|
  {
    if ms != [] {
      var front, m := ms[..|ms| - 1], ms[|ms| - 1];
      assert ms == front + [m];
      AttributesExactly(cs, front);
      ApplyAppend(cs, front, m);
      KeysOk();
    }
  }

  /** Attributes as a tag lists them. */
  function Listed(ms: seq<Match>): bytes {
    if ms == [] then [] else [SPACE] + ms[0].key + [EQUALS, DQUOTE] + ms[0].value + [DQUOTE] + Listed(ms[1..])
  }

  predicate Listable(ms: seq<Match>) {
    forall i :: 0 <= i < |ms| ==>
      ms[i].key != [] && (forall j :: 0 <= j < |ms[i].key| ==> KeyByte(ms[i].key[j])) && DQUOTE !in ms[i].value
  }

  lemma ListedShape(k: bytes, v: bytes, t: bytes)
    ensures [SPACE] + k + [EQUALS, DQUOTE] + v + [DQUOTE] + t == [SPACE] + (k + ([EQUALS, DQUOTE] + (v + [DQUOTE] + t)))
  {
  }

  /** Any list of attributes, known or not and empty ones included, is found as listed. */
  lemma {:induction false} ListedFound(ms: seq<Match>)
    requires Listable(ms)
    ensures FindAll(Listed(ms)) == ms
    decreases |ms|
  {
    if ms != [] {
      var m, t := ms[0], Listed(ms[1..]);
      ListedFound(ms[1..]);
      ListedShape(m.key, m.value, t);
      FoundFirst(m.key, m.value, t);
    }
  }

  lemma FoundFirst(k: bytes, v: bytes, t: bytes)
    requires k != [] && (forall j :: 0 <= j < |k| ==> KeyByte(k[j])) && DQUOTE !in v
    ensures FindAll([SPACE] + (k + ([EQUALS, DQUOTE] + (v + [DQUOTE] + t)))) == [Match(k, v)] + FindAll(t)
  {
    var u := k + ([EQUALS, DQUOTE] + (v + [DQUOTE] + t));
    MatchRendered(k, v, t);
    AttrRest(k, v, t);
    FoundAfterSpace(u, Match(k, v), t);
  }

  lemma FoundAfterSpace(u: bytes, m: Match, t: bytes)
    requires MatchFront(u) == Some(m) && u[|m.key| + |m.value| + 3..] == t
    ensures FindAll([SPACE] + u) == [m] + FindAll(t)
  {
    SpaceSkipped(u);
    FoundHere(u, m, t);
  }

  lemma SpaceSkipped(u: bytes)
    ensures FindAll([SPACE] + u) == FindAll(u)
  {
    var s := [SPACE] + u;
    assert s[0] == SPACE && s[1..] == u && !KeyByte(SPACE);
    assert KeyRun(s) == 0;
    assert MatchFront(s) == None;
  }

  lemma FoundHere(u: bytes, m: Match, t: bytes)
    requires MatchFront(u) == Some(m) && u[|m.key| + |m.value| + 3..] == t
    ensures FindAll(u) == [m] + FindAll(t)
  {
  }

  predicate Between(b: byte, lo: char, hi: char) { lo as int <= b <= hi as int }

  /** The attributes are said or left out, never corrected: an address of up to 111
      of its own characters, and the one posture that is worth saying. */
  lemma SaidExactly(cs: CrossSession)
    ensures var n := Normal(cs);
            (n.from == cs.from || n.from == [])
            && (cs.from != [] ==>
                  (n.from == cs.from <==>
                     |cs.from| <= 111 && forall i :: 0 <= i < |cs.from| ==>
                       Between(cs.from[i], 'A', 'Z') || Between(cs.from[i], 'a', 'z') || Between(cs.from[i], '-', ':') || cs.from[i] == '_' as int))
            && (n.mode == if cs.mode == Frames.PROMPTING then Frames.PROMPTING else [])
  {
    AddressSaid(cs.from);
  }

  lemma AddressSaid(from: bytes)
    ensures SaidFrom(from) == from || SaidFrom(from) == []
    ensures from != [] ==>
              (SaidFrom(from) == from <==>
                 |from| <= 111 && forall i :: 0 <= i < |from| ==>
                   Between(from[i], 'A', 'Z') || Between(from[i], 'a', 'z') || Between(from[i], '-', ':') || from[i] == '_' as int)
  {
  }

  /** For every attribution and every text, envelopes inside it included,
      unwrapping what was wrapped gives the text and the normalised attribution. */
  lemma EnvelopeRoundTrip(cs: CrossSession, text: bytes)
    ensures Unwrap(Wrap(cs, text)) == Unwrapped(Normal(cs), text, true)
  {
    NormalClean(cs);
    AttrsInTag(Normal(cs));
    MatchRenderedWhole(Attrs(Normal(cs)), text);
    FindAttrs(Normal(cs));
  }

  /** Normalising changes nothing the envelope says: wrapping again gives the same bytes. */
  lemma RewrapSame(cs: CrossSession, text: bytes)
    ensures Normal(Normal(cs)) == Normal(cs)
    ensures Wrap(Normal(cs), text) == Wrap(cs, text)
  {
    ScrubIdempotent(cs.name);
    SaidTwice(cs.from, cs.mode);
  }

  lemma SaidTwice(from: bytes, mode: bytes)
    ensures SaidFrom(SaidFrom(from)) == SaidFrom(from) && SaidMode(SaidMode(mode)) == SaidMode(mode)
  {
  }
}
