/**
 The one-pass scanner that cuts the first balanced JSON object or array out of a model's reply, and the
 grammar of RFC 8259 it has to invert. The text is what is left once thinking blocks and fences are gone.
 */
module JsonScanner {
  import opened Basics

  // ---------------------------------------------------------------------------------- the scanner

  datatype State = State(depth: int, inString: bool, escaped: bool)

  /** The kind of bracket being balanced; brackets of the other kind are ordinary characters. */
  datatype Kind = Braces | Brackets

  function Opener(k: Kind): char {
    if k == Braces then '{' else '['
  }

  function Closer(k: Kind): char {
    if k == Braces then '}' else ']'
  }

  function Next(k: Kind, s: State, ch: char): State {
    if s.inString then
      if s.escaped then s.(escaped := false)
      else if ch == '\\' then s.(escaped := true)
      else if ch == '"' then s.(inString := false)
      else s
    else if ch == '"' then s.(inString := true)
    else if ch == Opener(k) then s.(depth := s.depth + 1)
    else if ch == Closer(k) then s.(depth := s.depth - 1)
    else s
  }

  predicate Closes(k: Kind, s: State, ch: char) {
    !s.inString && ch == Closer(k) && s.depth == 1
  }

  /** How many characters are read until the outermost bracket closes; None when it never does. */
  function Scan(k: Kind, s: State, text: string): Option<nat>
    decreases |text|
  {
    if text == [] then None
    else if Closes(k, s, text[0]) then Some(1)
    else
      match Scan(k, Next(k, s, text[0]), text[1..])
      case None => None
      case Some(n) => Some(n + 1)
  }

  function After(k: Kind, s: State, text: string): State
    decreases |text|
  {
    if text == [] then s else After(k, Next(k, s, text[0]), text[1..])
  }

  const OUTSIDE: State := State(0, false, false)

  predicate IsBracket(ch: char) {
    ch == '{' || ch == '['
  }

  function FirstBracket(text: string): Option<nat> {
    if text == [] then None
    else if IsBracket(text[0]) then Some(0)
    else
      match FirstBracket(text[1..])
      case None => None
      case Some(i) => Some(i + 1)
  }

  datatype Outcome = Found(start: nat, end: nat) | Empty | NoBracket | Truncated

  function Extract(text: string): Outcome {
    if text == [] then Empty
    else
      match FirstBracket(text)
      case None => NoBracket
      case Some(start) =>
        FirstBracketIsOne(text);
        match Scan(if text[start] == '{' then Braces else Brackets, OUTSIDE, text[start..])
        case None => Truncated
        case Some(n) => Found(start, start + n)
  }

  lemma {:induction false} FirstBracketIsOne(text: string)
    ensures match FirstBracket(text)
            case None => forall i :: 0 <= i < |text| ==> !IsBracket(text[i])
            case Some(n) => n < |text| && IsBracket(text[n]) && forall i :: 0 <= i < n ==> !IsBracket(text[i])
  {
    if text != [] && !IsBracket(text[0]) {
      FirstBracketIsOne(text[1..]);
      forall i | 0 < i < |text| ensures text[i] == text[1..][i - 1] {}
    }
  }

  method Find(text: string, ch: char) returns (i: int)
    ensures i == -1 ==> ch !in text
    ensures i != -1 ==> 0 <= i < |text| && text[i] == ch && ch !in text[..i]
  {
    i := 0;
    while i < |text|
      invariant 0 <= i <= |text| && ch !in text[..i]
    {
      if text[i] == ch {
        return;
      }
      i := i + 1;
    }
    i := -1;
  }

  /** The nearer of the two opening brackets. */
  method FindStart(text: string) returns (start: Option<nat>)
    ensures start == FirstBracket(text)
  {
    var brace := Find(text, '{');
    var bracket := Find(text, '[');
    FirstBracketIsOne(text);
    if brace == -1 && bracket == -1 {
      return None;
    }
    var first := if brace == -1 then bracket
                   else if bracket == -1 then brace
                   else if brace < bracket then brace
                   else bracket;
    forall j | 0 <= j < first ensures !IsBracket(text[j]) {
      assert brace != -1 ==> text[j] in text[..brace];
      assert bracket != -1 ==> text[j] in text[..bracket];
    }
    return Some(first);
  }

  /** The scanning loop of the source, one state variable each. */
  method ExtractJson(text: string) returns (r: Outcome)
    ensures r == Extract(text)
  {
    if text == [] {
      return Empty;
    }
    var found := FindStart(text);
    FirstBracketIsOne(text);
    if found.None? {
      return NoBracket;
    }
    var start := found.value;
    var kind := if text[start] == '{' then Braces else Brackets;
    var depth, inString, escaped := 0, false, false;
    var i := start;
    while i < |text|
      invariant start <= i <= |text|
      invariant Scan(kind, OUTSIDE, text[start..])
                == match Scan(kind, State(depth, inString, escaped), text[i..])
                   case None => None
                   case Some(n) => Some(n + i - start)
    {
      var ch := text[i];
      assert text[i..][0] == ch && text[i..][1..] == text[i + 1..];
      i := i + 1;
      if inString {
        if escaped {
          escaped := false;
        } else if ch == '\\' {
          escaped := true;
        } else if ch == '"' {
          inString := false;
        }
        continue;
      }
      if ch == '"' {
        inString := true;
      } else if ch == Opener(kind) {
        depth := depth + 1;
      } else if ch == Closer(kind) {
        depth := depth - 1;
        if depth == 0 {
          return Found(start, i);
        }
      }
    }
    return Truncated;
  }

  // ---------------------------------------------------------------------------------- the grammar

  /** Section 7: an unescaped character, a two-character escape, or four hexadecimal digits after \u. */
  datatype StringItem = Plain(ch: char) | Escape(ch: char) | Unicode(a: char, b: char, c: char, d: char)

  /** Values with the insignificant white space of section 2 wherever the grammar allows it. */
  datatype Json =
    | Literal(token: string)
    | Text(items: seq<StringItem>)
    | EmptyArray(ws: string)
    | Array(elements: Elements)
    | EmptyObject(ws: string)
    | Object(members: Members)

  datatype Elements =
    | LastElement(before: string, value: Json, after: string)
    | Element(before: string, value: Json, after: string, rest: Elements)

  datatype Member = Member(before: string, name: seq<StringItem>, beforeColon: string, afterColon: string, value: Json,
                           after: string)

  datatype Members = LastMember(member: Member) | MoreMembers(member: Member, rest: Members)

  predicate IsSpace(s: string) {
    forall ch <- s :: ch in {' ', '\t', '\n', '\r'}
  }

  /** Sections 3 and 6: true, false, null, or the characters a number is made of. */
  predicate IsToken(s: string) {
    s in {"true", "false", "null"} || (s != [] && forall ch <- s :: ch in "0123456789+-.eE")
  }

  predicate IsHex(ch: char) {
    ch in "0123456789abcdefABCDEF"
  }

  predicate ItemIsValid(i: StringItem) {
    match i
    case Plain(ch) => ch != '"' && ch != '\\' && ch >= ' '
    case Escape(ch) => ch in {'"', '\\', '/', 'b', 'f', 'n', 'r', 't'}
    case Unicode(a, b, c, d) => IsHex(a) && IsHex(b) && IsHex(c) && IsHex(d)
  }

  predicate StringIsValid(items: seq<StringItem>) {
    forall i <- items :: ItemIsValid(i)
  }

  predicate Valid(v: Json) {
    match v
    case Literal(token) => IsToken(token)
    case Text(items) => StringIsValid(items)
    case EmptyArray(ws) => IsSpace(ws)
    case Array(elements) => ElementsAreValid(elements)
    case EmptyObject(ws) => IsSpace(ws)
    case Object(members) => MembersAreValid(members)
  }

  predicate ElementsAreValid(es: Elements) {
    && IsSpace(es.before) && Valid(es.value) && IsSpace(es.after)
    && (es.Element? ==> ElementsAreValid(es.rest))
  }

  predicate MembersAreValid(ms: Members) {
    && IsSpace(ms.member.before) && StringIsValid(ms.member.name)
    && IsSpace(ms.member.beforeColon) && IsSpace(ms.member.afterColon)
    && Valid(ms.member.value) && IsSpace(ms.member.after)
    && (ms.MoreMembers? ==> MembersAreValid(ms.rest))
  }

  function PrintItem(i: StringItem): string {
    match i
    case Plain(ch) => [ch]
    case Escape(ch) => ['\\', ch]
    case Unicode(a, b, c, d) => ['\\', 'u', a, b, c, d]
  }

  function PrintItems(items: seq<StringItem>): string {
    if items == [] then [] else PrintItem(items[0]) + PrintItems(items[1..])
  }

  function PrintString(items: seq<StringItem>): string {
    "\"" + PrintItems(items) + "\""
  }

  function Print(v: Json): string {
    match v
    case Literal(token) => token
    case Text(items) => PrintString(items)
    case EmptyArray(ws) => "[" + ws + "]"
    case Array(elements) => "[" + PrintElements(elements) + "]"
    case EmptyObject(ws) => "{" + ws + "}"
    case Object(members) => "{" + PrintMembers(members) + "}"
  }

  function PrintElements(es: Elements): string {
    match es
    case LastElement(before, value, after) => before + Print(value) + after
    case Element(before, value, after, rest) => before + Print(value) + after + "," + PrintElements(rest)
  }

  function PrintMember(m: Member): string {
    m.before + PrintString(m.name) + m.beforeColon + ":" + m.afterColon + Print(m.value) + m.after
  }

  function PrintMembers(ms: Members): string {
    match ms
    case LastMember(member) => PrintMember(member)
    case MoreMembers(member, rest) => PrintMember(member) + "," + PrintMembers(rest)
  }

  // ------------------------------------------------------------- reading pieces without closing

  /** Reading `b` after `a` is reading `a + b`. */
  lemma {:induction false} ScanConcat(k: Kind, s: State, a: string, b: string)
    ensures After(k, s, a + b) == After(k, After(k, s, a), b)
    ensures Scan(k, s, a).Some? ==> Scan(k, s, a + b) == Scan(k, s, a)
    ensures Scan(k, s, a).None? ==>
              Scan(k, s, a + b) == match Scan(k, After(k, s, a), b) case None => None case Some(n) => Some(|a| + n)
    decreases |a|
  {
    if a == [] {
      assert a + b == b;
    } else {
      assert (a + b)[1..] == a[1..] + b;
      ScanConcat(k, Next(k, s, a[0]), a[1..], b);
    }
  }

  lemma {:induction false} ScanStaysInside(k: Kind, s: State, text: string)
    ensures Scan(k, s, text).Some? ==> 0 < Scan(k, s, text).value <= |text|
    decreases |text|
  {
    if text != [] && !Closes(k, s, text[0]) {
      ScanStaysInside(k, Next(k, s, text[0]), text[1..]);
    }
  }

  /** Outside any string and inside at least one bracket of the scanned kind. */
  predicate Calm(s: State) {
    s.depth >= 1 && !s.inString && !s.escaped
  }

  /** Reading `text` from `s` closes nothing and ends in `t`. */
  predicate Leads(k: Kind, s: State, text: string, t: State) {
    Scan(k, s, text).None? && After(k, s, text) == t
  }

  lemma LeadsConcat(k: Kind, s: State, a: string, t: State, b: string, u: State)
    requires Leads(k, s, a, t) && Leads(k, t, b, u)
    ensures Leads(k, s, a + b, u)
  {
    ScanConcat(k, s, a, b);
  }

  lemma LeadsOne(k: Kind, s: State, ch: char)
    requires !Closes(k, s, ch)
    ensures Leads(k, s, [ch], Next(k, s, ch))
  {
    assert [ch][1..] == [];
  }

  lemma LeadsNowhere(k: Kind, s: State, a: string, b: string)
    requires Leads(k, s, a, s) && Leads(k, s, b, s)
    ensures Leads(k, s, a + b, s)
  {
    LeadsConcat(k, s, a, s, b, s);
  }

  /** Characters that are no quote and no bracket leave a calm scanner as it is. */
  predicate Quiet(ch: char) {
    ch !in {'"', '{', '}', '[', ']'}
  }

  lemma {:induction false} QuietTextLeadsNowhere(k: Kind, s: State, text: string)
    requires Calm(s) && forall ch <- text :: Quiet(ch)
    ensures Leads(k, s, text, s)
    decreases |text|
  {
    if text != [] {
      assert Quiet(text[0]);
      QuietTextLeadsNowhere(k, s, text[1..]);
    }
  }

  lemma {:induction false} ItemsStayInString(k: Kind, s: State, items: seq<StringItem>)
    requires s.inString && !s.escaped && StringIsValid(items)
    ensures Leads(k, s, PrintItems(items), s)
    decreases |items|
  {
    if items != [] {
      assert ItemIsValid(items[0]);
      ItemStaysInString(k, s, items[0]);
      ItemsStayInString(k, s, items[1..]);
      LeadsNowhere(k, s, PrintItem(items[0]), PrintItems(items[1..]));
    }
  }

  lemma ItemStaysInString(k: Kind, s: State, i: StringItem)
    requires s.inString && !s.escaped && ItemIsValid(i)
    ensures Leads(k, s, PrintItem(i), s)
  {
    match i
    case Plain(ch) => LeadsOne(k, s, ch);
    case Escape(ch) =>
      LeadsOne(k, s, '\\');
      LeadsOne(k, s.(escaped := true), ch);
      LeadsConcat(k, s, ['\\'], s.(escaped := true), [ch], s);
      assert PrintItem(i) == ['\\'] + [ch];
    case Unicode(a, b, c, d) =>
      LeadsOne(k, s, '\\');
      LeadsOne(k, s.(escaped := true), 'u');
      LeadsConcat(k, s, ['\\'], s.(escaped := true), ['u'], s);
      HexStaysInString(k, s, [a, b, c, d]);
      LeadsNowhere(k, s, ['\\'] + ['u'], [a, b, c, d]);
      assert PrintItem(i) == ['\\'] + ['u'] + [a, b, c, d];
  }

  lemma {:induction false} HexStaysInString(k: Kind, s: State, text: string)
    requires s.inString && !s.escaped && forall ch <- text :: IsHex(ch)
    ensures Leads(k, s, text, s)
    decreases |text|
  {
    if text != [] {
      assert IsHex(text[0]);
      HexStaysInString(k, s, text[1..]);
    }
  }

  lemma StringLeadsNowhere(k: Kind, s: State, items: seq<StringItem>)
    requires Calm(s) && StringIsValid(items)
    ensures Leads(k, s, PrintString(items), s)
  {
    var inside := s.(inString := true);
    LeadsOne(k, s, '"');
    ItemsStayInString(k, inside, items);
    LeadsConcat(k, s, "\"", inside, PrintItems(items), inside);
    LeadsOne(k, inside, '"');
    LeadsConcat(k, s, "\"" + PrintItems(items), inside, "\"", s);
  }

  /** Bracketed text whose inside leads nowhere leads nowhere, whichever kind of bracket it is. */
  lemma BracketedLeadsNowhere(k: Kind, s: State, b: Kind, inner: string)
    requires Calm(s)
    requires forall t :: Calm(t) ==> Leads(k, t, inner, t)
    ensures Leads(k, s, [Opener(b)] + inner + [Closer(b)], s)
  {
    var inside := if b == k then s.(depth := s.depth + 1) else s;
    LeadsOne(k, s, Opener(b));
    assert Leads(k, inside, inner, inside);
    LeadsConcat(k, s, [Opener(b)], inside, inner, inside);
    LeadsOne(k, inside, Closer(b));
    LeadsConcat(k, s, [Opener(b)] + inner, inside, [Closer(b)], s);
  }

  lemma {:induction false} ValueLeadsNowhere(k: Kind, s: State, v: Json)
    requires Calm(s) && Valid(v)
    ensures Leads(k, s, Print(v), s)
    decreases v
  {
    match v
    case Literal(token) => QuietTextLeadsNowhere(k, s, token);
    case Text(items) => StringLeadsNowhere(k, s, items);
    case EmptyArray(ws) =>
      forall t | Calm(t) ensures Leads(k, t, ws, t) { QuietTextLeadsNowhere(k, t, ws); }
      BracketedLeadsNowhere(k, s, Brackets, ws);
    case Array(elements) =>
      forall t | Calm(t) ensures Leads(k, t, PrintElements(elements), t) { ElementsLeadNowhere(k, t, elements); }
      BracketedLeadsNowhere(k, s, Brackets, PrintElements(elements));
    case EmptyObject(ws) =>
      forall t | Calm(t) ensures Leads(k, t, ws, t) { QuietTextLeadsNowhere(k, t, ws); }
      BracketedLeadsNowhere(k, s, Braces, ws);
    case Object(members) =>
      forall t | Calm(t) ensures Leads(k, t, PrintMembers(members), t) { MembersLeadNowhere(k, t, members); }
      BracketedLeadsNowhere(k, s, Braces, PrintMembers(members));
  }

  lemma {:induction false} ElementsLeadNowhere(k: Kind, s: State, es: Elements)
    requires Calm(s) && ElementsAreValid(es)
    ensures Leads(k, s, PrintElements(es), s)
    decreases es
  {
    QuietTextLeadsNowhere(k, s, es.before);
    ValueLeadsNowhere(k, s, es.value);
    QuietTextLeadsNowhere(k, s, es.after);
    LeadsNowhere(k, s, es.before, Print(es.value));
    LeadsNowhere(k, s, es.before + Print(es.value), es.after);
    if es.Element? {
      QuietTextLeadsNowhere(k, s, ",");
      LeadsNowhere(k, s, es.before + Print(es.value) + es.after, ",");
      ElementsLeadNowhere(k, s, es.rest);
      LeadsNowhere(k, s, es.before + Print(es.value) + es.after + ",", PrintElements(es.rest));
    }
  }

  lemma {:induction false} MembersLeadNowhere(k: Kind, s: State, ms: Members)
    requires Calm(s) && MembersAreValid(ms)
    ensures Leads(k, s, PrintMembers(ms), s)
    decreases ms
  {
    var m := ms.member;
    QuietTextLeadsNowhere(k, s, m.before);
    StringLeadsNowhere(k, s, m.name);
    QuietTextLeadsNowhere(k, s, m.beforeColon);
    QuietTextLeadsNowhere(k, s, ":");
    QuietTextLeadsNowhere(k, s, m.afterColon);
    ValueLeadsNowhere(k, s, m.value);
    QuietTextLeadsNowhere(k, s, m.after);
    LeadsNowhere(k, s, m.before, PrintString(m.name));
    LeadsNowhere(k, s, m.before + PrintString(m.name), m.beforeColon);
    LeadsNowhere(k, s, m.before + PrintString(m.name) + m.beforeColon, ":");
    LeadsNowhere(k, s, m.before + PrintString(m.name) + m.beforeColon + ":", m.afterColon);
    LeadsNowhere(k, s, m.before + PrintString(m.name) + m.beforeColon + ":" + m.afterColon, Print(m.value));
    LeadsNowhere(k, s, m.before + PrintString(m.name) + m.beforeColon + ":" + m.afterColon + Print(m.value), m.after);
    if ms.MoreMembers? {
      QuietTextLeadsNowhere(k, s, ",");
      LeadsNowhere(k, s, PrintMember(m), ",");
      MembersLeadNowhere(k, s, ms.rest);
      LeadsNowhere(k, s, PrintMember(m) + ",", PrintMembers(ms.rest));
    }
  }

  // ------------------------------------------------------------------------------- the theorems

  predicate IsContainer(v: Json) {
    v.EmptyArray? || v.Array? || v.EmptyObject? || v.Object?
  }

  function KindOf(v: Json): Kind
    requires IsContainer(v)
  {
    if v.EmptyArray? || v.Array? then Brackets else Braces
  }

  function Inner(v: Json): string
    requires IsContainer(v)
  {
    match v
    case EmptyArray(ws) => ws
    case Array(elements) => PrintElements(elements)
    case EmptyObject(ws) => ws
    case Object(members) => PrintMembers(members)
  }

  /** A container closes exactly at its last character. */
  lemma ContainerClosesAtItsEnd(v: Json)
    requires IsContainer(v) && Valid(v)
    ensures Print(v) == [Opener(KindOf(v))] + Inner(v) + [Closer(KindOf(v))]
    ensures Scan(KindOf(v), OUTSIDE, Print(v)) == Some(|Print(v)|)
  {
    var k := KindOf(v);
    var one := State(1, false, false);
    match v {
      case EmptyArray(ws) => QuietTextLeadsNowhere(k, one, ws);
      case Array(elements) => ElementsLeadNowhere(k, one, elements);
      case EmptyObject(ws) => QuietTextLeadsNowhere(k, one, ws);
      case Object(members) => MembersLeadNowhere(k, one, members);
    }
    LeadsOne(k, OUTSIDE, Opener(k));
    LeadsConcat(k, OUTSIDE, [Opener(k)], one, Inner(v), one);
    ScanConcat(k, OUTSIDE, [Opener(k)] + Inner(v), [Closer(k)]);
  }

  lemma {:induction false} FirstBracketAfterLeadIn(lead: string, rest: string)
    ensures FirstBracket(lead + rest) ==
            if FirstBracket(lead).Some? then FirstBracket(lead)
            else match FirstBracket(rest) case None => None case Some(i) => Some(|lead| + i)
  {
    if lead == [] {
      assert lead + rest == rest;
    } else {
      assert (lead + rest)[1..] == lead[1..] + rest;
      FirstBracketAfterLeadIn(lead[1..], rest);
    }
  }

  lemma TextAfterLeadIn(lead: string, rest: string)
    requires rest != [] && IsBracket(rest[0]) && FirstBracket(lead).None?
    ensures FirstBracket(lead + rest) == Some(|lead|)
    ensures (lead + rest)[|lead|..] == rest && (lead + rest)[|lead|] == rest[0]
  {
    FirstBracketAfterLeadIn(lead, rest);
  }

  /**
   Round trip: out of any text around a printed object or array, the scanner cuts exactly the printed
   value, if and only if no bracket stands in front of it.
   */
  lemma ScannerInvertsPrinter(lead: string, v: Json, trail: string)
    requires IsContainer(v) && Valid(v)
    ensures Extract(lead + (Print(v) + trail)) == Found(|lead|, |lead| + |Print(v)|) <==> FirstBracket(lead).None?
  {
    var rest := Print(v) + trail;
    ContainerClosesAtItsEnd(v);
    if FirstBracket(lead).None? {
      TextAfterLeadIn(lead, rest);
      ScanConcat(KindOf(v), OUTSIDE, Print(v), trail);
    } else {
      FirstBracketAfterLeadIn(lead, rest);
      FirstBracketIsOne(lead);
    }
  }

  /** A reply cut off anywhere after the first bracket and before the last is recognised as truncated. */
  lemma EveryTruncationIsDetected(lead: string, v: Json, n: nat)
    requires IsContainer(v) && Valid(v) && FirstBracket(lead).None?
    requires 0 < n < |Print(v)|
    ensures Extract(lead + Print(v)[..n]) == Truncated
  {
    var cut := Print(v)[..n];
    ContainerClosesAtItsEnd(v);
    assert cut[0] == Opener(KindOf(v));
    TextAfterLeadIn(lead, cut);
    assert Print(v) == cut + Print(v)[n..];
    ScanConcat(KindOf(v), OUTSIDE, cut, Print(v)[n..]);
    ScanStaysInside(KindOf(v), OUTSIDE, cut);
  }

  /** What is cut out starts at the first bracket of the text, ends at a matching one, and is as short as can be. */
  lemma FoundTextIsShortest(text: string, n: nat)
    requires Extract(text).Found? && Extract(text).start < n < Extract(text).end
    ensures Extract(text).end <= |text| && Extract(text[..n]) == Truncated
    ensures var k := if text[Extract(text).start] == '{' then Braces else Brackets;
            text[Extract(text).end - 1] == Closer(k)
  {
    FirstBracketIsOne(text);
    var start := Extract(text).start;
    var k := if text[start] == '{' then Braces else Brackets;
    ScanStaysInside(k, OUTSIDE, text[start..]);
    ScanEndsAtCloser(k, OUTSIDE, text[start..]);
    var cut := text[..n];
    assert text == cut + text[n..];
    FirstBracketAfterLeadIn(cut, text[n..]);
    FirstBracketIsOne(cut);
    assert text[start..] == cut[start..] + text[n..];
    ScanConcat(k, OUTSIDE, cut[start..], text[n..]);
    ScanStaysInside(k, OUTSIDE, cut[start..]);
    assert cut[start] == text[start];
  }

  lemma {:induction false} ScanEndsAtCloser(k: Kind, s: State, text: string)
    requires Scan(k, s, text).Some?
    ensures 0 < Scan(k, s, text).value <= |text| && text[Scan(k, s, text).value - 1] == Closer(k)
    decreases |text|
  {
    if !Closes(k, s, text[0]) {
      ScanEndsAtCloser(k, Next(k, s, text[0]), text[1..]);
    }
  }
}
