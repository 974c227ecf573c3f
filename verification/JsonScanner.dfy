// Finding JSON objects in a model's chatty answer: a scan that counts braces outside
// string literals, and the choice of the first candidate that parses.
module JsonScanner {
  import Text

  // Where the scan stands: between strings, in one, or right after a backslash in one.
  datatype Mode = Outside | InString | Escaping

  datatype Cursor = Cursor(mode: Mode, depth: nat)

  const Start := Cursor(Outside, 0)

  function Step(cur: Cursor, ch: char): Cursor {
    match cur.mode
    case Escaping => cur.(mode := InString)
    case InString => cur.(mode := if ch == '\\' then Escaping else if ch == '"' then Outside else InString)
    case Outside =>
      if ch == '"' then cur.(mode := InString)
      else if ch == '{' then cur.(depth := cur.depth + 1)
      else if ch == '}' && cur.depth > 0 then cur.(depth := cur.depth - 1)
      else cur
  }

  function Run(cur: Cursor, s: string): Cursor
    decreases |s|
  {
    if s == "" then cur else Run(Step(cur, s[0]), s[1..])
  }

  lemma {:induction false} RunConcat(cur: Cursor, s: string, t: string)
    ensures Run(cur, s + t) == Run(Run(cur, s), t)
    decreases |s|
  {
    if s == "" {
      assert s + t == t;
    } else {
      assert (s + t)[1..] == s[1..] + t;
      RunConcat(Step(cur, s[0]), s[1..], t);
    }
  }

  // ---- What the scan looks for

  // One whole object: the brace it starts with is closed by its last character and no earlier.
  ghost predicate IsObject(s: string) {
    && s != "" && s[0] == '{'
    && Run(Start, s) == Start
    && forall k :: 0 < k < |s| ==> Run(Start, s[..k]).depth > 0
  }

  // Prose: no object is open anywhere in it, and no string literal at its end.
  ghost predicate Quiet(s: string) {
    && Run(Start, s) == Start
    && forall k :: 0 <= k <= |s| ==> Run(Start, s[..k]).depth == 0
  }

  // Nothing that is opened here is ever closed.
  ghost predicate Unfinished(s: string) {
    forall j, k :: 0 <= j <= k <= |s| && Run(Start, s[..j]).depth > 0 ==> Run(Start, s[..k]).depth > 0
  }

  function Interleave(gaps: seq<string>, objects: seq<string>): string
    requires |gaps| == |objects| + 1
  {
    if objects == [] then gaps[0] else gaps[0] + objects[0] + Interleave(gaps[1..], objects[1..])
  }

  // The objects are cut out of the text, in order and without overlap, and what is
  // left between them holds no object.
  ghost predicate CutsOut(text: string, gaps: seq<string>, objects: seq<string>) {
    && |gaps| == |objects| + 1
    && text == Interleave(gaps, objects)
    && (forall i :: 0 <= i < |objects| ==> IsObject(objects[i]) && Quiet(gaps[i]))
    && Unfinished(gaps[|objects|])
  }

  // ---- The scan as a function

  // What is found in the rest of the text when `open` has been read of the object being scanned.
  function Scan(cur: Cursor, open: string, s: string): seq<string>
    decreases |s|
  {
    if s == "" then []
    else
      var next := Step(cur, s[0]);
      if next.depth > 0 then Scan(next, open + [s[0]], s[1..])
      else if cur.depth > 0 then [open + [s[0]]] + Scan(next, "", s[1..])
      else Scan(next, "", s[1..])
  }

  function Candidates(text: string): seq<string> {
    Scan(Start, "", text)
  }

  // ---- The scan finds exactly the objects that can be cut out

  lemma {:induction false} ScanStaysIdle(cur: Cursor, s: string, t: string)
    requires forall k :: 0 <= k <= |s| ==> Run(cur, s[..k]).depth == 0
    ensures Scan(cur, "", s + t) == Scan(Run(cur, s), "", t)
    decreases |s|
  {
    if s == "" {
      assert s + t == t;
    } else {
      var next := Step(cur, s[0]);
      assert (s + t)[1..] == s[1..] + t;
      forall k | 0 <= k <= |s| - 1 ensures Run(next, s[1..][..k]).depth == 0 {
        assert s[..k + 1][1..] == s[1..][..k];
        assert Run(cur, s[..k + 1]).depth == 0;
      }
      assert Run(cur, s[..0]).depth == 0;
      assert s[..1][1..] == "";
      assert Run(cur, s[..1]).depth == 0;
      ScanStaysIdle(next, s[1..], t);
    }
  }

  // Reading on in an object that is closed by the last character of `s`.
  lemma {:induction false} ScanClosesObject(cur: Cursor, open: string, s: string, t: string)
    requires s != "" && cur.depth > 0
    requires forall k :: 0 <= k < |s| ==> Run(cur, s[..k]).depth > 0
    requires Run(cur, s) == Start
    ensures Scan(cur, open, s + t) == [open + s] + Candidates(t)
    decreases |s|
  {
    var next := Step(cur, s[0]);
    assert (s + t)[1..] == s[1..] + t;
    if |s| == 1 {
      assert next == Run(next, s[1..]) == Start;
      assert s[1..] + t == t && open + [s[0]] == open + s;
    } else {
      forall k | 0 <= k < |s| - 1 ensures Run(next, s[1..][..k]).depth > 0 {
        assert s[..k + 1][1..] == s[1..][..k];
        assert Run(cur, s[..k + 1]).depth > 0;
      }
      assert s[1..][..0] == "";
      ScanClosesObject(next, open + [s[0]], s[1..], t);
      assert open + [s[0]] + s[1..] == open + s;
    }
  }

  lemma ScanTakesObject(s: string, t: string)
    requires IsObject(s)
    ensures Candidates(s + t) == [s] + Candidates(t)
  {
    var next := Step(Start, s[0]);
    assert (s + t)[1..] == s[1..] + t;
    assert s[1..] != "" by {
      if s[1..] == "" { assert Run(Start, s) == next; }
    }
    forall k | 0 <= k < |s| - 1 ensures Run(next, s[1..][..k]).depth > 0 {
      assert s[..k + 1][1..] == s[1..][..k];
      assert Run(Start, s[..k + 1]).depth > 0;
    }
    assert "" + [s[0]] == [s[0]] && Run(next, s[1..]) == Start;
    ScanClosesObject(next, [s[0]], s[1..], t);
    assert [s[0]] + s[1..] == s;
  }

  lemma {:induction false} ScanNeverCloses(cur: Cursor, open: string, s: string)
    requires forall j, k :: 0 <= j <= k <= |s| && Run(cur, s[..j]).depth > 0 ==> Run(cur, s[..k]).depth > 0
    requires cur.depth == 0 ==> open == ""
    ensures Scan(cur, open, s) == []
    decreases |s|
  {
    if s != "" {
      var next := Step(cur, s[0]);
      assert s[..1][1..] == "" && s[..0] == "";
      assert Run(cur, s[..0]) == cur && Run(cur, s[..1]) == next;
      forall j, k | 0 <= j <= k <= |s| - 1 && Run(next, s[1..][..j]).depth > 0
        ensures Run(next, s[1..][..k]).depth > 0
      {
        assert s[..j + 1][1..] == s[1..][..j] && s[..k + 1][1..] == s[1..][..k];
        assert Run(cur, s[..j + 1]).depth > 0;
      }
      if next.depth > 0 {
        ScanNeverCloses(next, open + [s[0]], s[1..]);
      } else {
        ScanNeverCloses(next, "", s[1..]);
      }
    }
  }

  // However a text is made of prose and objects, the objects are what the scan returns, in order.
  lemma {:induction false} CutOutObjectsAreFound(text: string, gaps: seq<string>, objects: seq<string>)
    requires CutsOut(text, gaps, objects)
    ensures Candidates(text) == objects
    decreases |objects|
  {
    if objects == [] {
      ScanNeverCloses(Start, "", text);
    } else {
      var rest := Interleave(gaps[1..], objects[1..]);
      assert text == gaps[0] + (objects[0] + rest);
      assert Quiet(gaps[0]) && IsObject(objects[0]);
      ScanStaysIdle(Start, gaps[0], objects[0] + rest);
      ScanTakesObject(objects[0], rest);
      forall i | 0 <= i < |objects| - 1 ensures IsObject(objects[1..][i]) && Quiet(gaps[1..][i]) {
        assert IsObject(objects[i + 1]) && Quiet(gaps[i + 1]);
      }
      CutOutObjectsAreFound(rest, gaps[1..], objects[1..]);
    }
  }

  // The first position from k on with an object open (or with none), one past the end if there is none.
  ghost function FirstOpen(s: string, open: bool, k: nat): (r: nat)
    requires k <= |s| + 1
    ensures k <= r <= |s| + 1
    ensures forall i :: k <= i < r ==> (Run(Start, s[..i]).depth > 0) != open
    ensures r <= |s| ==> (Run(Start, s[..r]).depth > 0) == open
    decreases |s| + 1 - k
  {
    if k == |s| + 1 || (Run(Start, s[..k]).depth > 0) == open then k else FirstOpen(s, open, k + 1)
  }

  lemma RunSnoc(s: string, k: nat)
    requires k < |s|
    ensures Run(Start, s[..k + 1]) == Step(Run(Start, s[..k]), s[k])
  {
    assert s[..k + 1] == s[..k] + [s[k]];
    RunConcat(Start, s[..k], [s[k]]);
    assert [s[k]][1..] == "";
  }

  lemma RunOfSuffix(s: string, m: nat, k: nat)
    requires m + k <= |s| && Run(Start, s[..m]) == Start
    ensures Run(Start, s[m..][..k]) == Run(Start, s[..m + k])
  {
    assert s[..m + k] == s[..m] + s[m..][..k];
    RunConcat(Start, s[..m], s[m..][..k]);
  }

  // What starts at m, outside any object, and is closed at n for the first time, is one object.
  lemma ObjectBetween(s: string, m: nat, n: nat)
    requires m + 1 < n <= |s| && s[m] == '{' && Run(Start, s[..m]) == Start && Run(Start, s[..n]) == Start
    requires forall i :: m < i < n ==> Run(Start, s[..i]).depth > 0
    ensures IsObject(s[m..n])
  {
    assert s[m..n] == s[m..][..n - m];
    RunOfSuffix(s, m, n - m);
    forall i | 0 < i < n - m ensures Run(Start, s[m..n][..i]).depth > 0 {
      assert s[m..n][..i] == s[m..][..i];
      RunOfSuffix(s, m, i);
      assert Run(Start, s[..m + i]).depth > 0;
    }
  }

  // The first object of a text that has one: where it starts and ends.
  lemma FirstObject(s: string) returns (m: nat, n: nat)
    requires !Unfinished(s)
    ensures m < n <= |s| && Quiet(s[..m]) && IsObject(s[m..n])
  {
    var j, k :| 0 <= j <= k <= |s| && Run(Start, s[..j]).depth > 0 && Run(Start, s[..k]).depth == 0;
    assert s[..0] == "";
    var r := FirstOpen(s, true, 0);
    m := r - 1;
    RunSnoc(s, m);
    assert Run(Start, s[..m]).depth == 0;
    forall i | 0 <= i <= m ensures Run(Start, s[..m][..i]).depth == 0 {
      assert s[..m][..i] == s[..i];
    }
    n := FirstOpen(s, false, r);
    RunSnoc(s, n - 1);
    assert Run(Start, s[..n - 1]).depth > 0;
    ObjectBetween(s, m, n);
  }

  // Any text at all can be cut up.
  lemma {:induction false} EveryTextIsCutUp(text: string) returns (gaps: seq<string>)
    ensures CutsOut(text, gaps, Candidates(text))
    decreases |text|
  {
    if Unfinished(text) {
      gaps := [text];
      CutOutObjectsAreFound(text, gaps, []);
    } else {
      var m, n := FirstObject(text);
      var rest := text[n..];
      var tail := EveryTextIsCutUp(rest);
      gaps := [text[..m]] + tail;
      var objects := [text[m..n]] + Candidates(rest);
      assert gaps[1..] == tail && objects[1..] == Candidates(rest);
      assert text == text[..m] + text[m..n] + rest;
      assert CutsOut(text, gaps, objects);
      CutOutObjectsAreFound(text, gaps, objects);
    }
  }

  // The candidates of any text are disjoint and ordered substrings of it, each one
  // whole object, with no object in between - and nothing else is.
  lemma CandidatesAreTheObjectsCutOut(text: string, objects: seq<string>)
    ensures objects == Candidates(text) <==> exists gaps :: CutsOut(text, gaps, objects)
  {
    var gaps := EveryTextIsCutUp(text);
    if exists other :: CutsOut(text, other, objects) {
      var other :| CutsOut(text, other, objects);
      CutOutObjectsAreFound(text, other, objects);
    }
  }

  // ---- JSON texts, as sections 2 to 7 of RFC 8259 allow them to be written

  datatype StringChar = Plain(c: char) | Escape(c: char) | Unicode(digits: string)

  // White space may stand on either side of every structural character.
  datatype Value =
    | Literal(text: string)
    | Number(text: string)
    | Str(chars: seq<StringChar>)
    | Arr(blank: string, items: Items)
    | Obj(blank: string, members: Members)
  datatype Items = NoItem | Item(before: string, value: Value, after: string, more: Items)
  datatype Members =
    | NoMember
    | Member(before: string, name: seq<StringChar>, colonBefore: string, colonAfter: string,
        value: Value, after: string, more: Members)

  predicate IsBlank(s: string) {
    forall c :: c in s ==> c == ' ' || c == '\t' || c == '\n' || c == '\r'
  }

  // Section 7: what may stand in a string unescaped, after a backslash, or in a \u escape.
  predicate StringCharOk(ch: StringChar) {
    match ch
    case Plain(c) => c >= ' ' && c != '"' && c != '\\'
    case Escape(c) =>
      c == '"' || c == '\\' || c == '/' || c == 'b' || c == 'f' || c == 'n' || c == 'r' || c == 't'
    case Unicode(digits) => |digits| == 4 && forall c :: c in digits ==> IsHexDigit(c)
  }

  predicate IsHexDigit(c: char) {
    '0' <= c <= '9' || 'a' <= c <= 'f' || 'A' <= c <= 'F'
  }

  predicate StringOk(chars: seq<StringChar>) {
    forall ch :: ch in chars ==> StringCharOk(ch)
  }

  // Any run of the characters numbers are made of; section 6 allows only some of them.
  predicate NumberOk(s: string) {
    forall c :: c in s ==> '0' <= c <= '9' || c == '+' || c == '-' || c == '.' || c == 'e' || c == 'E'
  }

  predicate ValueOk(v: Value) {
    match v
    case Literal(text) => text == "true" || text == "false" || text == "null"
    case Number(text) => NumberOk(text)
    case Str(chars) => StringOk(chars)
    case Arr(blank, items) => IsBlank(blank) && ItemsOk(items)
    case Obj(blank, members) => IsBlank(blank) && MembersOk(members)
  }

  predicate ItemsOk(items: Items) {
    items.Item? ==>
      && IsBlank(items.before) && IsBlank(items.after) && ValueOk(items.value) && ItemsOk(items.more)
  }

  predicate MembersOk(members: Members) {
    members.Member? ==>
      && IsBlank(members.before) && IsBlank(members.colonBefore) && IsBlank(members.colonAfter)
      && IsBlank(members.after)
      && StringOk(members.name) && ValueOk(members.value) && MembersOk(members.more)
  }

  function PrintChar(ch: StringChar): string {
    match ch
    case Plain(c) => [c]
    case Escape(c) => ['\\', c]
    case Unicode(digits) => "\\u" + digits
  }

  function PrintChars(chars: seq<StringChar>): string {
    if chars == [] then "" else PrintChar(chars[0]) + PrintChars(chars[1..])
  }

  function PrintString(chars: seq<StringChar>): string {
    "\"" + PrintChars(chars) + "\""
  }

  function Print(v: Value): string {
    match v
    case Literal(text) => text
    case Number(text) => text
    case Str(chars) => PrintString(chars)
    case Arr(blank, items) => "[" + blank + PrintItems(items) + "]"
    case Obj(blank, members) => "{" + (blank + PrintMembers(members)) + "}"
  }

  function PrintItems(items: Items): string {
    match items
    case NoItem => ""
    case Item(before, value, after, more) =>
      before + Print(value) + after + (if more.NoItem? then "" else ",") + PrintItems(more)
  }

  function PrintMembers(members: Members): string {
    match members
    case NoMember => ""
    case Member(before, name, colonBefore, colonAfter, value, after, more) =>
      before + PrintString(name) + colonBefore + ":" + colonAfter + Print(value) + after
      + (if more.NoMember? then "" else ",") + PrintMembers(more)
  }

  // ---- Printed values are balanced, whatever their strings contain

  // Reading `s` leads from one cursor to the other and never to a depth below d.
  ghost predicate Leads(from: Cursor, s: string, to: Cursor, d: nat) {
    && Run(from, s) == to
    && forall k :: 0 <= k <= |s| ==> Run(from, s[..k]).depth >= d
  }

  // The braces of `s`, read from depth d and outside string literals, never close
  // more than they open, and are balanced at the end.
  ghost predicate Balanced(s: string, d: nat) {
    Leads(Cursor(Outside, d), s, Cursor(Outside, d), d)
  }

  lemma LeadsConcat(a: Cursor, s: string, b: Cursor, t: string, c: Cursor, d: nat)
    requires Leads(a, s, b, d) && Leads(b, t, c, d)
    ensures Leads(a, s + t, c, d)
  {
    RunConcat(a, s, t);
    forall k | 0 <= k <= |s + t| ensures Run(a, (s + t)[..k]).depth >= d {
      if k <= |s| {
        assert (s + t)[..k] == s[..k];
        assert Run(a, s[..k]).depth >= d;
      } else {
        assert (s + t)[..k] == s + t[..k - |s|];
        RunConcat(a, s, t[..k - |s|]);
        assert Run(b, t[..k - |s|]).depth >= d;
      }
    }
  }

  lemma LeadsByOne(from: Cursor, ch: char, d: nat)
    requires from.depth >= d && Step(from, ch).depth >= d
    ensures Leads(from, [ch], Step(from, ch), d)
  {
    assert [ch][1..] == "";
    forall k | 0 <= k <= 1 ensures Run(from, [ch][..k]).depth >= d {
      assert [ch][..k] == if k == 0 then "" else [ch];
    }
  }

  // Characters that do not move the cursor.
  lemma {:induction false} LeadsNowhere(at: Cursor, s: string)
    requires forall c :: c in s ==> Step(at, c) == at
    ensures Leads(at, s, at, at.depth)
    decreases |s|
  {
    if s != "" {
      assert s[0] in s;
      LeadsByOne(at, s[0], at.depth);
      forall c | c in s[1..] ensures Step(at, c) == at { assert c in s; }
      LeadsNowhere(at, s[1..]);
      LeadsConcat(at, [s[0]], at, s[1..], at, at.depth);
      assert [s[0]] + s[1..] == s;
    }
  }

  lemma PrintedCharStaysInString(ch: StringChar, d: nat)
    requires StringCharOk(ch)
    ensures Leads(Cursor(InString, d), PrintChar(ch), Cursor(InString, d), d)
  {
    var inside, escaping := Cursor(InString, d), Cursor(Escaping, d);
    if ch.Plain? {
      LeadsByOne(inside, ch.c, d);
    } else {
      LeadsByOne(inside, '\\', d);
      var c := if ch.Escape? then ch.c else 'u';
      LeadsByOne(escaping, c, d);
      LeadsConcat(inside, ['\\'], escaping, [c], inside, d);
      assert ['\\'] + [c] == ['\\', c];
      if ch.Unicode? {
        LeadsNowhere(inside, ch.digits);
        LeadsConcat(inside, ['\\', c], inside, ch.digits, inside, d);
      }
    }
  }

  lemma {:induction false} PrintedCharsStayInString(chars: seq<StringChar>, d: nat)
    requires StringOk(chars)
    ensures Leads(Cursor(InString, d), PrintChars(chars), Cursor(InString, d), d)
  {
    var inside := Cursor(InString, d);
    if chars == [] {
      LeadsNowhere(inside, "");
    } else {
      PrintedCharStaysInString(chars[0], d);
      PrintedCharsStayInString(chars[1..], d);
      LeadsConcat(inside, PrintChar(chars[0]), inside, PrintChars(chars[1..]), inside, d);
    }
  }

  lemma PrintedStringIsBalanced(chars: seq<StringChar>, d: nat)
    requires StringOk(chars)
    ensures Balanced(PrintString(chars), d)
  {
    var outside, inside := Cursor(Outside, d), Cursor(InString, d);
    LeadsByOne(outside, '"', d);
    PrintedCharsStayInString(chars, d);
    LeadsByOne(inside, '"', d);
    LeadsConcat(outside, "\"", inside, PrintChars(chars), inside, d);
    LeadsConcat(outside, "\"" + PrintChars(chars), inside, "\"", outside, d);
  }

  // Text without quotes and braces.
  lemma PlainTextIsBalanced(s: string, d: nat)
    requires forall c :: c in s ==> c != '"' && c != '{' && c != '}'
    ensures Balanced(s, d)
  {
    LeadsNowhere(Cursor(Outside, d), s);
  }

  lemma BalancedConcat(s: string, t: string, d: nat)
    requires Balanced(s, d) && Balanced(t, d)
    ensures Balanced(s + t, d)
  {
    LeadsConcat(Cursor(Outside, d), s, Cursor(Outside, d), t, Cursor(Outside, d), d);
  }

  lemma BracketsAroundBalanced(blank: string, body: string, d: nat)
    requires IsBlank(blank) && Balanced(body, d)
    ensures Balanced("[" + blank + body + "]", d)
  {
    PlainTextIsBalanced("[" + blank, d);
    PlainTextIsBalanced("]", d);
    BalancedConcat("[" + blank, body, d);
    BalancedConcat("[" + blank + body, "]", d);
  }

  lemma BracesAroundBalanced(body: string, d: nat)
    requires Balanced(body, d + 1)
    ensures Balanced("{" + body + "}", d)
  {
    var outer, inner := Cursor(Outside, d), Cursor(Outside, d + 1);
    LeadsByOne(outer, '{', d);
    LeadsByOne(inner, '}', d);
    assert Leads(inner, body, inner, d) by {
      forall k | 0 <= k <= |body| ensures Run(inner, body[..k]).depth >= d {
        assert Run(inner, body[..k]).depth >= d + 1;
      }
    }
    LeadsConcat(outer, "{", inner, body, inner, d);
    LeadsConcat(outer, "{" + body, inner, "}", outer, d);
  }

  lemma BracesMakeAnObject(body: string)
    requires Balanced(body, 1)
    ensures IsObject("{" + body + "}")
  {
    BracesAroundBalanced(body, 0);
    var s := "{" + body + "}";
    forall k | 0 < k < |s| ensures Run(Start, s[..k]).depth > 0 {
      assert s[..k] == "{" + body[..k - 1];
      RunConcat(Start, "{", body[..k - 1]);
      LeadsByOne(Start, '{', 0);
      assert Run(Cursor(Outside, 1), body[..k - 1]).depth >= 1;
    }
  }

  lemma PrintedScalarIsBalanced(v: Value, d: nat)
    requires ValueOk(v) && (v.Literal? || v.Number?)
    ensures Balanced(v.text, d)
  {
    PlainTextIsBalanced(v.text, d);
  }

  lemma {:induction false} PrintedValueIsBalanced(v: Value, d: nat)
    requires ValueOk(v)
    ensures Balanced(Print(v), d)
    decreases v
  {
    match v
    case Literal(text) => PrintedScalarIsBalanced(v, d);
    case Number(text) => PrintedScalarIsBalanced(v, d);
    case Str(chars) => PrintedStringIsBalanced(chars, d);
    case Arr(blank, items) =>
      PrintedItemsAreBalanced(items, d);
      BracketsAroundBalanced(blank, PrintItems(items), d);
    case Obj(blank, members) =>
      PrintedMembersAreBalanced(members, d + 1);
      PlainTextIsBalanced(blank, d + 1);
      BalancedConcat(blank, PrintMembers(members), d + 1);
      BracesAroundBalanced(blank + PrintMembers(members), d);
  }

  lemma {:induction false} PrintedItemsAreBalanced(items: Items, d: nat)
    requires ItemsOk(items)
    ensures Balanced(PrintItems(items), d)
    decreases items
  {
    match items
    case NoItem => PlainTextIsBalanced("", d);
    case Item(before, value, after, more) =>
      var comma := if more.NoItem? then "" else ",";
      PrintedValueIsBalanced(value, d);
      PrintedItemsAreBalanced(more, d);
      PlainTextIsBalanced(before, d);
      PlainTextIsBalanced(after, d);
      PlainTextIsBalanced(comma, d);
      BalancedConcat(before, Print(value), d);
      BalancedConcat(before + Print(value), after, d);
      BalancedConcat(before + Print(value) + after, comma, d);
      BalancedConcat(before + Print(value) + after + comma, PrintItems(more), d);
  }

  lemma {:induction false} PrintedMembersAreBalanced(members: Members, d: nat)
    requires MembersOk(members)
    ensures Balanced(PrintMembers(members), d)
    decreases members
  {
    match members
    case NoMember => PlainTextIsBalanced("", d);
    case Member(before, name, colonBefore, colonAfter, value, after, more) =>
      var comma := if more.NoMember? then "" else ",";
      PrintedStringIsBalanced(name, d);
      PrintedValueIsBalanced(value, d);
      PrintedMembersAreBalanced(more, d);
      PlainTextIsBalanced(before, d);
      PlainTextIsBalanced(colonBefore, d);
      PlainTextIsBalanced(":", d);
      PlainTextIsBalanced(colonAfter, d);
      PlainTextIsBalanced(after, d);
      PlainTextIsBalanced(comma, d);
      var s := before;
      BalancedConcat(s, PrintString(name), d); s := s + PrintString(name);
      BalancedConcat(s, colonBefore, d); s := s + colonBefore;
      BalancedConcat(s, ":", d); s := s + ":";
      BalancedConcat(s, colonAfter, d); s := s + colonAfter;
      BalancedConcat(s, Print(value), d); s := s + Print(value);
      BalancedConcat(s, after, d); s := s + after;
      BalancedConcat(s, comma, d); s := s + comma;
      BalancedConcat(s, PrintMembers(more), d);
  }

  // A printed object is one object to the scan: no brace inside it, quoted or not, ends it early.
  lemma PrintedObjectIsOne(v: Value)
    requires v.Obj? && ValueOk(v)
    ensures IsObject(Print(v))
  {
    PrintedMembersAreBalanced(v.members, 1);
    PlainTextIsBalanced(v.blank, 1);
    BalancedConcat(v.blank, PrintMembers(v.members), 1);
    BracesMakeAnObject(v.blank + PrintMembers(v.members));
  }

  // ---- Recovering printed objects from an answer

  // Prose: no quote and no opening brace (a stray closing brace is harmless).
  predicate IsProse(s: string) {
    '"' !in s && '{' !in s
  }

  lemma ProseIsQuiet(s: string)
    requires IsProse(s)
    ensures Quiet(s) && Unfinished(s)
  {
    LeadsNowhere(Start, s);
    forall k | 0 <= k <= |s| ensures Run(Start, s[..k]).depth == 0 {
      LeadsNowhere(Start, s[..k]);
    }
  }

  function PrintAll(objects: seq<Value>): (r: seq<string>)
    ensures |r| == |objects| && forall i :: 0 <= i < |r| ==> r[i] == Print(objects[i])
  {
    seq(|objects|, i requires 0 <= i < |objects| => Print(objects[i]))
  }

  // However objects are printed, and whatever prose stands around and between them,
  // the scan returns their texts, all of them, in order.
  lemma PrintedObjectsAreRecovered(objects: seq<Value>, prose: seq<string>)
    requires |prose| == |objects| + 1
    requires forall v :: v in objects ==> v.Obj? && ValueOk(v)
    requires forall s :: s in prose ==> IsProse(s)
    ensures Candidates(Interleave(prose, PrintAll(objects))) == PrintAll(objects)
  {
    var texts := PrintAll(objects);
    forall i | 0 <= i < |texts| ensures IsObject(texts[i]) && Quiet(prose[i]) {
      PrintedObjectIsOne(objects[i]);
      ProseIsQuiet(prose[i]);
    }
    ProseIsQuiet(prose[|texts|]);
    CutOutObjectsAreFound(Interleave(prose, texts), prose, texts);
  }

  // ---- The scanner itself

  function AsCursor(inString: bool, escaping: bool, depth: nat): Cursor {
    Cursor(if escaping then Escaping else if inString then InString else Outside, depth)
  }

  // What remains to be found once text[..i] has been read and an object may be open since `start`.
  function Remaining(cur: Cursor, text: string, start: int, i: nat): seq<string>
    requires i <= |text| && start <= i
  {
    Scan(cur, if start >= 0 then text[start..i] else "", text[i..])
  }

  // Where the open object starts after one more character.
  function NextStart(cur: Cursor, start: int, i: nat, ch: char): int {
    var next := Step(cur, ch);
    if next.depth == 0 && cur.depth > 0 then -1 else if next.depth > 0 && cur.depth == 0 then i else start
  }

  // The object that character completes, if any.
  function Completed(cur: Cursor, text: string, start: int, i: nat): seq<string>
    requires i < |text| && start <= i && (cur.depth > 0 ==> start >= 0)
  {
    if Step(cur, text[i]).depth == 0 && cur.depth > 0 then [text[start..i + 1]] else []
  }

  lemma RemainingStep(cur: Cursor, text: string, start: int, i: nat)
    requires i < |text| && start <= i && (cur.depth > 0 <==> start >= 0)
    ensures Remaining(cur, text, start, i)
         == Completed(cur, text, start, i)
           + Remaining(Step(cur, text[i]), text, NextStart(cur, start, i, text[i]), i + 1)
  {
    assert text[i..][1..] == text[i + 1..];
    assert start >= 0 ==> text[start..i + 1] == text[start..i] + [text[i]];
    assert text[i..i + 1] == "" + [text[i]];
  }

  lemma FoundSoFar(before: seq<string>, completed: seq<string>, rest: seq<string>)
    ensures before + (completed + rest) == before + completed + rest
  {
  }

  method ExtractBalancedObjectCandidates(text: string) returns (candidates: seq<string>)
    ensures candidates == Candidates(text)
  {
    candidates := [];
    var depth := 0;
    var start := -1;
    var inString := false;
    var escaping := false;
    for i := 0 to |text|
      invariant depth >= 0 && (escaping ==> inString) && start < i
      invariant depth > 0 <==> start >= 0
      invariant depth > 0 ==> text[start] == '{'
      invariant candidates + Remaining(AsCursor(inString, escaping, depth), text, start, i) == Candidates(text)
    {
      ghost var cur, from, found := AsCursor(inString, escaping, depth), start, candidates;
      RemainingStep(cur, text, start, i);
      var ch := text[i];
      if inString {
        if escaping {
          escaping := false;
        } else if ch == '\\' {
          escaping := true;
        } else if ch == '"' {
          inString := false;
        }
      } else if ch == '"' {
        inString := true;
      } else if ch == '{' {
        if depth == 0 {
          start := i;
        }
        depth := depth + 1;
      } else if ch == '}' && depth > 0 {
        depth := depth - 1;
        if depth == 0 && start >= 0 {
          Text.TrimmedIsFixed(text[start..i + 1]);
          var value := Text.Trim(text[start..i + 1]);
          if value != "" {
            candidates := candidates + [value];
          }
          start := -1;
        }
      }
      assert AsCursor(inString, escaping, depth) == Step(cur, ch) && start == NextStart(cur, from, i, ch);
      assert candidates == found + Completed(cur, text, from, i);
      FoundSoFar(found, Completed(cur, text, from, i), Remaining(Step(cur, ch), text, start, i + 1));
    }
  }
}
