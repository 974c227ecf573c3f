// Writing the configuration into a .env file: the first line of every key is replaced,
// keys without a line are appended, everything else stays.
module EnvExport {
  import opened Options
  import opened Sequences
  import opened Text

  // ---- Values

  predicate NeedsQuotes(value: string) {
    exists i :: 0 <= i < |value| && (IsSpace(value[i]) || value[i] == '#' || value[i] == '"' || value[i] == '\'')
  }

  function HexDigit(n: nat): char
    requires n < 16
  {
    "0123456789abcdef"[n]
  }

  // JSON.stringify of one character (section 25.5.2.3 of ECMA-262).
  function QuoteChar(c: char): string {
    if c == '"' then "\\\""
    else if c == '\\' then "\\\\"
    else if c == '\U{0008}' then "\\b"
    else if c == '\t' then "\\t"
    else if c == '\n' then "\\n"
    else if c == '\U{000C}' then "\\f"
    else if c == '\r' then "\\r"
    else if c < ' ' then "\\u00" + [HexDigit((c as int / 16) % 16), HexDigit(c as int % 16)]
    else [c]
  }

  function QuoteChars(value: string): string {
    if value == "" then "" else QuoteChar(value[0]) + QuoteChars(value[1..])
  }

  function EncodeEnvValue(value: string): string {
    if value == "" then ""
    else if NeedsQuotes(value) then "\"" + QuoteChars(value) + "\""
    else value
  }

  predicate NoBreak(s: string) {
    '\n' !in s && '\r' !in s
  }

  lemma {:induction false} QuotedHasNoBreak(value: string)
    ensures NoBreak(QuoteChars(value))
  {
    if value != "" {
      QuotedHasNoBreak(value[1..]);
      HexIsNoBreak((value[0] as int / 16) % 16);
      HexIsNoBreak(value[0] as int % 16);
    }
  }

  lemma HexIsNoBreak(n: nat)
    requires n < 16
    ensures HexDigit(n) != '\n' && HexDigit(n) != '\r'
  {
  }

  // Whatever the value, its encoded form stays on one line.
  lemma EncodedHasNoBreak(value: string)
    ensures NoBreak(EncodeEnvValue(value))
  {
    QuotedHasNoBreak(value);
    if !NeedsQuotes(value) {
      forall i | 0 <= i < |value| ensures value[i] != '\n' && value[i] != '\r' {
        assert !IsSpace(value[i]);
      }
    }
  }

  // ---- Lines and the keys they set

  predicate StartsName(c: char) {
    'A' <= c <= 'Z' || 'a' <= c <= 'z' || c == '_'
  }

  predicate InName(c: char) {
    StartsName(c) || '0' <= c <= '9'
  }

  function NameLength(s: string): (n: nat)
    ensures n <= |s|
  {
    if s != "" && InName(s[0]) then 1 + NameLength(s[1..]) else 0
  }

  // ^\s*([A-Za-z_][A-Za-z0-9_]*)\s*= : the three parts share no characters, so taking as
  // much as possible for each is the only way to match.
  function KeyOf(line: string): Option<string> {
    var s := TrimStart(line);
    var n := NameLength(s);
    var rest := TrimStart(s[n..]);
    if n > 0 && StartsName(s[0]) && rest != "" && rest[0] == '=' then Some(s[..n]) else None
  }

  predicate IsName(key: string) {
    key != "" && StartsName(key[0]) && forall i :: 0 <= i < |key| ==> InName(key[i])
  }

  type Values = map<string, string>

  function ValueOf(values: Values, key: string): string {
    if key in values then values[key] else ""
  }

  function KeyLine(key: string, values: Values): string {
    key + "=" + EncodeEnvValue(ValueOf(values, key))
  }

  lemma {:induction false} NameIsTaken(key: string, rest: string)
    requires (forall i :: 0 <= i < |key| ==> InName(key[i])) && (rest == "" || !InName(rest[0]))
    ensures NameLength(key + rest) == |key|
  {
    if key == "" {
      assert key + rest == rest;
    } else {
      assert (key + rest)[1..] == key[1..] + rest;
      NameIsTaken(key[1..], rest);
    }
  }

  lemma NameThenEquals(key: string, value: string)
    requires IsName(key)
    ensures KeyOf(key + "=" + value) == Some(key)
  {
    var rest := "=" + value;
    var line := key + rest;
    assert key + "=" + value == line;
    NameIsTaken(key, rest);
    assert !IsSpace(line[0]);
    assert TrimStart(line) == line && TrimStart(rest) == rest;
    assert line[|key|..] == rest && line[..|key|] == key;
  }

  lemma KeyLineSetsKey(key: string, values: Values)
    requires IsName(key)
    ensures KeyOf(KeyLine(key, values)) == Some(key) && NoBreak(KeyLine(key, values)) && KeyLine(key, values) != ""
  {
    NameThenEquals(key, EncodeEnvValue(ValueOf(values, key)));
    EncodedHasNoBreak(ValueOf(values, key));
    forall i | 0 <= i < |key| ensures key[i] != '\n' && key[i] != '\r' { assert InName(key[i]); }
  }

  predicate EndsInCr(line: string) {
    line != "" && line[|line| - 1] == '\r'
  }

  function DropCr(line: string): string {
    if EndsInCr(line) then line[..|line| - 1] else line
  }

  lemma {:induction false} TrimStartWithCr(s: string)
    ensures TrimStart(s + "\r") == if TrimStart(s) == "" then "" else TrimStart(s) + "\r"
  {
    if s != "" {
      assert (s + "\r")[1..] == s[1..] + "\r";
      if IsSpace(s[0]) { TrimStartWithCr(s[1..]); }
    } else {
      assert ("" + "\r")[1..] == "";
    }
  }

  lemma {:induction false} NameLengthWithCr(s: string)
    ensures NameLength(s + "\r") == NameLength(s)
  {
    if s != "" {
      assert (s + "\r")[1..] == s[1..] + "\r";
      NameLengthWithCr(s[1..]);
    }
  }

  // A carriage return at the end makes no difference to the key.
  lemma DropCrKeepsKey(line: string)
    ensures KeyOf(DropCr(line)) == KeyOf(line)
  {
    if EndsInCr(line) {
      var init := DropCr(line);
      assert line == init + "\r";
      TrimStartWithCr(init);
      var s := TrimStart(init);
      if s != "" {
        NameLengthWithCr(s);
        var n := NameLength(s);
        assert (s + "\r")[n..] == s[n..] + "\r" && (s + "\r")[..n] == s[..n];
        TrimStartWithCr(s[n..]);
      }
    }
  }

  // source.split(/\r?\n/), and no lines at all for an empty file.
  function SplitLines(source: string): seq<string> {
    if source == "" then [] else WithoutCrs(Split(source, '\n'))
  }

  // One carriage return before each line feed belongs to the line break.
  function WithoutCrs(parts: seq<string>): (lines: seq<string>)
    ensures |lines| == |parts|
    ensures forall i :: 0 <= i < |parts| ==> lines[i] == if i < |parts| - 1 then DropCr(parts[i]) else parts[i]
  {
    seq(|parts|, i requires 0 <= i < |parts| => if i < |parts| - 1 then DropCr(parts[i]) else parts[i])
  }

  // ---- Replacing

  // The lines after replacing the first line of every remaining key, and the keys found.
  function Replaced(lines: seq<string>, remaining: set<string>, values: Values): (seq<string>, seq<string>) {
    if lines == [] then ([], [])
    else
      var key := KeyOf(lines[0]);
      if key.Some? && key.value in remaining then
        var (rest, found) := Replaced(lines[1..], remaining - {key.value}, values);
        ([KeyLine(key.value, values)] + rest, [key.value] + found)
      else
        var (rest, found) := Replaced(lines[1..], remaining, values);
        ([lines[0]] + rest, found)
  }

  function Missing(keys: seq<string>, found: seq<string>): seq<string> {
    if keys == [] then []
    else
      var last := keys[|keys| - 1];
      Missing(keys[..|keys| - 1], found) + if last in found then [] else [last]
  }

  // The comment above the appended keys, in short parts whose characters are cheap to go through.
  const SYNCED := "# --- openTiger " + "config (synced " + "from DB) ---"

  function KeyLines(keys: seq<string>, values: Values): (lines: seq<string>)
    ensures |lines| == |keys| && forall i :: 0 <= i < |keys| ==> lines[i] == KeyLine(keys[i], values)
  {
    seq(|keys|, i requires 0 <= i < |keys| => KeyLine(keys[i], values))
  }

  // What is appended for the keys without a line.
  function Appendix(lines: seq<string>, missing: seq<string>, values: Values): seq<string> {
    if missing == [] then []
    else (if lines != [] && lines[|lines| - 1] != "" then [""] else []) + [SYNCED] + KeyLines(missing, values)
  }

  function KeySet(keys: seq<string>): set<string> {
    set key | key in keys
  }

  function AllLines(source: string, keys: seq<string>, values: Values): seq<string> {
    var (lines, found) := Replaced(SplitLines(source), KeySet(keys), values);
    lines + Appendix(lines, Missing(keys, found), values)
  }

  function UpdatedKeys(source: string, keys: seq<string>, values: Values): seq<string> {
    var (_, found) := Replaced(SplitLines(source), KeySet(keys), values);
    found + Missing(keys, found)
  }

  // content.replace(/\n+$/, "")
  function StripBreaks(s: string): string {
    if s != "" && s[|s| - 1] == '\n' then StripBreaks(s[..|s| - 1]) else s
  }

  function Content(source: string, keys: seq<string>, values: Values): string {
    StripBreaks(Join(AllLines(source, keys, values), '\n')) + "\n"
  }

  method AppendMissing(replaced: seq<string>, missingKeys: seq<string>, values: Values) returns (lines: seq<string>)
    ensures lines == replaced + Appendix(replaced, missingKeys, values)
  {
    lines := replaced;
    if missingKeys != [] {
      if lines != [] && lines[|lines| - 1] != "" {
        lines := lines + [""];
      }
      lines := lines + [SYNCED];
      lines := lines + KeyLines(missingKeys, values);
    }
  }

  method ReplaceConfigLines(source: string, keys: seq<string>, values: Values)
    returns (content: string, updatedKeys: seq<string>)
    ensures content == Content(source, keys, values) && updatedKeys == UpdatedKeys(source, keys, values)
  {
    var replaced, found := ReplaceFirstLines(SplitLines(source), KeySet(keys), values);
    var missingKeys := Missing(keys, found);
    var lines := AppendMissing(replaced, missingKeys, values);
    updatedKeys := found + missingKeys;
    content := StripBreaks(Join(lines, '\n')) + "\n";
  }

  lemma ReplacedStep(lines: seq<string>, i: nat, remaining: set<string>, values: Values)
    requires i < |lines|
    ensures var key := KeyOf(lines[i]);
      Replaced(lines[i..], remaining, values) ==
        if key.Some? && key.value in remaining then
          var rest := Replaced(lines[i + 1..], remaining - {key.value}, values);
          ([KeyLine(key.value, values)] + rest.0, [key.value] + rest.1)
        else
          var rest := Replaced(lines[i + 1..], remaining, values);
          ([lines[i]] + rest.0, rest.1)
  {
    assert lines[i..][0] == lines[i] && lines[i..][1..] == lines[i + 1..];
  }

  // lines.map(...) with its set of remaining keys.
  method ReplaceFirstLines(lines: seq<string>, keys: set<string>, values: Values)
    returns (replaced: seq<string>, updatedKeys: seq<string>)
    ensures (replaced, updatedKeys) == Replaced(lines, keys, values)
  {
    replaced, updatedKeys := [], [];
    var remaining := keys;
    assert lines[0..] == lines;
    for i := 0 to |lines|
      invariant replaced + Replaced(lines[i..], remaining, values).0 == Replaced(lines, keys, values).0
      invariant updatedKeys + Replaced(lines[i..], remaining, values).1 == Replaced(lines, keys, values).1
    {
      ReplacedStep(lines, i, remaining, values);
      var key := KeyOf(lines[i]);
      if key.None? || key.value !in remaining {
        Associate(replaced, [lines[i]], Replaced(lines[i + 1..], remaining, values).0);
        replaced := replaced + [lines[i]];
      } else {
        remaining := remaining - {key.value};
        Associate(updatedKeys, [key.value], Replaced(lines[i + 1..], remaining, values).1);
        Associate(replaced, [KeyLine(key.value, values)], Replaced(lines[i + 1..], remaining, values).0);
        updatedKeys := updatedKeys + [key.value];
        replaced := replaced + [KeyLine(key.value, values)];
      }
    }
    assert replaced + [] == replaced && updatedKeys + [] == updatedKeys;
  }

  lemma Associate(a: seq<string>, b: seq<string>, c: seq<string>)
    ensures a + (b + c) == a + b + c
  {
  }

  // ---- Every key is updated exactly once

  lemma {:induction false} FoundKeys(lines: seq<string>, remaining: set<string>, values: Values)
    ensures var found := Replaced(lines, remaining, values).1;
      && NoDuplicates(found)
      && forall key :: key in found
           <==> key in remaining && exists i :: 0 <= i < |lines| && KeyOf(lines[i]) == Some(key)
  {
    if lines != [] {
      var key := KeyOf(lines[0]);
      var rest := lines[1..];
      if key.Some? && key.value in remaining {
        FoundKeys(rest, remaining - {key.value}, values);
      } else {
        FoundKeys(rest, remaining, values);
      }
      forall k | exists i :: 0 <= i < |rest| && KeyOf(rest[i]) == Some(k)
        ensures exists i :: 0 <= i < |lines| && KeyOf(lines[i]) == Some(k)
      {
        var i :| 0 <= i < |rest| && KeyOf(rest[i]) == Some(k);
        assert lines[i + 1] == rest[i];
      }
      forall k | k !in remaining || k != (if key.Some? then key.value else "")
        ensures (exists i :: 0 <= i < |lines| && KeyOf(lines[i]) == Some(k)) ==>
          key == Some(k) || exists i :: 0 <= i < |rest| && KeyOf(rest[i]) == Some(k)
      {
        if exists i :: 0 <= i < |lines| && KeyOf(lines[i]) == Some(k) {
          var i :| 0 <= i < |lines| && KeyOf(lines[i]) == Some(k);
          if i > 0 { assert rest[i - 1] == lines[i]; }
        }
      }
    }
  }

  lemma {:induction false} MissingKeys(keys: seq<string>, found: seq<string>)
    ensures forall key :: key in Missing(keys, found) <==> key in keys && key !in found
    ensures NoDuplicates(keys) ==> NoDuplicates(Missing(keys, found))
  {
    if keys != [] {
      var init, last := keys[..|keys| - 1], keys[|keys| - 1];
      MissingKeys(init, found);
      assert keys == init + [last];
    }
  }

  lemma NoDuplicatesConcat(a: seq<string>, b: seq<string>)
    requires NoDuplicates(a) && NoDuplicates(b) && forall x :: x in a ==> x !in b
    ensures NoDuplicates(a + b)
  {
    forall j, k | 0 <= j < k < |a + b| ensures (a + b)[j] != (a + b)[k] {
      if j < |a| <= k { assert (a + b)[j] in a && (a + b)[k] in b; }
    }
  }

  // The reported keys are the configuration keys, each reported once.
  lemma EveryKeyIsUpdatedOnce(source: string, keys: seq<string>, values: Values)
    requires NoDuplicates(keys)
    ensures NoDuplicates(UpdatedKeys(source, keys, values))
    ensures forall key :: key in UpdatedKeys(source, keys, values) <==> key in keys
  {
    FoundKeys(SplitLines(source), KeySet(keys), values);
    var found := Replaced(SplitLines(source), KeySet(keys), values).1;
    MissingKeys(keys, found);
    NoDuplicatesConcat(found, Missing(keys, found));
  }

  // ---- Which lines stay

  // The key a line sets for the first time, if it is one to be replaced.
  ghost predicate SetsFirst(lines: seq<string>, i: nat, keys: set<string>)
    requires i < |lines|
  {
    && KeyOf(lines[i]).Some? && KeyOf(lines[i]).value in keys
    && forall j :: 0 <= j < i ==> KeyOf(lines[j]) != KeyOf(lines[i])
  }

  // Line by line: the first line of a key becomes its encoded value, every other line stays.
  lemma {:induction false} LinesStayOrAreReplaced(lines: seq<string>, keys: set<string>, values: Values, i: nat)
    requires i < |lines|
    ensures |Replaced(lines, keys, values).0| == |lines|
    ensures Replaced(lines, keys, values).0[i]
         == if SetsFirst(lines, i, keys) then KeyLine(KeyOf(lines[i]).value, values) else lines[i]
  {
    if i > 0 {
      var key, rest := KeyOf(lines[0]), lines[1..];
      var left := if key.Some? && key.value in keys then keys - {key.value} else keys;
      assert rest[i - 1] == lines[i];
      LinesStayOrAreReplaced(rest, left, values, i - 1);
      FirstInRest(lines, i, keys);
    } else if lines[1..] != [] {
      var key := KeyOf(lines[0]);
      var left := if key.Some? && key.value in keys then keys - {key.value} else keys;
      LinesStayOrAreReplaced(lines[1..], left, values, 0);
    }
  }

  // Being the first line of a key, seen from the second line on.
  lemma FirstInRest(lines: seq<string>, i: nat, keys: set<string>)
    requires 0 < i < |lines|
    ensures var key := KeyOf(lines[0]);
      var left := if key.Some? && key.value in keys then keys - {key.value} else keys;
      SetsFirst(lines, i, keys) <==> SetsFirst(lines[1..], i - 1, left)
  {
    var key, rest := KeyOf(lines[0]), lines[1..];
    if SetsFirst(lines, i, keys) {
      assert key != KeyOf(lines[i]);
      forall j | 0 <= j < i - 1 ensures KeyOf(rest[j]) != KeyOf(rest[i - 1]) { assert rest[j] == lines[j + 1]; }
    }
    if SetsFirst(rest, i - 1, if key.Some? && key.value in keys then keys - {key.value} else keys) {
      forall j | 0 <= j < i ensures KeyOf(lines[j]) != KeyOf(lines[i]) {
        if j > 0 { assert rest[j - 1] == lines[j]; }
      }
    }
  }

  // ---- Doing it twice

  // The first line of every remaining key already is what it would be replaced by.
  ghost predicate Settled(lines: seq<string>, remaining: set<string>, values: Values) {
    lines != [] ==>
      var key := KeyOf(lines[0]);
      if key.Some? && key.value in remaining then
        lines[0] == KeyLine(key.value, values) && Settled(lines[1..], remaining - {key.value}, values)
      else Settled(lines[1..], remaining, values)
  }

  lemma {:induction false} SettledIsFixed(lines: seq<string>, remaining: set<string>, values: Values)
    requires Settled(lines, remaining, values)
    ensures Replaced(lines, remaining, values).0 == lines
  {
    if lines != [] {
      var key := KeyOf(lines[0]);
      var left := if key.Some? && key.value in remaining then remaining - {key.value} else remaining;
      SettledIsFixed(lines[1..], left, values);
      assert [lines[0]] + lines[1..] == lines;
    }
  }

  function Keys(lines: seq<string>): set<string> {
    if lines == [] then {}
    else (if KeyOf(lines[0]).Some? then {KeyOf(lines[0]).value} else {}) + Keys(lines[1..])
  }

  lemma {:induction false} SettledConcat(a: seq<string>, b: seq<string>, remaining: set<string>, values: Values)
    requires Settled(a, remaining, values) && Settled(b, remaining - Keys(a), values)
    ensures Settled(a + b, remaining, values)
  {
    if a == [] {
      assert a + b == b && remaining - {} == remaining;
    } else {
      assert (a + b)[1..] == a[1..] + b;
      var key := KeyOf(a[0]);
      var left := if key.Some? && key.value in remaining then remaining - {key.value} else remaining;
      assert left - Keys(a[1..]) == remaining - Keys(a);
      SettledConcat(a[1..], b, left, values);
    }
  }

  lemma {:induction false} SettledPrefix(a: seq<string>, b: seq<string>, remaining: set<string>, values: Values)
    requires Settled(a + b, remaining, values)
    ensures Settled(a, remaining, values)
  {
    if a != [] {
      assert (a + b)[1..] == a[1..] + b;
      var key := KeyOf(a[0]);
      var left := if key.Some? && key.value in remaining then remaining - {key.value} else remaining;
      SettledPrefix(a[1..], b, left, values);
    }
  }

  lemma {:induction false} ReplacedIsSettled(lines: seq<string>, remaining: set<string>, values: Values)
    requires forall key :: key in remaining ==> IsName(key)
    ensures Settled(Replaced(lines, remaining, values).0, remaining, values)
  {
    if lines != [] {
      var key := KeyOf(lines[0]);
      if key.Some? && key.value in remaining {
        KeyLineSetsKey(key.value, values);
        ReplacedIsSettled(lines[1..], remaining - {key.value}, values);
      } else {
        ReplacedIsSettled(lines[1..], remaining, values);
      }
      var out := Replaced(lines, remaining, values).0;
      var left := if key.Some? && key.value in remaining then remaining - {key.value} else remaining;
      assert out[1..] == Replaced(lines[1..], left, values).0;
    }
  }

  lemma {:induction false} ReplacedKeepsKeys(lines: seq<string>, remaining: set<string>, values: Values)
    requires forall key :: key in remaining ==> IsName(key)
    ensures Keys(Replaced(lines, remaining, values).0) == Keys(lines)
  {
    if lines != [] {
      var key := KeyOf(lines[0]);
      var left := if key.Some? && key.value in remaining then remaining - {key.value} else remaining;
      if key.Some? && key.value in remaining { KeyLineSetsKey(key.value, values); }
      ReplacedKeepsKeys(lines[1..], left, values);
      assert Replaced(lines, remaining, values).0[1..] == Replaced(lines[1..], left, values).0;
    }
  }

  lemma {:induction false} KeysConcat(a: seq<string>, b: seq<string>)
    ensures Keys(a + b) == Keys(a) + Keys(b)
  {
    if a == [] {
      assert a + b == b;
    } else {
      assert (a + b)[1..] == a[1..] + b;
      KeysConcat(a[1..], b);
    }
  }

  lemma {:induction false} KeysAreFound(lines: seq<string>, key: string)
    ensures key in Keys(lines) <==> exists i :: 0 <= i < |lines| && KeyOf(lines[i]) == Some(key)
  {
    if lines != [] {
      KeysAreFound(lines[1..], key);
      if key in Keys(lines[1..]) {
        var i :| 0 <= i < |lines[1..]| && KeyOf(lines[1..][i]) == Some(key);
        assert KeyOf(lines[i + 1]) == Some(key);
      }
      if exists i :: 0 < i < |lines| && KeyOf(lines[i]) == Some(key) {
        var i :| 0 < i < |lines| && KeyOf(lines[i]) == Some(key);
        assert KeyOf(lines[1..][i - 1]) == Some(key);
      }
    }
  }

  // Lines that set nothing, or a key to its encoded value.
  predicate Settling(lines: seq<string>, values: Values) {
    forall line :: line in lines ==> SettlesKey(line, values)
  }

  predicate SettlesKey(line: string, values: Values) {
    KeyOf(line).None? || line == KeyLine(KeyOf(line).value, values)
  }

  lemma {:induction false} SettlingIsSettled(lines: seq<string>, remaining: set<string>, values: Values)
    requires Settling(lines, values)
    ensures Settled(lines, remaining, values)
  {
    if lines != [] {
      assert lines[0] in lines;
      var key := KeyOf(lines[0]);
      var left := if key.Some? && key.value in remaining then remaining - {key.value} else remaining;
      SettlingIsSettled(lines[1..], left, values);
    }
  }

  lemma SyncedSetsNothing()
    ensures KeyOf(SYNCED).None? && SYNCED != "" && KeyOf("").None?
  {
    assert SYNCED[0] == '#';
    assert TrimStart(SYNCED) == SYNCED && NameLength(SYNCED) == 0;
  }

  lemma SyncedIsOneLine()
    ensures NoBreak(SYNCED)
  {
    assert NoBreak("# --- openTiger ");
    assert NoBreak("config (synced ");
    assert NoBreak("from DB) ---");
  }

  lemma KeyLinesSettle(missing: seq<string>, values: Values)
    requires forall key :: key in missing ==> IsName(key)
    ensures Settling(KeyLines(missing, values), values)
    ensures forall line :: line in KeyLines(missing, values) ==> NoBreak(line) && line != ""
    ensures forall key :: key in missing ==> key in Keys(KeyLines(missing, values))
  {
    var lines := KeyLines(missing, values);
    forall line | line in lines ensures NoBreak(line) && line != "" && SettlesKey(line, values) {
      var k :| 0 <= k < |missing| && lines[k] == line;
      assert missing[k] in missing;
      KeyLineSetsKey(missing[k], values);
    }
    forall key | key in missing ensures key in Keys(lines) {
      var k :| 0 <= k < |missing| && missing[k] == key;
      KeyLineSetsKey(key, values);
      assert KeyOf(lines[k]) == Some(key);
      KeysAreFound(lines, key);
    }
  }

  lemma HeadSettles(head: seq<string>, values: Values)
    requires head == [SYNCED] || head == ["", SYNCED]
    ensures Settling(head, values) && forall line :: line in head ==> NoBreak(line)
  {
    SyncedSetsNothing();
    SyncedIsOneLine();
  }

  lemma AppendixSettles(lines: seq<string>, missing: seq<string>, values: Values)
    requires forall key :: key in missing ==> IsName(key)
    ensures Settling(Appendix(lines, missing, values), values)
    ensures forall key :: key in missing ==> key in Keys(Appendix(lines, missing, values))
    ensures forall line :: line in Appendix(lines, missing, values) ==> NoBreak(line)
    ensures missing != [] ==> Appendix(lines, missing, values)[|Appendix(lines, missing, values)| - 1] != ""
  {
    if missing != [] {
      KeyLinesSettle(missing, values);
      var head := if lines != [] && lines[|lines| - 1] != "" then ["", SYNCED] else [SYNCED];
      HeadSettles(head, values);
      AppendixParts(lines, missing, values, head);
      SettlingConcat(head, KeyLines(missing, values), values);
      KeysConcat(head, KeyLines(missing, values));
    }
  }

  lemma AppendixParts(lines: seq<string>, missing: seq<string>, values: Values, head: seq<string>)
    requires missing != []
    requires head == if lines != [] && lines[|lines| - 1] != "" then ["", SYNCED] else [SYNCED]
    ensures Appendix(lines, missing, values) == head + KeyLines(missing, values)
    ensures Appendix(lines, missing, values)[|head| + |missing| - 1] == KeyLine(missing[|missing| - 1], values)
  {
    assert [""] + [SYNCED] == ["", SYNCED];
    assert [] + [SYNCED] == [SYNCED];
  }

  lemma SettlingConcat(a: seq<string>, b: seq<string>, values: Values)
    requires Settling(a, values) && Settling(b, values)
    ensures Settling(a + b, values)
  {
  }

  predicate AllNames(keys: seq<string>) {
    keys != [] && forall key :: key in keys ==> IsName(key)
  }

  // The new lines set every key, first of all to its encoded value.
  lemma NewLinesAreSettled(source: string, keys: seq<string>, values: Values)
    requires AllNames(keys)
    ensures Settled(AllLines(source, keys, values), KeySet(keys), values)
    ensures KeySet(keys) <= Keys(AllLines(source, keys, values))
  {
    var before := SplitLines(source);
    var (lines, found) := Replaced(before, KeySet(keys), values);
    var missing := Missing(keys, found);
    var appendix := Appendix(lines, missing, values);
    MissingKeys(keys, found);
    ReplacedIsSettled(before, KeySet(keys), values);
    ReplacedKeepsKeys(before, KeySet(keys), values);
    AppendixSettles(lines, missing, values);
    SettlingIsSettled(appendix, KeySet(keys) - Keys(lines), values);
    SettledConcat(lines, appendix, KeySet(keys), values);
    KeysConcat(lines, appendix);
    FoundKeys(before, KeySet(keys), values);
    forall key | key in keys ensures key in Keys(lines) + Keys(appendix) {
      KeysAreFound(before, key);
    }
  }

  predicate Unbroken(lines: seq<string>) {
    forall line :: line in lines ==> '\n' !in line
  }

  lemma SplitLinesAreUnbroken(source: string)
    ensures Unbroken(SplitLines(source))
  {
    if source != "" {
      var parts := Split(source, '\n');
      PartsHaveNoSeparator(source, '\n');
      forall line | line in SplitLines(source) ensures '\n' !in line {
        var i :| 0 <= i < |parts| && SplitLines(source)[i] == line;
        assert parts[i] in parts;
      }
    }
  }

  lemma {:induction false} ReplacedIsUnbroken(lines: seq<string>, remaining: set<string>, values: Values)
    requires Unbroken(lines) && forall key :: key in remaining ==> IsName(key)
    ensures Unbroken(Replaced(lines, remaining, values).0)
  {
    if lines != [] {
      var key := KeyOf(lines[0]);
      assert lines[0] in lines && Unbroken(lines[1..]);
      if key.Some? && key.value in remaining {
        KeyLineSetsKey(key.value, values);
        ReplacedIsUnbroken(lines[1..], remaining - {key.value}, values);
      } else {
        ReplacedIsUnbroken(lines[1..], remaining, values);
      }
    }
  }

  lemma NewLinesAreUnbroken(source: string, keys: seq<string>, values: Values)
    requires AllNames(keys)
    ensures Unbroken(AllLines(source, keys, values))
  {
    SplitLinesAreUnbroken(source);
    ReplacedIsUnbroken(SplitLines(source), KeySet(keys), values);
    var (lines, found) := Replaced(SplitLines(source), KeySet(keys), values);
    MissingKeys(keys, found);
    AppendixSettles(lines, Missing(keys, found), values);
  }

  // Trailing blank lines are what the stripped line feeds were.
  function DropBlanks(lines: seq<string>): (r: seq<string>)
    ensures r <= lines && (r != [] ==> r[|r| - 1] != "")
  {
    if lines != [] && lines[|lines| - 1] == "" then DropBlanks(lines[..|lines| - 1]) else lines
  }

  lemma {:induction false} EndOfJoin(lines: seq<string>)
    requires lines != [] && lines[|lines| - 1] != ""
    ensures var s := Join(lines, '\n'); s != "" && s[|s| - 1] == lines[|lines| - 1][|lines[|lines| - 1]| - 1]
  {
    if |lines| > 1 {
      EndOfJoin(lines[1..]);
    }
  }

  lemma {:induction false} StripJoined(lines: seq<string>)
    requires Unbroken(lines) && DropBlanks(lines) != []
    ensures StripBreaks(Join(lines, '\n')) == Join(DropBlanks(lines), '\n')
    decreases |lines|
  {
    var last := lines[|lines| - 1];
    if last == "" {
      var init := lines[..|lines| - 1];
      assert lines == init + [""];
      JoinConcat(init, [""], '\n');
      var s := Join(lines, '\n');
      assert s == Join(init, '\n') + "\n";
      assert s[..|s| - 1] == Join(init, '\n');
      StripJoined(init);
    } else {
      EndOfJoin(lines);
      assert last in lines;
    }
  }

  lemma {:induction false} BlanksSetNothing(lines: seq<string>)
    ensures Keys(DropBlanks(lines)) == Keys(lines)
  {
    if lines != [] && lines[|lines| - 1] == "" {
      var init := lines[..|lines| - 1];
      assert lines == init + [""];
      KeysConcat(init, [""]);
      SyncedSetsNothing();
      assert Keys([""]) == {} + Keys([]) by { assert [""][1..] == []; }
      BlanksSetNothing(init);
    }
  }

  function Kept(source: string, keys: seq<string>, values: Values): seq<string> {
    DropBlanks(AllLines(source, keys, values))
  }

  function DropCrs(lines: seq<string>): (r: seq<string>)
    ensures |r| == |lines| && forall i :: 0 <= i < |lines| ==> r[i] == DropCr(lines[i])
  {
    seq(|lines|, i requires 0 <= i < |lines| => DropCr(lines[i]))
  }

  // The new file is the kept lines, each with a line feed; reading it again gives these
  // lines back, but for a carriage return at the end of one.
  lemma ContentLines(source: string, keys: seq<string>, values: Values)
    requires AllNames(keys)
    ensures var kept := Kept(source, keys, values);
      && kept != []
      && Content(source, keys, values) == Join(kept + [""], '\n')
      && SplitLines(Content(source, keys, values)) == DropCrs(kept) + [""]
  {
    var all := AllLines(source, keys, values);
    NewLinesAreSettled(source, keys, values);
    NewLinesAreUnbroken(source, keys, values);
    BlanksSetNothing(all);
    assert keys[0] in KeySet(keys) && keys[0] in Keys(DropBlanks(all));
    StrippedLines(all);
  }

  lemma StrippedLines(all: seq<string>)
    requires Unbroken(all) && DropBlanks(all) != []
    ensures var kept := DropBlanks(all);
      var content := StripBreaks(Join(all, '\n')) + "\n";
      && content == Join(kept + [""], '\n')
      && SplitLines(content) == DropCrs(kept) + [""]
  {
    var kept := DropBlanks(all);
    StripJoined(all);
    JoinConcat(kept, [""], '\n');
    forall line | line in kept + [""] ensures '\n' !in line {
      if line in kept { assert line in all; }
    }
    SplitJoin(kept + [""], '\n');
    assert WithoutCrs(kept + [""]) == DropCrs(kept) + [""];
  }

  // ---- The second pass

  lemma {:induction false} SettledDropCrs(lines: seq<string>, remaining: set<string>, values: Values)
    requires Settled(lines, remaining, values) && forall key :: key in remaining ==> IsName(key)
    ensures Settled(DropCrs(lines), remaining, values) && Keys(DropCrs(lines)) == Keys(lines)
  {
    if lines != [] {
      var key := KeyOf(lines[0]);
      var left := if key.Some? && key.value in remaining then remaining - {key.value} else remaining;
      DropCrKeepsKey(lines[0]);
      assert DropCrs(lines)[1..] == DropCrs(lines[1..]);
      SettledDropCrs(lines[1..], left, values);
      if key.Some? && key.value in remaining {
        KeyLineSetsKey(key.value, values);
        assert !EndsInCr(lines[0]);
      }
    }
  }

  lemma {:induction false} NothingIsMissing(keys: seq<string>, found: seq<string>)
    requires forall key :: key in keys ==> key in found
    ensures Missing(keys, found) == []
  {
    if keys != [] {
      NothingIsMissing(keys[..|keys| - 1], found);
    }
  }

  lemma SettledStays(lines: seq<string>, keys: seq<string>, values: Values)
    requires Settled(lines, KeySet(keys), values) && KeySet(keys) <= Keys(lines)
    ensures Replaced(lines, KeySet(keys), values).0 == lines
    ensures Missing(keys, Replaced(lines, KeySet(keys), values).1) == []
  {
    SettledIsFixed(lines, KeySet(keys), values);
    FoundKeys(lines, KeySet(keys), values);
    forall key | key in keys ensures key in Replaced(lines, KeySet(keys), values).1 {
      assert key in KeySet(keys);
      KeysAreFound(lines, key);
    }
    NothingIsMissing(keys, Replaced(lines, KeySet(keys), values).1);
  }

  lemma SettledWithoutBlanks(lines: seq<string>, remaining: set<string>, values: Values)
    requires Settled(lines, remaining, values)
    ensures Settled(DropBlanks(lines), remaining, values)
  {
    var kept := DropBlanks(lines);
    assert lines == kept + lines[|kept|..];
    SettledPrefix(kept, lines[|kept|..], remaining, values);
  }

  lemma KeptIsSettled(source: string, keys: seq<string>, values: Values)
    requires AllNames(keys)
    ensures Settled(Kept(source, keys, values), KeySet(keys), values)
    ensures KeySet(keys) <= Keys(Kept(source, keys, values))
  {
    NewLinesAreSettled(source, keys, values);
    BlanksSetNothing(AllLines(source, keys, values));
    SettledWithoutBlanks(AllLines(source, keys, values), KeySet(keys), values);
  }

  lemma ReadAgainIsSettled(kept: seq<string>, keys: seq<string>, values: Values)
    requires AllNames(keys) && Settled(kept, KeySet(keys), values) && KeySet(keys) <= Keys(kept)
    ensures Settled(DropCrs(kept) + [""], KeySet(keys), values) && KeySet(keys) <= Keys(DropCrs(kept) + [""])
  {
    SettledDropCrs(kept, KeySet(keys), values);
    SyncedSetsNothing();
    SettlingIsSettled([""], KeySet(keys) - Keys(DropCrs(kept)), values);
    SettledConcat(DropCrs(kept), [""], KeySet(keys), values);
    KeysConcat(DropCrs(kept), [""]);
  }

  lemma SettledFileStays(source: string, lines: seq<string>, keys: seq<string>, values: Values)
    requires SplitLines(source) == lines && Settled(lines, KeySet(keys), values) && KeySet(keys) <= Keys(lines)
    ensures AllLines(source, keys, values) == lines
  {
    SettledStays(lines, keys, values);
    assert lines + [] == lines;
  }

  // A second pass changes no line: it only reads the lines again.
  lemma SecondPass(source: string, keys: seq<string>, values: Values)
    requires AllNames(keys)
    ensures AllLines(Content(source, keys, values), keys, values) == DropCrs(Kept(source, keys, values)) + [""]
  {
    var kept := Kept(source, keys, values);
    ContentLines(source, keys, values);
    KeptIsSettled(source, keys, values);
    ReadAgainIsSettled(kept, keys, values);
    SettledFileStays(Content(source, keys, values), DropCrs(kept) + [""], keys, values);
  }

  // Every key's first line in the new file is its encoded value.
  lemma {:induction false} SettledFirstLine(lines: seq<string>, remaining: set<string>, values: Values, i: nat)
    requires Settled(lines, remaining, values) && i < |lines| && SetsFirst(lines, i, remaining)
    ensures lines[i] == KeyLine(KeyOf(lines[i]).value, values)
  {
    if i > 0 {
      var key := KeyOf(lines[0]);
      assert key != KeyOf(lines[i]);
      forall j | 0 <= j < i - 1 ensures KeyOf(lines[1..][j]) != KeyOf(lines[1..][i - 1]) {
        assert lines[1..][j] == lines[j + 1];
      }
      var left := if key.Some? && key.value in remaining then remaining - {key.value} else remaining;
      SettledFirstLine(lines[1..], left, values, i - 1);
    }
  }

  lemma {:induction false} JoinedLength(a: seq<string>, b: seq<string>)
    requires |a| == |b| && a != [] && forall i :: 0 <= i < |a| ==> |a[i]| <= |b[i]|
    ensures |Join(a, '\n')| <= |Join(b, '\n')|
    ensures (exists i :: 0 <= i < |a| && |a[i]| < |b[i]|) ==> |Join(a, '\n')| < |Join(b, '\n')|
  {
    if |a| > 1 {
      JoinedLength(a[1..], b[1..]);
      if exists i :: 0 < i < |a| && |a[i]| < |b[i]| {
        var i :| 0 < i < |a| && |a[i]| < |b[i]|;
        assert |a[1..][i - 1]| < |b[1..][i - 1]|;
      }
    }
  }

  lemma {:induction false} StripShortens(s: string)
    ensures |StripBreaks(s + "\n")| <= |s|
  {
    assert (s + "\n")[..|s|] == s;
    StripIsNoLonger(s);
  }

  lemma {:induction false} StripIsNoLonger(s: string)
    ensures |StripBreaks(s)| <= |s|
  {
    if s != "" && s[|s| - 1] == '\n' { StripIsNoLonger(s[..|s| - 1]); }
  }

  lemma BreakAfterLast(lines: seq<string>)
    requires lines != []
    ensures Join(lines + [""], '\n') == Join(lines, '\n') + "\n"
  {
    JoinConcat(lines, [""], '\n');
    assert Join(lines, '\n') + "\n" + "" == Join(lines, '\n') + "\n";
  }

  // What the first and the second pass write, and the lines that stay.
  lemma BothContents(source: string, keys: seq<string>, values: Values)
    returns (first: string, second: string, kept: seq<string>)
    requires AllNames(keys)
    ensures first == Content(source, keys, values) && second == Content(first, keys, values)
    ensures kept != [] && Unbroken(kept) && kept[|kept| - 1] != ""
    ensures first == Join(kept, '\n') + "\n" && second == StripBreaks(Join(DropCrs(kept), '\n') + "\n") + "\n"
    ensures NoStrayCr(kept) <==> NoStrayCr(AllLines(source, keys, values))
  {
    first, kept := Content(source, keys, values), Kept(source, keys, values);
    second := Content(first, keys, values);
    ContentLines(source, keys, values);
    SecondPass(source, keys, values);
    BreakAfterLast(DropCrs(kept));
    BreakAfterLast(kept);
    KeptIsUnbroken(source, keys, values);
    CrsAreKept(AllLines(source, keys, values));
  }

  lemma StripTight(lines: seq<string>)
    requires lines != [] && Unbroken(lines) && lines[|lines| - 1] != ""
    ensures StripBreaks(Join(lines, '\n') + "\n") == Join(lines, '\n')
  {
    var s := Join(lines, '\n');
    EndOfJoin(lines);
    assert lines[|lines| - 1] in lines;
    assert (s + "\n")[..|s|] == s;
  }

  predicate NoStrayCr(lines: seq<string>) {
    forall line :: line in lines ==> !EndsInCr(line)
  }

  lemma CleanLinesStay(kept: seq<string>)
    requires kept != [] && Unbroken(kept) && kept[|kept| - 1] != "" && NoStrayCr(kept)
    ensures StripBreaks(Join(DropCrs(kept), '\n') + "\n") == Join(kept, '\n')
  {
    forall i | 0 <= i < |kept| ensures DropCrs(kept)[i] == kept[i] { assert kept[i] in kept; }
    assert DropCrs(kept) == kept;
    StripTight(kept);
  }

  lemma StrayCrsAreLost(kept: seq<string>)
    requires kept != [] && !NoStrayCr(kept)
    ensures StripBreaks(Join(DropCrs(kept), '\n') + "\n") != Join(kept, '\n')
  {
    var i :| 0 <= i < |kept| && EndsInCr(kept[i]);
    assert |DropCrs(kept)[i]| < |kept[i]|;
    JoinedLength(DropCrs(kept), kept);
    StripShortens(Join(DropCrs(kept), '\n'));
  }

  lemma SameWithBreak(a: string, b: string)
    ensures a + "\n" == b + "\n" <==> a == b
  {
    if a + "\n" == b + "\n" {
      assert (a + "\n")[..|a|] == a && (b + "\n")[..|b|] == b;
    }
  }

  lemma KeptIsUnbroken(source: string, keys: seq<string>, values: Values)
    requires AllNames(keys)
    ensures Unbroken(Kept(source, keys, values))
  {
    NewLinesAreUnbroken(source, keys, values);
  }

  lemma SameIffNoStrayCr(first: string, second: string, kept: seq<string>)
    requires kept != [] && Unbroken(kept) && kept[|kept| - 1] != ""
    requires first == Join(kept, '\n') + "\n"
    requires second == StripBreaks(Join(DropCrs(kept), '\n') + "\n") + "\n"
    ensures second == first <==> NoStrayCr(kept)
  {
    SameWithBreak(StripBreaks(Join(DropCrs(kept), '\n') + "\n"), Join(kept, '\n'));
    if NoStrayCr(kept) { CleanLinesStay(kept); } else { StrayCrsAreLost(kept); }
  }

  // Every line that still ends in a carriage return, after the one that belongs to its
  // line break, is a line the first pass replaces.
  ghost predicate StrayCrsAreReplaced(lines: seq<string>, keys: set<string>) {
    forall i :: 0 <= i < |lines| && EndsInCr(lines[i]) ==> SetsFirst(lines, i, keys)
  }

  // Replacing takes away exactly the stray carriage returns of the lines it replaces.
  lemma ReplacedStrayCrs(lines: seq<string>, keys: set<string>, values: Values)
    requires forall key :: key in keys ==> IsName(key)
    ensures NoStrayCr(Replaced(lines, keys, values).0) <==> StrayCrsAreReplaced(lines, keys)
  {
    var replaced := Replaced(lines, keys, values).0;
    ReplacedLength(lines, keys, values);
    forall i | 0 <= i < |lines|
      ensures EndsInCr(replaced[i]) <==> EndsInCr(lines[i]) && !SetsFirst(lines, i, keys)
    {
      LinesStayOrAreReplaced(lines, keys, values, i);
      if SetsFirst(lines, i, keys) {
        KeyLineSetsKey(KeyOf(lines[i]).value, values);
      }
    }
    if NoStrayCr(replaced) {
      forall i | 0 <= i < |lines| && EndsInCr(lines[i]) ensures SetsFirst(lines, i, keys) {
        assert replaced[i] in replaced;
      }
    }
  }

  lemma ReplacedLength(lines: seq<string>, keys: set<string>, values: Values)
    ensures |Replaced(lines, keys, values).0| == |lines|
  {
    if lines != [] {
      LinesStayOrAreReplaced(lines, keys, values, 0);
    }
  }

  // What is appended ends in no carriage return.
  lemma StrayCrsOfSource(source: string, keys: seq<string>, values: Values)
    requires AllNames(keys)
    ensures NoStrayCr(AllLines(source, keys, values)) <==> StrayCrsAreReplaced(SplitLines(source), KeySet(keys))
  {
    var (lines, found) := Replaced(SplitLines(source), KeySet(keys), values);
    var missing := Missing(keys, found);
    ReplacedStrayCrs(SplitLines(source), KeySet(keys), values);
    MissingKeys(keys, found);
    AppendixSettles(lines, missing, values);
    var appendix := Appendix(lines, missing, values);
    forall line | line in appendix ensures !EndsInCr(line) {
      assert NoBreak(line);
    }
    NoStrayCrConcat(lines, appendix);
  }

  lemma NoStrayCrConcat(a: seq<string>, b: seq<string>)
    ensures NoStrayCr(a + b) <==> NoStrayCr(a) && NoStrayCr(b)
  {
    if NoStrayCr(a + b) {
      forall line | line in a ensures !EndsInCr(line) { assert line in a + b; }
      forall line | line in b ensures !EndsInCr(line) { assert line in a + b; }
    }
  }

  // Writing the same configuration again changes nothing exactly when every line of the
  // file that ends in two carriage returns and a line feed, and a last line that ends in
  // a carriage return, is the first line of a configuration key.
  lemma TwiceIsOnceIffNoStrayCr(source: string, keys: seq<string>, values: Values)
    requires AllNames(keys)
    ensures Content(Content(source, keys, values), keys, values) == Content(source, keys, values)
       <==> StrayCrsAreReplaced(SplitLines(source), KeySet(keys))
  {
    var first, second, kept := BothContents(source, keys, values);
    SameIffNoStrayCr(first, second, kept);
    StrayCrsOfSource(source, keys, values);
  }

  // A file whose last line ends in a carriage return without a line feed loses it only
  // in the second pass.
  lemma LastCrIsLostSecond(values: Values)
    ensures Content(Content("X\r", ["A"], values), ["A"], values) != Content("X\r", ["A"], values)
  {
    var (source, keys) := ("X\r", ["A"]);
    assert InName('A') && StartsName('A');
    SplitOne(source, '\n');
    var lines := SplitLines(source);
    assert lines == [source] && EndsInCr(lines[0]) && lines[0][0] == 'X';
    assert KeyOf(lines[0]) != Some("A");
    TwiceIsOnceIffNoStrayCr(source, keys, values);
  }

  lemma {:induction false} CrsAreKept(lines: seq<string>)
    ensures NoStrayCr(lines) <==> NoStrayCr(DropBlanks(lines))
  {
    if lines != [] && lines[|lines| - 1] == "" {
      var init := lines[..|lines| - 1];
      assert lines == init + [""];
      CrsAreKept(init);
    }
  }

  lemma {:induction false} FirstSetting(lines: seq<string>, keys: set<string>, key: string) returns (i: nat)
    requires key in Keys(lines) && key in keys
    ensures i < |lines| && KeyOf(lines[i]) == Some(key) && SetsFirst(lines, i, keys)
  {
    if KeyOf(lines[0]) == Some(key) {
      i := 0;
    } else {
      i := FirstSetting(lines[1..], keys, key);
      forall j | 0 <= j < i + 1 ensures KeyOf(lines[j]) != Some(key) {
        if j > 0 { assert lines[1..][j - 1] == lines[j]; }
      }
      i := i + 1;
    }
  }

  // In the new file, the first line that sets a configuration key sets it to its encoded value.
  lemma EveryKeyIsWritten(source: string, keys: seq<string>, values: Values, key: string) returns (i: nat)
    requires AllNames(keys) && key in keys
    ensures var lines := SplitLines(Content(source, keys, values));
      i < |lines| && SetsFirst(lines, i, KeySet(keys)) && lines[i] == KeyLine(key, values)
  {
    var lines := SplitLines(Content(source, keys, values));
    ContentLines(source, keys, values);
    KeptIsSettled(source, keys, values);
    ReadAgainIsSettled(Kept(source, keys, values), keys, values);
    assert key in KeySet(keys);
    i := FirstSetting(lines, KeySet(keys), key);
    SettledFirstLine(lines, KeySet(keys), values, i);
  }
}
