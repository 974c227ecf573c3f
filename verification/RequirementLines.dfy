// What the parser's patterns make of each kind of line the printer writes.
module RequirementLines {
  import opened Options
  import opened Text
  import opened LinePatterns
  import opened RequirementParser

  predicate SingleLine(s: string) {
    forall c :: c in s ==> !IsLineTerminator(c)
  }

  // ---- Headings

  function Hashes(level: nat): string {
    seq(level, _ => '#')
  }

  function Heading(level: nat, title: string): string {
    Hashes(level) + " " + title
  }

  lemma HeadingText(level: nat, title: string, s: string)
    requires s == Heading(level, title)
    ensures |s| == level + 1 + |title| && s[..level] == Hashes(level) && s[level] == ' ' && s[level + 1..] == title
  {
  }

  lemma HeadingPiece(level: nat, title: string, s: string, k: nat, starts: seq<nat>, pieces: seq<string>)
    requires 1 <= level <= 6 && title != "" && Trimmed(title) && SingleLine(title)
    requires s == Heading(level, title) && k < 5
    requires |s| == level + 1 + |title| && starts == [0, level, level + 1, |s|, |s|, |s|]
    requires pieces == [Hashes(level), " ", title, "", ""]
    ensures TakesPiece(HEADER, k, s, starts, pieces)
  {
    HeadingText(level, title, s);
    if k == 0 {
      assert forall j :: 0 <= j < level ==> s[j] == '#';
      assert TakesAll(HEADER[0], s, 0, level);
    } else if k == 1 {
      assert s[level + 1] == title[0] && s[level..level + 1] == " ";
      assert TakesAll(HEADER[1], s, level, level + 1);
    } else if k == 2 {
      assert s[level + 1..|s|] == title;
      assert forall j :: level + 1 <= j < |s| ==> s[j] == title[j - level - 1];
      assert TakesAll(HEADER[2], s, level + 1, |s|);
    } else {
      assert s[|s|..|s|] == "";
      if k == 3 { assert TakesAll(HEADER[3], s, |s|, |s|); }
    }
  }

  lemma HeadingIsRead(level: nat, title: string)
    requires 1 <= level <= 6 && title != "" && Trimmed(title) && SingleLine(title)
    ensures HeaderOf(Heading(level, title)) == Some(Header(level, Lower(title)))
  {
    var s := Heading(level, title);
    HeadingText(level, title, s);
    var starts, pieces := [0, level, level + 1, |s|, |s|, |s|], [Hashes(level), " ", title, "", ""];
    forall k | 0 <= k < 5 ensures TakesPiece(HEADER, k, s, starts, pieces) {
      HeadingPiece(level, title, s, k, starts, pieces);
    }
    PlannedMatch(HEADER, s, starts, pieces);
    TrimmedIsFixed(title);
  }

  lemma OnlyHashesStartHeadings(line: string)
    requires line == "" || line[0] != '#'
    ensures HeaderOf(line).None?
  {
    assert Longest(OneOf("#"), Some(6), line, 0) == 0;
  }

  // ---- List items

  predicate ItemOk(item: string) {
    item != "" && Trimmed(item) && SingleLine(item)
  }

  // An item that is not taken for part of a check box: it does not begin like one, or it is
  // nothing but that one character, which the pattern has to give back.
  predicate PlainItemOk(item: string) {
    ItemOk(item) && (item[0] !in "xX[]" || |item| == 1)
  }

  lemma UnmarkedItemIsRead(item: string)
    requires ItemOk(item) && item[0] !in "xX[]"
    ensures ListItemOf("- " + item) == Some(item)
  {
    var s := "- " + item;
    var starts, pieces := [0, 0, 1, 2, 2, 2, 2, 2, 2, 2, |s|], ["", "-", " ", "", "", "", "", "", "", item];
    forall k | 0 <= k < 10 ensures TakesPiece(LIST_ITEM, k, s, starts, pieces) {
      assert TakesAll(LIST_ITEM[k], s, starts[k], starts[k + 1]);
    }
    PlannedMatch(LIST_ITEM, s, starts, pieces);
    TrimmedIsFixed(item);
  }

  // One part takes s[a..b], and what the later parts take moves one place on.
  lemma PartIsTaken(k: nat, s: string, a: nat, b: nat, last: nat)
    requires k < 10 && LIST_ITEM[k].Repeat? && TakesAll(LIST_ITEM[k], s, a, b) && Match(LIST_ITEM, k + 1, s, b).Some?
    requires last < |Match(LIST_ITEM, k + 1, s, b).value|
    ensures var taken := Match(LIST_ITEM, k, s, a);
      taken.Some? && last + 1 < |taken.value| && taken.value[last + 1] == Match(LIST_ITEM, k + 1, s, b).value[last]
  {
    PlannedPartIsTaken(LIST_ITEM, k, s, a, b);
  }

  predicate AfterDash(s: string) {
    |s| > 2 && s[0] == '-' && s[1] == ' ' && !IsSpace(s[2])
  }

  lemma DashParts(s: string)
    requires AfterDash(s)
    ensures TakesAll(LIST_ITEM[0], s, 0, 0) && TakesAll(LIST_ITEM[1], s, 0, 1) && TakesAll(LIST_ITEM[2], s, 1, 2)
  {
  }

  // The dash and the space are taken first; the rest of the pattern has the item.
  lemma DashIsTaken(s: string)
    requires AfterDash(s) && Match(LIST_ITEM, 3, s, 2).Some?
    ensures var taken := Match(LIST_ITEM, 0, s, 0);
      taken.Some? && taken.value[9] == Match(LIST_ITEM, 3, s, 2).value[6]
  {
    DashParts(s);
    PartIsTaken(2, s, 1, 2, 6);
    PartIsTaken(1, s, 0, 1, 7);
    PartIsTaken(0, s, 0, 0, 8);
  }

  // Parts 3 to 8, those of the check box, may be missing; part 9 needs a character.
  lemma {:induction false} NothingLeft(s: string, k: nat)
    requires 3 <= k <= 9
    ensures Match(LIST_ITEM, k, s, |s|).None?
    decreases 9 - k
  {
    if k < 9 {
      NothingLeft(s, k + 1);
      NoMatchAtEnd(LIST_ITEM, k, s);
    } else {
      NoMatchWithout(LIST_ITEM, 9, s, |s|);
    }
  }

  lemma NoMatchAtEnd(p: seq<Atom>, k: nat, s: string)
    requires k < |p| && p[k].Repeat? && Match(p, k + 1, s, |s|).None?
    ensures Match(p, k, s, |s|).None?
  {
    assert Longest(p[k].chars, p[k].most, s, |s|) == 0;
    assert Taking(p, k, s, |s|, 0).None?;
    assert MatchAtMost(p, k, s, |s|, 0).None?;
  }

  lemma RestIsTaken(s: string, i: nat)
    requires i < |s| && forall j :: i <= j < |s| ==> !IsLineTerminator(s[j])
    ensures Match(LIST_ITEM, 9, s, i) == Some([s[i..]])
  {
    assert TakesAll(LIST_ITEM[9], s, i, |s|);
    assert Match(LIST_ITEM, 10, s, |s|) == Some([]);
    PlannedPartIsTaken(LIST_ITEM, 9, s, i, |s|);
    assert s[i..|s|] == s[i..] && [s[i..]] + [] == [s[i..]];
  }

  lemma {:induction false} SomethingLeft(s: string, k: nat, i: nat)
    requires 3 <= k <= 9 && i < |s| && forall j :: i <= j < |s| ==> !IsLineTerminator(s[j])
    ensures Match(LIST_ITEM, k, s, i).Some?
    decreases 9 - k
  {
    if k == 9 {
      RestIsTaken(s, i);
    } else {
      SomethingLeft(s, k + 1, i);
      FewerMayBeTaken(LIST_ITEM, k, s, i, Longest(LIST_ITEM[k].chars, LIST_ITEM[k].most, s, i));
    }
  }

  // A part that may be missing cannot make the rest fail.
  lemma {:induction false} FewerMayBeTaken(p: seq<Atom>, k: nat, s: string, i: nat, n: nat)
    requires k < |p| && p[k].Repeat? && p[k].least == 0 && i + n <= |s| && Match(p, k + 1, s, i).Some?
    ensures MatchAtMost(p, k, s, i, n).Some?
    decreases n
  {
    if n > 0 { FewerMayBeTaken(p, k, s, i, n - 1); }
  }

  // With one character left every part of the check box gives it back.
  lemma {:induction false} LastIsGivenBack(s: string, k: nat)
    requires 3 <= k <= 9 && s != "" && !IsLineTerminator(s[|s| - 1])
    ensures var taken := Match(LIST_ITEM, k, s, |s| - 1);
      taken.Some? && taken.value[9 - k] == s[|s| - 1..]
    decreases 9 - k
  {
    var i := |s| - 1;
    if k == 9 {
      RestIsTaken(s, i);
    } else {
      LastIsGivenBack(s, k + 1);
      NothingLeft(s, k + 1);
      var n := Longest(LIST_ITEM[k].chars, LIST_ITEM[k].most, s, i);
      assert n <= 1 && (n == 1 ==> Taking(LIST_ITEM, k, s, i, 1).None?);
      assert MatchAtMost(LIST_ITEM, k, s, i, 0) == Taking(LIST_ITEM, k, s, i, 0);
      assert MatchAtMost(LIST_ITEM, k, s, i, n) == Taking(LIST_ITEM, k, s, i, 0);
    }
  }

  lemma LoneCharacterIsRead(item: string)
    requires ItemOk(item) && |item| == 1
    ensures ListItemOf("- " + item) == Some(item)
  {
    var s := "- " + item;
    assert s[|s| - 1] == item[0] && s[|s| - 1..] == item;
    LastIsGivenBack(s, 3);
    assert s[0] == '-' && s[1] == ' ' && s[2] == item[0];
    DashIsTaken(s);
    TrimmedIsFixed(item);
  }

  lemma {:induction false} AtMostTakesSome(p: seq<Atom>, k: nat, s: string, i: nat, n: nat) returns (m: nat)
    requires k < |p| && p[k].Repeat? && i + n <= |s| && MatchAtMost(p, k, s, i, n).Some?
    ensures m <= n && MatchAtMost(p, k, s, i, n) == Taking(p, k, s, i, m)
    decreases n
  {
    if Taking(p, k, s, i, n).Some? {
      m := n;
    } else {
      m := AtMostTakesSome(p, k, s, i, n - 1);
    }
  }

  // No piece is longer than what was left.
  lemma {:induction false} LastPieceFits(s: string, k: nat, i: nat)
    requires 3 <= k <= 9 && i <= |s| && Match(LIST_ITEM, k, s, i).Some?
    ensures |Match(LIST_ITEM, k, s, i).value[9 - k]| <= |s| - i
    decreases 9 - k
  {
    var m := AtMostTakesSome(LIST_ITEM, k, s, i, Longest(LIST_ITEM[k].chars, LIST_ITEM[k].most, s, i));
    if k < 9 {
      LastPieceFits(s, k + 1, i + m);
    }
  }

  // The parts from the k-th to the m-th take nothing, the m-th takes one character.
  lemma {:induction false} MarkIsTaken(s: string, k: nat, m: nat, i: nat)
    requires 3 <= k <= m <= 8 && i + 1 < |s| && forall j :: i <= j < |s| ==> !IsLineTerminator(s[j])
    requires forall j :: k <= j < m ==> !In(s[i], LIST_ITEM[j].chars)
    requires In(s[i], LIST_ITEM[m].chars) && LIST_ITEM[m].most == Some(1)
    ensures var taken := Match(LIST_ITEM, k, s, i);
      taken.Some? && |taken.value[9 - k]| < |s| - i
    decreases m - k
  {
    if k == m {
      SomethingLeft(s, k + 1, i + 1);
      assert TakesAll(LIST_ITEM[k], s, i, i + 1);
      PlannedPartIsTaken(LIST_ITEM, k, s, i, i + 1);
      LastPieceFits(s, k + 1, i + 1);
    } else {
      MarkIsTaken(s, k + 1, m, i);
      assert TakesAll(LIST_ITEM[k], s, i, i);
      PlannedPartIsTaken(LIST_ITEM, k, s, i, i);
    }
  }

  lemma MarkedItemIsCut(item: string)
    requires ItemOk(item) && item[0] in "xX[]" && |item| > 1
    ensures ListItemOf("- " + item) != Some(item)
  {
    var s := "- " + item;
    assert forall j :: 2 <= j < |s| ==> s[j] == item[j - 2];
    MarkIsTaken(s, 3, if item[0] == '[' then 3 else if item[0] == ']' then 7 else 5, 2);
    assert s[0] == '-' && s[1] == ' ' && s[2] == item[0];
    DashIsTaken(s);
  }

  // A printed item is read back whole exactly when it is not taken for part of a check box.
  lemma PlainItemIsReadIff(item: string)
    requires ItemOk(item)
    ensures ListItemOf("- " + item) == Some(item) <==> PlainItemOk(item)
  {
    if item[0] !in "xX[]" {
      UnmarkedItemIsRead(item);
    } else if |item| == 1 {
      LoneCharacterIsRead(item);
    } else {
      MarkedItemIsCut(item);
    }
  }

  lemma CheckboxPiece(item: string, k: nat, starts: seq<nat>, pieces: seq<string>)
    requires ItemOk(item) && k < 10
    requires starts == [0, 0, 1, 2, 3, 4, 4, 4, 5, 6, |item| + 6]
    requires pieces == ["", "-", " ", "[", " ", "", "", "]", " ", item]
    ensures TakesPiece(LIST_ITEM, k, "- [ ] " + item, starts, pieces)
  {
    var s := "- [ ] " + item;
    assert s[0] == '-' && s[1] == ' ' && s[2] == '[' && s[3] == ' ' && s[4] == ']' && s[5] == ' ' && s[6] == item[0];
    if k == 9 {
      assert forall j :: 6 <= j < |s| ==> s[j] == item[j - 6];
    }
    assert TakesAll(LIST_ITEM[k], s, starts[k], starts[k + 1]);
  }

  lemma CheckboxItemIsRead(item: string)
    requires ItemOk(item)
    ensures ListItemOf("- [ ] " + item) == Some(item)
  {
    var starts, pieces := [0, 0, 1, 2, 3, 4, 4, 4, 5, 6, |item| + 6], ["", "-", " ", "[", " ", "", "", "]", " ", item];
    forall k | 0 <= k < 10 ensures TakesPiece(LIST_ITEM, k, "- [ ] " + item, starts, pieces) {
      CheckboxPiece(item, k, starts, pieces);
    }
    PlannedMatch(LIST_ITEM, "- [ ] " + item, starts, pieces);
    TrimmedIsFixed(item);
  }

  // ---- Paths

  predicate NoEscapedWildcard(path: string) {
    forall i :: 0 <= i < |path| - 1 && path[i] == '\\' ==> path[i + 1] != '*' && path[i + 1] != '?'
  }

  predicate PathOk(path: string) {
    path != "" && '`' !in path && '\n' !in path && NoEscapedWildcard(path)
  }

  lemma {:induction false} PathIsNormal(path: string)
    requires NoEscapedWildcard(path)
    ensures NormalizePathPattern(path) == path
  {
    if path != "" {
      PathIsNormal(path[1..]);
      assert [path[0]] + path[1..] == path;
    }
  }

  lemma {:induction false} FoundAt(p: seq<Atom>, s: string, i: nat, j: nat)
    requires i <= j <= |s| && Match(p, 0, s, j).Some?
    requires forall k :: i <= k < j ==> Match(p, 0, s, k).None?
    ensures Search(p, s, i) == Match(p, 0, s, j)
    decreases j - i
  {
    if i < j {
      assert Match(p, 0, s, i).None?;
      FoundAt(p, s, i + 1, j);
    }
  }

  lemma {:induction false} NothingFound(p: seq<Atom>, s: string, i: nat)
    requires i <= |s| && forall j :: i <= j <= |s| ==> Match(p, 0, s, j).None?
    ensures Search(p, s, i).None?
    decreases |s| - i
  {
    assert Match(p, 0, s, i).None?;
    if i < |s| {
      NothingFound(p, s, i + 1);
    }
  }

  function PathLine(path: string): string {
    "- `" + path + "`"
  }

  lemma BacktickedPathIsRead(path: string)
    requires PathOk(path)
    ensures PathOf(PathLine(path)) == Some(path)
  {
    var s := PathLine(path);
    var starts, pieces := [2, 3, |s| - 1, |s|], ["`", path, "`"];
    forall k | 0 <= k < 3 ensures TakesPiece(CODE, k, s, starts, pieces) {
      assert TakesAll(CODE[k], s, starts[k], starts[k + 1]);
    }
    PlannedMatch(CODE, s, starts, pieces);
    NoMatchWithout(CODE, 0, s, 0);
    NoMatchWithout(CODE, 0, s, 1);
    FoundAt(CODE, s, 0, 2);
    PathIsNormal(path);
  }

  const NO_ITEM := "- (none)"

  lemma NoCodeWithoutBacktick(s: string)
    requires '`' !in s
    ensures Search(CODE, s, 0).None?
  {
    forall j | 0 <= j <= |s| ensures Match(CODE, 0, s, j).None? {
      NoMatchWithout(CODE, 0, s, j);
    }
    NothingFound(CODE, s, 0);
  }

  lemma PlainItemIsMatched(item: string)
    requires ItemOk(item)
    ensures Match(PLAIN_ITEM, 0, "- " + item, 0) == Some(["", "-", " ", item])
  {
    var s := "- " + item;
    var starts, pieces := [0, 0, 1, 2, |s|], ["", "-", " ", item];
    forall k | 0 <= k < 4 ensures TakesPiece(PLAIN_ITEM, k, s, starts, pieces) {
      assert TakesAll(PLAIN_ITEM[k], s, starts[k], starts[k + 1]);
    }
    PlannedMatch(PLAIN_ITEM, s, starts, pieces);
  }

  // An item without a backtick, a slash and a star is no path.
  lemma PlainTextIsNoPath(item: string)
    requires ItemOk(item) && '`' !in item && '/' !in item && '*' !in item && '\\' !in item
    ensures PathOf("- " + item).None?
  {
    NoCodeWithoutBacktick("- " + item);
    PlainItemIsMatched(item);
    TrimmedIsFixed(item);
    PathIsNormal(item);
  }

  // ---- Rows of the risk table

  // A cell may be empty, but holds no bar and no line break, and no white space around it.
  predicate CellOk(cell: string) {
    Trimmed(cell) && '|' !in cell && '\n' !in cell
  }

  function ImpactWord(impact: Impact): string {
    match impact
    case High => "high"
    case Medium => "medium"
    case Low => "low"
  }

  function RiskRow(r: RiskItem): string {
    "| " + r.risk + " | " + ImpactWord(r.impact) + " | " + r.mitigation + " |"
  }

  function RowStarts(r: RiskItem): seq<nat> {
    var n, w, m := |r.risk|, |ImpactWord(r.impact)|, |r.mitigation|;
    [0, 1, 2, n + 3, n + 3, n + 4, n + 5, n + 5 + w, n + 6 + w, n + 7 + w, n + 8 + w, n + 9 + w + m,
     n + 9 + w + m, n + 10 + w + m]
  }

  function RowPieces(r: RiskItem): seq<string> {
    ["|", " ", r.risk + " ", "", "|", " ", ImpactWord(r.impact), " ", "|", " ", r.mitigation + " ", "", "|"]
  }

  predicate RowOk(r: RiskItem) {
    CellOk(r.risk) && CellOk(r.mitigation) && !IsHeaderCell(r.risk)
  }

  // The spaces before a cell: all of them, or all but one when the cell is empty.
  lemma CellIsTaken(p: seq<Atom>, k: nat, s: string, starts: seq<nat>, pieces: seq<string>, cell: string)
    requires k + 3 < |p| == |pieces| == |starts| - 1
    requires p[k] == Star(Space) && p[k + 1] == Plus(NoneOf("|")) && p[k + 2] == Star(Space) && p[k + 3] == One("|")
    requires CellOk(cell)
    requires pieces[k] == " " && pieces[k + 1] == cell + " " && pieces[k + 2] == "" && pieces[k + 3] == "|"
    requires starts[k + 1] == starts[k] + 1 && starts[k + 2] == starts[k + 1] + |cell| + 1
    requires starts[k + 3] == starts[k + 2] && starts[k + 4] == starts[k + 3] + 1 <= |s|
    requires s[starts[k]..starts[k + 4]] == " " + (cell + " ") + "|"
    ensures TakesPiece(p, k, s, starts, pieces) && TakesPiece(p, k + 1, s, starts, pieces)
    ensures TakesPiece(p, k + 2, s, starts, pieces) && TakesPiece(p, k + 3, s, starts, pieces)
  {
    var a, b := starts[k], starts[k + 4];
    var text := " " + (cell + " ") + "|";
    forall j | a <= j < b ensures s[j] == text[j - a] { assert s[a..b][j - a] == s[j]; }
    if cell == "" {
      assert TakesAll(p[k], s, a, a + 2);
    } else {
      assert s[a + 1] == cell[0];
      assert TakesAll(p[k], s, a, a + 1);
    }
    assert TakesAll(p[k + 1], s, a + 1, b - 1);
    assert TakesAll(p[k + 2], s, b - 1, b - 1);
    assert TakesAll(p[k + 3], s, b - 1, b);
  }

  lemma ImpactIsTaken(r: RiskItem)
    ensures var n, w := |r.risk|, |ImpactWord(r.impact)|;
      exists x :: IsFirstWord(IMPACT_WORDS, x, RiskRow(r), n + 5) && |IMPACT_WORDS[x]| == w
  {
    var s, n := RiskRow(r), |r.risk|;
    var word := ImpactWord(r.impact);
    forall k | 0 <= k < |word| ensures s[n + 5 + k] == word[k] {}
    assert s[n + 5] == word[0];
    var x := if r.impact.High? then 3 else if r.impact.Medium? then 4 else 5;
    assert WordAt(IMPACT_WORDS[x], s, n + 5);
    forall y | 0 <= y < x ensures !WordAt(IMPACT_WORDS[y], s, n + 5) {
      assert FoldChar(IMPACT_WORDS[y][0]) != FoldChar(s[n + 5 + 0]);
    }
  }

  lemma SingleIsTaken(p: seq<Atom>, k: nat, s: string, starts: seq<nat>, pieces: seq<string>, c: char)
    requires k < |p| == |pieces| == |starts| - 1 && starts[k] + 1 == starts[k + 1] <= |s|
    requires p[k] == One([c])
      || (p[k] == Star(Space) && IsSpace(c) && starts[k] + 1 < |s| && !IsSpace(s[starts[k] + 1]))
    requires s[starts[k]] == c && pieces[k] == [c]
    ensures TakesPiece(p, k, s, starts, pieces)
  {
    assert TakesAll(p[k], s, starts[k], starts[k] + 1);
  }

  lemma SliceIsPart(s: string, a: string, b: string, c: string)
    requires s == a + b + c
    ensures s[|a|..|a| + |b|] == b
    ensures forall j :: 0 <= j < |b| ==> s[|a| + j] == b[j]
  {
  }

  // The row as its three cells, each with the bar after it.
  lemma RowParts(r: RiskItem)
    ensures RiskRow(r) == "|" + (" " + (r.risk + " ") + "|") + (" " + ImpactWord(r.impact) + " |")
                          + (" " + (r.mitigation + " ") + "|")
  {
  }

  lemma RowMiddle(r: RiskItem)
    ensures var s, n, w := RiskRow(r), |r.risk|, |ImpactWord(r.impact)|;
      && n + 7 + w < |s| && s[n + 4] == ' ' && s[n + 5 + w] == ' ' && s[n + 6 + w] == '|'
      && s[n + 5] == ImpactWord(r.impact)[0] && s[n + 5..n + 5 + w] == ImpactWord(r.impact)
  {
    var s, n, w := RiskRow(r), |r.risk|, |ImpactWord(r.impact)|;
    RowParts(r);
    SliceIsPart(s, "|" + (" " + (r.risk + " ") + "|"), " " + ImpactWord(r.impact) + " |",
                " " + (r.mitigation + " ") + "|");
    assert (" " + ImpactWord(r.impact) + " |")[1..w + 1] == ImpactWord(r.impact);
  }

  lemma SpacesAreTaken(r: RiskItem, k: nat)
    requires k == 5 || k == 7
    ensures TakesPiece(RISK_ROW, k, RiskRow(r), RowStarts(r), RowPieces(r))
  {
    RowMiddle(r);
    SingleIsTaken(RISK_ROW, k, RiskRow(r), RowStarts(r), RowPieces(r), ' ');
  }

  lemma MiddleIsTaken(r: RiskItem, k: nat)
    requires 5 <= k < 9
    ensures TakesPiece(RISK_ROW, k, RiskRow(r), RowStarts(r), RowPieces(r))
  {
    if k == 6 {
      RowMiddle(r);
      ImpactIsTaken(r);
    } else if k == 8 {
      RowMiddle(r);
      SingleIsTaken(RISK_ROW, k, RiskRow(r), RowStarts(r), RowPieces(r), '|');
    } else {
      SpacesAreTaken(r, k);
    }
  }

  lemma FirstCellIsTaken(r: RiskItem, k: nat)
    requires CellOk(r.risk) && k < 5
    ensures TakesPiece(RISK_ROW, k, RiskRow(r), RowStarts(r), RowPieces(r))
  {
    var s, starts, pieces := RiskRow(r), RowStarts(r), RowPieces(r);
    RowParts(r);
    if k == 0 {
      SingleIsTaken(RISK_ROW, k, s, starts, pieces, '|');
    } else {
      SliceIsPart(s, "|", " " + (r.risk + " ") + "|",
                  (" " + ImpactWord(r.impact) + " |") + (" " + (r.mitigation + " ") + "|"));
      CellIsTaken(RISK_ROW, 1, s, starts, pieces, r.risk);
    }
  }

  lemma RowLast(r: RiskItem)
    ensures var s, n, w, m := RiskRow(r), |r.risk|, |ImpactWord(r.impact)|, |r.mitigation|;
      |s| == n + 10 + w + m && s[n + 7 + w..n + 10 + w + m] == " " + (r.mitigation + " ") + "|"
  {
    RowParts(r);
    SliceIsPart(RiskRow(r), "|" + (" " + (r.risk + " ") + "|") + (" " + ImpactWord(r.impact) + " |"),
                " " + (r.mitigation + " ") + "|", "");
  }

  lemma LastCellIsTaken(r: RiskItem, k: nat)
    requires CellOk(r.mitigation) && 9 <= k < 13
    ensures TakesPiece(RISK_ROW, k, RiskRow(r), RowStarts(r), RowPieces(r))
  {
    RowLast(r);
    CellIsTaken(RISK_ROW, 9, RiskRow(r), RowStarts(r), RowPieces(r), r.mitigation);
  }

  lemma RiskRowIsMatched(r: RiskItem)
    requires RowOk(r)
    ensures Search(RISK_ROW, RiskRow(r), 0) == Some(RowPieces(r))
  {
    forall k | 0 <= k < 13 ensures TakesPiece(RISK_ROW, k, RiskRow(r), RowStarts(r), RowPieces(r)) {
      if k < 5 { FirstCellIsTaken(r, k); } else if k < 9 { MiddleIsTaken(r, k); } else { LastCellIsTaken(r, k); }
    }
    PlannedMatch(RISK_ROW, RiskRow(r), RowStarts(r), RowPieces(r));
  }

  lemma RiskRowIsRead(r: RiskItem)
    requires RowOk(r)
    ensures RiskOf(RiskRow(r)) == Some(r)
  {
    RiskRowIsMatched(r);
    CellIsTrimmed(r.risk);
    CellIsTrimmed(r.mitigation);
    LowerWord(r.impact);
  }

  lemma CellIsTrimmed(cell: string)
    requires CellOk(cell)
    ensures Trim(cell + " ") == cell
  {
    TrimPadded("", cell, " ");
    assert "" + cell + " " == cell + " ";
  }

  lemma LowerWord(impact: Impact)
    ensures ImpactOf(Lower(ImpactWord(impact))) == impact
  {
    assert Lower(ImpactWord(impact)) == ImpactWord(impact);
  }

  // ---- The other lines of the risk section

  // The two fixed lines of the table, cell by cell, so that what is proved of a whole line
  // can be proved of its short parts.
  const TABLE_HEADER := "| Risk |" + " Impact |" + " Mitigation |"
  const TABLE_RULE := "| --- |" + " --- |" + " --- |"

  predicate StartsImpact(c: char) {
    c == '高' || c == '中' || c == '低' || c == 'h' || c == 'H' || c == 'l' || c == 'L'
  }

  // A line where no impact word can even begin.
  predicate NoImpactWord(s: string) {
    forall i :: 0 <= i < |s| ==> NoImpactAt(s, i)
  }

  predicate NoImpactAt(s: string, i: int)
    requires 0 <= i < |s|
  {
    && !StartsImpact(s[i])
    && (s[i] == 'm' || s[i] == 'M' ==> i + 1 < |s| && FoldChar(s[i + 1]) != 'e')
  }

  lemma NoRiskWithoutImpact(s: string)
    requires NoImpactWord(s)
    ensures RiskOf(s).None?
  {
    forall x, e | 0 <= x < |IMPACT_WORDS| && 0 <= e <= |s| ensures !WordAt(IMPACT_WORDS[x], s, e) {
      var w := IMPACT_WORDS[x];
      assert e < |s| ==> NoImpactAt(s, e);
      if e + |w| <= |s| {
        assert FoldChar(s[e + 0]) != FoldChar(w[0]) || (x == 4 && FoldChar(s[e + 1]) != FoldChar(w[1]));
      }
    }
    forall j | 0 <= j <= |s| ensures Match(RISK_ROW, 0, s, j).None? {
      NeedsWord(RISK_ROW, 0, 6, IMPACT_WORDS, s, j);
    }
    NothingFound(RISK_ROW, s, 0);
  }

  lemma NoImpactConcat(a: string, b: string)
    requires NoImpactWord(a) && NoImpactWord(b)
    ensures NoImpactWord(a + b)
  {
    forall i | 0 <= i < |a + b| ensures NoImpactAt(a + b, i) {
      if i < |a| {
        assert NoImpactAt(a, i);
        assert i + 1 < |a| ==> (a + b)[i + 1] == a[i + 1];
      } else {
        assert NoImpactAt(b, i - |a|);
        assert i + 1 < |a + b| ==> (a + b)[i + 1] == b[i + 1 - |a|];
      }
    }
  }

  lemma HeaderCellsAreNoImpacts()
    ensures NoImpactWord("| Risk |") && NoImpactWord(" Impact |")
  {
  }

  lemma LastHeaderCellIsNoImpact()
    ensures NoImpactWord(" Mitigation |")
  {
    NoImpactConcat(" Miti", "gation |");
    assert " Miti" + "gation |" == " Mitigation |";
  }

  lemma TableHeaderIsNoRisk()
    ensures RiskOf(TABLE_HEADER).None?
  {
    HeaderCellsAreNoImpacts();
    LastHeaderCellIsNoImpact();
    NoImpactConcat("| Risk |", " Impact |");
    NoImpactConcat("| Risk |" + " Impact |", " Mitigation |");
    NoRiskWithoutImpact(TABLE_HEADER);
  }

  lemma TableRuleIsNoRisk()
    ensures RiskOf(TABLE_RULE).None?
  {
    NoImpactConcat("| --- |", " --- |");
    NoImpactConcat("| --- |" + " --- |", " --- |");
    NoRiskWithoutImpact(TABLE_RULE);
  }

  lemma PlaceholderIsNoRisk()
    ensures RiskOf(NO_ITEM).None?
  {
    assert NoImpactWord(NO_ITEM);
    NoRiskWithoutImpact(NO_ITEM);
  }
}
