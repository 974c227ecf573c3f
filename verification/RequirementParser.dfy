// Reading a requirement back from its Markdown form, line by line.
module RequirementParser {
  import opened Options
  import opened Text
  import opened LinePatterns

  datatype Impact = High | Medium | Low

  datatype RiskItem = RiskItem(risk: string, impact: Impact, mitigation: string)

  datatype Requirement = Requirement(
    goal: string,
    background: string,
    constraints: seq<string>,
    acceptanceCriteria: seq<string>,
    inScope: seq<string>,
    outOfScope: seq<string>,
    allowedPaths: seq<string>,
    riskAssessment: seq<RiskItem>,
    notes: string,
    rawContent: string)

  datatype Field =
    | Goal | Background | Constraints | AcceptanceCriteria | Scope | AllowedPaths | RiskAssessment | Notes

  const DEFAULT_GOAL :=
    "Implement the requested outcome described in this requirement in small, verifiable steps."
  const DEFAULT_ALLOWED_PATHS := ["**"]

  // ---- The patterns

  const HEADER: seq<Atom> := [Repeat(OneOf("#"), 1, Some(6)), Plus(Space), Plus(Dot), Star(Space), End]
  const LIST_ITEM: seq<Atom> := [
    Star(Space), One("-*"), Plus(Space), Maybe("["), Star(Space), Maybe("xX "), Star(Space), Maybe("]"),
    Star(Space), Plus(Dot)]
  const CODE: seq<Atom> := [One("`"), Plus(NoneOf("`")), One("`")]
  const PLAIN_ITEM: seq<Atom> := [Star(Space), One("-*"), Plus(Space), Plus(Dot)]
  const IMPACT_WORDS := ["高", "中", "低", "high", "medium", "low"]
  const RISK_ROW: seq<Atom> := [
    One("|"), Star(Space), Plus(NoneOf("|")), Star(Space), One("|"), Star(Space), Word(IMPACT_WORDS), Star(Space),
    One("|"), Star(Space), Plus(NoneOf("|")), Star(Space), One("|")]
  const BULLET: seq<Atom> := [One("-*"), Plus(Space), Star(Any)]
  const CHECKBOX: seq<Atom> := [One("["), One("xX "), One("]"), Star(Space), Star(Any)]

  // ---- What one line says

  datatype Header = Header(level: nat, name: string)

  function HeaderOf(line: string): Option<Header> {
    match Match(HEADER, 0, line, 0)
    case Some(taken) => Some(Header(|taken[0]|, Lower(Trim(taken[2]))))
    case None => None
  }

  function ListItemOf(line: string): Option<string> {
    match Match(LIST_ITEM, 0, line, 0)
    case Some(taken) => if taken[9] != "" then Some(Trim(taken[9])) else None
    case None => None
  }

  // A backslash that Markdown wants before a wildcard is dropped.
  function NormalizePathPattern(path: string): string {
    if path == "" then ""
    else if |path| >= 2 && path[0] == '\\' && path[1] in "*?" then [path[1]] + NormalizePathPattern(path[2..])
    else [path[0]] + NormalizePathPattern(path[1..])
  }

  function PathOf(line: string): Option<string> {
    var code := Search(CODE, line, 0);
    if code.Some? && code.value[1] != "" then Some(NormalizePathPattern(code.value[1]))
    else
      match Match(PLAIN_ITEM, 0, line, 0)
      case Some(taken) =>
        var path := NormalizePathPattern(Trim(taken[3]));
        if taken[3] != "" && ('/' in path || '*' in path) then Some(path) else None
      case None => None
  }

  function ImpactOf(word: string): Impact {
    if word == "high" || word == "高" then High
    else if word == "low" || word == "低" then Low
    else Medium
  }

  predicate IsHeaderCell(risk: string) {
    risk == "リスク" || Lower(risk) == "risk"
  }

  function RiskOf(line: string): Option<RiskItem> {
    match Search(RISK_ROW, line, 0)
    case Some(taken) =>
      if taken[2] == "" || taken[6] == "" || taken[10] == "" || IsHeaderCell(Trim(taken[2])) then None
      else Some(RiskItem(Trim(taken[2]), ImpactOf(Lower(taken[6])), Trim(taken[10])))
    case None => None
  }

  // ---- What the lines of a text say

  // What the lines that say something say, in order.
  function Collect<T>(lines: seq<string>, read: string -> Option<T>): seq<T> {
    if lines == [] then []
    else (if read(lines[0]).Some? then [read(lines[0]).value] else []) + Collect(lines[1..], read)
  }

  lemma {:induction false} CollectSnoc<T>(lines: seq<string>, line: string, read: string -> Option<T>)
    ensures Collect(lines + [line], read)
         == Collect(lines, read) + if read(line).Some? then [read(line).value] else []
  {
    if lines == [] {
      assert lines + [line] == [line] && [line][1..] == [];
    } else {
      var rest := lines[1..];
      assert (lines + [line])[1..] == rest + [line];
      CollectSnoc(rest, line, read);
    }
  }

  // Under a level-1 heading the next level-2 heading already starts another section.
  function Boundary(level: nat): nat {
    if level == 1 then 2 else level
  }

  predicate Ends(line: string, boundary: nat) {
    HeaderOf(line).Some? && HeaderOf(line).value.level <= boundary
  }

  predicate Names(line: string, target: string) {
    HeaderOf(line).Some? && HeaderOf(line).value.name == target
  }

  function Until(lines: seq<string>, boundary: nat): seq<string> {
    if lines == [] || Ends(lines[0], boundary) then [] else [lines[0]] + Until(lines[1..], boundary)
  }

  // The lines under the first heading of that name.
  function SectionLines(lines: seq<string>, target: string): seq<string> {
    if lines == [] then []
    else if Names(lines[0], target) then Until(lines[1..], Boundary(HeaderOf(lines[0]).value.level))
    else SectionLines(lines[1..], target)
  }

  function Section(content: string, name: string): string {
    Trim(Join(SectionLines(Split(content, '\n'), Lower(Trim(name))), '\n'))
  }

  lemma ConcatIsAssociative<T>(a: seq<T>, b: seq<T>, c: seq<T>)
    ensures a + b + c == a + (b + c)
  {
  }

  lemma SectionStep(lines: seq<string>, i: nat, target: string, boundary: nat)
    requires i < |lines|
    ensures Until(lines[i..], boundary)
         == if Ends(lines[i], boundary) then [] else [lines[i]] + Until(lines[i + 1..], boundary)
    ensures SectionLines(lines[i..], target)
         == if Names(lines[i], target) then Until(lines[i + 1..], Boundary(HeaderOf(lines[i]).value.level))
            else SectionLines(lines[i + 1..], target)
  {
    assert lines[i..][0] == lines[i] && lines[i..][1..] == lines[i + 1..];
  }

  method ExtractSection(content: string, sectionName: string) returns (text: string)
    ensures text == Section(content, sectionName)
  {
    var lines := Split(content, '\n');
    var collected: seq<string> := [];
    var target := Lower(Trim(sectionName));
    var inSection := false;
    var sectionLevel := 0;
    var i := 0;
    while i < |lines|
      invariant 0 <= i <= |lines|
      invariant !inSection ==> collected == [] && SectionLines(lines, target) == SectionLines(lines[i..], target)
      invariant inSection ==> collected + Until(lines[i..], Boundary(sectionLevel)) == SectionLines(lines, target)
    {
      var line := lines[i];
      var header := HeaderOf(line);
      SectionStep(lines, i, target, Boundary(sectionLevel));
      if header.Some? {
        if !inSection && header.value.name == target {
          inSection := true;
          sectionLevel := header.value.level;
        } else if inSection {
          if header.value.level <= Boundary(sectionLevel) {
            break;
          }
          ConcatIsAssociative(collected, [line], Until(lines[i + 1..], Boundary(sectionLevel)));
          collected := collected + [line];
        }
      } else if inSection {
        ConcatIsAssociative(collected, [line], Until(lines[i + 1..], Boundary(sectionLevel)));
        collected := collected + [line];
      }
      i := i + 1;
    }
    assert collected == SectionLines(lines, target);
    text := Trim(Join(collected, '\n'));
  }

  method ExtractListItems(content: string) returns (items: seq<string>)
    ensures items == Collect(Split(content, '\n'), ListItemOf)
  {
    var lines := Split(content, '\n');
    items := [];
    for i := 0 to |lines|
      invariant items == Collect(lines[..i], ListItemOf)
    {
      assert lines[..i + 1] == lines[..i] + [lines[i]];
      CollectSnoc(lines[..i], lines[i], ListItemOf);
      var item := ListItemOf(lines[i]);
      if item.Some? {
        items := items + [item.value];
      }
    }
    assert lines[..|lines|] == lines;
  }

  method ExtractPaths(content: string) returns (paths: seq<string>)
    ensures paths == Collect(Split(content, '\n'), PathOf)
  {
    paths := [];
    var lines := Split(content, '\n');
    for i := 0 to |lines|
      invariant paths == Collect(lines[..i], PathOf)
    {
      var line := lines[i];
      assert lines[..i + 1] == lines[..i] + [line];
      CollectSnoc(lines[..i], line, PathOf);
      var code := Search(CODE, line, 0);
      if code.Some? && code.value[1] != "" {
        paths := paths + [NormalizePathPattern(code.value[1])];
        continue;
      }
      var listed := Match(PLAIN_ITEM, 0, line, 0);
      if listed.Some? && listed.value[3] != "" {
        var path := NormalizePathPattern(Trim(listed.value[3]));
        if '/' in path || '*' in path {
          paths := paths + [path];
        }
      }
    }
    assert lines[..|lines|] == lines;
  }

  method ParseRiskTable(content: string) returns (risks: seq<RiskItem>)
    ensures risks == Collect(Split(content, '\n'), RiskOf)
  {
    risks := [];
    var lines := Split(content, '\n');
    for i := 0 to |lines|
      invariant risks == Collect(lines[..i], RiskOf)
    {
      var line := lines[i];
      assert lines[..i + 1] == lines[..i] + [line];
      CollectSnoc(lines[..i], line, RiskOf);
      var found := Search(RISK_ROW, line, 0);
      if found.Some? && found.value[2] != "" && found.value[6] != "" && found.value[10] != "" {
        var risk := Trim(found.value[2]);
        if risk == "リスク" || Lower(risk) == "risk" {
          continue;
        }
        risks := risks + [RiskItem(risk, ImpactOf(Lower(found.value[6])), Trim(found.value[10]))];
      }
    }
    assert lines[..|lines|] == lines;
  }

  // ---- Fallbacks

  function AfterPrefix(p: seq<Atom>, s: string): string {
    match Match(p, 0, s, 0)
    case Some(taken) => if taken == [] then s else taken[|taken| - 1]
    case None => s
  }

  predicate Skipped(line: string) {
    Trim(line) == "" || Trim(line)[0] == '#'
  }

  // The first line that is neither blank nor a heading, without its bullet and check box.
  function FirstNonEmpty(lines: seq<string>): Option<string> {
    if lines == [] then None
    else if Skipped(lines[0]) then FirstNonEmpty(lines[1..])
    else Some(Trim(AfterPrefix(CHECKBOX, AfterPrefix(BULLET, Trim(lines[0])))))
  }

  method FirstNonEmptyLine(content: string) returns (line: Option<string>)
    ensures line == FirstNonEmpty(Split(content, '\n'))
  {
    var lines := Split(content, '\n');
    for i := 0 to |lines|
      invariant FirstNonEmpty(lines) == FirstNonEmpty(lines[i..])
    {
      assert lines[i..][0] == lines[i] && lines[i..][1..] == lines[i + 1..];
      var trimmed := Trim(lines[i]);
      if trimmed == "" || trimmed[0] == '#' {
        continue;
      }
      return Some(Trim(AfterPrefix(CHECKBOX, AfterPrefix(BULLET, trimmed))));
    }
    return None;
  }

  function ResolveGoal(goalSection: string, fallback: Option<string>): string {
    if Trim(goalSection) != "" then Trim(goalSection)
    else if fallback.Some? && fallback.value != "" then fallback.value
    else DEFAULT_GOAL
  }

  function ResolveAcceptanceCriteria(listed: seq<string>, fallback: Option<string>, goal: string): seq<string> {
    if listed != [] then listed
    else if fallback.Some? && fallback.value != "" then [fallback.value]
    else ["Deliver a verifiable first increment toward: " + goal]
  }

  // ---- The whole requirement

  function Lines(content: string): seq<string> {
    Split(content, '\n')
  }

  function Parsed(content: string): Requirement {
    var acceptance := Section(content, "Acceptance Criteria");
    var scope := Section(content, "Scope");
    var goal := ResolveGoal(Section(content, "Goal"), FirstNonEmpty(Lines(content)));
    var paths := Collect(Lines(Section(content, "Allowed Paths")), PathOf);
    Requirement(
      goal,
      Section(content, "Background"),
      Collect(Lines(Section(content, "Constraints")), ListItemOf),
      ResolveAcceptanceCriteria(Collect(Lines(acceptance), ListItemOf), FirstNonEmpty(Lines(acceptance)), goal),
      Collect(Lines(Section(scope, "In Scope")), ListItemOf),
      Collect(Lines(Section(scope, "Out of Scope")), ListItemOf),
      if paths != [] then paths else DEFAULT_ALLOWED_PATHS,
      Collect(Lines(Section(content, "Risk Assessment")), RiskOf),
      Section(content, "Notes"),
      content)
  }

  method ParseRequirementContent(content: string) returns (r: Requirement)
    ensures r == Parsed(content)
  {
    var goalSection := ExtractSection(content, "Goal");
    var backgroundSection := ExtractSection(content, "Background");
    var constraintsSection := ExtractSection(content, "Constraints");
    var acceptanceSection := ExtractSection(content, "Acceptance Criteria");
    var scopeSection := ExtractSection(content, "Scope");
    var allowedPathsSection := ExtractSection(content, "Allowed Paths");
    var riskSection := ExtractSection(content, "Risk Assessment");
    var notesSection := ExtractSection(content, "Notes");
    var firstLine := FirstNonEmptyLine(content);
    var goal := ResolveGoal(goalSection, firstLine);
    var listed := ExtractListItems(acceptanceSection);
    var firstAcceptance := FirstNonEmptyLine(acceptanceSection);
    var acceptanceCriteria := ResolveAcceptanceCriteria(listed, firstAcceptance, goal);
    var parsedAllowedPaths := ExtractPaths(allowedPathsSection);
    var allowedPaths := if parsedAllowedPaths != [] then parsedAllowedPaths else DEFAULT_ALLOWED_PATHS;
    var inScopeContent := ExtractSection(scopeSection, "In Scope");
    var outOfScopeContent := ExtractSection(scopeSection, "Out of Scope");
    var constraints := ExtractListItems(constraintsSection);
    var inScope := ExtractListItems(inScopeContent);
    var outOfScope := ExtractListItems(outOfScopeContent);
    var risks := ParseRiskTable(riskSection);
    r := Requirement(goal, backgroundSection, constraints, acceptanceCriteria, inScope, outOfScope, allowedPaths,
                     risks, notesSection, content);
  }

  function Report(missing: seq<Field>, field: Field, absent: bool): seq<Field> {
    if absent then missing + [field] else missing
  }

  // The absent fields, in the order they are reported.
  function Absent(goal: bool, background: bool, constraints: bool, acceptance: bool, scope: bool, paths: bool,
                  risks: bool, notes: bool): seq<Field> {
    var upToConstraints := Report(Report(Report([], Goal, goal), Background, background), Constraints, constraints);
    var upToScope := Report(Report(upToConstraints, AcceptanceCriteria, acceptance), Scope, scope);
    Report(Report(Report(upToScope, AllowedPaths, paths), RiskAssessment, risks), Notes, notes)
  }

  // The fields a text leaves out.
  function Missing(content: string): seq<Field> {
    var first := FirstNonEmpty(Lines(content));
    var scope := Section(content, "Scope");
    Absent(
      Trim(Section(content, "Goal")) == "" && (first.None? || first.value == ""),
      Trim(Section(content, "Background")) == "",
      Collect(Lines(Section(content, "Constraints")), ListItemOf) == [],
      Collect(Lines(Section(content, "Acceptance Criteria")), ListItemOf) == [],
      && Collect(Lines(Section(scope, "In Scope")), ListItemOf) == []
      && Collect(Lines(Section(scope, "Out of Scope")), ListItemOf) == [],
      Collect(Lines(Section(content, "Allowed Paths")), PathOf) == [],
      Collect(Lines(Section(content, "Risk Assessment")), RiskOf) == [],
      Trim(Section(content, "Notes")) == "")
  }

  method DetectMissingRequirementFields(content: string) returns (missing: seq<Field>)
    ensures missing == Missing(content)
  {
    var goalSection := ExtractSection(content, "Goal");
    var backgroundSection := ExtractSection(content, "Background");
    var constraintsSection := ExtractSection(content, "Constraints");
    var acceptanceSection := ExtractSection(content, "Acceptance Criteria");
    var scopeSection := ExtractSection(content, "Scope");
    var allowedPathsSection := ExtractSection(content, "Allowed Paths");
    var riskSection := ExtractSection(content, "Risk Assessment");
    var notesSection := ExtractSection(content, "Notes");
    var firstLine := FirstNonEmptyLine(content);
    var constraints := ExtractListItems(constraintsSection);
    var acceptance := ExtractListItems(acceptanceSection);
    var inScopeContent := ExtractSection(scopeSection, "In Scope");
    var inScope := ExtractListItems(inScopeContent);
    var outOfScopeContent := ExtractSection(scopeSection, "Out of Scope");
    var outOfScope := ExtractListItems(outOfScopeContent);
    var paths := ExtractPaths(allowedPathsSection);
    var risks := ParseRiskTable(riskSection);
    missing := ReportMissing(
      Trim(goalSection) == "" && (firstLine.None? || firstLine.value == ""),
      Trim(backgroundSection) == "", constraints == [], acceptance == [], inScope == [] && outOfScope == [],
      paths == [], risks == [], Trim(notesSection) == "");
  }

  method ReportMissing(goal: bool, background: bool, constraints: bool, acceptance: bool, scope: bool, paths: bool,
                       risks: bool, notes: bool) returns (missing: seq<Field>)
    ensures missing == Absent(goal, background, constraints, acceptance, scope, paths, risks, notes)
  {
    missing := [];
    if goal {
      missing := missing + [Goal];
    }
    if background {
      missing := missing + [Background];
    }
    if constraints {
      missing := missing + [Constraints];
    }
    if acceptance {
      missing := missing + [AcceptanceCriteria];
    }
    if scope {
      missing := missing + [Scope];
    }
    if paths {
      missing := missing + [AllowedPaths];
    }
    if risks {
      missing := missing + [RiskAssessment];
    }
    if notes {
      missing := missing + [Notes];
    }
  }
}
