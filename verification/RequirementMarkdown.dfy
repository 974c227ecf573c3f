// Writing a requirement as Markdown, and reading back what was written.
module RequirementMarkdown {
  import opened Options
  import opened Text
  import opened RequirementParser
  import opened RequirementLines
  import opened RequirementDocument

  const NOTHING := "(none)"
  const NO_CRITERION := "(to be defined)"

  // ---- What is written

  function OrNothing(body: string): string {
    if Trim(body) != "" then Trim(body) else NOTHING
  }

  function OrNone(items: seq<string>, placeholder: string): seq<string> {
    if items == [] then [placeholder] else items
  }

  function Bulleted(bullet: string, items: seq<string>): (lines: seq<string>)
    ensures |lines| == |items| && forall i :: 0 <= i < |items| ==> lines[i] == bullet + items[i]
  {
    seq(|items|, i requires 0 <= i < |items| => bullet + items[i])
  }

  function Backticked(paths: seq<string>): (items: seq<string>)
    ensures |items| == |paths| && forall i :: 0 <= i < |paths| ==> items[i] == "`" + paths[i] + "`"
  {
    seq(|paths|, i requires 0 <= i < |paths| => "`" + paths[i] + "`")
  }

  function RiskRows(risks: seq<RiskItem>): (rows: seq<string>)
    ensures |rows| == |risks| && forall i :: 0 <= i < |risks| ==> rows[i] == RiskRow(risks[i])
  {
    seq(|risks|, i requires 0 <= i < |risks| => RiskRow(risks[i]))
  }

  // Heading(2, "Notes") is the literal "## Notes" of the source, and so on.
  function TextBlock(heading: string, body: string): seq<string> {
    [heading, "", OrNothing(body), ""]
  }

  function ListBlock(heading: string, items: seq<string>): seq<string> {
    [heading, ""] + Bulleted("- ", OrNone(items, NOTHING)) + [""]
  }

  function CriteriaBlock(heading: string, criteria: seq<string>): seq<string> {
    [heading, ""] + Bulleted("- [ ] ", OrNone(criteria, NO_CRITERION)) + [""]
  }

  function RiskLines(risks: seq<RiskItem>): seq<string> {
    if risks == [] then [NO_ITEM] else [TABLE_HEADER, TABLE_RULE] + RiskRows(risks)
  }

  function RiskBlock(heading: string, risks: seq<RiskItem>): seq<string> {
    [heading, ""] + RiskLines(risks) + [""]
  }

  // The ten headings of the file, from 0 to 9.
  function Title(k: nat): string {
    match k
    case 0 => "Goal"
    case 1 => "Background"
    case 2 => "Constraints"
    case 3 => "Acceptance Criteria"
    case 4 => "Scope"
    case 5 => "In Scope"
    case 6 => "Out of Scope"
    case 7 => "Allowed Paths"
    case 8 => "Risk Assessment"
    case _ => "Notes"
  }

  function Level(k: nat): nat {
    if k == 0 then 1 else if 5 <= k <= 7 then 3 else 2
  }

  // What is pushed under each.
  function Block(r: Requirement, k: nat): seq<string> {
    var heading := Heading(Level(k), Title(k));
    match k
    case 0 => TextBlock(heading, r.goal)
    case 1 => TextBlock(heading, r.background)
    case 2 => ListBlock(heading, r.constraints)
    case 3 => CriteriaBlock(heading, r.acceptanceCriteria)
    case 4 => [heading, ""]
    case 5 => ListBlock(heading, r.inScope)
    case 6 => ListBlock(heading, r.outOfScope)
    case 7 => ListBlock(heading, Backticked(r.allowedPaths))
    case 8 => RiskBlock(heading, r.riskAssessment)
    case _ => TextBlock(heading, r.notes)
  }

  // Everything pushed for the first k headings.
  function UpTo(r: Requirement, k: nat): seq<string> {
    if k == 0 then [] else UpTo(r, k - 1) + Block(r, k - 1)
  }

  function Formatted(r: Requirement): string {
    Trim(Join(UpTo(r, 10), '\n')) + "\n"
  }

  // The array the helpers push into.
  class LineBuffer {
    var pushed: seq<string>

    constructor ()
      ensures pushed == []
    {
      pushed := [];
    }

    method Push(lines: seq<string>)
      modifies this
      ensures pushed == old(pushed) + lines
    {
      pushed := pushed + lines;
    }
  }

  method PushSection(lines: LineBuffer, heading: string, body: string)
    modifies lines
    ensures lines.pushed == old(lines.pushed) + TextBlock(heading, body)
  {
    lines.Push([heading, "", if Trim(body) != "" then Trim(body) else "(none)", ""]);
  }

  method PushItems(lines: LineBuffer, bullet: string, items: seq<string>)
    modifies lines
    ensures lines.pushed == old(lines.pushed) + Bulleted(bullet, items)
  {
    for i := 0 to |items|
      invariant lines.pushed == old(lines.pushed) + Bulleted(bullet, items)[..i]
    {
      lines.Push([bullet + items[i]]);
    }
  }

  // What an empty list is replaced by.
  lemma PlaceholderLines()
    ensures Bulleted("- ", [NOTHING]) == ["- (none)"]
    ensures Bulleted("- [ ] ", [NO_CRITERION]) == ["- [ ] (to be defined)"]
  {
    assert "- " + NOTHING == "- (none)";
    assert "- [ ] " + NO_CRITERION == "- [ ] (to be defined)";
  }

  method PushListSection(lines: LineBuffer, heading: string, items: seq<string>)
    modifies lines
    ensures lines.pushed == old(lines.pushed) + ListBlock(heading, items)
  {
    PlaceholderLines();
    lines.Push([heading, ""]);
    if items == [] {
      lines.Push(["- (none)", ""]);
      return;
    }
    PushItems(lines, "- ", items);
    lines.Push([""]);
  }

  method PushCriteria(lines: LineBuffer, heading: string, criteria: seq<string>)
    modifies lines
    ensures lines.pushed == old(lines.pushed) + CriteriaBlock(heading, criteria)
  {
    PlaceholderLines();
    lines.Push([heading, ""]);
    if criteria == [] {
      lines.Push(["- [ ] (to be defined)"]);
    } else {
      PushItems(lines, "- [ ] ", criteria);
    }
    lines.Push([""]);
  }

  method PushRiskRows(lines: LineBuffer, risks: seq<RiskItem>)
    modifies lines
    ensures lines.pushed == old(lines.pushed) + RiskRows(risks)
  {
    for i := 0 to |risks|
      invariant lines.pushed == old(lines.pushed) + RiskRows(risks)[..i]
    {
      var risk := risks[i];
      lines.Push(["| " + risk.risk + " | " + ImpactWord(risk.impact) + " | " + risk.mitigation + " |"]);
    }
  }

  method PushRiskTable(lines: LineBuffer, header: string, rule: string, risks: seq<RiskItem>)
    modifies lines
    ensures lines.pushed == old(lines.pushed) + ([header, rule] + RiskRows(risks))
  {
    lines.Push([header]);
    lines.Push([rule]);
    PushRiskRows(lines, risks);
  }

  method PushRiskLines(lines: LineBuffer, risks: seq<RiskItem>)
    modifies lines
    ensures lines.pushed == old(lines.pushed) + RiskLines(risks)
  {
    if risks == [] {
      lines.Push([NO_ITEM]);
    } else {
      PushRiskTable(lines, TABLE_HEADER, TABLE_RULE, risks);
    }
  }

  method PushRisks(lines: LineBuffer, heading: string, risks: seq<RiskItem>)
    modifies lines
    ensures lines.pushed == old(lines.pushed) + RiskBlock(heading, risks)
  {
    ghost var before, body := lines.pushed, RiskLines(risks);
    lines.Push([heading, ""]);
    PushRiskLines(lines, risks);
    lines.Push([""]);
    assert before + [heading, ""] + body + [""] == before + ([heading, ""] + body + [""]);
  }

  lemma OneMoreBlock(r: Requirement, k: nat, pushed: seq<string>, block: seq<string>)
    requires pushed == UpTo(r, k) + block && block == Block(r, k)
    ensures pushed == UpTo(r, k + 1)
  {
  }

  // The sections before the scope.
  method PushDescription(lines: LineBuffer, r: Requirement)
    requires lines.pushed == []
    modifies lines
    ensures lines.pushed == UpTo(r, 4)
  {
    PushSection(lines, Heading(1, "Goal"), r.goal);
    OneMoreBlock(r, 0, lines.pushed, TextBlock(Heading(1, "Goal"), r.goal));
    PushSection(lines, Heading(2, "Background"), r.background);
    OneMoreBlock(r, 1, lines.pushed, TextBlock(Heading(2, "Background"), r.background));
    PushListSection(lines, Heading(2, "Constraints"), r.constraints);
    OneMoreBlock(r, 2, lines.pushed, ListBlock(Heading(2, "Constraints"), r.constraints));
    PushCriteria(lines, Heading(2, "Acceptance Criteria"), r.acceptanceCriteria);
    OneMoreBlock(r, 3, lines.pushed, CriteriaBlock(Heading(2, "Acceptance Criteria"), r.acceptanceCriteria));
  }

  // The scope and its three lists.
  method PushScope(lines: LineBuffer, r: Requirement)
    requires lines.pushed == UpTo(r, 4)
    modifies lines
    ensures lines.pushed == UpTo(r, 8)
  {
    lines.Push([Heading(2, "Scope"), ""]);
    OneMoreBlock(r, 4, lines.pushed, [Heading(2, "Scope"), ""]);
    PushListSection(lines, Heading(3, "In Scope"), r.inScope);
    OneMoreBlock(r, 5, lines.pushed, ListBlock(Heading(3, "In Scope"), r.inScope));
    PushListSection(lines, Heading(3, "Out of Scope"), r.outOfScope);
    OneMoreBlock(r, 6, lines.pushed, ListBlock(Heading(3, "Out of Scope"), r.outOfScope));
    PushListSection(lines, Heading(3, "Allowed Paths"), Backticked(r.allowedPaths));
    OneMoreBlock(r, 7, lines.pushed, ListBlock(Heading(3, "Allowed Paths"), Backticked(r.allowedPaths)));
  }

  method FormatRequirementMarkdown(r: Requirement) returns (text: string)
    ensures text == Formatted(r)
  {
    var lines := new LineBuffer();
    PushDescription(lines, r);
    PushScope(lines, r);
    PushRisks(lines, Heading(2, "Risk Assessment"), r.riskAssessment);
    OneMoreBlock(r, 8, lines.pushed, RiskBlock(Heading(2, "Risk Assessment"), r.riskAssessment));
    PushSection(lines, Heading(2, "Notes"), r.notes);
    OneMoreBlock(r, 9, lines.pushed, TextBlock(Heading(2, "Notes"), r.notes));
    text := Trim(Join(lines.pushed, '\n')) + "\n";
  }
}
