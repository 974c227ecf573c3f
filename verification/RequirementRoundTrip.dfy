// Reading a requirement back from what was written: which requirements survive it,
// and what the others become.
module RequirementRoundTrip {
  import opened Options
  import opened Text
  import opened RequirementParser
  import opened RequirementLines
  import opened RequirementDocument
  import opened RequirementMarkdown

  // ---- The requirements that can be written down

  // A line of free text that ends no section and starts none: no heading, or one below
  // level 2 that does not carry the name of a section of the file. The two lists of the
  // scope are only looked for inside the scope, so their names are free.
  predicate QuietLine(line: string) {
    HeaderOf(line).Some? ==>
      HeaderOf(line).value.level > 2 && forall k :: 0 <= k < 10 && k != 5 && k != 6 ==>
        HeaderOf(line).value.name != Lower(Title(k))
  }

  predicate FreeTextOk(text: string) {
    forall line :: line in Split(Trim(text), '\n') ==> QuietLine(line)
  }

  predicate WellFormed(r: Requirement) {
    && FreeTextOk(r.goal) && FreeTextOk(r.background) && FreeTextOk(r.notes)
    && (forall x :: x in r.constraints ==> PlainItemOk(x))
    && (forall x :: x in r.inScope ==> PlainItemOk(x))
    && (forall x :: x in r.outOfScope ==> PlainItemOk(x))
    && (forall x :: x in r.acceptanceCriteria ==> ItemOk(x))
    && (forall x :: x in r.allowedPaths ==> PathOk(x))
    && (forall x :: x in r.riskAssessment ==> RowOk(x))
  }

  // What is read back: blank texts and empty lists come back as their placeholders,
  // texts come back trimmed, and no allowed path means every path.
  function Completed(r: Requirement): Requirement {
    Requirement(
      OrNothing(r.goal),
      OrNothing(r.background),
      OrNone(r.constraints, NOTHING),
      OrNone(r.acceptanceCriteria, NO_CRITERION),
      OrNone(r.inScope, NOTHING),
      OrNone(r.outOfScope, NOTHING),
      if r.allowedPaths == [] then DEFAULT_ALLOWED_PATHS else r.allowedPaths,
      r.riskAssessment,
      OrNothing(r.notes),
      Formatted(r))
  }

  // ---- The file as a document

  function Inner(r: Requirement, k: nat): seq<string>
    requires k < 10
  {
    match k
    case 0 => Split(OrNothing(r.goal), '\n')
    case 1 => Split(OrNothing(r.background), '\n')
    case 2 => Bulleted("- ", OrNone(r.constraints, NOTHING))
    case 3 => Bulleted("- [ ] ", OrNone(r.acceptanceCriteria, NO_CRITERION))
    case 4 => []
    case 5 => Bulleted("- ", OrNone(r.inScope, NOTHING))
    case 6 => Bulleted("- ", OrNone(r.outOfScope, NOTHING))
    case 7 => Bulleted("- ", OrNone(Backticked(r.allowedPaths), NOTHING))
    case 8 => RiskLines(r.riskAssessment)
    case _ => Split(OrNothing(r.notes), '\n')
  }

  function PartOf(r: Requirement, k: nat): Part
    requires k < 10
  {
    Part(Level(k), Title(k), if k == 4 then [""] else [""] + Inner(r, k) + [""])
  }

  function Document(r: Requirement): (doc: seq<Part>)
    ensures |doc| == 10 && forall k :: 0 <= k < 10 ==> doc[k] == PartOf(r, k)
  {
    seq(10, k requires 0 <= k < 10 => PartOf(r, k))
  }

  // The lines of the pushed strings.
  function Flat(pushed: seq<string>): seq<string> {
    if pushed == [] then [] else Flat(pushed[..|pushed| - 1]) + Split(pushed[|pushed| - 1], '\n')
  }

  lemma FlatSnoc(pushed: seq<string>, text: string)
    ensures Flat(pushed + [text]) == Flat(pushed) + Split(text, '\n')
  {
    assert (pushed + [text])[..|pushed|] == pushed;
  }

  lemma {:induction false} FlatConcat(a: seq<string>, b: seq<string>)
    ensures Flat(a + b) == Flat(a) + Flat(b)
  {
    if b == [] {
      assert a + b == a;
    } else {
      var init, last := b[..|b| - 1], b[|b| - 1];
      assert b == init + [last];
      assert a + b == a + init + [last];
      FlatConcat(a, init);
      FlatSnoc(a + init, last);
      FlatSnoc(init, last);
    }
  }

  lemma {:induction false} FlatUnbroken(lines: seq<string>)
    requires Unbroken(lines)
    ensures Flat(lines) == lines
  {
    if lines != [] {
      var init, last := lines[..|lines| - 1], lines[|lines| - 1];
      assert Unbroken(init) && last in lines;
      FlatUnbroken(init);
      SplitOne(last, '\n');
    }
  }

  lemma {:induction false} FlatIsUnbroken(pushed: seq<string>)
    ensures Unbroken(Flat(pushed))
  {
    if pushed != [] {
      FlatIsUnbroken(pushed[..|pushed| - 1]);
      PartsHaveNoSeparator(pushed[|pushed| - 1], '\n');
    }
  }

  lemma {:induction false} JoinFlat(pushed: seq<string>)
    requires pushed != []
    ensures Flat(pushed) != [] && Join(Flat(pushed), '\n') == Join(pushed, '\n')
  {
    var init, last := pushed[..|pushed| - 1], pushed[|pushed| - 1];
    JoinSplit(last, '\n');
    assert pushed == init + [last];
    if init == [] {
      assert Flat(init) + Split(last, '\n') == Split(last, '\n');
    } else {
      JoinFlat(init);
      JoinConcat(init, [last], '\n');
      JoinConcat(Flat(init), Split(last, '\n'), '\n');
    }
  }

  lemma {:induction false} RenderSnoc(doc: seq<Part>, p: Part)
    ensures Render(doc + [p]) == Render(doc) + RenderPart(p)
  {
    if doc == [] {
      assert doc + [p] == [p] && [p][1..] == [];
      assert Render([p]) == RenderPart(p) + [];
    } else {
      assert (doc + [p])[1..] == doc[1..] + [p];
      RenderSnoc(doc[1..], p);
    }
  }

  lemma RenderPrefix(doc: seq<Part>, k: nat)
    requires k < |doc|
    ensures Render(doc[..k + 1]) == Render(doc[..k]) + RenderPart(doc[k])
  {
    RenderSnoc(doc[..k], doc[k]);
    assert doc[..k + 1] == doc[..k] + [doc[k]];
  }

  lemma Framed(heading: string, lines: seq<string>)
    ensures [heading, ""] + lines + [""] == [heading] + ([""] + lines + [""])
  {
  }

  lemma FlatBlock(heading: string, text: string)
    requires '\n' !in heading
    ensures Flat([heading, ""] + [text] + [""]) == [heading] + ([""] + Split(text, '\n') + [""])
  {
    FlatUnbroken([heading, ""]);
    FlatSnoc([heading, ""], text);
    FlatSnoc([heading, ""] + [text], "");
    Framed(heading, Split(text, '\n'));
  }

  lemma TextBlockIsPart(heading: string, body: string)
    requires '\n' !in heading
    ensures Flat(TextBlock(heading, body)) == [heading] + ([""] + Split(OrNothing(body), '\n') + [""])
  {
    FlatBlock(heading, OrNothing(body));
    FourLines(heading, OrNothing(body));
  }

  lemma FourLines(heading: string, text: string)
    ensures [heading, "", text, ""] == [heading, ""] + [text] + [""]
  {
  }

  lemma ListBlockIsPart(heading: string, lines: seq<string>)
    requires '\n' !in heading && Unbroken(lines)
    ensures Flat([heading, ""] + lines + [""]) == [heading] + ([""] + lines + [""])
  {
    FlatUnbroken([heading, ""] + lines + [""]);
  }

  // ---- What each kind of line is worth

  lemma FirstTitlesAreOk(k: nat)
    requires k < 5
    ensures TitleOk(Title(k))
  {
  }

  lemma LastTitlesAreOk(k: nat)
    requires 5 <= k < 10
    ensures TitleOk(Title(k))
  {
  }

  lemma TitlesAreOk(k: nat)
    requires k < 10
    ensures TitleOk(Title(k))
  {
    if k < 5 { FirstTitlesAreOk(k); } else { LastTitlesAreOk(k); }
  }

  lemma TitlesDiffer(j: nat, k: nat)
    requires j < k < 10
    ensures Lower(Title(j)) != Lower(Title(k))
  {
    assert |Lower(Title(j))| == |Title(j)| && |Lower(Title(k))| == |Title(k)|;
    if j == 4 && k == 9 {
      assert Lower(Title(j))[0] == 's' && Lower(Title(k))[0] == 'n';
    }
  }

  // A line that is no heading at all.
  predicate PlainLine(line: string) {
    '\n' !in line && HeaderOf(line).None?
  }

  lemma NotAHeading(line: string)
    requires line == "" || line[0] != '#'
    ensures HeaderOf(line).None?
  {
    OnlyHashesStartHeadings(line);
  }

  lemma BulletedLinesArePlain(bullet: string, items: seq<string>)
    requires bullet == "- " || bullet == "- [ ] "
    requires items != [] && forall x :: x in items ==> x != "" && '\n' !in x && !IsSpace(x[|x| - 1])
    ensures Tight(Bulleted(bullet, items))
    ensures forall line :: line in Bulleted(bullet, items) ==> PlainLine(line)
  {
    var lines := Bulleted(bullet, items);
    forall line | line in lines ensures PlainLine(line) {
      var i :| 0 <= i < |lines| && lines[i] == line;
      assert line == bullet + items[i] && items[i] in items;
      NotAHeading(line);
    }
    assert lines[0] == bullet + items[0] && items[0] in items;
    var n := |items| - 1;
    assert lines[n] == bullet + items[n] && items[n] in items;
  }

  lemma RowIsOneLine(r: RiskItem)
    requires RowOk(r)
    ensures PlainLine(RiskRow(r)) && RiskRow(r)[0] == '|' && RiskRow(r)[|RiskRow(r)| - 1] == '|'
  {
    NotAHeading(RiskRow(r));
  }

  lemma TableTopIsPlain()
    ensures PlainLine(TABLE_HEADER) && PlainLine(TABLE_RULE) && PlainLine(NO_ITEM)
    ensures TABLE_HEADER[0] == '|' && Tight([NO_ITEM])
  {
    NotAHeading(TABLE_HEADER);
    NotAHeading(TABLE_RULE);
    NotAHeading(NO_ITEM);
  }

  lemma RiskLinesArePlain(risks: seq<RiskItem>)
    requires forall x :: x in risks ==> RowOk(x)
    ensures Tight(RiskLines(risks))
    ensures forall line :: line in RiskLines(risks) ==> PlainLine(line)
  {
    TableTopIsPlain();
    if risks != [] {
      RowsArePlain(risks);
      TightTable(TABLE_HEADER, TABLE_RULE, RiskRows(risks));
    }
  }

  lemma RowsArePlain(risks: seq<RiskItem>)
    requires risks != [] && forall x :: x in risks ==> RowOk(x)
    ensures forall row :: row in RiskRows(risks) ==> PlainLine(row) && row != "" && row[|row| - 1] == '|'
  {
    forall row | row in RiskRows(risks) ensures PlainLine(row) && row != "" && row[|row| - 1] == '|' {
      var i :| 0 <= i < |risks| && RiskRows(risks)[i] == row;
      RowIsOneLine(risks[i]);
    }
  }

  lemma TightTable(header: string, rule: string, rows: seq<string>)
    requires header != "" && header[0] == '|'
    requires rows != [] && forall row :: row in rows ==> row != "" && row[|row| - 1] == '|'
    ensures Tight([header, rule] + rows)
  {
    var last := rows[|rows| - 1];
    assert last in rows && ([header, rule] + rows)[|rows| + 1] == last;
  }

  lemma PlaceholdersAreOk()
    ensures PlainItemOk(NOTHING) && ItemOk(NO_CRITERION) && Trimmed(NOTHING) && PlainLine(NOTHING)
  {
    NotAHeading(NOTHING);
  }

  lemma FreeTextLines(text: string)
    requires FreeTextOk(text)
    ensures forall line :: line in Split(OrNothing(text), '\n') ==> QuietLine(line)
    ensures Trimmed(OrNothing(text)) && OrNothing(text) != ""
    ensures Join(Split(OrNothing(text), '\n'), '\n') == OrNothing(text)
  {
    JoinSplit(OrNothing(text), '\n');
    PlaceholdersAreOk();
    if Trim(text) == "" {
      SplitOne(NOTHING, '\n');
    }
  }

  predicate ListPart(k: nat) {
    k == 2 || k == 3 || k == 5 || k == 6 || k == 7
  }

  function Bullet(k: nat): string {
    if k == 3 then "- [ ] " else "- "
  }

  function Items(r: Requirement, k: nat): seq<string>
    requires ListPart(k)
  {
    match k
    case 2 => OrNone(r.constraints, NOTHING)
    case 3 => OrNone(r.acceptanceCriteria, NO_CRITERION)
    case 5 => OrNone(r.inScope, NOTHING)
    case 6 => OrNone(r.outOfScope, NOTHING)
    case _ => OrNone(Backticked(r.allowedPaths), NOTHING)
  }

  predicate ItemsOk(items: seq<string>) {
    items != [] && forall x :: x in items ==> x != "" && '\n' !in x && !IsSpace(x[|x| - 1])
  }

  lemma OkItems(items: seq<string>)
    requires items != [] && forall x :: x in items ==> ItemOk(x)
    ensures ItemsOk(items)
  {
  }

  lemma OkPaths(paths: seq<string>)
    requires forall x :: x in paths ==> PathOk(x)
    ensures ItemsOk(OrNone(Backticked(paths), NOTHING))
  {
    PlaceholdersAreOk();
    var items := Backticked(paths);
    forall x | x in items ensures x != "" && '\n' !in x && !IsSpace(x[|x| - 1]) {
      var i :| 0 <= i < |paths| && items[i] == x;
      assert paths[i] in paths && x == "`" + paths[i] + "`";
    }
  }

  predicate AllPlain(items: seq<string>) {
    forall x :: x in items ==> PlainItemOk(x)
  }

  lemma ListItemsAreOk(r: Requirement, k: nat)
    requires WellFormed(r) && ListPart(k)
    ensures ItemsOk(Items(r, k))
    ensures k != 3 && k != 7 ==> AllPlain(Items(r, k))
    ensures k == 3 ==> forall x :: x in Items(r, k) ==> ItemOk(x)
  {
    PlaceholdersAreOk();
    if k == 7 {
      OkPaths(r.allowedPaths);
    } else {
      OkItems(Items(r, k));
    }
  }

  // The part's lines start and end no section, and are tight when joined.
  lemma InnerIsQuiet(r: Requirement, k: nat)
    requires WellFormed(r) && k < 10 && k != 4
    ensures Inner(r, k) != [] && Unbroken(Inner(r, k)) && Trimmed(Join(Inner(r, k), '\n'))
    ensures forall line :: line in Inner(r, k) ==> QuietLine(line)
    ensures ListPart(k) || k == 8 ==> Tight(Inner(r, k)) && forall line :: line in Inner(r, k) ==> PlainLine(line)
  {
    if ListPart(k) {
      ListItemsAreOk(r, k);
      BulletedLinesArePlain(Bullet(k), Items(r, k));
      TightTextIsTrimmed(Inner(r, k));
    } else if k == 8 {
      RiskLinesArePlain(r.riskAssessment);
      TightTextIsTrimmed(Inner(r, k));
    } else {
      var text := if k == 0 then r.goal else if k == 1 then r.background else r.notes;
      FreeTextLines(text);
      PartsHaveNoSeparator(OrNothing(text), '\n');
    }
  }

  predicate TextPart(k: nat) {
    k == 0 || k == 1 || k == 9
  }

  function FreeText(r: Requirement, k: nat): string {
    if k == 0 then r.goal else if k == 1 then r.background else r.notes
  }

  // What is pushed under a heading is what the document has under it.
  lemma BlockIsFramed(r: Requirement, k: nat)
    requires k < 10
    ensures var heading := Heading(Level(k), Title(k));
      Block(r, k) ==
        if k == 4 then [heading, ""]
        else if TextPart(k) then TextBlock(heading, FreeText(r, k))
        else [heading, ""] + Inner(r, k) + [""]
  {
  }

  lemma TextInner(r: Requirement, k: nat)
    requires TextPart(k)
    ensures Inner(r, k) == Split(OrNothing(FreeText(r, k)), '\n')
  {
  }

  lemma TextBlockIsTextPart(r: Requirement, k: nat)
    requires TextPart(k)
    ensures Flat(Block(r, k)) == RenderPart(PartOf(r, k))
  {
    TitlesAreOk(k);
    BlockIsFramed(r, k);
    TextInner(r, k);
    TextBlockIsPart(Heading(Level(k), Title(k)), FreeText(r, k));
  }

  lemma ListBlockIsListPart(r: Requirement, k: nat)
    requires WellFormed(r) && k < 10 && k != 4 && !TextPart(k)
    ensures Flat(Block(r, k)) == RenderPart(PartOf(r, k))
  {
    TitlesAreOk(k);
    BlockIsFramed(r, k);
    InnerIsQuiet(r, k);
    ListBlockIsPart(Heading(Level(k), Title(k)), Inner(r, k));
  }

  lemma BlockIsPart(r: Requirement, k: nat)
    requires WellFormed(r) && k < 10
    ensures Flat(Block(r, k)) == RenderPart(PartOf(r, k))
  {
    if k == 4 {
      TitlesAreOk(k);
      BlockIsFramed(r, k);
      FlatUnbroken([Heading(Level(k), Title(k)), ""]);
    } else if TextPart(k) {
      TextBlockIsTextPart(r, k);
    } else {
      ListBlockIsListPart(r, k);
    }
  }

  lemma {:induction false} PushedIsDocument(r: Requirement, k: nat)
    requires WellFormed(r) && k <= 10
    ensures Flat(UpTo(r, k)) == Render(Document(r)[..k])
  {
    if k > 0 {
      PushedIsDocument(r, k - 1);
      FlatConcat(UpTo(r, k - 1), Block(r, k - 1));
      BlockIsPart(r, k - 1);
      RenderPrefix(Document(r), k - 1);
    }
  }

  lemma {:induction false} PushedStarts(r: Requirement, k: nat)
    requires 1 <= k <= 10
    ensures UpTo(r, k) != [] && UpTo(r, k)[0] == Heading(1, "Goal")
  {
    if k > 1 {
      PushedStarts(r, k - 1);
    } else {
      assert UpTo(r, 1) == [] + Block(r, 0);
    }
  }

  lemma NextBlock(r: Requirement, k: nat, block: seq<string>)
    requires Block(r, k) == block
    ensures UpTo(r, k + 1) == UpTo(r, k) + block
  {
  }

  lemma OrNothingIsTrimmed(body: string)
    ensures Trimmed(OrNothing(body)) && OrNothing(body) != ""
  {
  }

  lemma LastBlockIsTrimmed(before: seq<string>, all: seq<string>, heading: string, body: string, first: string)
    requires before != [] && before[0] == first && first != "" && first[0] == '#'
    requires all == before + TextBlock(heading, body)
    ensures Trim(Join(all, '\n')) + "\n" == Join(all, '\n')
  {
    OrNothingIsTrimmed(body);
    BreakIsTrimmedAfter(before, heading, body, first);
  }

  // Up to a text section, trimming what was joined only takes away the last line break.
  lemma JoinedUpTo(r: Requirement, k: nat)
    requires 0 < k < 10 && TextPart(k)
    ensures Trim(Join(UpTo(r, k + 1), '\n')) + "\n" == Join(UpTo(r, k + 1), '\n')
  {
    PushedStarts(r, k);
    BlockIsFramed(r, k);
    var heading := Heading(Level(k), Title(k));
    NextBlock(r, k, TextBlock(heading, FreeText(r, k)));
    LastBlockIsTrimmed(UpTo(r, k), UpTo(r, k + 1), heading, FreeText(r, k), Heading(1, "Goal"));
  }

  // The whole file is the joined lines.
  lemma FormattedIsJoined(r: Requirement)
    ensures Formatted(r) == Join(UpTo(r, 10), '\n')
  {
    JoinedUpTo(r, 9);
  }

  lemma BreakIsTrimmedAfter(before: seq<string>, heading: string, body: string, first: string)
    requires before != [] && before[0] == first && first != "" && first[0] == '#'
    requires Trimmed(OrNothing(body)) && OrNothing(body) != ""
    ensures var all := before + TextBlock(heading, body);
      Trim(Join(all, '\n')) + "\n" == Join(all, '\n')
  {
    LastBreakIsTrimmed(before, heading, body);
  }

  lemma LastBreakIsTrimmed(before: seq<string>, heading: string, body: string)
    requires before != [] && before[0] != "" && !IsSpace(before[0][0])
    requires Trimmed(OrNothing(body)) && OrNothing(body) != ""
    ensures var all := before + TextBlock(heading, body);
      Trim(Join(all, '\n')) + "\n" == Join(all, '\n')
  {
    var init := before + [heading, "", OrNothing(body)];
    assert before + TextBlock(heading, body) == init + [""];
    TightTextIsTrimmed(init);
    JoinConcat(init, [""], '\n');
    var text := Join(init, '\n');
    assert Join(init + [""], '\n') == "" + text + "\n" == text + "\n";
    TrimPadded("", text, "\n");
  }

  // The lines of the file.
  lemma FormattedLines(r: Requirement)
    requires WellFormed(r)
    ensures Split(Formatted(r), '\n') == Render(Document(r))
  {
    FormattedIsJoined(r);
    PushedStarts(r, 10);
    JoinFlat(UpTo(r, 10));
    PushedIsDocument(r, 10);
    assert Document(r)[..10] == Document(r);
    FlatIsUnbroken(UpTo(r, 10));
    SplitJoin(Flat(UpTo(r, 10)), '\n');
  }

  // ---- Reading the sections back

  lemma QuietLinesAreSkipped(lines: seq<string>, k: nat)
    requires k < 10 && k != 5 && k != 6 && forall line :: line in lines ==> QuietLine(line)
    ensures NoneNames(lines, Lower(Title(k))) && NoneEnds(lines, 2)
  {
  }

  lemma FramedIsQuiet(lines: seq<string>)
    requires forall line :: line in lines ==> QuietLine(line)
    ensures forall line :: line in [""] + lines + [""] ==> QuietLine(line)
  {
    NotAHeading("");
  }

  lemma FramedEndsNothing(lines: seq<string>, boundary: nat)
    requires forall line :: line in lines ==> PlainLine(line)
    ensures NoneEnds([""] + lines + [""], boundary)
  {
    NotAHeading("");
  }

  lemma FramedNamesNothing(lines: seq<string>, target: string)
    requires forall line :: line in lines ==> PlainLine(line)
    ensures NoneNames([""] + lines + [""], target)
  {
    NotAHeading("");
  }

  lemma BodyIsQuiet(r: Requirement, k: nat)
    requires WellFormed(r) && k < 10
    ensures forall line :: line in PartOf(r, k).body ==> QuietLine(line)
    ensures ListPart(k) ==> NoneEnds(PartOf(r, k).body, 3)
    ensures PartOk(PartOf(r, k))
  {
    TitlesAreOk(k);
    if k == 4 {
      NotAHeading("");
    } else {
      InnerIsQuiet(r, k);
      FramedIsQuiet(Inner(r, k));
      if ListPart(k) { FramedEndsNothing(Inner(r, k), 3); }
    }
  }

  lemma DocumentLeadsTo(r: Requirement, k: nat)
    requires WellFormed(r) && k < 10 && k != 5 && k != 6
    ensures LeadsTo(Document(r), k)
  {
    var doc := Document(r);
    forall j | 0 <= j < 10 ensures PartOk(doc[j]) { BodyIsQuiet(r, j); }
    forall j | 0 <= j < k ensures Lower(doc[j].title) != Lower(Title(k)) && NoneNames(doc[j].body, Lower(Title(k))) {
      TitlesDiffer(j, k);
      BodyIsQuiet(r, j);
      QuietLinesAreSkipped(doc[j].body, k);
    }
    BodyIsQuiet(r, k);
    QuietLinesAreSkipped(doc[k].body, k);
  }

  // Every section but the scope is read back as the lines under its heading.
  lemma SectionIsInner(r: Requirement, k: nat)
    requires WellFormed(r) && k < 10 && k != 4 && k != 5 && k != 6
    ensures Section(Formatted(r), Title(k)) == Join(Inner(r, k), '\n')
  {
    FormattedLines(r);
    DocumentLeadsTo(r, k);
    InnerIsQuiet(r, k);
    SectionIsPart(Formatted(r), Document(r), k, Inner(r, k));
  }

  // ---- The scope, whose lists are found in its own text

  function ScopeDocument(r: Requirement): seq<Part> {
    [PartOf(r, 5), PartOf(r, 6), PartOf(r, 7).(body := [""] + Inner(r, 7))]
  }

  lemma UnframedPaths(r: Requirement)
    requires WellFormed(r)
    ensures PartOf(r, 7).body == ([""] + Inner(r, 7)) + [""]
    ensures TightEnd([""] + Inner(r, 7)) && Unbroken([""] + Inner(r, 7))
  {
    InnerIsQuiet(r, 7);
  }

  lemma LowerHeadingsStay(r: Requirement, k: nat)
    requires WellFormed(r) && 5 <= k <= 7
    ensures NoneEnds(PartOf(r, k).body, 2) && NoneEnds(PartOf(r, k).body, 3) && PartOk(PartOf(r, k))
    ensures Unbroken(PartOf(r, k).body) && PartOf(r, k).level == 3
  {
    BodyIsQuiet(r, k);
    QuietLinesAreSkipped(PartOf(r, k).body, 4);
    InnerIsQuiet(r, k);
  }

  lemma ScopeIsRead(r: Requirement)
    requires WellFormed(r)
    ensures Split(Section(Formatted(r), Title(4)), '\n') == Render(ScopeDocument(r))
  {
    FormattedLines(r);
    DocumentLeadsTo(r, 4);
    UnframedPaths(r);
    LowerHeadingsStay(r, 5);
    LowerHeadingsStay(r, 6);
    LowerHeadingsStay(r, 7);
    SectionIsDocument(Formatted(r), Document(r), 4, [""] + Inner(r, 7));
  }

  lemma InScopeNamesNothing(r: Requirement)
    requires WellFormed(r)
    ensures NoneNames(PartOf(r, 5).body, Lower(Title(6)))
  {
    InnerIsQuiet(r, 5);
    FramedNamesNothing(Inner(r, 5), Lower(Title(6)));
  }

  lemma LastScopePart(r: Requirement)
    requires WellFormed(r)
    ensures PartOk(ScopeDocument(r)[2])
  {
    LowerHeadingsStay(r, 7);
  }

  lemma ScopeDocumentLeadsTo(r: Requirement, k: nat)
    requires WellFormed(r) && 5 <= k <= 6
    ensures LeadsTo(ScopeDocument(r), k - 5)
  {
    var a, b, c := PartOf(r, 5), PartOf(r, 6), ScopeDocument(r)[2];
    LowerHeadingsStay(r, 5);
    LowerHeadingsStay(r, 6);
    LastScopePart(r);
    TitlesDiffer(5, 6);
    InScopeNamesNothing(r);
    ThreeLeadTo(a, b, c);
  }

  lemma ThreeLeadTo(a: Part, b: Part, c: Part)
    requires PartOk(a) && PartOk(b) && PartOk(c)
    requires NoneEnds(a.body, Boundary(a.level)) && NoneEnds(b.body, Boundary(b.level))
    requires Lower(a.title) != Lower(b.title) && NoneNames(a.body, Lower(b.title))
    ensures LeadsTo([a, b, c], 0) && LeadsTo([a, b, c], 1)
  {
  }

  // The lists of the scope.
  lemma ScopeListIsInner(r: Requirement, k: nat)
    requires WellFormed(r) && 5 <= k <= 6
    ensures Section(Section(Formatted(r), Title(4)), Title(k)) == Join(Inner(r, k), '\n')
  {
    ScopeIsRead(r);
    ScopeDocumentLeadsTo(r, k);
    InnerIsQuiet(r, k);
    SectionIsPart(Section(Formatted(r), Title(4)), ScopeDocument(r), k - 5, Inner(r, k));
  }

  // ---- Reading the lists back

  lemma LinesOfInner(r: Requirement, k: nat)
    requires WellFormed(r) && k < 10 && k != 4
    ensures Lines(Join(Inner(r, k), '\n')) == Inner(r, k)
  {
    InnerIsQuiet(r, k);
    SplitJoin(Inner(r, k), '\n');
  }

  lemma ItemLineIsRead(k: nat, item: string)
    requires if k == 3 then ItemOk(item) else PlainItemOk(item)
    ensures ListItemOf(Bullet(k) + item) == Some(item)
  {
    if k == 3 { CheckboxItemIsRead(item); } else { PlainItemIsReadIff(item); }
  }

  lemma BulletedItemsAreRead(k: nat, items: seq<string>)
    requires forall x :: x in items ==> if k == 3 then ItemOk(x) else PlainItemOk(x)
    ensures Collect(Bulleted(Bullet(k), items), ListItemOf) == items
  {
    var lines := Bulleted(Bullet(k), items);
    forall i | 0 <= i < |lines| ensures ListItemOf(lines[i]) == Some(items[i]) {
      assert items[i] in items;
      ItemLineIsRead(k, items[i]);
    }
    CollectAll(lines, ListItemOf, items);
  }

  lemma InnerIsBulleted(r: Requirement, k: nat)
    requires ListPart(k)
    ensures Inner(r, k) == Bulleted(Bullet(k), Items(r, k))
  {
  }

  lemma ItemsAreRead(r: Requirement, k: nat)
    requires WellFormed(r) && ListPart(k) && k != 7
    ensures Collect(Lines(Join(Inner(r, k), '\n')), ListItemOf) == Items(r, k)
  {
    LinesOfInner(r, k);
    ListItemsAreOk(r, k);
    InnerIsBulleted(r, k);
    BulletedItemsAreRead(k, Items(r, k));
  }

  lemma PathsAreRead(r: Requirement)
    requires WellFormed(r)
    ensures Collect(Lines(Join(Inner(r, 7), '\n')), PathOf) == r.allowedPaths
  {
    LinesOfInner(r, 7);
    var lines := Inner(r, 7);
    if r.allowedPaths == [] {
      NoPathIsRead();
    } else {
      forall i | 0 <= i < |lines| ensures PathOf(lines[i]) == Some(r.allowedPaths[i]) {
        var path := r.allowedPaths[i];
        assert path in r.allowedPaths;
        BacktickedPathIsRead(path);
        PathLineIsBulleted(path);
      }
      CollectAll(lines, PathOf, r.allowedPaths);
    }
  }

  lemma PathLineIsBulleted(path: string)
    ensures "- " + ("`" + path + "`") == PathLine(path)
  {
    assert "- `" == "- " + "`";
    var a, b := "- " + ("`" + path + "`"), PathLine(path);
    assert |a| == |b| == |path| + 4;
    forall i | 0 <= i < |a| ensures a[i] == b[i] {
      assert a[i] == if i < 2 then "- "[i] else if i == 2 then '`' else if i < |path| + 3 then path[i - 3] else '`';
    }
  }

  lemma NoPathIsRead()
    ensures Collect(Bulleted("- ", [NOTHING]), PathOf) == []
  {
    PlaceholdersAreOk();
    PlainTextIsNoPath(NOTHING);
    var lines := Bulleted("- ", [NOTHING]);
    assert lines == ["- " + NOTHING];
    assert lines[1..] == [];
    assert PathOf(lines[0]).None?;
  }

  lemma RisksAreRead(r: Requirement)
    requires WellFormed(r)
    ensures Collect(Lines(Join(Inner(r, 8), '\n')), RiskOf) == r.riskAssessment
  {
    LinesOfInner(r, 8);
    var risks := r.riskAssessment;
    if risks == [] {
      PlaceholderIsNoRisk();
      assert [NO_ITEM][1..] == [];
    } else {
      var rows := RiskRows(risks);
      forall i | 0 <= i < |rows| ensures RiskOf(rows[i]) == Some(risks[i]) {
        assert risks[i] in risks;
        RiskRowIsRead(risks[i]);
      }
      CollectAll(rows, RiskOf, risks);
      TableHeaderIsNoRisk();
      TableRuleIsNoRisk();
      TableTopIsSkipped(TABLE_HEADER, TABLE_RULE, rows);
    }
  }

  lemma TableTopIsSkipped(header: string, rule: string, rows: seq<string>)
    requires RiskOf(header).None? && RiskOf(rule).None?
    ensures Collect([header, rule] + rows, RiskOf) == Collect(rows, RiskOf)
  {
    assert ([header, rule] + rows)[1..] == [rule] + rows && ([rule] + rows)[1..] == rows;
  }

  // ---- The round trip

  lemma TextIsRead(r: Requirement, k: nat, title: string, text: string)
    requires WellFormed(r) && TextPart(k) && title == Title(k) && text == FreeText(r, k)
    ensures Section(Formatted(r), title) == OrNothing(text)
  {
    SectionIsInner(r, k);
    FreeTextLines(FreeText(r, k));
    TextInner(r, k);
  }

  lemma NotesAreRead(r: Requirement)
    requires WellFormed(r)
    ensures Section(Formatted(r), "Notes") == OrNothing(r.notes)
  {
    TextIsRead(r, 9, "Notes", r.notes);
  }

  // The texts come back trimmed, or as the placeholder.
  lemma TextsAreRead(r: Requirement)
    requires WellFormed(r)
    ensures Section(Formatted(r), "Goal") == OrNothing(r.goal)
    ensures Section(Formatted(r), "Background") == OrNothing(r.background)
    ensures Section(Formatted(r), "Notes") == OrNothing(r.notes)
  {
    TextIsRead(r, 0, "Goal", r.goal);
    TextIsRead(r, 1, "Background", r.background);
    NotesAreRead(r);
  }

  lemma ListsAreRead(r: Requirement)
    requires WellFormed(r)
    ensures var content := Formatted(r);
      && Collect(Lines(Section(content, "Constraints")), ListItemOf) == OrNone(r.constraints, NOTHING)
      && Collect(Lines(Section(content, "Acceptance Criteria")), ListItemOf)
           == OrNone(r.acceptanceCriteria, NO_CRITERION)
      && Collect(Lines(Section(content, "Allowed Paths")), PathOf) == r.allowedPaths
      && Collect(Lines(Section(content, "Risk Assessment")), RiskOf) == r.riskAssessment
  {
    SectionIsInner(r, 2);
    SectionIsInner(r, 3);
    SectionIsInner(r, 7);
    SectionIsInner(r, 8);
    ItemsAreRead(r, 2);
    ItemsAreRead(r, 3);
    PathsAreRead(r);
    RisksAreRead(r);
  }

  lemma ScopeListIsRead(r: Requirement, k: nat, scope: string, title: string, items: seq<string>)
    requires WellFormed(r) && 5 <= k <= 6 && scope == Title(4) && title == Title(k) && items == Items(r, k)
    ensures Collect(Lines(Section(Section(Formatted(r), scope), title)), ListItemOf) == items
  {
    ScopeListIsInner(r, k);
    ItemsAreRead(r, k);
  }

  lemma InScopeIsRead(r: Requirement)
    requires WellFormed(r)
    ensures Collect(Lines(Section(Section(Formatted(r), "Scope"), "In Scope")), ListItemOf)
      == OrNone(r.inScope, NOTHING)
  {
    ScopeListIsRead(r, 5, "Scope", "In Scope", OrNone(r.inScope, NOTHING));
  }

  lemma OutOfScopeIsRead(r: Requirement)
    requires WellFormed(r)
    ensures Collect(Lines(Section(Section(Formatted(r), "Scope"), "Out of Scope")), ListItemOf)
         == OrNone(r.outOfScope, NOTHING)
  {
    ScopeListIsRead(r, 6, "Scope", "Out of Scope", OrNone(r.outOfScope, NOTHING));
  }

  lemma ScopeListsAreRead(r: Requirement)
    requires WellFormed(r)
    ensures var scope := Section(Formatted(r), "Scope");
      && Collect(Lines(Section(scope, "In Scope")), ListItemOf) == OrNone(r.inScope, NOTHING)
      && Collect(Lines(Section(scope, "Out of Scope")), ListItemOf) == OrNone(r.outOfScope, NOTHING)
  {
    InScopeIsRead(r);
    OutOfScopeIsRead(r);
  }

  // What is read back is the requirement that was written, with its blanks filled in.
  lemma RoundTrip(r: Requirement)
    requires WellFormed(r)
    ensures Parsed(Formatted(r)) == Completed(r)
  {
    TextsAreRead(r);
    ListsAreRead(r);
    ScopeListsAreRead(r);
    OrNothingIsTrimmed(r.goal);
    TrimmedIsFixed(OrNothing(r.goal));
  }

  predicate Filled(text: string) {
    text != "" && Trimmed(text)
  }

  // No field is blank, and no text has white space around it.
  predicate Complete(r: Requirement) {
    && Filled(r.goal) && Filled(r.background) && Filled(r.notes)
    && r.constraints != [] && r.acceptanceCriteria != [] && r.inScope != [] && r.outOfScope != []
    && r.allowedPaths != []
  }

  lemma FilledIffKept(text: string)
    ensures OrNothing(text) == text <==> Filled(text)
  {
    OrNothingIsTrimmed(text);
    if Filled(text) { TrimmedIsFixed(text); }
  }

  // The requirements that come back as they were, but for the raw text, are the complete ones.
  lemma RoundTripIsExactIffComplete(r: Requirement)
    requires WellFormed(r)
    ensures Parsed(Formatted(r)).(rawContent := r.rawContent) == r <==> Complete(r)
  {
    RoundTrip(r);
    FilledIffKept(r.goal);
    FilledIffKept(r.background);
    FilledIffKept(r.notes);
  }

  lemma TextsArePresent(r: Requirement)
    requires WellFormed(r)
    ensures Trim(Section(Formatted(r), "Goal")) != "" && Trim(Section(Formatted(r), "Background")) != ""
    ensures Trim(Section(Formatted(r), "Notes")) != ""
  {
    TextsAreRead(r);
    TrimmedIsPresent(r.goal);
    TrimmedIsPresent(r.background);
    TrimmedIsPresent(r.notes);
  }

  lemma TrimmedIsPresent(text: string)
    ensures Trim(OrNothing(text)) != ""
  {
    OrNothingIsTrimmed(text);
    TrimmedIsFixed(OrNothing(text));
  }

  // Every field that was written is found again: only paths and risks can be missing,
  // and only when there were none.
  lemma OnlyPathsAndRisksCanBeMissing(r: Requirement)
    requires WellFormed(r)
    ensures Missing(Formatted(r)) == Absent(
      false, false, false, false, false, r.allowedPaths == [], r.riskAssessment == [], false)
  {
    TextsArePresent(r);
    ListsAreRead(r);
    ScopeListsAreRead(r);
  }
}
