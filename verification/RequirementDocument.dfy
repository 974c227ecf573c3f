// A Markdown document as headings with bodies, and what the parser's section search
// finds in it.
module RequirementDocument {
  import opened Options
  import opened Text
  import opened RequirementParser
  import opened RequirementLines

  datatype Part = Part(level: nat, title: string, body: seq<string>)

  predicate TitleOk(title: string) {
    title != "" && Trimmed(title) && SingleLine(title)
  }

  predicate PartOk(p: Part) {
    1 <= p.level <= 6 && TitleOk(p.title)
  }

  function RenderPart(p: Part): seq<string> {
    [Heading(p.level, p.title)] + p.body
  }

  function Render(doc: seq<Part>): seq<string> {
    if doc == [] then [] else RenderPart(doc[0]) + Render(doc[1..])
  }

  // ---- Searching lines

  predicate NoneNames(lines: seq<string>, target: string) {
    forall line :: line in lines ==> !Names(line, target)
  }

  predicate NoneEnds(lines: seq<string>, boundary: nat) {
    forall line :: line in lines ==> !Ends(line, boundary)
  }

  lemma {:induction false} SearchSkips(lines: seq<string>, rest: seq<string>, target: string)
    requires NoneNames(lines, target)
    ensures SectionLines(lines + rest, target) == SectionLines(rest, target)
  {
    if lines == [] {
      assert lines + rest == rest;
    } else {
      assert (lines + rest)[1..] == lines[1..] + rest && lines[0] in lines;
      assert NoneNames(lines[1..], target) by {
        forall line | line in lines[1..] ensures !Names(line, target) { assert line in lines; }
      }
      SearchSkips(lines[1..], rest, target);
    }
  }

  lemma {:induction false} UntilTakes(lines: seq<string>, rest: seq<string>, boundary: nat)
    requires NoneEnds(lines, boundary)
    ensures Until(lines + rest, boundary) == lines + Until(rest, boundary)
  {
    if lines == [] {
      assert lines + rest == rest;
    } else {
      assert (lines + rest)[1..] == lines[1..] + rest && lines[0] in lines;
      assert NoneEnds(lines[1..], boundary) by {
        forall line | line in lines[1..] ensures !Ends(line, boundary) { assert line in lines; }
      }
      UntilTakes(lines[1..], rest, boundary);
      assert [lines[0]] + (lines[1..] + Until(rest, boundary)) == lines + Until(rest, boundary);
    }
  }

  // ---- Searching documents

  // The heading of the k-th part is the first of that name: what comes out starts with its body.
  lemma {:induction false} SectionOfDocument(doc: seq<Part>, k: nat, target: string)
    requires k < |doc| && forall j :: 0 <= j <= k ==> PartOk(doc[j])
    requires forall j :: 0 <= j < k ==> Lower(doc[j].title) != target && NoneNames(doc[j].body, target)
    requires Lower(doc[k].title) == target && NoneEnds(doc[k].body, Boundary(doc[k].level))
    ensures SectionLines(Render(doc), target)
         == doc[k].body + Until(Render(doc[k + 1..]), Boundary(doc[k].level))
  {
    var first, rest := doc[0], Render(doc[1..]);
    HeadingIsRead(first.level, first.title);
    var heading := Heading(first.level, first.title);
    assert Render(doc) == [heading] + (first.body + rest);
    assert ([heading] + (first.body + rest))[1..] == first.body + rest;
    if k == 0 {
      UntilTakes(first.body, rest, Boundary(first.level));
    } else {
      assert !Names(heading, target);
      SearchSkips(first.body, rest, target);
      SectionOfDocument(doc[1..], k - 1, target);
      assert doc[1..][k - 1] == doc[k] && doc[1..][k..] == doc[k + 1..];
    }
  }

  // The section ends with the document, or at the next heading that is high enough.
  lemma SectionStops(doc: seq<Part>, boundary: nat)
    requires doc != [] ==> PartOk(doc[0]) && doc[0].level <= boundary
    ensures Until(Render(doc), boundary) == []
  {
    if doc != [] {
      HeadingIsRead(doc[0].level, doc[0].title);
      assert Render(doc)[0] == Heading(doc[0].level, doc[0].title);
    }
  }

  // A lower heading belongs to the section, and so does what is under it.
  lemma SectionGoesOn(doc: seq<Part>, boundary: nat)
    requires doc != [] && PartOk(doc[0]) && doc[0].level > boundary && NoneEnds(doc[0].body, boundary)
    ensures Until(Render(doc), boundary) == RenderPart(doc[0]) + Until(Render(doc[1..]), boundary)
  {
    HeadingIsRead(doc[0].level, doc[0].title);
    UntilTakes(RenderPart(doc[0]), Render(doc[1..]), boundary);
  }

  // ---- From lines to text and back

  predicate TightEnd(lines: seq<string>) {
    lines != [] && lines[|lines| - 1] != "" && !IsSpace(lines[|lines| - 1][|lines[|lines| - 1]| - 1])
  }

  // Lines that neither start nor end with white space when joined.
  predicate Tight(lines: seq<string>) {
    TightEnd(lines) && lines[0] != "" && !IsSpace(lines[0][0])
  }

  predicate Unbroken(lines: seq<string>) {
    forall line :: line in lines ==> '\n' !in line
  }

  lemma {:induction false} JoinStarts(lines: seq<string>)
    requires lines != [] && lines[0] != ""
    ensures Join(lines, '\n') != "" && Join(lines, '\n')[0] == lines[0][0]
  {
  }

  lemma {:induction false} JoinEnds(lines: seq<string>)
    requires lines != [] && lines[|lines| - 1] != ""
    ensures var last := lines[|lines| - 1];
      Join(lines, '\n') != "" && Join(lines, '\n')[|Join(lines, '\n')| - 1] == last[|last| - 1]
  {
    if |lines| > 1 {
      assert lines[1..][|lines| - 2] == lines[|lines| - 1];
      JoinEnds(lines[1..]);
    }
  }

  lemma TightTextIsTrimmed(lines: seq<string>)
    requires Tight(lines)
    ensures Trimmed(Join(lines, '\n')) && Join(lines, '\n') != ""
  {
    JoinStarts(lines);
    JoinEnds(lines);
  }

  // Blank lines around a body are trimmed off with its section.
  lemma BlankLinesAreTrimmed(lines: seq<string>)
    requires lines != [] && Trimmed(Join(lines, '\n'))
    ensures Trim(Join([""] + lines + [""], '\n')) == Join(lines, '\n')
  {
    JoinConcat([""] + lines, [""], '\n');
    JoinConcat([""], lines, '\n');
    assert [""] + lines + [""] == ([""] + lines) + [""];
    assert Join([""] + lines + [""], '\n') == "\n" + Join(lines, '\n') + "\n";
    TrimPadded("\n", Join(lines, '\n'), "\n");
  }

  lemma {:induction false} CollectAll<T>(lines: seq<string>, read: string -> Option<T>, values: seq<T>)
    requires |lines| == |values| && forall i :: 0 <= i < |lines| ==> read(lines[i]) == Some(values[i])
    ensures Collect(lines, read) == values
  {
    if lines != [] {
      CollectAll(lines[1..], read, values[1..]);
    }
  }

  // The k-th part is the first of its name, and its own body does not end it.
  ghost predicate LeadsTo(doc: seq<Part>, k: nat) {
    && k < |doc| && (forall j :: 0 <= j < |doc| ==> PartOk(doc[j]))
    && (forall j :: 0 <= j < k ==>
          && Lower(doc[j].title) != Lower(doc[k].title)
          && NoneNames(doc[j].body, Lower(doc[k].title)))
    && NoneEnds(doc[k].body, Boundary(doc[k].level))
  }

  // A section that is one part of a document, between blank lines, is read as that part's lines.
  lemma SectionIsPart(content: string, doc: seq<Part>, k: nat, body: seq<string>)
    requires Split(content, '\n') == Render(doc) && LeadsTo(doc, k)
    requires k + 1 < |doc| ==> doc[k + 1].level <= Boundary(doc[k].level)
    requires doc[k].body == [""] + body + [""] && body != [] && Trimmed(Join(body, '\n'))
    ensures Section(content, doc[k].title) == Join(body, '\n')
  {
    var title := doc[k].title;
    TrimmedIsFixed(title);
    SectionOfDocument(doc, k, Lower(title));
    SectionStops(doc[k + 1..], Boundary(doc[k].level));
    assert doc[k].body + [] == doc[k].body;
    BlankLinesAreTrimmed(body);
  }

  // A section with three lower headings under it.
  lemma SectionOfThree(doc: seq<Part>, boundary: nat)
    requires |doc| >= 3
    requires forall j :: 0 <= j < 3 ==> PartOk(doc[j]) && doc[j].level > boundary && NoneEnds(doc[j].body, boundary)
    requires |doc| > 3 ==> PartOk(doc[3]) && doc[3].level <= boundary
    ensures Until(Render(doc), boundary) == RenderPart(doc[0]) + RenderPart(doc[1]) + RenderPart(doc[2])
  {
    SectionGoesOn(doc, boundary);
    assert doc[1..][0] == doc[1] && doc[1..][1..] == doc[2..];
    SectionGoesOn(doc[1..], boundary);
    assert doc[2..][0] == doc[2] && doc[2..][1..] == doc[3..];
    SectionGoesOn(doc[2..], boundary);
    SectionStops(doc[3..], boundary);
    assert RenderPart(doc[2]) + [] == RenderPart(doc[2]);
    var a, b, c := RenderPart(doc[0]), RenderPart(doc[1]), RenderPart(doc[2]);
    assert a + (b + c) == a + b + c;
  }

  lemma RenderThree(a: Part, b: Part, c: Part)
    ensures Render([a, b, c]) == RenderPart(a) + RenderPart(b) + RenderPart(c)
  {
    assert [a, b, c][1..] == [b, c] && [b, c][1..] == [c] && [c][1..] == [];
    assert Render([c]) == RenderPart(c);
    assert Render([b, c]) == RenderPart(b) + RenderPart(c);
    assert RenderPart(a) + (RenderPart(b) + RenderPart(c)) == RenderPart(a) + RenderPart(b) + RenderPart(c);
  }

  lemma RenderedIsTight(a: Part, b: Part, c: Part)
    requires a.level > 0 && TightEnd(c.body)
    ensures Tight(Render([a, b, c]))
  {
    RenderThree(a, b, c);
    var lines := Render([a, b, c]);
    assert lines[0] == Heading(a.level, a.title) && lines[0][0] == '#';
    assert lines[|lines| - 1] == c.body[|c.body| - 1];
  }

  lemma RenderedIsUnbroken(a: Part, b: Part, c: Part)
    requires PartOk(a) && PartOk(b) && PartOk(c)
    requires Unbroken(a.body) && Unbroken(b.body) && Unbroken(c.body)
    ensures Unbroken(Render([a, b, c]))
  {
    RenderThree(a, b, c);
  }

  lemma BlankAtTheEnd(p: Part, inner: seq<string>)
    requires p.body == inner + [""]
    ensures RenderPart(p) == RenderPart(p.(body := inner)) + [""]
  {
  }

  // The k-th part is a heading with three lower ones under it, and ends where those do.
  ghost predicate HasThree(doc: seq<Part>, k: nat, inner: seq<string>) {
    && k + 3 < |doc| && doc[k].body == [""] && doc[k].level > 1
    && (forall j :: k < j <= k + 3 ==>
          PartOk(doc[j]) && doc[j].level > doc[k].level && NoneEnds(doc[j].body, doc[k].level))
    && (k + 4 < |doc| ==> PartOk(doc[k + 4]) && doc[k + 4].level <= doc[k].level)
    && doc[k + 3].body == inner + [""]
  }

  lemma UnderPart(doc: seq<Part>, k: nat, inner: seq<string>)
    requires HasThree(doc, k, inner)
    ensures Until(Render(doc[k + 1..]), doc[k].level)
         == RenderPart(doc[k + 1]) + RenderPart(doc[k + 2]) + (RenderPart(doc[k + 3].(body := inner)) + [""])
  {
    UnderHeading(doc[k + 1..], doc[k].level, inner);
  }

  lemma NestedLines(doc: seq<Part>, k: nat, inner: seq<string>)
    requires LeadsTo(doc, k) && HasThree(doc, k, inner)
    ensures SectionLines(Render(doc), Lower(doc[k].title))
         == [""] + (RenderPart(doc[k + 1]) + RenderPart(doc[k + 2]) + RenderPart(doc[k + 3].(body := inner))) + [""]
  {
    SectionOfDocument(doc, k, Lower(doc[k].title));
    UnderPart(doc, k, inner);
    FramedConcat(RenderPart(doc[k + 1]) + RenderPart(doc[k + 2]), RenderPart(doc[k + 3].(body := inner)));
  }

  lemma UnderHeading(rest: seq<Part>, boundary: nat, inner: seq<string>)
    requires |rest| >= 3 && rest[2].body == inner + [""]
    requires forall j :: 0 <= j < 3 ==> PartOk(rest[j]) && rest[j].level > boundary && NoneEnds(rest[j].body, boundary)
    requires |rest| > 3 ==> PartOk(rest[3]) && rest[3].level <= boundary
    ensures Until(Render(rest), boundary)
         == RenderPart(rest[0]) + RenderPart(rest[1]) + (RenderPart(rest[2].(body := inner)) + [""])
  {
    SectionOfThree(rest, boundary);
    BlankAtTheEnd(rest[2], inner);
  }

  lemma FramedConcat(a: seq<string>, b: seq<string>)
    ensures [""] + (a + (b + [""])) == [""] + (a + b) + [""]
  {
  }

  // A section with three lower headings under it is a document of its own.
  lemma SectionIsDocument(content: string, doc: seq<Part>, k: nat, inner: seq<string>)
    requires Split(content, '\n') == Render(doc)
    requires LeadsTo(doc, k) && HasThree(doc, k, inner) && TightEnd(inner) && Unbroken(inner)
    requires Unbroken(doc[k + 1].body) && Unbroken(doc[k + 2].body)
    ensures Split(Section(content, doc[k].title), '\n')
         == Render([doc[k + 1], doc[k + 2], doc[k + 3].(body := inner)])
  {
    var a, b, c := doc[k + 1], doc[k + 2], doc[k + 3].(body := inner);
    var lines := Render([a, b, c]);
    NestedLines(doc, k, inner);
    RenderThree(a, b, c);
    RenderedIsTight(a, b, c);
    RenderedIsUnbroken(a, b, c);
    TightTextIsTrimmed(lines);
    TrimmedIsFixed(doc[k].title);
    BlankLinesAreTrimmed(lines);
    SplitJoin(lines, '\n');
  }
}
