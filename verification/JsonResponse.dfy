// What is done with the candidates of an answer: repetitions are dropped, and the
// first one that parses to an acceptable value is the result.
module JsonResponse {
  import opened Options
  import opened JsonScanner
  import opened Sequences
  import Text

  // The parts as they are tried: trimmed, blank ones dropped.
  function Usable(parts: seq<string>): seq<string> {
    if parts == [] then []
    else
      var last := Text.Trim(parts[|parts| - 1]);
      Usable(parts[..|parts| - 1]) + if last == "" then [] else [last]
  }

  // The first of the strings that parses to a value the guard accepts.
  function FirstAccepted<T>(parse: string -> Option<T>, s: seq<string>): Option<T> {
    if s == [] then None
    else
      var before := FirstAccepted(parse, s[..|s| - 1]);
      if before.Some? then before else parse(s[|s| - 1])
  }

  lemma {:induction false} NoneAccepted<T>(parse: string -> Option<T>, s: seq<string>, x: string)
    requires x in s && FirstAccepted(parse, s).None?
    ensures parse(x).None?
  {
    if x in s[..|s| - 1] {
      NoneAccepted(parse, s[..|s| - 1], x);
    }
  }

  // Dropping repetitions changes no choice.
  lemma {:induction false} DedupKeepsChoice<T>(parse: string -> Option<T>, s: seq<string>)
    ensures FirstAccepted(parse, Dedup(s)) == FirstAccepted(parse, s)
  {
    if s != [] {
      var init, last := s[..|s| - 1], s[|s| - 1];
      DedupKeepsChoice(parse, init);
      assert Dedup(init) + [] == Dedup(init);
      if last in init {
        if FirstAccepted(parse, init).None? { NoneAccepted(parse, init, last); }
      } else {
        assert (Dedup(init) + [last])[..|Dedup(init)|] == Dedup(init);
      }
    }
  }

  lemma UsableSnoc(s: seq<string>, x: string)
    ensures Usable(s + [x]) == Usable(s) + if Text.Trim(x) == "" then [] else [Text.Trim(x)]
  {
    assert (s + [x])[..|s|] == s;
  }

  lemma DedupSnoc(s: seq<string>, x: string)
    ensures Dedup(s + [x]) == Dedup(s) + if x in s then [] else [x]
  {
    assert (s + [x])[..|s|] == s;
  }

  // The fenced code blocks of the text are found elsewhere; control characters are stripped before.
  method CollectJsonCandidates(codeBlocks: seq<string>, normalized: string) returns (unique: seq<string>)
    ensures unique == Dedup(Usable(codeBlocks + Candidates(normalized) + [normalized]))
  {
    var objects := ExtractBalancedObjectCandidates(normalized);
    var ordered := codeBlocks + objects + [Text.Trim(normalized)];
    unique := DropRepetitions(ordered);
    UsableSnoc(codeBlocks + objects, normalized);
    UsableSnoc(codeBlocks + objects, Text.Trim(normalized));
    TrimTwice(normalized);
  }

  lemma DropStep(parts: seq<string>, x: string)
    ensures var before, value := Usable(parts), Text.Trim(x);
      && Dedup(Usable(parts + [x])) == Dedup(before) + (if value == "" || value in before then [] else [value])
      && forall y :: y in Usable(parts + [x]) <==> y in before || (value != "" && y == value)
  {
    UsableSnoc(parts, x);
    var before, value := Usable(parts), Text.Trim(x);
    DedupSnoc(before, value);
    assert before + [] == before && Dedup(before) + [] == Dedup(before);
    assert Usable(parts + [x]) == if value == "" then before else before + [value];
  }

  method DropRepetitions(ordered: seq<string>) returns (unique: seq<string>)
    ensures unique == Dedup(Usable(ordered))
  {
    unique := [];
    var seen: set<string> := {};
    for i := 0 to |ordered|
      invariant unique == Dedup(Usable(ordered[..i]))
      invariant forall x :: x in seen <==> x in Usable(ordered[..i])
    {
      assert ordered[..i + 1] == ordered[..i] + [ordered[i]];
      DropStep(ordered[..i], ordered[i]);
      var value := Text.Trim(ordered[i]);
      if value != "" && value !in seen {
        seen := seen + {value};
        unique := unique + [value];
      }
    }
    assert ordered[..|ordered|] == ordered;
  }

  lemma TrimTwice(s: string)
    ensures Text.Trim(Text.Trim(s)) == Text.Trim(s)
  {
    Text.TrimmedIsFixed(Text.Trim(s));
  }

  // `parse` stands for JSON.parse followed by the guard: None when either refuses.
  // None as the answer is the error "No valid JSON found".
  method ExtractJsonObjectFromText<T(0)>(codeBlocks: seq<string>, normalized: string, parse: string -> Option<T>)
    returns (parsed: Option<T>)
    ensures parsed == FirstAccepted(parse, Usable(codeBlocks + Candidates(normalized) + [normalized]))
  {
    var candidates := CollectJsonCandidates(codeBlocks, normalized);
    DedupKeepsChoice(parse, Usable(codeBlocks + Candidates(normalized) + [normalized]));
    for i := 0 to |candidates|
      invariant FirstAccepted(parse, candidates[..i]).None?
    {
      assert candidates[..i + 1][..i] == candidates[..i];
      parsed := parse(candidates[i]);
      if parsed.Some? {
        FirstAcceptedOfPrefix(parse, candidates, i + 1);
        return;
      }
    }
    assert candidates[..|candidates|] == candidates;
    return None;
  }

  lemma {:induction false} FirstAcceptedOfPrefix<T>(parse: string -> Option<T>, s: seq<string>, k: nat)
    requires k <= |s| && FirstAccepted(parse, s[..k]).Some?
    ensures FirstAccepted(parse, s) == FirstAccepted(parse, s[..k])
  {
    if k == |s| {
      assert s[..k] == s;
    } else {
      assert s[..|s| - 1][..k] == s[..k];
      FirstAcceptedOfPrefix(parse, s[..|s| - 1], k);
    }
  }

  lemma {:induction false} TrimmedAreUsable(parts: seq<string>)
    requires forall p :: p in parts ==> p != "" && Text.Trimmed(p)
    ensures Usable(parts) == parts
  {
    if parts != [] {
      var init, last := parts[..|parts| - 1], parts[|parts| - 1];
      forall p | p in init ensures p != "" && Text.Trimmed(p) { assert p in parts; }
      TrimmedAreUsable(init);
      assert last in parts;
      Text.TrimmedIsFixed(last);
    }
  }

  lemma {:induction false} AllRefused<T>(parse: string -> Option<T>, s: seq<string>)
    requires forall x :: x in s ==> parse(x).None?
    ensures FirstAccepted(parse, s).None?
  {
    if s != [] {
      AllRefused(parse, s[..|s| - 1]);
    }
  }

  lemma FirstAcceptedIs<T>(parse: string -> Option<T>, s: seq<string>, k: nat)
    requires k < |s| && parse(s[k]).Some?
    requires forall i :: 0 <= i < k ==> parse(s[i]).None?
    ensures FirstAccepted(parse, s) == parse(s[k])
  {
    AllRefused(parse, s[..k]);
    assert s[..k + 1][..k] == s[..k];
    FirstAcceptedOfPrefix(parse, s, k + 1);
  }

  lemma PrintedObjectsAreUsable(objects: seq<Value>)
    requires forall v :: v in objects ==> v.Obj? && ValueOk(v)
    ensures Usable(PrintAll(objects)) == PrintAll(objects)
  {
    var texts := PrintAll(objects);
    forall p | p in texts ensures p != "" && Text.Trimmed(p) {
      var i :| 0 <= i < |texts| && texts[i] == p;
      assert objects[i].Obj?;
      assert p[0] == '{' && p[|p| - 1] == '}';
    }
    TrimmedAreUsable(texts);
  }

  lemma {:induction false} UsableConcat(a: seq<string>, b: seq<string>)
    ensures Usable(a + b) == Usable(a) + Usable(b)
  {
    if b == [] {
      assert a + b == a && Usable(a) + [] == Usable(a);
    } else {
      var init, last := b[..|b| - 1], b[|b| - 1];
      assert a + b == (a + init) + [last] && b == init + [last];
      UsableConcat(a, init);
      UsableSnoc(a + init, last);
      UsableSnoc(init, last);
      assert (Usable(a) + Usable(init)) + [Text.Trim(last)] == Usable(a) + (Usable(init) + [Text.Trim(last)]);
    }
  }

  lemma {:induction false} FirstAcceptedConcat<T>(parse: string -> Option<T>, a: seq<string>, b: seq<string>)
    ensures FirstAccepted(parse, a + b)
      == if FirstAccepted(parse, a).Some? then FirstAccepted(parse, a) else FirstAccepted(parse, b)
  {
    if b == [] {
      assert a + b == a;
    } else {
      assert (a + b)[..|a + b| - 1] == a + b[..|b| - 1];
      FirstAcceptedConcat(parse, a, b[..|b| - 1]);
    }
  }

  // An answer of prose and printed objects yields its first acceptable code block, if it has
  // one, whatever its code blocks are; else its first acceptable object, whatever the objects
  // before it are.
  lemma FirstAcceptableObjectIsReturned<T>(parse: string -> Option<T>, codeBlocks: seq<string>, objects: seq<Value>,
                                           prose: seq<string>, k: nat)
    requires |prose| == |objects| + 1 && k < |objects|
    requires forall v :: v in objects ==> v.Obj? && ValueOk(v)
    requires forall s :: s in prose ==> IsProse(s)
    requires forall i :: 0 <= i < k ==> parse(Print(objects[i])).None?
    requires parse(Print(objects[k])).Some?
    ensures var text := Interleave(prose, PrintAll(objects));
      FirstAccepted(parse, Usable(codeBlocks + Candidates(text) + [text]))
        == if FirstAccepted(parse, Usable(codeBlocks)).Some? then FirstAccepted(parse, Usable(codeBlocks))
           else parse(Print(objects[k]))
  {
    var text := Interleave(prose, PrintAll(objects));
    var texts := PrintAll(objects);
    PrintedObjectsAreRecovered(objects, prose);
    assert codeBlocks + texts + [text] == codeBlocks + (texts + [text]);
    UsableConcat(codeBlocks, texts + [text]);
    PrintedObjectsAreUsable(objects);
    UsableSnoc(texts, text);
    FirstAcceptedIs(parse, Usable(texts + [text]), k);
    FirstAcceptedConcat(parse, Usable(codeBlocks), Usable(texts + [text]));
  }
}
