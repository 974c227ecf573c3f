// The regular expressions the requirement parser reads lines with, run the way section
// 22.2 of ECMA-262 runs them: each part takes as many characters as it can and gives
// them back one by one when the parts after it fail.
module LinePatterns {
  import opened Options
  import opened Text

  datatype Class = Space | Dot | Any | OneOf(chars: string) | NoneOf(chars: string)

  predicate In(c: char, k: Class) {
    match k
    case Space => IsSpace(c)
    case Dot => !IsLineTerminator(c)
    case Any => true
    case OneOf(chars) => c in chars
    case NoneOf(chars) => c !in chars
  }

  // class{least,most}, one of several words whatever their case, or the end of the input.
  datatype Atom =
    | Repeat(chars: Class, least: nat, most: Option<nat>)
    | Word(words: seq<string>)
    | End

  function One(chars: string): Atom { Repeat(OneOf(chars), 1, Some(1)) }
  function Maybe(chars: string): Atom { Repeat(OneOf(chars), 0, Some(1)) }
  function Star(k: Class): Atom { Repeat(k, 0, None) }
  function Plus(k: Class): Atom { Repeat(k, 1, None) }

  // How many characters from i on the class can take.
  function Longest(k: Class, most: Option<nat>, s: string, i: nat): (n: nat)
    requires i <= |s|
    ensures i + n <= |s|
    decreases |s| - i
  {
    if i == |s| || most == Some(0) || !In(s[i], k) then 0
    else 1 + Longest(k, if most.Some? then Some(most.value - 1) else None, s, i + 1)
  }

  // Case-insensitive, as the i flag compares: a character outside ASCII never equals one inside.
  function FoldChar(c: char): char {
    if 'A' <= c <= 'Z' then c - 'A' + 'a' else c
  }

  predicate WordAt(w: string, s: string, i: nat) {
    i + |w| <= |s| && forall k :: 0 <= k < |w| ==> FoldChar(s[i + k]) == FoldChar(w[k])
  }

  // What each of the parts from the k-th on takes when they are matched at i, if they can be.
  function Match(p: seq<Atom>, k: nat, s: string, i: nat): (r: Option<seq<string>>)
    requires k <= |p| && i <= |s|
    ensures r.Some? ==> |r.value| == |p| - k
    decreases |p| - k, 1, 0
  {
    if k == |p| then Some([])
    else
      match p[k]
      case Repeat(chars, _, most) => MatchAtMost(p, k, s, i, Longest(chars, most, s, i))
      case Word(words) => MatchWord(p, k, s, i, words)
      case End => if i == |s| then Taking(p, k, s, i, 0) else None
  }

  function Taking(p: seq<Atom>, k: nat, s: string, i: nat, n: nat): (r: Option<seq<string>>)
    requires k < |p| && i + n <= |s|
    ensures r.Some? ==> |r.value| == |p| - k
    decreases |p| - k, 0, 0
  {
    var rest := Match(p, k + 1, s, i + n);
    if rest.Some? then Some([s[i..i + n]] + rest.value) else None
  }

  function MatchAtMost(p: seq<Atom>, k: nat, s: string, i: nat, n: nat): (r: Option<seq<string>>)
    requires k < |p| && p[k].Repeat? && i + n <= |s|
    ensures r.Some? ==> |r.value| == |p| - k
    decreases |p| - k, 0, n + 1
  {
    if n < p[k].least then None
    else if Taking(p, k, s, i, n).Some? then Taking(p, k, s, i, n)
    else if n == 0 then None
    else MatchAtMost(p, k, s, i, n - 1)
  }

  function MatchWord(p: seq<Atom>, k: nat, s: string, i: nat, words: seq<string>): (r: Option<seq<string>>)
    requires k < |p| && i <= |s|
    ensures r.Some? ==> |r.value| == |p| - k
    decreases |p| - k, 0, |words| + 1
  {
    if words == [] then None
    else if WordAt(words[0], s, i) && Taking(p, k, s, i, |words[0]|).Some? then Taking(p, k, s, i, |words[0]|)
    else MatchWord(p, k, s, i, words[1..])
  }

  // A pattern without ^ is tried at every position in turn.
  function Search(p: seq<Atom>, s: string, i: nat): (r: Option<seq<string>>)
    requires i <= |s|
    ensures r.Some? ==> |r.value| == |p|
    decreases |s| - i
  {
    if Match(p, 0, s, i).Some? then Match(p, 0, s, i)
    else if i == |s| then None
    else Search(p, s, i + 1)
  }

  // ---- Running a pattern by hand

  lemma {:induction false} LongestIs(k: Class, most: Option<nat>, s: string, i: nat, n: nat)
    requires i + n <= |s|
    requires forall j :: i <= j < i + n ==> In(s[j], k)
    requires most.Some? ==> n <= most.value
    requires i + n == |s| || most == Some(n) || !In(s[i + n], k)
    ensures Longest(k, most, s, i) == n
    decreases n
  {
    if n > 0 {
      assert In(s[i], k);
      LongestIs(k, if most.Some? then Some(most.value - 1) else None, s, i + 1, n - 1);
    }
  }

  lemma NoMatchWithout(p: seq<Atom>, k: nat, s: string, i: nat)
    requires k < |p| && p[k].Repeat? && p[k].least > 0 && i <= |s|
    requires i == |s| || !In(s[i], p[k].chars)
    ensures Match(p, k, s, i).None?
  {
    assert Longest(p[k].chars, p[k].most, s, i) == 0;
  }

  // s[a..b] is a run of the class as long as the part allows.
  ghost predicate TakesAll(atom: Atom, s: string, a: nat, b: nat)
    requires atom.Repeat?
  {
    && a <= b <= |s| && atom.least <= b - a
    && (forall j :: a <= j < b ==> In(s[j], atom.chars))
    && (atom.most.Some? ==> b - a <= atom.most.value)
    && (b == |s| || atom.most == Some(b - a) || !In(s[b], atom.chars))
  }

  // The k-th part takes s[a..b]: all it can; or all but one character, because the next
  // part needs one and cannot go on after it; or the first word that fits; or nothing.
  ghost predicate Takes(p: seq<Atom>, k: nat, s: string, a: nat, b: nat)
    requires k < |p|
  {
    match p[k]
    case Repeat(_, least, _) =>
      || TakesAll(p[k], s, a, b)
      || (&& a <= b && least <= b - a && TakesAll(p[k], s, a, b + 1)
          && k + 1 < |p| && p[k + 1].Repeat? && p[k + 1].least > 0
          && (b + 1 == |s| || !In(s[b + 1], p[k + 1].chars)))
    case Word(words) => exists x :: IsFirstWord(words, x, s, a) && b == a + |words[x]|
    case End => a == b == |s|
  }

  predicate IsFirstWord(words: seq<string>, x: int, s: string, i: nat) {
    0 <= x < |words| && WordAt(words[x], s, i) && forall y :: 0 <= y < x ==> !WordAt(words[y], s, i)
  }

  // The k-th part takes the k-th piece, from its start to the start of the next.
  ghost predicate TakesPiece(p: seq<Atom>, k: nat, s: string, starts: seq<nat>, pieces: seq<string>)
    requires k < |p| == |pieces| == |starts| - 1
  {
    && starts[k] + |pieces[k]| == starts[k + 1] <= |s|
    && s[starts[k]..starts[k + 1]] == pieces[k]
    && Takes(p, k, s, starts[k], starts[k + 1])
  }

  // A way through the whole pattern.
  ghost predicate Plan(p: seq<Atom>, s: string, starts: seq<nat>, pieces: seq<string>) {
    && |p| == |pieces| == |starts| - 1
    && starts[|p|] <= |s|
    && forall k :: 0 <= k < |p| ==> TakesPiece(p, k, s, starts, pieces)
  }

  lemma {:induction false} FirstWordIsTaken(
      p: seq<Atom>, k: nat, s: string, i: nat, words: seq<string>, x: nat)
    requires k < |p| && i <= |s| && IsFirstWord(words, x, s, i)
    requires Taking(p, k, s, i, |words[x]|).Some?
    ensures MatchWord(p, k, s, i, words) == Taking(p, k, s, i, |words[x]|)
    decreases x
  {
    if x > 0 {
      assert !WordAt(words[0], s, i);
      forall y | 0 <= y < x - 1 ensures !WordAt(words[1..][y], s, i) { assert !WordAt(words[y + 1], s, i); }
      FirstWordIsTaken(p, k, s, i, words[1..], x - 1);
    }
  }

  lemma PlannedPartIsTaken(p: seq<Atom>, k: nat, s: string, a: nat, b: nat)
    requires k < |p| && a <= b <= |s| && Takes(p, k, s, a, b) && Match(p, k + 1, s, b).Some?
    ensures Match(p, k, s, a) == Some([s[a..b]] + Match(p, k + 1, s, b).value)
  {
    var taken := Taking(p, k, s, a, b - a);
    assert taken == Some([s[a..b]] + Match(p, k + 1, s, b).value);
    match p[k]
    case Repeat(chars, _, most) =>
      if TakesAll(p[k], s, a, b) {
        LongestIs(chars, most, s, a, b - a);
        assert MatchAtMost(p, k, s, a, b - a) == taken;
      } else {
        LongestIs(chars, most, s, a, b + 1 - a);
        NoMatchWithout(p, k + 1, s, b + 1);
        assert Taking(p, k, s, a, b + 1 - a).None?;
        assert MatchAtMost(p, k, s, a, b - a) == taken;
        assert MatchAtMost(p, k, s, a, b + 1 - a) == taken;
      }
    case Word(words) =>
      var x :| IsFirstWord(words, x, s, a) && b == a + |words[x]|;
      FirstWordIsTaken(p, k, s, a, words, x);
    case End =>
  }

  lemma {:induction false} PlanIsTaken(p: seq<Atom>, k: nat, s: string, starts: seq<nat>, pieces: seq<string>)
    requires Plan(p, s, starts, pieces) && k <= |p|
    ensures starts[k] <= |s| && Match(p, k, s, starts[k]) == Some(pieces[k..])
    decreases |p| - k
  {
    if k < |p| {
      PlanIsTaken(p, k + 1, s, starts, pieces);
      assert TakesPiece(p, k, s, starts, pieces);
      PlannedPartIsTaken(p, k, s, starts[k], starts[k + 1]);
      assert pieces[k..] == [pieces[k]] + pieces[k + 1..];
    }
  }

  // The pieces of a plan are what the pattern's parts take.
  lemma PlannedMatch(p: seq<Atom>, s: string, starts: seq<nat>, pieces: seq<string>)
    requires Plan(p, s, starts, pieces)
    ensures starts[0] <= |s| && Match(p, 0, s, starts[0]) == Some(pieces)
  {
    PlanIsTaken(p, 0, s, starts, pieces);
    assert pieces[0..] == pieces;
  }

  // ---- A pattern with a word in it needs the word

  predicate HasWord(words: seq<string>, s: string) {
    exists x, e :: 0 <= x < |words| && 0 <= e <= |s| && WordAt(words[x], s, e)
  }

  lemma {:induction false} NoWordHere(p: seq<Atom>, k: nat, s: string, i: nat, words: seq<string>)
    requires k < |p| && i <= |s| && !HasWord(words, s)
    ensures MatchWord(p, k, s, i, words).None?
  {
    if words != [] {
      assert !WordAt(words[0], s, i);
      forall x, e | 0 <= x < |words| - 1 && 0 <= e <= |s| ensures !WordAt(words[1..][x], s, e) {
        assert !WordAt(words[x + 1], s, e);
      }
      NoWordHere(p, k, s, i, words[1..]);
    }
  }

  lemma {:induction false} NoAttemptWorks(p: seq<Atom>, k: nat, next: nat, s: string, i: nat, n: nat)
    requires k < |p| && p[k].Repeat? && next == k + 1 && i + n <= |s|
    requires forall j: nat :: j <= |s| ==> Match(p, next, s, j).None?
    ensures MatchAtMost(p, k, s, i, n).None?
    decreases n
  {
    assert Match(p, next, s, i + n).None?;
    if n > 0 { NoAttemptWorks(p, k, next, s, i, n - 1); }
  }

  lemma {:induction false} NeedsWord(p: seq<Atom>, k: nat, m: nat, words: seq<string>, s: string, i: nat)
    requires k <= m < |p| && i <= |s| && p[m] == Word(words) && !HasWord(words, s)
    requires forall j :: k <= j < m ==> p[j].Repeat?
    ensures Match(p, k, s, i).None?
    decreases m - k
  {
    if k == m {
      NoWordHere(p, k, s, i, words);
    } else {
      var next := k + 1;
      forall j: nat | j <= |s| ensures Match(p, next, s, j).None? {
        NeedsWord(p, next, m, words, s, j);
      }
      assert p[k].Repeat?;
      NoAttemptWorks(p, k, next, s, i, Longest(p[k].chars, p[k].most, s, i));
    }
  }
}
