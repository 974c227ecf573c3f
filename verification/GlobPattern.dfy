// Allowed-path globs: the regular expression a glob is compiled to, and what it accepts.
module GlobPattern {
  import opened Options
  import Text

  // ---- Strings as the expressions see them

  // A code unit of section 6.1.4 of ECMA-262: a whole character of the basic plane, or the
  // first or second half of another one, with its ten bits.
  datatype Unit = Whole(c: char) | High(bits: nat) | Low(bits: nat)

  predicate InBasicPlane(c: char) {
    c as int < 0x1_0000
  }

  function UnitsOf(c: char): seq<Unit> {
    if InBasicPlane(c) then [Whole(c)]
    else [High((c as int - 0x1_0000) / 0x400), Low((c as int - 0x1_0000) % 0x400)]
  }

  // The code units of a string, which is what new RegExp without the flag u works on.
  function Units(s: string): seq<Unit> {
    if s == "" then [] else UnitsOf(s[0]) + Units(s[1..])
  }

  // The characters of a string, which is what the writer of a glob thinks of.
  function Letters(s: string): seq<Unit> {
    if s == "" then [] else [Whole(s[0])] + Letters(s[1..])
  }

  // ---- What a glob means

  // Whether a wildcard may cover a unit: always, or unless it ends a line.
  predicate Covers(lines: bool, u: Unit) {
    lines || !(u.Whole? && Text.IsLineTerminator(u.c))
  }

  predicate AllCovered(lines: bool, s: seq<Unit>) {
    forall i :: 0 <= i < |s| ==> Covers(lines, s[i])
  }

  // ** stands for any string, * for any string without a slash, ? for any one unit, and
  // everything else for itself.
  ghost predicate Fits(glob: seq<Unit>, path: seq<Unit>, lines: bool)
    decreases |glob|
  {
    if glob == [] then path == []
    else if glob[0] == Whole('*') && |glob| > 1 && glob[1] == Whole('*') then
      exists k :: 0 <= k <= |path| && AllCovered(lines, path[..k]) && Fits(glob[2..], path[k..], lines)
    else if glob[0] == Whole('*') then
      exists k :: 0 <= k <= |path| && Whole('/') !in path[..k] && Fits(glob[1..], path[k..], lines)
    else if glob[0] == Whole('?') then
      path != [] && Covers(lines, path[0]) && Fits(glob[1..], path[1..], lines)
    else path != [] && path[0] == glob[0] && Fits(glob[1..], path[1..], lines)
  }

  // What the glob means: its wildcards stand for characters, of any kind.
  ghost predicate Means(glob: string, path: string) {
    Fits(Letters(glob), Letters(path), true)
  }

  // What the compiled glob matches: its wildcards stand for code units, and ** and ? do not
  // cover line terminators.
  ghost predicate Matches(glob: string, path: string) {
    Fits(Units(glob), Units(path), false)
  }

  // ---- Compiling

  // The characters the source escapes; together with * and ? the SyntaxCharacters of
  // section 22.2.1 of ECMA-262.
  predicate IsEscaped(u: Unit) {
    u.Whole? && (u.c == '.' || u.c == '+' || u.c == '^' || u.c == '$' || u.c == '{' || u.c == '}' || u.c == '('
      || u.c == ')' || u.c == '|' || u.c == '[' || u.c == ']' || u.c == '\\')
  }

  function Escape(u: Unit): seq<Unit> {
    if IsEscaped(u) then [Whole('\\'), u] else [u]
  }

  const DOT: seq<Unit> := [Whole('.')]
  const DOT_STAR: seq<Unit> := [Whole('.'), Whole('*')]
  const CLASS: seq<Unit> := [Whole('['), Whole('^'), Whole('/'), Whole(']')]
  const END: seq<Unit> := [Whole('$')]

  function RegexText(glob: seq<Unit>): seq<Unit> {
    if glob == [] then []
    else if glob[0] == Whole('*') && |glob| > 1 && glob[1] == Whole('*') then DOT_STAR + RegexText(glob[2..])
    else if glob[0] == Whole('*') then CLASS + [Whole('*')] + RegexText(glob[1..])
    else if glob[0] == Whole('?') then DOT + RegexText(glob[1..])
    else Escape(glob[0]) + RegexText(glob[1..])
  }

  method CompileGlob(glob: seq<Unit>) returns (regex: seq<Unit>)
    ensures regex == RegexText(glob)
  {
    regex := [];
    var i := 0;
    while i < |glob|
      invariant 0 <= i <= |glob|
      invariant regex + RegexText(glob[i..]) == RegexText(glob)
    {
      var c := glob[i];
      ghost var rest := glob[i..];
      assert rest[0] == c && rest[1..] == glob[i + 1..];
      if c == Whole('*') {
        if i + 1 < |glob| && glob[i + 1] == Whole('*') {
          assert rest[2..] == glob[i + 2..];
          Associate(regex, DOT_STAR, RegexText(rest[2..]));
          regex := regex + DOT_STAR;
          i := i + 2;
          continue;
        }
        Associate(regex, CLASS + [Whole('*')], RegexText(rest[1..]));
        regex := regex + (CLASS + [Whole('*')]);
      } else if c == Whole('?') {
        Associate(regex, DOT, RegexText(rest[1..]));
        regex := regex + DOT;
      } else {
        Associate(regex, Escape(c), RegexText(rest[1..]));
        regex := regex + Escape(c);
      }
      i := i + 1;
    }
  }

  lemma Associate(a: seq<Unit>, b: seq<Unit>, c: seq<Unit>)
    ensures a + (b + c) == a + b + c
  {
  }

  // ---- What a regular expression accepts, for the constructs that occur

  datatype Atom = AnyChar | NotSlash | Literal(u: Unit)

  datatype Term = Term(atom: Atom, star: bool)

  predicate AtomAccepts(a: Atom, u: Unit) {
    match a
    case AnyChar => Covers(false, u)
    case NotSlash => u != Whole('/')
    case Literal(l) => u == l
  }

  // A term with * is taken any number of times.
  predicate Accepts(terms: seq<Term>, s: seq<Unit>)
    decreases |terms| + |s|
  {
    if terms == [] then s == []
    else if terms[0].star then
      Accepts(terms[1..], s) || (s != [] && AtomAccepts(terms[0].atom, s[0]) && Accepts(terms, s[1..]))
    else s != [] && AtomAccepts(terms[0].atom, s[0]) && Accepts(terms[1..], s[1..])
  }

  predicate IsSyntaxCharacter(u: Unit) {
    IsEscaped(u) || u == Whole('*') || u == Whole('?')
  }

  // Reading one atom (section 22.2.1): what it is and how many units it takes.
  function ReadAtom(regex: seq<Unit>): (r: Option<(Atom, nat)>)
    ensures r.Some? ==> 0 < r.value.1 <= |regex|
  {
    if regex == [] then None
    else if regex[0] == Whole('.') then Some((AnyChar, 1))
    else if regex[0] == Whole('\\') then
      if |regex| > 1 && IsSyntaxCharacter(regex[1]) then Some((Literal(regex[1]), 2)) else None
    else if |regex| >= 4 && regex[..4] == CLASS then Some((NotSlash, 4))
    else if IsSyntaxCharacter(regex[0]) then None
    else Some((Literal(regex[0]), 1))
  }

  // The terms of a pattern up to the $ at its end.
  function ReadTerms(regex: seq<Unit>): Option<seq<Term>>
    decreases |regex|
  {
    if regex == END then Some([])
    else
      match ReadAtom(regex)
      case None => None
      case Some((atom, n)) =>
        var star := n < |regex| && regex[n] == Whole('*');
        match ReadTerms(regex[if star then n + 1 else n..])
        case None => None
        case Some(terms) => Some([Term(atom, star)] + terms)
  }

  // new RegExp(regex).test(s), for a pattern between ^ and $ made of these terms.
  predicate Test(regex: seq<Unit>, s: seq<Unit>) {
    && regex != [] && regex[0] == Whole('^')
    && ReadTerms(regex[1..]).Some?
    && Accepts(ReadTerms(regex[1..]).value, s)
  }

  // ---- The compiled expression says what the glob says

  function TermsOf(glob: seq<Unit>): seq<Term> {
    if glob == [] then []
    else if glob[0] == Whole('*') && |glob| > 1 && glob[1] == Whole('*') then [Term(AnyChar, true)] + TermsOf(glob[2..])
    else if glob[0] == Whole('*') then [Term(NotSlash, true)] + TermsOf(glob[1..])
    else if glob[0] == Whole('?') then [Term(AnyChar, false)] + TermsOf(glob[1..])
    else [Term(Literal(glob[0]), false)] + TermsOf(glob[1..])
  }

  // The text of a glob never begins with the quantifier of what is before it.
  lemma NoStrayStar(glob: seq<Unit>)
    ensures (RegexText(glob) + END)[0] != Whole('*')
  {
  }

  lemma ReadsTerm(head: seq<Unit>, term: Term, rest: seq<Unit>)
    requires rest != [] && rest[0] != Whole('*') && head + rest != END && ReadTerms(rest).Some?
    requires ReadAtom(head + rest) == Some((term.atom, if term.star then |head| - 1 else |head|))
    requires term.star ==> head != [] && head[|head| - 1] == Whole('*')
    ensures ReadTerms(head + rest) == Some([term] + ReadTerms(rest).value)
  {
    assert (head + rest)[|head|..] == rest;
    assert (head + rest)[|head|] == rest[0];
  }

  lemma ReadsClass(rest: seq<Unit>)
    ensures ReadAtom(CLASS + [Whole('*')] + rest) == Some((NotSlash, 4))
  {
    assert (CLASS + [Whole('*')] + rest)[..4] == CLASS;
  }

  lemma ReadsEscaped(u: Unit, rest: seq<Unit>)
    requires u != Whole('*') && u != Whole('?')
    ensures ReadAtom(Escape(u) + rest) == Some((Literal(u), |Escape(u)|))
  {
    var regex := Escape(u) + rest;
    assert regex[0] == Escape(u)[0];
    if !IsEscaped(u) && |regex| >= 4 {
      assert regex[..4][0] == u != CLASS[0];
    }
  }

  lemma {:induction false} CompiledIsRead(glob: seq<Unit>)
    ensures ReadTerms(RegexText(glob) + END) == Some(TermsOf(glob))
    decreases |glob|
  {
    if glob != [] {
      var double := glob[0] == Whole('*') && |glob| > 1 && glob[1] == Whole('*');
      var tail := if double then glob[2..] else glob[1..];
      var rest := RegexText(tail) + END;
      CompiledIsRead(tail);
      NoStrayStar(tail);
      if double {
        Associate(DOT_STAR, RegexText(tail), END);
        ReadsTerm(DOT_STAR, Term(AnyChar, true), rest);
      } else if glob[0] == Whole('*') {
        Associate(CLASS + [Whole('*')], RegexText(tail), END);
        ReadsClass(rest);
        ReadsTerm(CLASS + [Whole('*')], Term(NotSlash, true), rest);
      } else if glob[0] == Whole('?') {
        Associate(DOT, RegexText(tail), END);
        ReadsTerm(DOT, Term(AnyChar, false), rest);
      } else {
        Associate(Escape(glob[0]), RegexText(tail), END);
        ReadsEscaped(glob[0], rest);
        ReadsTerm(Escape(glob[0]), Term(Literal(glob[0]), false), rest);
      }
    }
  }

  // How a glob that begins with a star is taken apart.
  predicate IsStar(glob: seq<Unit>) {
    glob != [] && glob[0] == Whole('*')
  }

  predicate IsDouble(glob: seq<Unit>) {
    IsStar(glob) && |glob| > 1 && glob[1] == Whole('*')
  }

  function AfterStar(glob: seq<Unit>): seq<Unit>
    requires IsStar(glob)
  {
    if IsDouble(glob) then glob[2..] else glob[1..]
  }

  predicate StarCovers(glob: seq<Unit>, lines: bool, u: Unit) {
    if IsDouble(glob) then Covers(lines, u) else u != Whole('/')
  }

  ghost predicate StarSplitsAt(glob: seq<Unit>, path: seq<Unit>, lines: bool, k: int)
    requires IsStar(glob)
  {
    && 0 <= k <= |path| && Fits(AfterStar(glob), path[k..], lines)
    && forall i :: 0 <= i < k ==> StarCovers(glob, lines, path[i])
  }

  lemma StarSplits(glob: seq<Unit>, path: seq<Unit>, lines: bool)
    requires IsStar(glob)
    ensures Fits(glob, path, lines) <==> exists k :: StarSplitsAt(glob, path, lines, k)
  {
    forall k | 0 <= k <= |path|
      ensures (if IsDouble(glob) then AllCovered(lines, path[..k]) else Whole('/') !in path[..k])
         <==> forall i :: 0 <= i < k ==> StarCovers(glob, lines, path[i])
    {
      assert forall i :: 0 <= i < k ==> path[..k][i] == path[i];
    }
    if IsDouble(glob) {
      if Fits(glob, path, lines) {
        var k :| 0 <= k <= |path| && AllCovered(lines, path[..k]) && Fits(glob[2..], path[k..], lines);
        assert StarSplitsAt(glob, path, lines, k);
      }
    } else if Fits(glob, path, lines) {
      var k :| 0 <= k <= |path| && Whole('/') !in path[..k] && Fits(glob[1..], path[k..], lines);
      assert StarSplitsAt(glob, path, lines, k);
    }
  }

  // A star takes nothing, or one unit more.
  lemma StarUnfolds(glob: seq<Unit>, path: seq<Unit>, lines: bool)
    requires IsStar(glob)
    ensures Fits(glob, path, lines) <==>
      || Fits(AfterStar(glob), path, lines)
      || (path != [] && StarCovers(glob, lines, path[0]) && Fits(glob, path[1..], lines))
  {
    StarSplits(glob, path, lines);
    assert path[0..] == path;
    if Fits(AfterStar(glob), path, lines) {
      assert StarSplitsAt(glob, path, lines, 0);
    }
    if path != [] {
      var rest := path[1..];
      StarSplits(glob, rest, lines);
      if StarCovers(glob, lines, path[0]) && Fits(glob, rest, lines) {
        var k :| StarSplitsAt(glob, rest, lines, k);
        assert path[k + 1..] == rest[k..];
        assert StarSplitsAt(glob, path, lines, k + 1);
      }
      if exists k :: k > 0 && StarSplitsAt(glob, path, lines, k) {
        var k :| k > 0 && StarSplitsAt(glob, path, lines, k);
        assert rest[k - 1..] == path[k..];
        assert StarSplitsAt(glob, rest, lines, k - 1);
      }
    }
  }

  lemma {:induction false} TermsFit(glob: seq<Unit>, path: seq<Unit>)
    ensures Accepts(TermsOf(glob), path) <==> Fits(glob, path, false)
    decreases |glob|, |path|
  {
    var terms := TermsOf(glob);
    if glob == [] {
    } else if IsStar(glob) {
      assert terms[1..] == TermsOf(AfterStar(glob));
      StarUnfolds(glob, path, false);
      TermsFit(AfterStar(glob), path);
      if path != [] {
        TermsFit(glob, path[1..]);
      }
    } else if path != [] {
      assert terms[1..] == TermsOf(glob[1..]);
      TermsFit(glob[1..], path[1..]);
    }
  }

  method MatchPath(path: string, pattern: string) returns (matches: bool)
    ensures matches <==> Matches(pattern, path)
  {
    var regex := CompileGlob(Units(pattern));
    matches := Test([Whole('^')] + regex + END, Units(path));
    assert ([Whole('^')] + regex + END)[1..] == regex + END;
    CompiledIsRead(Units(pattern));
    TermsFit(Units(pattern), Units(path));
  }

  // ---- Line terminators

  predicate OneLine(path: string) {
    forall i :: 0 <= i < |path| ==> !Text.IsLineTerminator(path[i])
  }

  // Where wildcards may cover every unit, it does not matter whether they may end lines.
  lemma {:induction false} CoveredFitAlike(glob: seq<Unit>, path: seq<Unit>)
    requires AllCovered(false, path)
    ensures Fits(glob, path, false) <==> Fits(glob, path, true)
    decreases |glob|, |path|
  {
    if glob == [] {
    } else if IsStar(glob) {
      StarUnfolds(glob, path, false);
      StarUnfolds(glob, path, true);
      CoveredFitAlike(AfterStar(glob), path);
      if path != [] {
        CoveredFitAlike(glob, path[1..]);
      }
    } else if path != [] {
      CoveredFitAlike(glob[1..], path[1..]);
    }
  }

  // Otherwise it can only refuse more.
  lemma {:induction false} UncoveredFitLess(glob: seq<Unit>, path: seq<Unit>)
    requires Fits(glob, path, false)
    ensures Fits(glob, path, true)
    decreases |glob|, |path|
  {
    if glob == [] {
    } else if IsStar(glob) {
      StarUnfolds(glob, path, false);
      StarUnfolds(glob, path, true);
      if Fits(AfterStar(glob), path, false) {
        UncoveredFitLess(AfterStar(glob), path);
      } else {
        UncoveredFitLess(glob, path[1..]);
      }
    } else {
      UncoveredFitLess(glob[1..], path[1..]);
    }
  }

  lemma {:induction false} OneLineIsCovered(path: string)
    ensures AllCovered(false, Units(path)) <==> OneLine(path)
  {
    if path != "" {
      var rest := path[1..];
      OneLineIsCovered(rest);
      CoveredConcat(UnitsOf(path[0]), Units(rest));
      assert OneLine(path) <==> !Text.IsLineTerminator(path[0]) && OneLine(rest) by {
        assert forall i :: 0 < i < |path| ==> path[i] == rest[i - 1];
        assert forall i :: 0 <= i < |rest| ==> rest[i] == path[i + 1];
      }
      assert AllCovered(false, UnitsOf(path[0])) <==> Covers(false, UnitsOf(path[0])[0]);
    }
  }

  lemma CoveredConcat(a: seq<Unit>, b: seq<Unit>)
    ensures AllCovered(false, a + b) <==> AllCovered(false, a) && AllCovered(false, b)
  {
    if AllCovered(false, a + b) {
      forall i | 0 <= i < |a| ensures Covers(false, a[i]) { assert (a + b)[i] == a[i]; }
      forall i | 0 <= i < |b| ensures Covers(false, b[i]) { assert (a + b)[|a| + i] == b[i]; }
    }
  }

  // ---- Characters outside the basic plane

  predicate AllBasic(path: string) {
    forall i :: 0 <= i < |path| ==> InBasicPlane(path[i])
  }

  // The first characters of a glob, as units and as letters.
  lemma UnitsHead(glob: string)
    requires glob != ""
    ensures var (units, letters, rest) := (Units(glob), Letters(glob), glob[1..]);
      && letters[0] == Whole(glob[0]) && letters[1..] == Letters(rest)
      && (InBasicPlane(glob[0]) ==> units[0] == Whole(glob[0]) && units[1..] == Units(rest))
      && (!InBasicPlane(glob[0]) ==> units[0].High? && units[1].Low? && units[2..] == Units(rest))
  {
  }

  // A star begins the glob as units exactly when it begins it as letters.
  lemma StarHead(glob: string)
    requires glob != "" && glob[0] == '*'
    ensures IsStar(Units(glob)) && IsStar(Letters(glob)) && (IsDouble(Units(glob)) <==> IsDouble(Letters(glob)))
    ensures var rest := if |glob| > 1 && glob[1] == '*' then glob[2..] else glob[1..];
      AfterStar(Units(glob)) == Units(rest) && AfterStar(Letters(glob)) == Letters(rest)
    ensures IsDouble(Units(glob)) <==> |glob| > 1 && glob[1] == '*'
  {
    UnitsHead(glob);
    if |glob| > 1 {
      UnitsHead(glob[1..]);
      assert glob[1..][1..] == glob[2..];
    }
  }

  function StarRest(glob: string): string
    requires glob != ""
  {
    if |glob| > 1 && glob[1] == '*' then glob[2..] else glob[1..]
  }

  // On a path inside the basic plane units and letters are the same, whatever is in the glob.
  lemma {:induction false} BasicFitAlike(glob: string, path: seq<Unit>, lines: bool)
    requires forall u :: u in path ==> u.Whole? && InBasicPlane(u.c)
    ensures Fits(Units(glob), path, lines) <==> Fits(Letters(glob), path, lines)
    decreases |glob|, |path|
  {
    if glob == "" {
    } else if glob[0] == '*' {
      StarHead(glob);
      StarUnfolds(Units(glob), path, lines);
      StarUnfolds(Letters(glob), path, lines);
      BasicFitAlike(StarRest(glob), path, lines);
      if path != [] {
        BasicFitAlike(glob, path[1..], lines);
      }
    } else {
      UnitsHead(glob);
      if path != [] {
        assert path[0] in path;
        BasicFitAlike(glob[1..], path[1..], lines);
      }
    }
  }

  lemma {:induction false} BasicUnits(path: string)
    requires AllBasic(path)
    ensures Units(path) == Letters(path)
    ensures forall u :: u in Units(path) ==> u.Whole? && InBasicPlane(u.c)
  {
    if path != "" {
      assert InBasicPlane(path[0]);
      assert forall i :: 0 <= i < |path[1..]| ==> path[1..][i] == path[i + 1];
      BasicUnits(path[1..]);
    }
  }

  // Without ? the halves of a character are never told apart: what is left of a glob cannot
  // begin with a second half, so a star that took the first takes both.
  lemma {:induction false} LowHalfIsSkipped(glob: string, low: Unit, rest: seq<Unit>, lines: bool)
    requires '?' !in glob && low.Low? && Fits(Units(glob), [low] + rest, lines)
    ensures Fits(Units(glob), rest, lines)
    decreases |glob|
  {
    var path := [low] + rest;
    assert path[1..] == rest && path[0] == low;
    assert glob != "" ==> glob[0] in glob;
    if glob != "" {
      if glob[0] == '*' {
        StarHead(glob);
        StarUnfolds(Units(glob), path, lines);
        StarUnfolds(Units(glob), rest, lines);
        if Fits(AfterStar(Units(glob)), path, lines) {
          LowHalfIsSkipped(StarRest(glob), low, rest, lines);
        }
      } else {
        UnitsHead(glob);
      }
    }
  }

  // A star over a character outside the basic plane takes both halves.
  lemma StarOverHalves(glob: string, high: Unit, low: Unit, rest: seq<Unit>, lines: bool)
    requires '?' !in glob && glob != "" && glob[0] == '*' && high.High? && low.Low?
    ensures Fits(Units(glob), [high, low] + rest, lines) <==>
      Fits(Units(StarRest(glob)), [high, low] + rest, lines) || Fits(Units(glob), rest, lines)
  {
    var path, half := [high, low] + rest, [low] + rest;
    assert path[1..] == half && half[1..] == rest && path[0] == high && half[0] == low;
    StarHead(glob);
    StarUnfolds(Units(glob), path, lines);
    StarUnfolds(Units(glob), half, lines);
    StarUnfolds(Units(glob), rest, lines);
    if Fits(Units(StarRest(glob)), half, lines) {
      LowHalfIsSkipped(StarRest(glob), low, rest, lines);
    }
  }

  lemma PathHead(path: string)
    requires path != "" && !InBasicPlane(path[0])
    ensures Units(path) == [Units(path)[0], Units(path)[1]] + Units(path[1..])
    ensures Units(path)[0].High? && Units(path)[1].Low?
    ensures Covers(false, Whole(path[0])) && path[0] != '/'
  {
    UnitsHead(path);
  }

  lemma EqualHalves(a: char, b: char)
    requires !InBasicPlane(a) && !InBasicPlane(b)
    ensures UnitsOf(a) == UnitsOf(b) <==> a == b
  {
    var (x, y) := (a as int - 0x1_0000, b as int - 0x1_0000);
    assert x == x / 0x400 * 0x400 + x % 0x400 && y == y / 0x400 * 0x400 + y % 0x400;
    if UnitsOf(a) == UnitsOf(b) {
      assert UnitsOf(a)[0] == UnitsOf(b)[0] && UnitsOf(a)[1] == UnitsOf(b)[1];
      assert a as int == b as int;
    }
  }

  // A character that stands for itself takes that character, in one unit or in two.
  lemma LiteralTakesCharacter(glob: string, path: string, lines: bool)
    requires glob != "" && glob[0] != '*' && glob[0] != '?'
    ensures Fits(Units(glob), Units(path), lines) <==>
      path != "" && path[0] == glob[0] && Fits(Units(glob[1..]), Units(path[1..]), lines)
  {
    UnitsHead(glob);
    if path != "" {
      UnitsHead(path);
      var (g, p) := (Units(glob), Units(path));
      if !InBasicPlane(glob[0]) && !InBasicPlane(path[0]) {
        EqualHalves(glob[0], path[0]);
        assert UnitsOf(glob[0]) == [g[0], g[1]] && UnitsOf(path[0]) == [p[0], p[1]];
        assert g[1..][1..] == g[2..] && p[1..][1..] == p[2..];
      }
    }
  }

  // Without ? units and letters fit alike on every path.
  lemma {:induction false} HalvesFitAlike(glob: string, path: string, lines: bool)
    requires '?' !in glob
    ensures Fits(Units(glob), Units(path), lines) <==> Fits(Letters(glob), Letters(path), lines)
    decreases |glob|, |path|
  {
    if glob != "" {
      assert glob[0] in glob;
      if glob[0] == '*' {
        StarHead(glob);
        StarUnfolds(Units(glob), Units(path), lines);
        StarUnfolds(Letters(glob), Letters(path), lines);
        HalvesFitAlike(StarRest(glob), path, lines);
        if path != "" {
          UnitsHead(path);
          HalvesFitAlike(glob, path[1..], lines);
          if !InBasicPlane(path[0]) {
            PathHead(path);
            StarOverHalves(glob, Units(path)[0], Units(path)[1], Units(path[1..]), lines);
          }
        }
      } else {
        UnitsHead(glob);
        LiteralTakesCharacter(glob, path, lines);
        if path != "" {
          UnitsHead(path);
          HalvesFitAlike(glob[1..], path[1..], lines);
        }
      }
    }
  }

  // ---- Globs that tell the two apart

  // As a glob `**` means every path; what is compiled from it matches the one-line paths.
  lemma StarsFitAnything(path: string)
    ensures Means("**", path)
    ensures Matches("**", path) <==> OneLine(path)
  {
    var stars := [Whole('*'), Whole('*')];
    StarHead("**");
    UnitsHead("*");
    assert Units("**") == stars && Letters("**") == stars;
    DoubleStarFits(stars, Letters(path), true);
    DoubleStarFits(stars, Units(path), false);
    OneLineIsCovered(path);
  }

  lemma {:induction false} DoubleStarFits(stars: seq<Unit>, path: seq<Unit>, lines: bool)
    requires stars == [Whole('*'), Whole('*')]
    ensures Fits(stars, path, lines) <==> AllCovered(lines, path)
  {
    StarUnfolds(stars, path, lines);
    if path != [] {
      DoubleStarFits(stars, path[1..], lines);
      assert AllCovered(lines, path) <==> Covers(lines, path[0]) && AllCovered(lines, path[1..]) by {
        assert forall i :: 0 < i < |path| ==> path[i] == path[1..][i - 1];
        assert forall i :: 0 <= i < |path[1..]| ==> path[1..][i] == path[i + 1];
      }
    }
  }

  // A ? for every character, and the same as long as the units of the path.
  function Marks(n: nat): string {
    if n == 0 then "" else "?" + Marks(n - 1)
  }

  lemma {:induction false} MarksMean(path: string)
    ensures Means(Marks(|path|), path)
  {
    if path != "" {
      MarksMean(path[1..]);
      assert Marks(|path|)[1..] == Marks(|path| - 1);
    }
  }

  lemma {:induction false} MarksMatchLength(n: nat, path: seq<Unit>)
    requires Fits(Units(Marks(n)), path, false)
    ensures |path| == n
  {
    if n > 0 {
      assert Marks(n)[1..] == Marks(n - 1);
      MarksMatchLength(n - 1, path[1..]);
    }
  }

  lemma {:induction false} UnitsAreMore(path: string)
    ensures |Units(path)| >= |path| == |Letters(path)|
    ensures |Units(path)| == |path| <==> AllBasic(path)
  {
    if path != "" {
      UnitsAreMore(path[1..]);
      assert AllBasic(path) <==> InBasicPlane(path[0]) && AllBasic(path[1..]) by {
        assert forall i :: 0 < i < |path| ==> path[i] == path[1..][i - 1];
        assert forall i :: 0 <= i < |path[1..]| ==> path[1..][i] == path[i + 1];
      }
    }
  }

  // A glob without stars that fits the units of the path one by one.
  function UnitByUnit(path: string): string {
    if path == "" then ""
    else
      (if !InBasicPlane(path[0]) then "??" else if Text.IsLineTerminator(path[0]) then [path[0]] else "?")
        + UnitByUnit(path[1..])
  }

  lemma {:induction false} UnitByUnitMatches(path: string)
    ensures Matches(UnitByUnit(path), path) && '*' !in UnitByUnit(path) && |UnitByUnit(path)| == |Units(path)|
  {
    if path != "" {
      var rest := UnitByUnit(path[1..]);
      UnitByUnitMatches(path[1..]);
      UnitsHead(path);
      if !InBasicPlane(path[0]) {
        assert UnitByUnit(path)[1..] == "?" + rest && ("?" + rest)[1..] == rest;
        assert Units(path)[1..][1..] == Units(path)[2..];
        assert Fits(Units("?" + rest), Units(path)[1..], false);
      } else {
        assert UnitByUnit(path)[1..] == rest;
      }
    }
  }

  lemma {:induction false} StarlessFitsLength(glob: string, path: seq<Unit>)
    requires '*' !in glob && Fits(Letters(glob), path, true)
    ensures |path| == |glob|
  {
    if glob != "" {
      assert glob[0] in glob;
      StarlessFitsLength(glob[1..], path[1..]);
    }
  }

  // ---- When a compiled glob means what the glob means

  // Every compiled glob means on a path what the glob means if and only if the path has no
  // line terminator, which what is compiled from `**` refuses, and no character outside the
  // basic plane, for which `?` stands only by halves.
  lemma GlobsMeanAlikeIff(path: string)
    ensures (forall glob :: Matches(glob, path) <==> Means(glob, path)) <==> OneLine(path) && AllBasic(path)
  {
    if OneLine(path) && AllBasic(path) {
      forall glob ensures Matches(glob, path) <==> Means(glob, path) {
        BasicUnits(path);
        OneLineIsCovered(path);
        CoveredFitAlike(Units(glob), Units(path));
        BasicFitAlike(glob, Units(path), true);
      }
    } else if !OneLine(path) {
      StarsFitAnything(path);
    } else {
      UnitsAreMore(path);
      MarksMean(path);
      if Matches(Marks(|path|), path) {
        MarksMatchLength(|path|, Units(path));
      }
    }
  }

  // What is matched is always meant if and only if the path has no such character.
  lemma MatchedIsMeantIff(path: string)
    ensures (forall glob :: Matches(glob, path) ==> Means(glob, path)) <==> AllBasic(path)
  {
    if AllBasic(path) {
      forall glob | Matches(glob, path) ensures Means(glob, path) {
        BasicUnits(path);
        UncoveredFitLess(Units(glob), Units(path));
        BasicFitAlike(glob, Units(path), true);
      }
    } else {
      UnitByUnitMatches(path);
      UnitsAreMore(path);
      if Means(UnitByUnit(path), path) {
        StarlessFitsLength(UnitByUnit(path), Letters(path));
      }
    }
  }

  // For globs without ? only line terminators matter.
  lemma UnmarkedGlobsMeanAlikeIff(path: string)
    ensures (forall glob :: '?' !in glob ==> (Matches(glob, path) <==> Means(glob, path))) <==> OneLine(path)
  {
    StarsFitAnything(path);
    assert '?' !in "**";
    if OneLine(path) {
      forall glob | '?' !in glob ensures Matches(glob, path) <==> Means(glob, path) {
        OneLineIsCovered(path);
        CoveredFitAlike(Units(glob), Units(path));
        HalvesFitAlike(glob, path, true);
      }
    }
  }

  lemma LineBreakIsRefused()
    ensures Means("**", "a\nb") && !Matches("**", "a\nb")
  {
    StarsFitAnything("a\nb");
    assert Text.IsLineTerminator("a\nb"[1]);
  }

  // One ? refuses a character outside the basic plane, and two accept it.
  lemma MarkTakesHalf()
    ensures var face := "\U{1F600}";
      Means("?", face) && !Matches("?", face) && !Means("??", face) && Matches("??", face)
  {
    var face := "\U{1F600}";
    assert face[1..] == "" && "?"[1..] == "" && "??"[1..] == "?";
    UnitsHead(face);
    assert |Units(face)| == 2;
  }

  // ---- Directories and file lists

  function NormalizeAllowedPath(pattern: string): string {
    if pattern != "" && pattern[|pattern| - 1] == '/' then pattern + "**" else pattern
  }

  lemma {:induction false} LiteralPrefixMatches(prefix: string, glob: string, path: string)
    requires '*' !in prefix && '?' !in prefix
    ensures Matches(prefix + glob, path) <==> prefix <= path && Matches(glob, path[|prefix|..])
    decreases |prefix|
  {
    if prefix == "" {
      assert prefix + glob == glob && path[0..] == path;
    } else {
      assert (prefix + glob)[1..] == prefix[1..] + glob;
      assert prefix[0] in prefix;
      LiteralTakesCharacter(prefix + glob, path, false);
      if path != "" {
        LiteralPrefixMatches(prefix[1..], glob, path[1..]);
        if |path| >= |prefix| { assert path[1..][|prefix| - 1..] == path[|prefix|..]; }
        assert path == [path[0]] + path[1..] && prefix == [prefix[0]] + prefix[1..];
      }
    }
  }

  // An allowed directory, written with a slash at its end, allows exactly what is in it,
  // provided the rest of the path is on one line.
  lemma DirectoryAllowsItsFiles(directory: string, path: string)
    requires '*' !in directory && '?' !in directory
    ensures Matches(NormalizeAllowedPath(directory + "/"), path)
       <==> directory + "/" <= path && OneLine(path[|directory| + 1..])
  {
    assert NormalizeAllowedPath(directory + "/") == directory + "/" + "**";
    LiteralPrefixMatches(directory + "/", "**", path);
    if directory + "/" <= path {
      StarsFitAnything(path[|directory| + 1..]);
    }
  }

  // Some pattern matches the path; some path is matched by the pattern.
  ghost predicate Allowed(path: string, patterns: seq<string>) {
    exists i :: 0 <= i < |patterns| && Matches(patterns[i], path)
  }

  ghost predicate Used(pattern: string, files: seq<string>) {
    exists i :: 0 <= i < |files| && Matches(pattern, files[i])
  }

  method AnyMatches(file: string, patterns: seq<string>) returns (found: bool)
    ensures found <==> Allowed(file, patterns)
  {
    for i := 0 to |patterns|
      invariant forall j :: 0 <= j < i ==> !Matches(patterns[j], file)
    {
      var matches := MatchPath(file, patterns[i]);
      if matches {
        return true;
      }
    }
    return false;
  }

  method MatchesAny(files: seq<string>, pattern: string) returns (found: bool)
    ensures found <==> Used(pattern, files)
  {
    for i := 0 to |files|
      invariant forall j :: 0 <= j < i ==> !Matches(pattern, files[j])
    {
      var matches := MatchPath(files[i], pattern);
      if matches {
        return true;
      }
    }
    return false;
  }

  // The files that are allowed and the patterns that are not used, in order.
  ghost function AllowedFiles(files: seq<string>, patterns: seq<string>): (r: seq<string>)
    ensures forall f :: f in r <==> f in files && Allowed(f, patterns)
  {
    if files == [] then []
    else
      var last := files[|files| - 1];
      assert files == files[..|files| - 1] + [last];
      AllowedFiles(files[..|files| - 1], patterns) + if Allowed(last, patterns) then [last] else []
  }

  ghost function UnusedPatterns(patterns: seq<string>, files: seq<string>): (r: seq<string>)
    ensures forall p :: p in r <==> p in patterns && !Used(p, files)
  {
    if patterns == [] then []
    else
      var last := patterns[|patterns| - 1];
      assert patterns == patterns[..|patterns| - 1] + [last];
      UnusedPatterns(patterns[..|patterns| - 1], files) + if Used(last, files) then [] else [last]
  }

  function Normalized(allowedPaths: seq<string>): (patterns: seq<string>)
    ensures |patterns| == |allowedPaths|
    ensures forall i :: 0 <= i < |patterns| ==> patterns[i] == NormalizeAllowedPath(allowedPaths[i])
  {
    seq(|allowedPaths|, i requires 0 <= i < |allowedPaths| => NormalizeAllowedPath(allowedPaths[i]))
  }

  method SelectFiles(files: seq<string>, patterns: seq<string>) returns (matched: seq<string>)
    ensures matched == AllowedFiles(files, patterns)
  {
    matched := [];
    for i := 0 to |files|
      invariant matched == AllowedFiles(files[..i], patterns)
    {
      assert files[..i + 1][..i] == files[..i];
      var allowed := AnyMatches(files[i], patterns);
      if allowed {
        matched := matched + [files[i]];
      }
    }
    assert files[..|files|] == files;
  }

  method SelectUnmatched(patterns: seq<string>, files: seq<string>) returns (unmatched: seq<string>)
    ensures unmatched == UnusedPatterns(patterns, files)
  {
    unmatched := [];
    for i := 0 to |patterns|
      invariant unmatched == UnusedPatterns(patterns[..i], files)
    {
      assert patterns[..i + 1][..i] == patterns[..i];
      var used := MatchesAny(files, patterns[i]);
      if !used {
        unmatched := unmatched + [patterns[i]];
      }
    }
    assert patterns[..|patterns|] == patterns;
  }

  // The files some allowed path matches, and the allowed paths that match no file; an
  // empty list allows everything.
  method FilterFilesByAllowedPaths(files: seq<string>, allowedPaths: seq<string>)
    returns (matched: seq<string>, unmatched: seq<string>)
    ensures matched == if allowedPaths == [] then files else AllowedFiles(files, Normalized(allowedPaths))
    ensures unmatched == UnusedPatterns(Normalized(allowedPaths), files)
  {
    if allowedPaths == [] {
      return files, [];
    }
    var normalized := Normalized(allowedPaths);
    matched := SelectFiles(files, normalized);
    unmatched := SelectUnmatched(normalized, files);
  }
}
