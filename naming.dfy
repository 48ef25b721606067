/** Names derived from a model: the slug of a camel-case class name and the
    plural of a model's name. Each regular-expression substitution of the
    slug pipeline is its own left-to-right scan. */
module Naming {
  import opened Descriptors

  predicate IsUpper(c: char) { 'A' <= c <= 'Z' }
  predicate IsLower(c: char) { 'a' <= c <= 'z' }
  predicate IsLetter(c: char) { IsUpper(c) || IsLower(c) }
  predicate IsDigit(c: char) { '0' <= c <= '9' }

  function ToLower(c: char): char { if IsUpper(c) then (c as int + 32) as char else c }
  function ToUpper(c: char): char { if IsLower(c) then (c as int - 32) as char else c }

  /** `str.lower()` on ASCII text: every character lowered in place. */
  function Lower(s: string): string
  {
    seq(|s|, i requires 0 <= i < |s| => ToLower(s[i]))
  }

  /** `str.title()` on ASCII text: a letter is upper-cased when it starts
      the text or follows a non-letter, and lower-cased when it follows a
      letter; other characters are kept. */
  function TitleAfter(s: string, afterLetter: bool): string
  {
    if s == [] then []
    else
      var c := if !IsLetter(s[0]) then s[0] else if afterLetter then ToLower(s[0]) else ToUpper(s[0]);
      [c] + TitleAfter(s[1..], IsLetter(s[0]))
  }

  function Title(s: string): string
  {
    TitleAfter(s, false)
  }

  /** `s.replace(x, "")`: the text with every occurrence of `x` removed. */
  function Without(s: string, x: char): string
  {
    if s == [] then [] else (if s[0] == x then [] else [s[0]]) + Without(s[1..], x)
  }

  /** `re.sub(r'([a-z])([A-Z])', r'\1 \2', s)`: a space between every
      lower-case letter and the upper-case letter right after it. */
  function SpaceCaseBoundaries(s: string): string
    decreases |s|
  {
    if |s| >= 2 && IsLower(s[0]) && IsUpper(s[1]) then [s[0], ' ', s[1]] + SpaceCaseBoundaries(s[2..])
    else if s == [] then []
    else [s[0]] + SpaceCaseBoundaries(s[1..])
  }

  /** How many lower-case letters begin `s`: the part a greedy `[a-z]+` takes. */
  function LowerRun(s: string): (n: nat)
    ensures n <= |s|
    ensures forall i | 0 <= i < n :: IsLower(s[i])
    ensures n < |s| ==> !IsLower(s[n])
  {
    if s != [] && IsLower(s[0]) then 1 + LowerRun(s[1..]) else 0
  }

  /** `re.sub('(.)([A-Z][a-z]+)', r'\1_\2', s)`: an underscore before every
      capitalised word that has a character (other than a newline) before
      it. A match ends after the word's lower-case run and the scan resumes
      there, so the character that ends one match cannot start the next. */
  function UnderscoreWords(s: string): string
    decreases |s|
  {
    if |s| >= 3 && s[0] != '\n' && IsUpper(s[1]) && IsLower(s[2]) then
      var j := 2 + LowerRun(s[2..]);
      [s[0], '_'] + s[1..j] + UnderscoreWords(s[j..])
    else if s == [] then []
    else [s[0]] + UnderscoreWords(s[1..])
  }

  /** `re.sub('([a-z0-9])([A-Z])', r'\1_\2', s)`: an underscore between a
      lower-case letter or digit and the upper-case letter right after it. */
  function UnderscoreCaseBoundaries(s: string): string
    decreases |s|
  {
    if |s| >= 2 && (IsLower(s[0]) || IsDigit(s[0])) && IsUpper(s[1]) then
      [s[0], '_', s[1]] + UnderscoreCaseBoundaries(s[2..])
    else if s == [] then []
    else [s[0]] + UnderscoreCaseBoundaries(s[1..])
  }

  /** The name with camel-case boundaries normalised: spaces inserted, title
      cased, then every space and underscore removed. */
  function Normalised(name: string): string
  {
    Without(Without(Title(SpaceCaseBoundaries(name)), ' '), '_')
  }

  /** `camel_to_slug`: "PumpernickelBread" becomes "pumpernickel_bread". */
  function CamelToSlug(name: Ascii): string
  {
    Lower(UnderscoreCaseBoundaries(UnderscoreWords(Normalised(name))))
  }

  /** `model_name_plural`: the declared plural when it is a string,
      otherwise the name with "s" appended and a final "ys" made "ies". */
  function ModelNamePlural(model: Model): (r: Ascii)
  {
    match model.verbosePlural
    case Some(plural) => plural
    case None =>
      var withS: Ascii := model.name + "s";
      if |withS| >= 2 && withS[|withS| - 2..] == "ys" then withS[..|withS| - 2] + "ies" else withS
  }

  /** The slug of the plural, as the aggregator files use it. */
  function PluralSlug(model: Model): string
  {
    CamelToSlug(ModelNamePlural(model))
  }

  // ---------------------------------------------------------------------
  // What the substitutions change

  lemma {:induction false} WithoutAppend(a: string, b: string, x: char)
    ensures Without(a + b, x) == Without(a, x) + Without(b, x)
  {
    if a == [] {
      assert a + b == b;
    } else {
      assert (a + b)[1..] == a[1..] + b;
      WithoutAppend(a[1..], b, x);
    }
  }

  /** Removing `x` keeps exactly the other characters. */
  lemma {:induction false} WithoutMembers(s: string, x: char)
    ensures forall c :: c in Without(s, x) <==> c in s && c != x
  {
    if s != [] {
      WithoutMembers(s[1..], x);
      assert s == [s[0]] + s[1..];
    }
  }

  lemma WithoutCons(c: char, t: string, x: char)
    ensures Without([c] + t, x) == (if c == x then [] else [c]) + Without(t, x)
  {
    assert ([c] + t)[1..] == t;
  }

  lemma SplitOne(s: string)
    requires s != []
    ensures s == [s[0]] + s[1..]
  {
  }

  lemma SplitTwo(s: string)
    requires |s| >= 2
    ensures s == [s[0], s[1]] + s[2..]
  {
  }

  /** Removing `x` from texts that agree once `x` is removed, after the same
      first character. */
  lemma WithoutKept(a: char, t: string, u: string, x: char)
    requires Without(t, x) == Without(u, x)
    ensures Without([a] + t, x) == Without([a] + u, x)
  {
    WithoutCons(a, t, x);
    WithoutCons(a, u, x);
  }

  /** Removing `x` undoes an `x` inserted between two other characters. */
  lemma WithoutSeparated(a: char, b: char, t: string, u: string, x: char)
    requires a != x && b != x
    requires Without(t, x) == Without(u, x)
    ensures Without([a, x, b] + t, x) == Without([a, b] + u, x)
  {
    Regroup3(a, x, b, t);
    WithoutCons(a, [x] + ([b] + t), x);
    WithoutCons(x, [b] + t, x);
    WithoutCons(b, t, x);
    assert [a, b] + u == [a] + ([b] + u);
    WithoutCons(a, [b] + u, x);
    WithoutCons(b, u, x);
  }

  /** Removing a character that is already absent changes nothing. */
  lemma {:induction false} WithoutAbsent(s: string, x: char)
    requires x !in s
    ensures Without(s, x) == s
  {
    if s != [] {
      WithoutAbsent(s[1..], x);
    }
  }

  /** The first substitution only inserts spaces. */
  lemma {:induction false} SpaceCaseBoundariesOnlySpaces(s: string)
    ensures Without(SpaceCaseBoundaries(s), ' ') == Without(s, ' ')
    decreases |s|
  {
    if |s| >= 2 && IsLower(s[0]) && IsUpper(s[1]) {
      SpaceCaseBoundariesOnlySpaces(s[2..]);
      WithoutSeparated(s[0], s[1], SpaceCaseBoundaries(s[2..]), s[2..], ' ');
      SplitTwo(s);
    } else if s != [] {
      SpaceCaseBoundariesSkip(s);
      SpaceCaseBoundariesOnlySpaces(s[1..]);
      WithoutKept(s[0], SpaceCaseBoundaries(s[1..]), s[1..], ' ');
      SplitOne(s);
    }
  }

  /** The second substitution only inserts underscores. */
  lemma {:induction false} UnderscoreWordsOnlyUnderscores(s: string)
    ensures Without(UnderscoreWords(s), '_') == Without(s, '_')
    decreases |s|
  {
    if |s| >= 3 && s[0] != '\n' && IsUpper(s[1]) && IsLower(s[2]) {
      var j := 2 + LowerRun(s[2..]);
      var word := s[1..j];
      var rest := s[j..];
      UnderscoreWordsOnlyUnderscores(rest);
      WithoutAppend([s[0], '_'] + word, UnderscoreWords(rest), '_');
      WithoutAppend([s[0], '_'], word, '_');
      WithoutAppend([s[0]] + word, rest, '_');
      WithoutAppend([s[0]], word, '_');
      assert s == [s[0]] + word + rest;
    } else if s != [] {
      UnderscoreWordsOnlyUnderscores(s[1..]);
    }
  }

  /** The third substitution only inserts underscores. */
  lemma {:induction false} UnderscoreCaseBoundariesOnlyUnderscores(s: string)
    ensures Without(UnderscoreCaseBoundaries(s), '_') == Without(s, '_')
    decreases |s|
  {
    if |s| >= 2 && (IsLower(s[0]) || IsDigit(s[0])) && IsUpper(s[1]) {
      UnderscoreCaseBoundariesOnlyUnderscores(s[2..]);
      WithoutSeparated(s[0], s[1], UnderscoreCaseBoundaries(s[2..]), s[2..], '_');
      SplitTwo(s);
    } else if s != [] {
      UnderscoreCaseBoundariesSkip(s);
      UnderscoreCaseBoundariesOnlyUnderscores(s[1..]);
      WithoutKept(s[0], UnderscoreCaseBoundaries(s[1..]), s[1..], '_');
      SplitOne(s);
    }
  }

  /** Title casing changes case only. */
  lemma {:induction false} LowerTitleAfter(s: string, afterLetter: bool)
    ensures Lower(TitleAfter(s, afterLetter)) == Lower(s)
  {
    if s != [] {
      var c := if !IsLetter(s[0]) then s[0] else if afterLetter then ToLower(s[0]) else ToUpper(s[0]);
      LowerTitleAfter(s[1..], IsLetter(s[0]));
      LowerAppend([c], TitleAfter(s[1..], IsLetter(s[0])));
      LowerAppend([s[0]], s[1..]);
      assert s == [s[0]] + s[1..];
    }
  }

  /** Lowering commutes with removing a character that is not a letter. */
  lemma {:induction false} LowerWithout(s: string, x: char)
    requires !IsLetter(x)
    ensures Lower(Without(s, x)) == Without(Lower(s), x)
  {
    if s != [] {
      LowerWithout(s[1..], x);
      assert Lower(s)[1..] == Lower(s[1..]);
      LowerAppend(if s[0] == x then [] else [s[0]], Without(s[1..], x));
    }
  }

  lemma {:induction false} LowerAppend(a: string, b: string)
    ensures Lower(a + b) == Lower(a) + Lower(b)
  {
    assert Lower(a + b) == Lower(a) + Lower(b) by {
      forall i | 0 <= i < |a + b|
        ensures Lower(a + b)[i] == (Lower(a) + Lower(b))[i]
      {
        if i < |a| {
          assert (a + b)[i] == a[i];
        } else {
          assert (a + b)[i] == b[i - |a|];
        }
      }
    }
  }

  /** The slug spells the name: with its underscores removed it is the name
      lower-cased with every space and underscore removed. Only underscores
      are inserted; no letter or digit is added, dropped or reordered. */
  lemma SlugSpellsName(name: Ascii)
    ensures Without(CamelToSlug(name), '_') == Lower(Without(Without(name, ' '), '_'))
  {
    var spaced := SpaceCaseBoundaries(name);
    var titled := Title(spaced);
    var normal := Normalised(name);
    var worded := UnderscoreWords(normal);
    var bounded := UnderscoreCaseBoundaries(worded);
    LowerWithout(bounded, '_');
    UnderscoreCaseBoundariesOnlyUnderscores(worded);
    UnderscoreWordsOnlyUnderscores(normal);
    WithoutMembers(Without(titled, ' '), '_');
    WithoutAbsent(normal, '_');
    LowerWithout(Without(titled, ' '), '_');
    LowerWithout(titled, ' ');
    LowerTitleAfter(spaced, false);
    LowerWithout(spaced, ' ');
    SpaceCaseBoundariesOnlySpaces(name);
    LowerWithout(Without(name, ' '), '_');
  }

  /** A slug holds no upper-case letter and no space; each of its other
      characters is an underscore or a lowered character of the name. */
  lemma SlugCharacters(name: Ascii)
    ensures forall i | 0 <= i < |CamelToSlug(name)| ::
      !IsUpper(CamelToSlug(name)[i]) && CamelToSlug(name)[i] != ' ' &&
      (CamelToSlug(name)[i] == '_' || CamelToSlug(name)[i] in Lower(Without(Without(name, ' '), '_')))
  {
    var slug := CamelToSlug(name);
    var spelled := Lower(Without(Without(name, ' '), '_'));
    SlugSpellsName(name);
    WithoutMembers(slug, '_');
    WithoutMembers(Without(name, ' '), '_');
    WithoutMembers(name, ' ');
    forall i | 0 <= i < |slug|
      ensures !IsUpper(slug[i]) && slug[i] != ' ' && (slug[i] == '_' || slug[i] in spelled)
    {
      if slug[i] != '_' {
        assert slug[i] in Without(slug, '_');
        assert slug[i] in spelled;
        var k :| 0 <= k < |spelled| && spelled[k] == slug[i];
        assert Without(Without(name, ' '), '_')[k] in Without(name, ' ');
      }
    }
  }

  // ---------------------------------------------------------------------
  // Names made of capitalised words

  /** An upper-case letter followed by one or more lower-case letters. */
  predicate IsCapitalised(w: string)
  {
    |w| >= 2 && IsUpper(w[0]) && forall i | 1 <= i < |w| :: IsLower(w[i])
  }

  predicate AllLower(s: string)
  {
    forall i | 0 <= i < |s| :: IsLower(s[i])
  }

  predicate AllCapitalised(ws: seq<string>)
  {
    forall i | 0 <= i < |ws| :: IsCapitalised(ws[i])
  }

  function Concat(ws: seq<string>): string
  {
    if ws == [] then [] else ws[0] + Concat(ws[1..])
  }

  function Join(ws: seq<string>, sep: string): string
  {
    if ws == [] then [] else if |ws| == 1 then ws[0] else ws[0] + (sep + Join(ws[1..], sep))
  }

  function LowerEach(ws: seq<string>): seq<string>
  {
    if ws == [] then [] else [Lower(ws[0])] + LowerEach(ws[1..])
  }

  /** What the second substitution makes of capitalised words: an
      underscore before the second, fourth, sixth, ... word only, because
      the match that takes one word also takes the character the next
      boundary would need. */
  function Pairs(ws: seq<string>): string
  {
    if |ws| < 2 then Concat(ws) else ws[0] + ("_" + (ws[1] + Pairs(ws[2..])))
  }

  /** The separator a substitution puts before `rest` when `rest` starts
      with an upper-case letter. */
  function SepBefore(rest: string, sep: string): string
  {
    if rest != [] && IsUpper(rest[0]) then sep else ""
  }

  lemma ConcatStartsUpper(ws: seq<string>)
    requires AllCapitalised(ws)
    ensures ws != [] ==> Concat(ws) != [] && IsUpper(Concat(ws)[0])
    ensures ws == [] ==> Concat(ws) == []
  {
    if ws != [] {
      assert IsCapitalised(ws[0]);
      assert Concat(ws)[0] == ws[0][0];
    }
  }

  lemma PairsStartsUpper(ws: seq<string>)
    requires AllCapitalised(ws)
    ensures ws != [] ==> Pairs(ws) != [] && IsUpper(Pairs(ws)[0])
    ensures ws == [] ==> Pairs(ws) == []
  {
    if |ws| >= 2 {
      assert IsCapitalised(ws[0]);
      assert Pairs(ws)[0] == ws[0][0];
    } else {
      ConcatStartsUpper(ws);
    }
  }

  lemma {:induction false} SpaceCaseBoundariesLower(l: string, rest: string)
    requires l != [] && AllLower(l)
    ensures SpaceCaseBoundaries(l + rest) == l + (SepBefore(rest, " ") + SpaceCaseBoundaries(rest))
    decreases |l|
  {
    var s := l + rest;
    if |l| == 1 {
      if rest != [] && IsUpper(rest[0]) {
        assert s[2..] == rest[1..];
        var tail := SpaceCaseBoundaries(rest[1..]);
        SpaceCaseBoundariesSkip(rest);
        Regroup3(s[0], ' ', s[1], tail);
      } else {
        assert s[1..] == rest;
        assert SepBefore(rest, " ") + SpaceCaseBoundaries(rest) == SpaceCaseBoundaries(rest);
      }
    } else {
      assert s[1] == l[1];
      assert s[1..] == l[1..] + rest;
      SpaceCaseBoundariesSkip(s);
      SpaceCaseBoundariesLower(l[1..], rest);
      ConsRegroup(l, SepBefore(rest, " ") + SpaceCaseBoundaries(rest));
    }
  }

  lemma SpaceCaseBoundariesWord(w: string, rest: string)
    requires IsCapitalised(w)
    ensures SpaceCaseBoundaries(w + rest) == w + (SepBefore(rest, " ") + SpaceCaseBoundaries(rest))
  {
    var s := w + rest;
    assert s[1..] == w[1..] + rest;
    assert AllLower(w[1..]);
    SpaceCaseBoundariesSkip(s);
    SpaceCaseBoundariesLower(w[1..], rest);
    ConsRegroup(w, SepBefore(rest, " ") + SpaceCaseBoundaries(rest));
  }

  lemma {:induction false} SpaceCaseBoundariesWords(ws: seq<string>)
    requires AllCapitalised(ws)
    ensures SpaceCaseBoundaries(Concat(ws)) == Join(ws, " ")
  {
    if ws != [] {
      var w, r := ws[0], ws[1..];
      assert AllCapitalised(r);
      ConcatStartsUpper(r);
      SpaceCaseBoundariesWord(w, Concat(r));
      SpaceCaseBoundariesWords(r);
      if r == [] {
        assert w + ("" + []) == w;
      }
    }
  }

  lemma {:induction false} TitleAfterAppend(a: string, b: string, afterLetter: bool)
    requires a != []
    ensures TitleAfter(a + b, afterLetter) == TitleAfter(a, afterLetter) + TitleAfter(b, IsLetter(a[|a| - 1]))
  {
    assert (a + b)[1..] == a[1..] + b;
    if |a| > 1 {
      TitleAfterAppend(a[1..], b, IsLetter(a[0]));
    }
  }

  lemma {:induction false} TitleAfterLower(l: string)
    requires AllLower(l)
    ensures TitleAfter(l, true) == l
  {
    if l != [] {
      TitleAfterLower(l[1..]);
    }
  }

  lemma {:induction false} TitleWords(ws: seq<string>)
    requires AllCapitalised(ws)
    ensures Title(Join(ws, " ")) == Join(ws, " ")
  {
    if ws != [] {
      var w := ws[0];
      TitleAfterLower(w[1..]);
      assert TitleAfter(w, false) == w;
      if |ws| > 1 {
        var rest := Join(ws[1..], " ");
        assert Join(ws, " ") == w + (" " + rest);
        TitleAfterAppend(w, " " + rest, false);
        assert (" " + rest)[1..] == rest;
        assert TitleAfter(" " + rest, IsLetter(w[|w| - 1])) == " " + TitleAfter(rest, false);
        assert AllCapitalised(ws[1..]);
        TitleWords(ws[1..]);
      }
    }
  }

  lemma LettersWithout(w: string, x: char)
    requires !IsLetter(x) && forall i | 0 <= i < |w| :: IsLetter(w[i])
    ensures Without(w, x) == w
  {
    WithoutAbsent(w, x);
  }

  lemma {:induction false} WithoutSpacesOfWords(ws: seq<string>)
    requires AllCapitalised(ws)
    ensures Without(Join(ws, " "), ' ') == Concat(ws)
  {
    if ws != [] {
      var w := ws[0];
      LettersWithout(w, ' ');
      var r := ws[1..];
      assert AllCapitalised(r);
      if |ws| > 1 {
        var rest := Join(r, " ");
        assert Join(ws, " ") == w + (" " + rest);
        WithoutCons(' ', rest, ' ');
        assert Without(" " + rest, ' ') == Without(rest, ' ');
        WithoutSpacesOfWords(r);
        WithoutAppend(w, " " + rest, ' ');
        assert Concat(ws) == w + Concat(r);
      } else {
        assert r == [];
        assert Concat(ws) == w + [];
      }
    }
  }

  lemma {:induction false} WithoutUnderscoresOfWords(ws: seq<string>)
    requires AllCapitalised(ws)
    ensures Without(Concat(ws), '_') == Concat(ws)
  {
    if ws != [] {
      LettersWithout(ws[0], '_');
      WithoutAppend(ws[0], Concat(ws[1..]), '_');
      WithoutUnderscoresOfWords(ws[1..]);
    }
  }

  lemma {:induction false} UnderscoreWordsLower(l: string)
    requires AllLower(l)
    ensures UnderscoreWords(l) == l
  {
    if l != [] {
      UnderscoreWordsLower(l[1..]);
    }
  }

  lemma LowerRunOf(l: string, rest: string)
    requires AllLower(l) && (rest == [] || !IsLower(rest[0]))
    ensures LowerRun(l + rest) == |l|
  {
    var s := l + rest;
    assert forall i | 0 <= i < |l| :: s[i] == l[i];
    assert |l| < |s| ==> s[|l|] == rest[0];
  }

  /** One match of the second substitution, ending at `j`. */
  lemma UnderscoreWordsAt(s: string, j: nat)
    requires |s| >= 3 && s[0] != '\n' && IsUpper(s[1]) && IsLower(s[2])
    requires j == 2 + LowerRun(s[2..])
    ensures j <= |s|
    ensures UnderscoreWords(s) == [s[0], '_'] + s[1..j] + UnderscoreWords(s[j..])
  {
  }

  lemma SplitAfterWord(c: char, w: string, rest: string)
    requires IsLower(c) && IsCapitalised(w)
    requires rest == [] || IsUpper(rest[0])
    ensures var s := [c] + (w + rest);
      && |s| >= 3 && s[0] != '\n' && IsUpper(s[1]) && IsLower(s[2])
      && |w| + 1 == 2 + LowerRun(s[2..])
      && s[1..|w| + 1] == w && s[|w| + 1..] == rest
  {
    var s := [c] + (w + rest);
    assert s[2..] == w[1..] + rest;
    assert AllLower(w[1..]);
    LowerRunOf(w[1..], rest);
  }

  lemma UnderscoreWordsMatch(c: char, w: string, rest: string)
    requires IsLower(c) && IsCapitalised(w)
    requires rest == [] || IsUpper(rest[0])
    ensures UnderscoreWords([c] + (w + rest)) == [c] + ("_" + (w + UnderscoreWords(rest)))
  {
    var s := [c] + (w + rest);
    SplitAfterWord(c, w, rest);
    UnderscoreWordsAt(s, |w| + 1);
    Regroup(c, '_', w, UnderscoreWords(rest));
  }

  lemma Regroup(a: char, b: char, x: string, y: string)
    ensures [a, b] + x + y == [a] + ([b] + (x + y))
  {
  }

  lemma Regroup3(a: char, b: char, c: char, t: string)
    ensures [a, b, c] + t == [a] + ([b] + ([c] + t))
  {
  }

  lemma ConsRegroup(x: string, y: string)
    requires x != []
    ensures [x[0]] + (x[1..] + y) == x + y
  {
    assert x == [x[0]] + x[1..];
  }

  /** Where no substitution starts at `s[0]`, each scan copies it. */
  lemma SpaceCaseBoundariesSkip(s: string)
    requires s != [] && !(|s| >= 2 && IsLower(s[0]) && IsUpper(s[1]))
    ensures SpaceCaseBoundaries(s) == [s[0]] + SpaceCaseBoundaries(s[1..])
  {
  }

  lemma UnderscoreWordsSkip(s: string)
    requires s != [] && !(|s| >= 3 && s[0] != '\n' && IsUpper(s[1]) && IsLower(s[2]))
    ensures UnderscoreWords(s) == [s[0]] + UnderscoreWords(s[1..])
  {
  }

  lemma UnderscoreCaseBoundariesSkip(s: string)
    requires s != [] && !(|s| >= 2 && (IsLower(s[0]) || IsDigit(s[0])) && IsUpper(s[1]))
    ensures UnderscoreCaseBoundaries(s) == [s[0]] + UnderscoreCaseBoundaries(s[1..])
  {
  }

  lemma {:induction false} UnderscoreWordsLowerPair(l: string, w: string, rest: string)
    requires l != [] && AllLower(l) && IsCapitalised(w)
    requires rest == [] || IsUpper(rest[0])
    ensures UnderscoreWords(l + (w + rest)) == l + ("_" + (w + UnderscoreWords(rest)))
    decreases |l|
  {
    if |l| == 1 {
      assert l == [l[0]];
      UnderscoreWordsMatch(l[0], w, rest);
    } else {
      var s := l + (w + rest);
      assert s[1] == l[1];
      assert s[1..] == l[1..] + (w + rest);
      UnderscoreWordsSkip(s);
      UnderscoreWordsLowerPair(l[1..], w, rest);
      ConsRegroup(l, "_" + (w + UnderscoreWords(rest)));
    }
  }

  lemma UnderscoreWordsWord(w: string)
    requires IsCapitalised(w)
    ensures UnderscoreWords(w) == w
  {
    assert AllLower(w[1..]);
    UnderscoreWordsLower(w[1..]);
    assert !IsUpper(w[1]);
    assert UnderscoreWords(w) == [w[0]] + UnderscoreWords(w[1..]);
  }

  lemma UnderscoreWordsTwo(w1: string, w2: string, rest: string)
    requires IsCapitalised(w1) && IsCapitalised(w2)
    requires rest == [] || IsUpper(rest[0])
    ensures UnderscoreWords(w1 + (w2 + rest)) == w1 + ("_" + (w2 + UnderscoreWords(rest)))
  {
    var s := w1 + (w2 + rest);
    assert s[1..] == w1[1..] + (w2 + rest);
    assert s[1] == w1[1];
    UnderscoreWordsSkip(s);
    assert AllLower(w1[1..]);
    UnderscoreWordsLowerPair(w1[1..], w2, rest);
    ConsRegroup(w1, "_" + (w2 + UnderscoreWords(rest)));
  }

  lemma {:induction false} UnderscoreWordsWords(ws: seq<string>)
    requires AllCapitalised(ws)
    ensures UnderscoreWords(Concat(ws)) == Pairs(ws)
    decreases |ws|
  {
    if |ws| == 1 {
      assert ws[1..] == [];
      assert Concat(ws) == ws[0] + [] == ws[0];
      UnderscoreWordsWord(ws[0]);
    } else if |ws| >= 2 {
      var w1, w2, r := ws[0], ws[1], ws[2..];
      assert ws[1..][1..] == r;
      assert Concat(ws) == w1 + (w2 + Concat(r));
      assert AllCapitalised(r);
      ConcatStartsUpper(r);
      UnderscoreWordsTwo(w1, w2, Concat(r));
      UnderscoreWordsWords(r);
    }
  }

  lemma {:induction false} UnderscoreCaseBoundariesLower(l: string, rest: string)
    requires l != [] && AllLower(l)
    ensures UnderscoreCaseBoundaries(l + rest) == l + (SepBefore(rest, "_") + UnderscoreCaseBoundaries(rest))
    decreases |l|
  {
    var s := l + rest;
    if |l| == 1 {
      if rest != [] && IsUpper(rest[0]) {
        assert s[2..] == rest[1..];
        var tail := UnderscoreCaseBoundaries(rest[1..]);
        UnderscoreCaseBoundariesSkip(rest);
        Regroup3(s[0], '_', s[1], tail);
      } else {
        assert s[1..] == rest;
        assert SepBefore(rest, "_") + UnderscoreCaseBoundaries(rest) == UnderscoreCaseBoundaries(rest);
      }
    } else {
      assert s[1] == l[1];
      assert s[1..] == l[1..] + rest;
      UnderscoreCaseBoundariesSkip(s);
      UnderscoreCaseBoundariesLower(l[1..], rest);
      ConsRegroup(l, SepBefore(rest, "_") + UnderscoreCaseBoundaries(rest));
    }
  }

  lemma UnderscoreCaseBoundariesWord(w: string, rest: string)
    requires IsCapitalised(w)
    ensures UnderscoreCaseBoundaries(w + rest) == w + (SepBefore(rest, "_") + UnderscoreCaseBoundaries(rest))
  {
    var s := w + rest;
    assert s[1..] == w[1..] + rest;
    assert AllLower(w[1..]);
    UnderscoreCaseBoundariesSkip(s);
    UnderscoreCaseBoundariesLower(w[1..], rest);
    ConsRegroup(w, SepBefore(rest, "_") + UnderscoreCaseBoundaries(rest));
  }

  lemma UnderscoreCaseBoundariesUnderscore(t: string)
    ensures UnderscoreCaseBoundaries("_" + t) == "_" + UnderscoreCaseBoundaries(t)
  {
    assert ("_" + t)[1..] == t;
  }

  lemma UnderscoreCaseBoundariesTwo(w1: string, w2: string, p: string)
    requires IsCapitalised(w1) && IsCapitalised(w2)
    requires p == [] || IsUpper(p[0])
    ensures UnderscoreCaseBoundaries(w1 + ("_" + (w2 + p))) ==
            w1 + ("_" + (w2 + (SepBefore(p, "_") + UnderscoreCaseBoundaries(p))))
  {
    var tail := w2 + p;
    UnderscoreCaseBoundariesWord(w1, "_" + tail);
    assert SepBefore("_" + tail, "_") == "";
    var x := UnderscoreCaseBoundaries("_" + tail);
    assert "" + x == x;
    UnderscoreCaseBoundariesUnderscore(tail);
    UnderscoreCaseBoundariesWord(w2, p);
  }

  lemma {:induction false} UnderscoreCaseBoundariesPairs(ws: seq<string>)
    requires AllCapitalised(ws)
    ensures UnderscoreCaseBoundaries(Pairs(ws)) == Join(ws, "_")
    decreases |ws|
  {
    if |ws| == 1 {
      var w := ws[0];
      assert ws[1..] == [];
      assert Concat(ws) == w + Concat(ws[1..]) == w + [] == w;
      UnderscoreCaseBoundariesWord(w, []);
      assert w + ("" + []) == w;
    } else if |ws| >= 2 {
      var w1, w2, r := ws[0], ws[1], ws[2..];
      assert ws[1..][1..] == r;
      assert AllCapitalised(r);
      var p := Pairs(r);
      PairsStartsUpper(r);
      UnderscoreCaseBoundariesPairs(r);
      UnderscoreCaseBoundariesTwo(w1, w2, p);
      if r == [] {
        assert w2 + ("" + []) == w2;
        assert Join(ws[1..], "_") == w2;
      } else {
        assert Join(ws[1..], "_") == w2 + ("_" + Join(r, "_"));
      }
    }
  }

  lemma {:induction false} LowerJoin(ws: seq<string>)
    ensures Lower(Join(ws, "_")) == Join(LowerEach(ws), "_")
  {
    if |ws| > 1 {
      var rest := Join(ws[1..], "_");
      LowerAppend(ws[0], "_" + rest);
      LowerAppend("_", rest);
      assert Lower("_") == "_";
      LowerJoin(ws[1..]);
      assert LowerEach(ws)[1..] == LowerEach(ws[1..]);
    }
  }

  /** Capitalised words are already normalised. */
  lemma NormalisedWords(ws: seq<string>)
    requires AllCapitalised(ws)
    ensures Normalised(Concat(ws)) == Concat(ws)
  {
    SpaceCaseBoundariesWords(ws);
    TitleWords(ws);
    WithoutSpacesOfWords(ws);
    WithoutUnderscoresOfWords(ws);
  }

  /** For a name made of capitalised words the slug is the lower-cased words
      joined by underscores, whatever the number of words. */
  lemma SlugOfCapitalisedWords(name: Ascii, ws: seq<string>)
    requires name == Concat(ws) && AllCapitalised(ws)
    ensures CamelToSlug(name) == Join(LowerEach(ws), "_")
  {
    NormalisedWords(ws);
    UnderscoreWordsWords(ws);
    UnderscoreCaseBoundariesPairs(ws);
    LowerJoin(ws);
  }


  lemma SlugOfPumpernickelBread()
    ensures CamelToSlug("PumpernickelBread") == "pumpernickel_bread"
  {
    var ws := ["Pumpernickel", "Bread"];
    PumpernickelBreadWords();
    SlugOfCapitalisedWords("PumpernickelBread", ws);
    LowerPumpernickelBread();
  }

  lemma PumpernickelBreadWords()
    ensures Concat(["Pumpernickel", "Bread"]) == "PumpernickelBread"
    ensures AllCapitalised(["Pumpernickel", "Bread"])
  {
  }

  lemma LowerPumpernickelBread()
    ensures Join(LowerEach(["Pumpernickel", "Bread"]), "_") == "pumpernickel_bread"
  {
    var ws := ["Pumpernickel", "Bread"];
    LowerPumpernickel();
    LowerBread();
    assert ws[1..] == ["Bread"];
    assert LowerEach(ws) == ["pumpernickel"] + LowerEach(["Bread"]);
    assert LowerEach(["Bread"]) == ["bread"];
    JoinPumpernickelBread();
  }

  lemma JoinPumpernickelBread()
    ensures Join(["pumpernickel", "bread"], "_") == "pumpernickel_bread"
  {
  }

  lemma LowerPumpernickel()
    ensures Lower("Pumpernickel") == "pumpernickel"
  {
  }

  lemma LowerBread()
    ensures Lower("Bread") == "bread"
  {
  }

  // ---------------------------------------------------------------------
  // Names without a lower-to-upper boundary

  predicate AllLetters(s: string)
  {
    forall i | 0 <= i < |s| :: IsLetter(s[i])
  }

  /** No lower-case letter is directly followed by an upper-case one. */
  predicate NoCaseBoundary(s: string)
  {
    forall i | 1 <= i < |s| :: !(IsLower(s[i - 1]) && IsUpper(s[i]))
  }

  /** No upper-case letter after the first character. */
  predicate NoUpperAfterFirst(s: string)
  {
    forall i | 1 <= i < |s| :: !IsUpper(s[i])
  }

  lemma {:induction false} SpaceCaseBoundariesNone(s: string)
    requires NoCaseBoundary(s)
    ensures SpaceCaseBoundaries(s) == s
    decreases |s|
  {
    if s != [] {
      assert |s| >= 2 ==> !(IsLower(s[0]) && IsUpper(s[1]));
      SpaceCaseBoundariesSkip(s);
      assert forall i | 1 <= i < |s[1..]| :: s[1..][i - 1] == s[i] && s[1..][i] == s[i + 1];
      SpaceCaseBoundariesNone(s[1..]);
      SplitOne(s);
    }
  }

  lemma {:induction false} UnderscoreWordsNoUpper(s: string)
    requires NoUpperAfterFirst(s)
    ensures UnderscoreWords(s) == s
    decreases |s|
  {
    if s != [] {
      UnderscoreWordsSkip(s);
      assert forall i | 1 <= i < |s[1..]| :: s[1..][i] == s[i + 1];
      UnderscoreWordsNoUpper(s[1..]);
      SplitOne(s);
    }
  }

  lemma {:induction false} UnderscoreCaseBoundariesNoUpper(s: string)
    requires NoUpperAfterFirst(s)
    ensures UnderscoreCaseBoundaries(s) == s
    decreases |s|
  {
    if s != [] {
      UnderscoreCaseBoundariesSkip(s);
      assert forall i | 1 <= i < |s[1..]| :: s[1..][i] == s[i + 1];
      UnderscoreCaseBoundariesNoUpper(s[1..]);
      SplitOne(s);
    }
  }

  /** After a letter, title casing lowers a run of letters. */
  lemma {:induction false} TitleAfterLetters(l: string)
    requires AllLetters(l)
    ensures TitleAfter(l, true) == Lower(l)
  {
    if l != [] {
      assert AllLetters(l[1..]);
      TitleAfterLetters(l[1..]);
      LowerAppend([l[0]], l[1..]);
      SplitOne(l);
    }
  }

  /** A name of letters with no lower-case letter right before an
      upper-case one, such as a run of capitals followed by a word, keeps
      no boundary: `title()` lowers every letter after the first before the
      underscore substitutions run, so the slug is the name lowered. */
  lemma SlugOfUnbrokenName(name: Ascii)
    requires AllLetters(name) && NoCaseBoundary(name)
    ensures CamelToSlug(name) == Lower(name)
  {
    if name != [] {
      var t := [ToUpper(name[0])] + Lower(name[1..]);
      NormalisedUnbroken(name);
      TitledLetters(name);
      UnderscoreWordsNoUpper(t);
      UnderscoreCaseBoundariesNoUpper(t);
      LowerTitled(name);
    }
  }

  /** Such a name normalises to its first letter upper-cased and the rest
      lowered. */
  lemma NormalisedUnbroken(name: string)
    requires name != [] && AllLetters(name) && NoCaseBoundary(name)
    ensures Normalised(name) == [ToUpper(name[0])] + Lower(name[1..])
  {
    var t := [ToUpper(name[0])] + Lower(name[1..]);
    SpaceCaseBoundariesNone(name);
    assert AllLetters(name[1..]);
    TitleAfterLetters(name[1..]);
    assert Title(name) == t;
    TitledLetters(name);
    LettersWithout(t, ' ');
    LettersWithout(t, '_');
  }

  lemma TitledLetters(name: string)
    requires name != [] && AllLetters(name)
    ensures var t := [ToUpper(name[0])] + Lower(name[1..]);
      AllLetters(t) && NoUpperAfterFirst(t)
  {
  }

  lemma LowerTitled(name: string)
    requires name != [] && AllLetters(name)
    ensures Lower([ToUpper(name[0])] + Lower(name[1..])) == Lower(name)
  {
    LowerAppend([ToUpper(name[0])], Lower(name[1..]));
    assert Lower(Lower(name[1..])) == Lower(name[1..]);
    LowerAppend([name[0]], name[1..]);
    SplitOne(name);
  }

  /** `HTTPResponse` is title cased to `Httpresponse` first, so its slug
      has no underscore. */
  lemma SlugOfHTTPResponse()
    ensures CamelToSlug("HTTPResponse") == "httpresponse"
  {
    var name := "HTTPResponse";
    assert AllLetters(name);
    assert NoCaseBoundary(name) by {
      assert forall i | 0 <= i < 5 :: IsUpper(name[i]);
      assert forall i | 5 <= i < |name| :: IsLower(name[i]);
    }
    SlugOfUnbrokenName(name);
    LowerHTTPResponse();
  }

  lemma LowerHTTPResponse()
    ensures Lower("HTTPResponse") == "httpresponse"
  {
  }

  /** An underscore between two capitalised words is removed before the
      substitutions run. */
  lemma NormalisedUnderscored(w1: string, w2: string)
    requires IsCapitalised(w1) && IsCapitalised(w2)
    ensures Normalised(w1 + ("_" + w2)) == w1 + w2
  {
    SpaceCaseBoundariesUnderscored(w1, w2);
    TitleUnderscored(w1, w2);
    WithoutUnderscored(w1, w2, ' ');
    WithoutUnderscored(w1, w2, '_');
  }

  lemma SpaceCaseBoundariesUnderscored(w1: string, w2: string)
    requires IsCapitalised(w1) && IsCapitalised(w2)
    ensures SpaceCaseBoundaries(w1 + ("_" + w2)) == w1 + ("_" + w2)
  {
    var t := "_" + w2;
    SpaceCaseBoundariesCapitalised(w2);
    assert t[1..] == w2;
    SpaceCaseBoundariesSkip(t);
    assert SpaceCaseBoundaries(t) == t;
    assert SepBefore(t, " ") == "";
    SpaceCaseBoundariesWord(w1, t);
    assert "" + t == t;
  }

  lemma SpaceCaseBoundariesCapitalised(w: string)
    requires IsCapitalised(w)
    ensures SpaceCaseBoundaries(w) == w
  {
    assert w + [] == w;
    SpaceCaseBoundariesWord(w, []);
    assert SepBefore([], " ") + SpaceCaseBoundaries([]) == [];
  }

  lemma TitleCapitalised(w: string)
    requires IsCapitalised(w)
    ensures TitleAfter(w, false) == w
  {
    assert AllLower(w[1..]);
    TitleAfterLower(w[1..]);
    SplitOne(w);
  }

  lemma TitleUnderscored(w1: string, w2: string)
    requires IsCapitalised(w1) && IsCapitalised(w2)
    ensures Title(w1 + ("_" + w2)) == w1 + ("_" + w2)
  {
    TitleAfterAppend(w1, "_" + w2, false);
    TitleCapitalised(w1);
    TitleCapitalised(w2);
    assert ("_" + w2)[1..] == w2;
  }

  lemma WithoutUnderscored(w1: string, w2: string, x: char)
    requires IsCapitalised(w1) && IsCapitalised(w2) && !IsLetter(x)
    ensures Without(w1 + ("_" + w2), x) == if x == '_' then w1 + w2 else w1 + ("_" + w2)
  {
    LettersWithout(w1, x);
    LettersWithout(w2, x);
    WithoutCons('_', w2, x);
    var tail := Without("_" + w2, x);
    assert tail == if x == '_' then w2 else "_" + w2;
    WithoutAppend(w1, "_" + w2, x);
    assert Without(w1 + ("_" + w2), x) == w1 + tail;
  }

  /** So a name with an underscore between two words has the slug of the
      name without it, and two models named that way target the same files. */
  lemma SlugIgnoresUnderscore(w1: string, w2: string)
    requires IsCapitalised(w1) && IsCapitalised(w2)
    ensures CamelToSlug(w1 + ("_" + w2)) == CamelToSlug(w1 + w2) == Lower(w1) + ("_" + Lower(w2))
  {
    NormalisedUnderscored(w1, w2);
    var ws := [w1, w2];
    assert Concat(ws) == w1 + w2 by {
      assert ws[1..] == [w2];
      assert Concat([w2]) == w2 + [];
    }
    NormalisedWords(ws);
    SlugOfCapitalisedWords(w1 + w2, ws);
    assert LowerEach(ws) == [Lower(w1), Lower(w2)] by {
      assert ws[1..] == [w2];
      assert LowerEach([w2]) == [Lower(w2)] + LowerEach([]);
    }
    assert Join([Lower(w1), Lower(w2)], "_") == Lower(w1) + ("_" + Lower(w2)) by {
      assert [Lower(w1), Lower(w2)][1..] == [Lower(w2)];
    }
  }

  lemma SlugOfFooUnderscoreBar()
    ensures CamelToSlug("Foo_Bar") == CamelToSlug("FooBar") == "foo_bar"
  {
    FooBarWords();
    SlugIgnoresUnderscore("Foo", "Bar");
    LowerFooBar();
  }

  lemma LowerFooBar()
    ensures Lower("Foo") + ("_" + Lower("Bar")) == "foo_bar"
  {
    assert Lower("Foo") == "foo";
    assert Lower("Bar") == "bar";
  }

  lemma FooBarWords()
    ensures IsCapitalised("Foo") && IsCapitalised("Bar")
    ensures "Foo" + ("_" + "Bar") == "Foo_Bar" && "Foo" + "Bar" == "FooBar"
  {
  }

  // ---------------------------------------------------------------------
  // Plurals

  /** The plural is the declared plural verbatim when there is one;
      otherwise the name plus "s", with a final "y" turned into "ies"; a
      computed plural always ends in 's' and keeps all but the name's last
      character. */
  lemma PluralShape(model: Model)
    ensures model.verbosePlural.Some? ==> ModelNamePlural(model) == model.verbosePlural.value
    ensures model.verbosePlural.None? ==>
      var name, r := model.name, ModelNamePlural(model);
      && |r| > 0 && r[|r| - 1] == 's'
      && (|name| > 0 && name[|name| - 1] == 'y' ==> r == name[..|name| - 1] + "ies")
      && (|name| == 0 || name[|name| - 1] != 'y' ==> r == name + "s")
  {
    if model.verbosePlural.None? {
      var name := model.name;
      var withS := name + "s";
      if |name| > 0 && name[|name| - 1] == 'y' {
        assert withS[|withS| - 2..] == "ys";
        assert withS[..|withS| - 2] == name[..|name| - 1];
      } else if |withS| >= 2 {
        assert withS[|withS| - 2] == name[|name| - 1];
      }
    }
  }

  // ---------------------------------------------------------------------
  // Worked examples


  lemma PluralExamples()
    ensures ModelNamePlural(Model("Category", None)) == "Categories"
    ensures ModelNamePlural(Model("Post", None)) == "Posts"
    ensures ModelNamePlural(Model("Person", Some("People"))) == "People"
  {
    PluralShape(Model("Category", None));
    PluralShape(Model("Post", None));
  }
}
