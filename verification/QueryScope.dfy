/** The canonical query behind the search box: what `Create` compiles search text and the freshness
    facet into, and how the simple scope editor reads such a query back. */
module QueryScope {
  import opened Basics
  import opened Paths
  import opened SearchTerms

  datatype Expr =
    | And(expressions: seq<Expr>)
    | Or(expressions: seq<Expr>)
    | Predicate(field: string, comparison: string, value: Option<string>)
    | Unknown

  /** The parts of a device row that these queries look at. */
  datatype Row = Row(displayName: string, deviceId: string, freshness: string)

  /** Invariant casing on top of the character classes; only the ASCII letters are pinned down. */
  datatype Culture = Culture(alphabet: Alphabet, lower: char -> char, upper: char -> char)
  {
    ghost predicate Lawful() {
      && alphabet.Lawful()
      && (forall c :: 'a' <= c <= 'z' ==> lower(c) == c && upper(c) == c - 'a' + 'A')
      && (forall c :: 'A' <= c <= 'Z' ==> lower(c) == c - 'A' + 'a' && upper(c) == c)
      && (forall c :: 'a' <= c <= 'z' || 'A' <= c <= 'Z' ==> alphabet.isWord(c))
    }

    function Lower(text: string): (s: string)
      ensures |s| == |text| && forall i :: 0 <= i < |s| ==> s[i] == lower(text[i])
    {
      seq(|text|, i requires 0 <= i < |text| => lower(text[i]))
    }

    function Fold(text: string): (s: string)
      ensures |s| == |text| && forall i :: 0 <= i < |s| ==> s[i] == upper(text[i])
    {
      seq(|text|, i requires 0 <= i < |text| => upper(text[i]))
    }

    function Trim(text: string): string { alphabet.TrimEnd(alphabet.TrimStart(text)) }

    // ---------------------------------------------------------------- evaluation

    predicate Contains(actual: string, expected: string) {
      exists i :: 0 <= i <= |actual| - |expected| && MatchesAt(actual, expected, i)
    }

    predicate MatchesAt(actual: string, expected: string, i: int)
      requires 0 <= i <= |actual| - |expected|
    {
      Fold(actual)[i..i + |expected|] == Fold(expected)
    }

    predicate Holds(field: string, comparison: string, expected: string, row: Row) {
      var actual :=
        if field == "display_name" then Some(row.displayName)
        else if field == "device_id" then Some(row.deviceId)
        else if field == "freshness" then Some(row.freshness)
        else None;
      && actual.Some?
      && ((comparison == "contains" && Contains(actual.value, expected)) ||
          (comparison == "equals" && Fold(actual.value) == Fold(expected)))
    }

    /** Which rows a tree accepts. Fields and comparisons the evaluator refuses accept no row. */
    predicate Eval(e: Expr, row: Row) {
      match e
      case And(es) => forall i :: 0 <= i < |es| ==> Eval(es[i], row)
      case Or(es) => exists i :: 0 <= i < |es| && Eval(es[i], row)
      case Predicate(field, comparison, value) =>
        Holds(field, comparison, if value.Some? then value.value else "", row)
      case Unknown => false
    }

    predicate Accepts(e: Option<Expr>, row: Row) { e.None? || Eval(e.value, row) }

    predicate Mentions(row: Row, term: string) { Contains(row.displayName, term) || Contains(row.deviceId, term) }

    // ---------------------------------------------------------------- compiling

    function TermExpr(term: string): Expr {
      Or([Predicate("display_name", "contains", Some(term)), Predicate("device_id", "contains", Some(term))])
    }

    /** The facet to add: none for a missing, blank or `all` choice. */
    function Facet(freshness: Option<string>): Option<string> {
      if freshness.None? then None
      else
        var normalized := Lower(Trim(freshness.value));
        if normalized == "" || normalized == "all" then None else Some(normalized)
    }

    function FacetExpr(facet: Option<string>): seq<Expr> {
      if facet.None? then [] else [Predicate("freshness", "equals", facet)]
    }

    function TermExprs(terms: seq<string>): (es: seq<Expr>)
      ensures |es| == |terms| && forall i :: 0 <= i < |es| ==> es[i] == TermExpr(terms[i])
    {
      seq(|terms|, i requires 0 <= i < |terms| => TermExpr(terms[i]))
    }

    function Shape(es: seq<Expr>): Option<Expr> {
      if |es| == 0 then None else if |es| == 1 then Some(es[0]) else Some(And(es))
    }

    function Created(searchText: Option<string>, freshness: Option<string>): Option<Expr> {
      var text := if searchText.None? then "" else searchText.value;
      Shape(TermExprs(alphabet.Terms(text)) + FacetExpr(Facet(freshness)))
    }

    method Create(searchText: Option<string>, freshness: Option<string>) returns (expression: Option<Expr>)
      ensures expression == Created(searchText, freshness)
    {
      var parsed := alphabet.ParseSearchTerms(searchText);
      var terms := [];
      for i := 0 to |parsed|
        invariant terms == TermExprs(parsed[..i])
      {
        terms := terms + [TermExpr(parsed[i])];
      }
      assert parsed[..|parsed|] == parsed;
      var facet := Facet(freshness);
      if facet.Some? {
        terms := terms + [Predicate("freshness", "equals", facet)];
      }
      assert terms == TermExprs(parsed) + FacetExpr(facet);
      expression := Shape(terms);
    }

    lemma TermExprMeans(term: string, row: Row)
      ensures Eval(TermExpr(term), row) <==> Mentions(row, term)
    {
      var es := TermExpr(term).expressions;
      assert Eval(es[0], row) <==> Contains(row.displayName, term);
      assert Eval(es[1], row) <==> Contains(row.deviceId, term);
    }

    /** The three shapes mean the same conjunction. */
    lemma ShapeMeans(es: seq<Expr>, row: Row)
      ensures Accepts(Shape(es), row) <==> forall i :: 0 <= i < |es| ==> Eval(es[i], row)
    {
    }

    predicate FacetHolds(facet: Option<string>, row: Row) {
      facet.Some? ==> Fold(row.freshness) == Fold(facet.value)
    }

    /** A created query accepts exactly the rows that mention every term, in name or id, and whose
        freshness is the chosen one. */
    lemma CreatedMeans(searchText: Option<string>, freshness: Option<string>, row: Row)
      ensures var terms := alphabet.Terms(if searchText.None? then "" else searchText.value);
              Accepts(Created(searchText, freshness), row) <==>
              (forall i :: 0 <= i < |terms| ==> Mentions(row, terms[i])) && FacetHolds(Facet(freshness), row)
    {
      ExprsMean(alphabet.Terms(if searchText.None? then "" else searchText.value), Facet(freshness), row);
    }

    lemma ExprsMean(terms: seq<string>, facet: Option<string>, row: Row)
      ensures Accepts(Shape(TermExprs(terms) + FacetExpr(facet)), row) <==>
              (forall i :: 0 <= i < |terms| ==> Mentions(row, terms[i])) && FacetHolds(facet, row)
    {
      hide Mentions, Contains, TermExpr, Shape, Fold;
      var es := TermExprs(terms) + FacetExpr(facet);
      ShapeMeans(es, row);
      forall i | 0 <= i < |terms| ensures Eval(es[i], row) <==> Mentions(row, terms[i]) {
        TermExprMeans(terms[i], row);
      }
      if facet.Some? {
        assert es[|terms|] == Predicate("freshness", "equals", facet);
        FacetExprMeans(facet.value, row);
      }
    }

    lemma FacetExprMeans(facet: string, row: Row)
      ensures Eval(Predicate("freshness", "equals", Some(facet)), row) <==> Fold(row.freshness) == Fold(facet)
    {
    }

    // ---------------------------------------------------------------- reading back

    /** The facets the editor can show. */
    predicate IsKnownFacet(value: string) { value in {"fresh", "stale", "offline", "unknown"} }

    function Capitalized(value: string): string
      requires value != ""
    {
      [upper(value[0])] + value[1..]
    }

    predicate Readable(e: Expr) {
      e.Predicate? && e.field != "" && e.comparison != "" && e.value.Some? && e.value.value != ""
    }

    /** The or-shape test. The code has it the wrong way round: it refuses the pair of fields that
        `Create` emits and accepts every other pair; `intended` is the test it was meant to be. */
    predicate OrFits(es: seq<Expr>, intended: bool) {
      && |es| == 2 && Readable(es[0]) && Readable(es[1])
      && es[0].comparison == "contains" && es[1].comparison == "contains"
      && es[0].value == es[1].value
      && (({es[0].field, es[1].field} == {"display_name", "device_id"}) <==> intended)
    }

    /** Whether the tree was read, and the editor text and facet as far as reading got. */
    function Read(e: Expr, s: Scope, intended: bool): (bool, Scope)
      decreases e, 0
    {
      match e
      case And(es) => ReadAll(es, s, intended)
      case Predicate(field, comparison, value) =>
        if Readable(e) && field == "freshness" && comparison == "equals" && s.freshness == "All" && IsKnownFacet(value.value)
        then (true, s.(freshness := Capitalized(value.value)))
        else (false, s)
      case Or(es) =>
        if OrFits(es, intended) then (true, s.(searchText := Extend(s.searchText, es[0].value.value)))
        else (false, s)
      case Unknown => (false, s)
    }

    function ReadAll(es: seq<Expr>, s: Scope, intended: bool): (bool, Scope)
      decreases es, |es|
    {
      if es == [] then (true, s)
      else
        var (ok, next) := Read(es[0], s, intended);
        if ok then ReadAll(es[1..], next, intended) else (false, next)
    }

    function Extend(searchText: string, value: string): string {
      if searchText == "" then value else searchText + " " + value
    }

    const START := Scope("", "All")

    function Project(e: Option<Expr>, intended: bool): (bool, Scope) {
      if e.None? then (true, START) else Read(e.value, START, intended)
    }

    /** The reader itself, updating the two editor fields as it walks the tree. */
    method TryReadSimpleExpression(e: Expr, searchText: string, freshness: string, intended: bool)
      returns (ok: bool, text: string, facet: string)
      ensures (ok, Scope(text, facet)) == Read(e, Scope(searchText, freshness), intended)
      decreases e
    {
      text, facet := searchText, freshness;
      match e
      case And(es) =>
        for i := 0 to |es|
          invariant ReadAll(es, Scope(searchText, freshness), intended) == ReadAll(es[i..], Scope(text, facet), intended)
        {
          assert es[i..][1..] == es[i + 1..];
          ok, text, facet := TryReadSimpleExpression(es[i], text, facet, intended);
          if !ok {
            return;
          }
        }
        ok := true;
      case Predicate(field, comparison, value) =>
        ok := Readable(e) && field == "freshness" && comparison == "equals" && facet == "All" && IsKnownFacet(value.value);
        if ok {
          facet := Capitalized(value.value);
        }
      case Or(es) =>
        ok := OrFits(es, intended);
        if ok {
          text := Extend(text, es[0].value.value);
        }
      case Unknown =>
        ok := false;
    }

    // ---------------------------------------------------------------- the reader as written

    lemma {:induction false} TermsAreRefused(terms: seq<string>, rest: seq<Expr>, s: Scope)
      requires terms != []
      ensures !ReadAll(TermExprs(terms) + rest, s, false).0
    {
      assert (TermExprs(terms) + rest)[0] == TermExpr(terms[0]);
      assert TermExpr(terms[0]).expressions[0].field == "display_name";
    }

    /** As written, the editor reads back a created query if and only if it has no search terms and
        its facet, if any, is one of the four it knows. */
    lemma WrittenReadsBackIff(searchText: Option<string>, freshness: Option<string>)
      ensures var terms := alphabet.Terms(if searchText.None? then "" else searchText.value);
              Project(Created(searchText, freshness), false).0 <==>
              terms == [] && (Facet(freshness).Some? ==> IsKnownFacet(Facet(freshness).value))
    {
      hide alphabet.Terms, Facet, Capitalized;
      var terms, facet := alphabet.Terms(if searchText.None? then "" else searchText.value), Facet(freshness);
      var es := TermExprs(terms) + FacetExpr(facet);
      if terms == [] {
        assert es == FacetExpr(facet);
      } else {
        TermsAreRefused(terms, FacetExpr(facet), START);
        if |es| == 1 {
          assert es[0] == TermExpr(terms[0]);
          assert TermExpr(terms[0]).expressions[0].field == "display_name";
        }
      }
    }

    /** What it accepts instead: a search inside the freshness text, which comes back as a search for
        that word in name and id. */
    lemma WrittenChangesMeaning()
      requires Lawful()
      ensures var inFreshness := Predicate("freshness", "contains", Some("fresh"));
              var e, row := Or([inFreshness, inFreshness]), Row("headset", "device", "fresh");
              && Project(Some(e), false) == (true, Scope("fresh", "All"))
              && Eval(e, row) && !Accepts(Created(Some("fresh"), Some("All")), row)
    {
      hide Created, Contains, MatchesAt, Fold, Lower, Trim;
      var inFreshness := Predicate("freshness", "contains", Some("fresh"));
      var e, row := Or([inFreshness, inFreshness]), Row("headset", "device", "fresh");
      ContainsItself("fresh");
      assert Eval(e.expressions[0], row);
      SearchesNameAndId("fresh", row);
    }

    lemma ContainsItself(text: string)
      ensures Contains(text, text)
    {
      assert MatchesAt(text, text, 0);
    }

    predicate Lowercase(text: string) { forall i :: 0 <= i < |text| ==> 'a' <= text[i] <= 'z' }

    lemma SearchesNameAndId(word: string, row: Row)
      requires Lawful() && word != "" && Lowercase(word) && Lowercase(row.displayName) && Lowercase(row.deviceId)
      requires word[0] !in row.displayName && word[0] !in row.deviceId
      ensures !Accepts(Created(Some(word), Some("All")), row)
    {
      hide Created, Contains, Facet;
      OneWordTerms(word);
      CreatedMeans(Some(word), Some("All"), row);
      Elsewhere(row.displayName, word);
      Elsewhere(row.deviceId, word);
      assert !Mentions(row, [word][0]);
    }

    lemma OneWordTerms(word: string)
      requires Lawful() && word != "" && alphabet.AllWord(word)
      ensures alphabet.Terms(word) == [word]
    {
      alphabet.ParsePrint([Word(word)]);
      assert alphabet.Print([Word(word)]) == word + "" == word;
    }

    /** A lowercase text without the first letter of the wanted word does not contain it. */
    lemma Elsewhere(actual: string, wanted: string)
      requires Lawful() && wanted != "" && 'a' <= wanted[0] <= 'z'
      requires forall i :: 0 <= i < |actual| ==> 'a' <= actual[i] <= 'z' && actual[i] != wanted[0]
      ensures !Contains(actual, wanted)
    {
      forall i | 0 <= i <= |actual| - |wanted| ensures !MatchesAt(actual, wanted, i) {
        assert Fold(actual)[i..i + |wanted|][0] == upper(actual[i]) != upper(wanted[0]) == Fold(wanted)[0];
      }
    }

    // ---------------------------------------------------------------- the reader as intended

    function Joined(searchText: string, values: seq<string>): string
      decreases |values|
    {
      if values == [] then searchText else Joined(Extend(searchText, values[0]), values[1..])
    }

    /** What a successful reading found: the or-values in order, and at most one facet. */
    ghost predicate Found(before: Scope, after: Scope, values: seq<string>, facet: Option<string>) {
      && (forall v :: v in values ==> v != "")
      && after.searchText == Joined(before.searchText, values)
      && (facet.None? ==> after.freshness == before.freshness)
      && (facet.Some? ==>
            IsKnownFacet(facet.value) && before.freshness == "All" && after.freshness == Capitalized(facet.value))
    }

    ghost predicate SaysOnly(e: Expr, values: seq<string>, facet: Option<string>) {
      forall row :: Eval(e, row) <==> (forall v :: v in values ==> Mentions(row, v)) && FacetHolds(facet, row)
    }

    /** A tree that the intended reader accepts says no more than what it found. */
    lemma {:induction false} ReadFinds(e: Expr, s: Scope) returns (values: seq<string>, facet: Option<string>)
      requires Read(e, s, true).0
      ensures Found(s, Read(e, s, true).1, values, facet) && SaysOnly(e, values, facet)
      decreases e, 0
    {
      match e
      case And(es) =>
        values, facet := ReadAllFinds(es, s);
      case Predicate(field, comparison, value) =>
        values, facet := [], value;
      case Or(es) =>
        values, facet := [es[0].value.value], None;
        forall row ensures Eval(e, row) <==> Mentions(row, values[0]) {
          OrMeans(es, row);
        }
    }

    lemma OrMeans(es: seq<Expr>, row: Row)
      requires OrFits(es, true)
      ensures Eval(Or(es), row) <==> Mentions(row, es[0].value.value)
    {
      hide Contains;
      assert Eval(Or(es), row) <==> Eval(es[0], row) || Eval(es[1], row);
      BothFields(es[0].field, es[1].field);
    }

    lemma BothFields(a: string, b: string)
      requires {a, b} == {"display_name", "device_id"}
      ensures a != b && a in {"display_name", "device_id"} && b in {"display_name", "device_id"}
    {
      assert "display_name" in {a, b} && "device_id" in {a, b};
      assert |"display_name"| != |"device_id"|;
    }

    lemma {:induction false} ReadAllFinds(es: seq<Expr>, s: Scope) returns (values: seq<string>, facet: Option<string>)
      requires ReadAll(es, s, true).0
      ensures Found(s, ReadAll(es, s, true).1, values, facet)
      ensures SaysOnly(And(es), values, facet)
      decreases es, |es|
    {
      if es == [] {
        values, facet := [], None;
      } else {
        var next := Read(es[0], s, true).1;
        var first, one := ReadFinds(es[0], s);
        var more, other := ReadAllFinds(es[1..], next);
        values, facet := first + more, if one.Some? then one else other;
        JoinedConcat(s.searchText, first, more);
        forall row
          ensures Eval(And(es), row) <==> (forall v :: v in values ==> Mentions(row, v)) && FacetHolds(facet, row)
        {
          AndMeans(es, row);
          assert forall v :: v in values <==> v in first || v in more;
        }
      }
    }

    lemma AndMeans(es: seq<Expr>, row: Row)
      requires es != []
      ensures Eval(And(es), row) <==> Eval(es[0], row) && Eval(And(es[1..]), row)
    {
      assert forall i :: 0 < i < |es| ==> es[i] == es[1..][i - 1];
    }

    lemma {:induction false} JoinedConcat(searchText: string, a: seq<string>, b: seq<string>)
      ensures Joined(searchText, a + b) == Joined(Joined(searchText, a), b)
      decreases |a|
    {
      if a == [] {
        assert a + b == b;
      } else {
        assert (a + b)[1..] == a[1..] + b;
        JoinedConcat(Extend(searchText, a[0]), a[1..], b);
      }
    }

    // ---------------------------------------------------------------- and creating again

    lemma FacetComesBack(facet: Option<string>)
      requires Lawful() && (facet.Some? ==> IsKnownFacet(facet.value))
      ensures Facet(Some(if facet.None? then "All" else Capitalized(facet.value))) == facet
    {
      hide Trim, Lower, Capitalized;
      if facet.Some? {
        KnownFacetIsLowercase(facet.value);
        CapitalLowers(facet.value);
      } else {
        CapitalLowers("all");
        assert Capitalized("all") == "All" by { CapitalAll(); }
      }
    }

    lemma CapitalAll()
      requires Lawful()
      ensures Capitalized("all") == "All"
    {
      assert "all"[1..] == "ll";
    }

    lemma KnownFacetIsLowercase(value: string)
      requires IsKnownFacet(value)
      ensures value != "" && value != "all" && forall i :: 0 <= i < |value| ==> 'a' <= value[i] <= 'z'
    {
    }

    lemma CapitalLowers(value: string)
      requires Lawful() && value != "" && forall i :: 0 <= i < |value| ==> 'a' <= value[i] <= 'z'
      ensures Lower(Trim(Capitalized(value))) == value
    {
      hide Trim;
      var shown := Capitalized(value);
      assert forall i :: 0 < i < |shown| ==> shown[i] == value[i];
      LettersUntrimmed(shown);
    }

    lemma LettersUntrimmed(text: string)
      requires Lawful() && forall i :: 0 <= i < |text| ==> 'a' <= text[i] <= 'z' || 'A' <= text[i] <= 'Z'
      ensures Trim(text) == text
    {
      assert forall i :: 0 <= i < |text| ==> alphabet.isWord(text[i]) && !alphabet.isSpace(text[i]);
    }

    /** Parsing joined quote-free values yields the words of each, in order. */
    lemma {:induction false} JoinedTerms(searchText: string, values: seq<string>)
      requires Lawful() && '"' !in searchText && forall v :: v in values ==> v != "" && '"' !in v
      ensures alphabet.Terms(Joined(searchText, values)) == alphabet.Words(searchText) + AllWords(values)
      decreases |values|
    {
      if values == [] {
        PlainTerms(searchText);
      } else {
        var more := Extend(searchText, values[0]);
        forall v | v in values[1..] ensures v != "" && '"' !in v {
          assert v in values;
        }
        assert values[0] in values;
        JoinedTerms(more, values[1..]);
        ExtendWords(searchText, values[0]);
      }
    }

    function AllWords(values: seq<string>): seq<string> {
      if values == [] then [] else alphabet.Words(values[0]) + AllWords(values[1..])
    }

    lemma PlainTerms(text: string)
      requires '"' !in text
      ensures alphabet.Terms(text) == alphabet.Words(text)
    {
      hide alphabet.Words;
      SplitWhole(text, '"');
      var parts: seq<string> := [text];
      assert parts[1..] == [];
      assert alphabet.TermsOf(parts, false) == alphabet.Words(text) + [];
    }

    lemma ExtendWords(searchText: string, value: string)
      requires Lawful() && value != ""
      ensures alphabet.Words(Extend(searchText, value)) == alphabet.Words(searchText) + alphabet.Words(value)
    {
      hide alphabet.Words;
      if searchText == "" {
        alphabet.NoWords();
        assert alphabet.Words("") + alphabet.Words(value) == alphabet.Words(value);
      } else {
        var spaced := searchText + " ";
        assert !alphabet.isWord(' ') && spaced[|spaced| - 1] == ' ';
        alphabet.WordsConcat(searchText, " ");
        alphabet.NoWords();
        alphabet.WordsConcat(spaced, value);
        assert alphabet.Words(searchText) + [] == alphabet.Words(searchText);
      }
    }

    /** Every word of a value stands somewhere in it, so a row with the value has the word. */
    lemma {:induction false} WordsAreParts(text: string, word: string) returns (at: nat)
      requires word in alphabet.Words(text)
      ensures at + |word| <= |text| && text[at..at + |word|] == word
      decreases |text|
    {
      if !alphabet.isWord(text[0]) {
        at := WordsAreParts(text[1..], word);
        at := at + 1;
      } else {
        var n := alphabet.RunLength(text);
        if word == text[..n] {
          at := 0;
        } else {
          at := WordsAreParts(text[n..], word);
          at := at + n;
        }
      }
    }

    lemma PartsAreContained(actual: string, value: string, word: string, at: nat)
      requires at + |word| <= |value| && value[at..at + |word|] == word && Contains(actual, value)
      ensures Contains(actual, word)
    {
      var i :| 0 <= i <= |actual| - |value| && MatchesAt(actual, value, i);
      var j := i + at;
      forall k | 0 <= k < |word| ensures Fold(actual)[j..j + |word|][k] == Fold(word)[k] {
        assert Fold(actual)[i..i + |value|][at + k] == Fold(value)[at + k];
        assert word[k] == value[at..at + |word|][k] == value[at + k];
      }
      assert MatchesAt(actual, word, j);
    }

    lemma {:induction false} AllWordsMentioned(values: seq<string>, row: Row, word: string)
      requires (forall v :: v in values ==> Mentions(row, v)) && word in AllWords(values)
      ensures Mentions(row, word)
      decreases |values|
    {
      if word in alphabet.Words(values[0]) {
        var at := WordsAreParts(values[0], word);
        assert values[0] in values;
        if Contains(row.displayName, values[0]) {
          PartsAreContained(row.displayName, values[0], word, at);
        } else {
          PartsAreContained(row.deviceId, values[0], word, at);
        }
      } else {
        AllWordsMentioned(values[1..], row, word);
      }
    }

    lemma {:induction false} PlainWordsAreAll(values: seq<string>)
      requires Lawful() && forall v :: v in values ==> v != "" && alphabet.AllWord(v)
      ensures AllWords(values) == values
    {
      if values != [] {
        assert values[0] in values;
        alphabet.OneWord(values[0]);
        assert forall v :: v in values[1..] ==> v in values;
        PlainWordsAreAll(values[1..]);
      }
    }

    /** Reading a query into the editor as intended and creating it again never loses a row, and
        changes nothing when every searched value is a plain word. */
    lemma IntendedRoundTrip(e: Expr) returns (values: seq<string>, facet: Option<string>)
      requires Lawful() && Read(e, START, true).0
      ensures Found(START, Read(e, START, true).1, values, facet) && SaysOnly(e, values, facet)
      ensures (forall v :: v in values ==> '"' !in v) ==>
        forall row :: Eval(e, row) ==> Accepts(Recreated(e, true), row)
      ensures (forall v :: v in values ==> alphabet.AllWord(v)) ==>
        forall row :: Eval(e, row) <==> Accepts(Recreated(e, true), row)
    {
      hide Read, Created, Mentions, FacetHolds, AllWords, Facet, Capitalized;
      values, facet := ReadFinds(e, START);
      forall row | forall v :: v in values ==> '"' !in v ensures Eval(e, row) ==> Accepts(Recreated(e, true), row) {
        RecreatedMeans(values, facet, row);
        if Eval(e, row) {
          forall word | word in AllWords(values) ensures Mentions(row, word) {
            AllWordsMentioned(values, row, word);
          }
        }
      }
      forall row | forall v :: v in values ==> alphabet.AllWord(v) ensures Eval(e, row) <==> Accepts(Recreated(e, true), row) {
        forall v | v in values ensures '"' !in v {
          alphabet.WordIsPlain(v);
        }
        RecreatedMeans(values, facet, row);
        PlainWordsAreAll(values);
      }
    }

    /** The query created from what the editor shows of `e`. */
    function Recreated(e: Expr, intended: bool): Option<Expr> {
      var scope := Read(e, START, intended).1;
      Created(Some(scope.searchText), Some(scope.freshness))
    }

    lemma RecreatedMeans(values: seq<string>, facet: Option<string>, row: Row)
      requires Lawful() && forall v :: v in values ==> v != "" && '"' !in v
      requires facet.Some? ==> IsKnownFacet(facet.value)
      ensures var shown := if facet.None? then "All" else Capitalized(facet.value);
              Accepts(Created(Some(Joined("", values)), Some(shown)), row) <==>
              (forall word :: word in AllWords(values) ==> Mentions(row, word)) && FacetHolds(facet, row)
    {
      hide Created, Mentions, FacetHolds, Facet, Capitalized;
      var shown := if facet.None? then "All" else Capitalized(facet.value);
      FacetComesBack(facet);
      JoinedTerms("", values);
      assert alphabet.Words("") + AllWords(values) == AllWords(values);
      CreatedMeans(Some(Joined("", values)), Some(shown), row);
    }

    lemma {:induction false} ReadTerms(terms: seq<string>, rest: seq<Expr>, s: Scope)
      requires forall t :: t in terms ==> t != ""
      ensures ReadAll(TermExprs(terms) + rest, s, true) ==
              ReadAll(rest, s.(searchText := Joined(s.searchText, terms)), true)
      decreases |terms|
    {
      if terms == [] {
        assert TermExprs(terms) + rest == rest;
      } else {
        var es := TermExprs(terms) + rest;
        assert terms[0] in terms && forall t :: t in terms[1..] ==> t in terms;
        assert es[0] == TermExpr(terms[0]) && es[1..] == TermExprs(terms[1..]) + rest;
        ReadTerm(terms[0], s);
        ReadTerms(terms[1..], rest, s.(searchText := Extend(s.searchText, terms[0])));
      }
    }

    lemma ReadTerm(term: string, s: Scope)
      requires term != ""
      ensures Read(TermExpr(term), s, true) == (true, s.(searchText := Extend(s.searchText, term)))
    {
      var es := TermExpr(term).expressions;
      assert OrFits(es, true);
    }

    lemma ShapeReads(es: seq<Expr>, s: Scope)
      ensures Shape(es).Some? ==> Read(Shape(es).value, s, true) == ReadAll(es, s, true)
      ensures Shape(es).None? ==> ReadAll(es, s, true) == (true, s)
    {
      if |es| == 1 {
        assert es[1..] == [];
      }
    }

    /** What Create wrote, the intended reader reads back, for the four known facets or none; and
        the query created again from the editor accepts every row the first one did, and no other
        when all terms are plain words. */
    lemma CreatedRoundTrip(searchText: string, freshness: Option<string>)
      requires Lawful()
      ensures var e := Created(Some(searchText), freshness);
              var (ok, scope) := Project(e, true);
              && (ok <==> Facet(freshness).Some? ==> IsKnownFacet(Facet(freshness).value))
              && (ok ==> forall row :: Accepts(e, row) ==> Accepts(Created(Some(scope.searchText), Some(scope.freshness)), row))
              && (ok && (forall t :: t in alphabet.Terms(searchText) ==> alphabet.AllWord(t)) ==>
                    forall row :: Accepts(e, row) <==> Accepts(Created(Some(scope.searchText), Some(scope.freshness)), row))
    {
      hide Created, Read, ReadAll, Mentions, FacetHolds, Facet, Capitalized, AllWords, alphabet.Terms;
      var terms, facet := alphabet.Terms(searchText), Facet(freshness);
      var e := Created(Some(searchText), freshness);
      CreatedReads(searchText, freshness);
      alphabet.TermsMeans(searchText);
      if facet.Some? ==> IsKnownFacet(facet.value) {
        var shown := if facet.None? then "All" else Capitalized(facet.value);
        forall row ensures Accepts(e, row) ==> Accepts(Created(Some(Joined("", terms)), Some(shown)), row) {
          CreatedMeans(Some(searchText), freshness, row);
          RecreatedMeans(terms, facet, row);
          if Accepts(e, row) {
            forall word | word in AllWords(terms) ensures Mentions(row, word) {
              AllWordsMentioned(terms, row, word);
            }
          }
        }
        if forall t :: t in terms ==> alphabet.AllWord(t) {
          PlainWordsAreAll(terms);
          forall row ensures Accepts(e, row) <==> Accepts(Created(Some(Joined("", terms)), Some(shown)), row) {
            CreatedMeans(Some(searchText), freshness, row);
            RecreatedMeans(terms, facet, row);
          }
        }
      }
    }

    lemma CreatedReads(searchText: string, freshness: Option<string>)
      requires Lawful()
      ensures var facet := Facet(freshness);
              var known := facet.Some? ==> IsKnownFacet(facet.value);
              var (ok, scope) := Project(Created(Some(searchText), freshness), true);
              && (ok <==> known)
              && (ok ==> scope == Scope(Joined("", alphabet.Terms(searchText)),
                                        if facet.None? then "All" else Capitalized(facet.value)))
    {
      hide alphabet.Terms, Facet, Capitalized, TermExprs;
      var terms, facet := alphabet.Terms(searchText), Facet(freshness);
      alphabet.TermsMeans(searchText);
      ShapeReads(TermExprs(terms) + FacetExpr(facet), START);
      ReadTerms(terms, FacetExpr(facet), START);
      FacetReads(facet, START.(searchText := Joined("", terms)));
    }

    lemma FacetReads(facet: Option<string>, s: Scope)
      requires s.freshness == "All"
      ensures var (ok, after) := ReadAll(FacetExpr(facet), s, true);
              && (ok <==> facet.Some? ==> IsKnownFacet(facet.value))
              && (ok ==> after == s.(freshness := if facet.None? then "All" else Capitalized(facet.value)))
    {
      if facet.Some? {
        assert FacetExpr(facet)[1..] == [];
      }
    }

    // ---------------------------------------------------------------- what the reader as written keeps

    /** No alternative anywhere in what the reader visits. */
    predicate NoOr(e: Expr) {
      match e
      case And(es) => forall i :: 0 <= i < |es| ==> NoOr(es[i])
      case Or(_) => false
      case _ => true
    }

    /** No alternative names the freshness field. */
    predicate NoFreshnessOr(e: Expr) {
      match e
      case And(es) => forall i :: 0 <= i < |es| ==> NoFreshnessOr(es[i])
      case Or(es) => forall i :: 0 <= i < |es| ==> es[i].Predicate? && es[i].field != "freshness"
      case _ => true
    }

    /** The two readers differ on alternatives only. */
    lemma {:induction false} ReadersAgree(e: Expr, s: Scope)
      requires NoOr(e)
      ensures Read(e, s, false) == Read(e, s, true)
      decreases e, 0
    {
      if e.And? {
        ReadersAgreeAll(e.expressions, s);
      }
    }

    lemma {:induction false} ReadersAgreeAll(es: seq<Expr>, s: Scope)
      requires forall i :: 0 <= i < |es| ==> NoOr(es[i])
      ensures ReadAll(es, s, false) == ReadAll(es, s, true)
      decreases es, |es|
    {
      if es != [] {
        ReadersAgree(es[0], s);
        ReadersAgreeAll(es[1..], Read(es[0], s, true).1);
      }
    }

    /** Without alternatives there is nothing to search for. */
    lemma {:induction false} NoOrNoText(e: Expr, s: Scope, intended: bool)
      requires NoOr(e)
      ensures Read(e, s, intended).1.searchText == s.searchText
      decreases e, 0
    {
      if e.And? {
        NoOrNoTextAll(e.expressions, s, intended);
      }
    }

    lemma {:induction false} NoOrNoTextAll(es: seq<Expr>, s: Scope, intended: bool)
      requires forall i :: 0 <= i < |es| ==> NoOr(es[i])
      ensures ReadAll(es, s, intended).1.searchText == s.searchText
      decreases es, |es|
    {
      if es != [] {
        NoOrNoText(es[0], s, intended);
        NoOrNoTextAll(es[1..], Read(es[0], s, intended).1, intended);
      }
    }

    /** As written, every accepted tree without an alternative comes back with its exact meaning. */
    lemma WrittenExactWithoutOr(e: Expr, row: Row)
      requires Lawful() && Read(e, START, false).0 && NoOr(e)
      ensures Eval(e, row) <==> Accepts(Recreated(e, false), row)
    {
      hide Read, Created, NoOr;
      ReadersAgree(e, START);
      NoOrNoText(e, START, true);
      var values, facet := IntendedRoundTrip(e);
      JoinedNothing("", values);
    }

    lemma JoinedNothing(searchText: string, values: seq<string>)
      requires forall v :: v in values ==> v != ""
      ensures Joined(searchText, values) == searchText ==> values == []
    {
      JoinedGrows(searchText, values);
    }

    lemma {:induction false} JoinedGrows(searchText: string, values: seq<string>)
      requires forall v :: v in values ==> v != ""
      ensures |Joined(searchText, values)| >= |searchText| + |values|
      decreases |values|
    {
      if values != [] {
        assert values[0] in values && forall v :: v in values[1..] ==> v in values;
        JoinedGrows(Extend(searchText, values[0]), values[1..]);
      }
    }

    ghost predicate SaysAtLeast(e: Expr, values: seq<string>, facet: Option<string>) {
      forall row :: Eval(e, row) ==> (forall v :: v in values ==> Mentions(row, v)) && FacetHolds(facet, row)
    }

    /** A tree accepted as written, none of whose alternatives names the freshness, says at least
        what the reader found. */
    lemma {:induction false} WrittenFinds(e: Expr, s: Scope) returns (values: seq<string>, facet: Option<string>)
      requires Read(e, s, false).0 && NoFreshnessOr(e)
      ensures Found(s, Read(e, s, false).1, values, facet) && SaysAtLeast(e, values, facet)
      decreases e, 0
    {
      match e
      case And(es) =>
        values, facet := WrittenAllFinds(es, s);
      case Predicate(field, comparison, value) =>
        values, facet := [], value;
      case Or(es) =>
        values, facet := [es[0].value.value], None;
        forall row | Eval(e, row) ensures Mentions(row, values[0]) {
          NameOrIdOnly(es, row);
        }
    }

    lemma NameOrIdOnly(es: seq<Expr>, row: Row)
      requires OrFits(es, false) && NoFreshnessOr(Or(es)) && Eval(Or(es), row)
      ensures Mentions(row, es[0].value.value)
    {
      hide Contains;
      assert Eval(es[0], row) || Eval(es[1], row);
    }

    lemma {:induction false} WrittenAllFinds(es: seq<Expr>, s: Scope) returns (values: seq<string>, facet: Option<string>)
      requires ReadAll(es, s, false).0 && forall i :: 0 <= i < |es| ==> NoFreshnessOr(es[i])
      ensures Found(s, ReadAll(es, s, false).1, values, facet) && SaysAtLeast(And(es), values, facet)
      decreases es, |es|
    {
      if es == [] {
        values, facet := [], None;
      } else {
        var next := Read(es[0], s, false).1;
        var first, one := WrittenFinds(es[0], s);
        var more, other := WrittenAllFinds(es[1..], next);
        values, facet := first + more, if one.Some? then one else other;
        JoinedConcat(s.searchText, first, more);
        forall row | Eval(And(es), row)
          ensures (forall v :: v in values ==> Mentions(row, v)) && FacetHolds(facet, row)
        {
          AndMeans(es, row);
          assert forall v :: v in values <==> v in first || v in more;
        }
      }
    }

    /** As written, no row is lost by any accepted tree, of any shape, whose alternatives look into
        other fields than the freshness for values without quotes. */
    lemma WrittenKeepsRows(e: Expr) returns (values: seq<string>, facet: Option<string>)
      requires Lawful() && Read(e, START, false).0 && NoFreshnessOr(e)
      ensures Found(START, Read(e, START, false).1, values, facet)
      ensures (forall v :: v in values ==> '"' !in v) ==>
        forall row :: Eval(e, row) ==> Accepts(Recreated(e, false), row)
    {
      hide Read, Created, Mentions, FacetHolds, AllWords, Facet, Capitalized;
      values, facet := WrittenFinds(e, START);
      forall row | forall v :: v in values ==> '"' !in v ensures Eval(e, row) ==> Accepts(Recreated(e, false), row) {
        RecreatedMeans(values, facet, row);
        if Eval(e, row) {
          forall word | word in AllWords(values) ensures Mentions(row, word) {
            AllWordsMentioned(values, row, word);
          }
        }
      }
    }

    /** An alternative of two fields over one value. */
    function Pair(one: string, other: string, value: string): Expr {
      Or([Predicate(one, "contains", Some(value)), Predicate(other, "contains", Some(value))])
    }

    /** When the pair comes back with fewer rows: it looks into the freshness for a value with terms,
        or it looks into name or id for a value that does not contain all of its own terms. */
    predicate PairLoses(one: string, other: string, value: string) {
      var terms := alphabet.Terms(value);
      || ("freshness" in {one, other} && terms != [])
      || (({one, other} * {"display_name", "device_id"} != {}) && exists i :: 0 <= i < |terms| && !Contains(value, terms[i]))
    }

    lemma PairMeans(one: string, other: string, value: string, row: Row)
      ensures Eval(Pair(one, other, value), row) <==>
              || ("display_name" in {one, other} && Contains(row.displayName, value))
              || ("device_id" in {one, other} && Contains(row.deviceId, value))
              || ("freshness" in {one, other} && Contains(row.freshness, value))
    {
      hide Contains;
      var es := Pair(one, other, value).expressions;
      assert Eval(Pair(one, other, value), row) <==> Eval(es[0], row) || Eval(es[1], row);
      FieldNames();
    }

    lemma FieldNames()
      ensures "display_name" != "device_id" && "device_id" != "freshness" && "display_name" != "freshness"
    {
      assert |"display_name"| == 12;
      assert "device_id"[0] != "freshness"[0];
    }

    /** What the pair comes back as. */
    lemma PairRecreated(one: string, other: string, value: string, row: Row)
      requires Lawful() && OrFits(Pair(one, other, value).expressions, false)
      ensures Accepts(Recreated(Pair(one, other, value), false), row) <==>
              forall i :: 0 <= i < |alphabet.Terms(value)| ==> Mentions(row, alphabet.Terms(value)[i])
    {
      hide Created, Mentions, Facet, alphabet.Terms;
      assert Read(Pair(one, other, value), START, false) == (true, Scope(value, "All"));
      CreatedMeans(Some(value), Some("All"), row);
      FacetComesBack(None);
    }

    /** For every accepted pair of fields and every value: a row is lost if and only if the pair
        loses in that sense. */
    lemma WrittenPairLosesIff(one: string, other: string, value: string)
      requires Lawful() && OrFits(Pair(one, other, value).expressions, false)
      ensures (exists row :: Eval(Pair(one, other, value), row) && !Accepts(Recreated(Pair(one, other, value), false), row)) <==>
              PairLoses(one, other, value)
    {
      hide Recreated, OrFits, Contains, Read, Mentions;
      if PairLoses(one, other, value) {
        var row := PairLosesRow(one, other, value);
        assert Eval(Pair(one, other, value), row) && !Accepts(Recreated(Pair(one, other, value), false), row);
      } else {
        forall row | Eval(Pair(one, other, value), row) ensures Accepts(Recreated(Pair(one, other, value), false), row) {
          PairKeepsRow(one, other, value, row);
        }
      }
    }

    lemma PairLosesRow(one: string, other: string, value: string) returns (row: Row)
      requires Lawful() && OrFits(Pair(one, other, value).expressions, false) && PairLoses(one, other, value)
      ensures Eval(Pair(one, other, value), row) && !Accepts(Recreated(Pair(one, other, value), false), row)
    {
      hide Recreated, OrFits, Eval, Contains, alphabet.Terms;
      var terms := alphabet.Terms(value);
      alphabet.TermsMeans(value);
      ContainsItself(value);
      if "freshness" in {one, other} && terms != [] {
        row := Row("", "", value);
        assert terms[0] in terms;
        NothingInEmpty(terms[0]);
      } else {
        var i :| 0 <= i < |terms| && !Contains(value, terms[i]);
        assert terms[i] in terms;
        NothingInEmpty(terms[i]);
        row := if "display_name" in {one, other} then Row(value, "", "") else Row("", value, "");
      }
      PairMeans(one, other, value, row);
      PairRecreated(one, other, value, row);
    }

    lemma NothingInEmpty(text: string)
      requires text != ""
      ensures !Contains("", text)
    {
    }

    lemma PairKeepsRow(one: string, other: string, value: string, row: Row)
      requires Lawful() && OrFits(Pair(one, other, value).expressions, false)
      requires !PairLoses(one, other, value) && Eval(Pair(one, other, value), row)
      ensures Accepts(Recreated(Pair(one, other, value), false), row)
    {
      hide Recreated, OrFits, Eval, Contains, alphabet.Terms;
      var terms := alphabet.Terms(value);
      PairMeans(one, other, value, row);
      PairRecreated(one, other, value, row);
      forall i | 0 <= i < |terms| ensures Mentions(row, terms[i]) {
        if "display_name" in {one, other} && Contains(row.displayName, value) {
          assert "display_name" in {one, other} * {"display_name", "device_id"};
          ContainsThrough(row.displayName, value, terms[i]);
        } else {
          assert "device_id" in {one, other} * {"display_name", "device_id"};
          ContainsThrough(row.deviceId, value, terms[i]);
        }
      }
    }

    lemma ContainsThrough(actual: string, value: string, term: string)
      requires Contains(actual, value) && Contains(value, term)
      ensures Contains(actual, term)
    {
      var i :| 0 <= i <= |actual| - |value| && MatchesAt(actual, value, i);
      var k :| 0 <= k <= |value| - |term| && MatchesAt(value, term, k);
      hide Fold;
      SliceOfSlice(Fold(actual), i, |value|, k, |term|);
      assert MatchesAt(actual, term, i + k);
    }

    lemma SliceOfSlice(s: string, i: nat, n: nat, k: nat, m: nat)
      requires k + m <= n && i + n <= |s|
      ensures s[i..i + n][k..k + m] == s[i + k..i + k + m]
    {
      var outer, part := s[i..i + n], s[i + k..i + k + m];
      assert forall j :: 0 <= j < m ==> outer[k..k + m][j] == outer[k + j] == s[i + k + j] == part[j];
    }

    /** Over values without quotes that is: the freshness is searched for a value with a word. */
    lemma QuoteFreePairLosesIff(one: string, other: string, value: string)
      requires Lawful() && '"' !in value
      ensures PairLoses(one, other, value) <==> "freshness" in {one, other} && !alphabet.NoWord(value)
    {
      PlainTerms(value);
      alphabet.WordsEmptyIff(value);
      forall i | 0 <= i < |alphabet.Words(value)| ensures Contains(value, alphabet.Words(value)[i]) {
        var at := WordsAreParts(value, alphabet.Words(value)[i]);
        ContainsItself(value);
        PartsAreContained(value, value, alphabet.Words(value)[i], at);
      }
    }
  }

  /** The simple editor's text box and facet choice. */
  datatype Scope = Scope(searchText: string, freshness: string)
}
