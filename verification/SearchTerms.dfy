/** The search box: a quote-aware tokenizer, and the printing it undoes. Characters are classified
    abstractly, as letters and digits, white space, and everything else. */
module SearchTerms {
  import opened Basics
  import opened Paths

  datatype Alphabet = Alphabet(isWord: char -> bool, isSpace: char -> bool)
  {
    ghost predicate Lawful() {
      && isSpace(' ') && !isSpace('"') && !isWord('"')
      && forall c :: !(isWord(c) && isSpace(c))
    }

    predicate AllWord(text: string) { forall i :: 0 <= i < |text| ==> isWord(text[i]) }

    // ---------------------------------------------------------------- bare text: runs of word characters

    /** The separator pattern splits at every maximal run of other characters; empty pieces drop. */
    function Words(text: string): (words: seq<string>)
      ensures forall w :: w in words ==> w != "" && AllWord(w) && forall c :: c in w ==> c in text
      decreases |text|
    {
      if text == "" then []
      else if !isWord(text[0]) then Words(text[1..])
      else
        var n := RunLength(text);
        [text[..n]] + Words(text[n..])
    }

    function RunLength(text: string): (n: nat)
      ensures n <= |text| && (text != "" && isWord(text[0]) ==> n > 0)
      ensures forall i :: 0 <= i < n ==> isWord(text[i])
      ensures n < |text| ==> !isWord(text[n])
    {
      if text == "" || !isWord(text[0]) then 0 else 1 + RunLength(text[1..])
    }

    // ---------------------------------------------------------------- quoted text: one phrase

    /** Replaces every maximal run of white space by one space. */
    function Collapse(text: string): string {
      if text == "" then ""
      else if !isSpace(text[0]) then [text[0]] + Collapse(text[1..])
      else if |text| > 1 && isSpace(text[1]) then Collapse(text[1..])
      else " " + Collapse(text[1..])
    }

    function TrimStart(text: string): string {
      if text != "" && isSpace(text[0]) then TrimStart(text[1..]) else text
    }

    function TrimEnd(text: string): string {
      if text != "" && isSpace(text[|text| - 1]) then TrimEnd(text[..|text| - 1]) else text
    }

    function Phrase(text: string): string { TrimEnd(TrimStart(Collapse(text))) }

    // ---------------------------------------------------------------- the tokenizer

    function Flush(token: string, quoted: bool): seq<string> {
      if !quoted then Words(token)
      else if Phrase(token) == "" then [] else [Phrase(token)]
    }

    /** The terms, read off the text split at its quotes: every second part is quoted, and a missing
        closing quote changes nothing. */
    function TermsOf(parts: seq<string>, quoted: bool): seq<string> {
      if parts == [] then [] else Flush(parts[0], quoted) + TermsOf(parts[1..], !quoted)
    }

    function Terms(text: string): seq<string> { TermsOf(Split(text, '"'), false) }

    /** What is left to tokenize: the buffered token belongs to the first remaining part. */
    function Remaining(token: string, text: string, quoted: bool): seq<string> {
      var parts := Split(text, '"');
      TermsOf([token + parts[0]] + parts[1..], quoted)
    }

    lemma RemainingStep(token: string, text: string, quoted: bool)
      requires text != ""
      ensures Remaining(token, text, quoted) ==
              if text[0] == '"' then Flush(token, quoted) + Remaining("", text[1..], !quoted)
              else Remaining(token + [text[0]], text[1..], quoted)
    {
      var rest := Split(text[1..], '"');
      if text[0] == '"' {
        assert token + "" == token && "" + rest[0] == rest[0];
        assert [token + ""] + rest == [token] + rest && [token] + rest == [token + Split(text, '"')[0]] + Split(text, '"')[1..];
        assert ([token] + rest)[1..] == rest == ["" + rest[0]] + rest[1..];
      } else {
        assert token + ([text[0]] + rest[0]) == token + [text[0]] + rest[0];
        assert Split(text, '"')[1..] == rest[1..];
      }
    }

    lemma RemainingEnds(token: string, text: string, quoted: bool)
      ensures Remaining("", text, false) == Terms(text)
      ensures Remaining(token, "", quoted) == Flush(token, quoted)
    {
      var parts := Split(text, '"');
      assert "" + parts[0] == parts[0] && ["" + parts[0]] + parts[1..] == parts;
      LastPart(token, quoted);
    }

    lemma LastPart(token: string, quoted: bool)
      ensures Remaining(token, "", quoted) == Flush(token, quoted)
    {
      hide Flush;
      var parts: seq<string> := [token];
      assert Split("", '"') == [""];
      assert [token + ""] + [""][1..] == parts by { assert token + "" == token; }
      assert parts[1..] == [];
      assert TermsOf(parts, quoted) == Flush(token, quoted) + [];
    }

    method ParseSearchTerms(searchText: Option<string>) returns (terms: seq<string>)
      ensures terms == Terms(if searchText.None? then "" else searchText.value)
    {
      hide Remaining, Flush, Terms;
      var text := if searchText.None? then "" else searchText.value;
      terms := [];
      var token, quoted := "", false;
      RemainingEnds("", text, false);
      assert text[0..] == text;
      for i := 0 to |text|
        invariant terms + Remaining(token, text[i..], quoted) == Terms(text)
      {
        RemainingStep(token, text[i..], quoted);
        assert text[i..][1..] == text[i + 1..];
        if text[i] == '"' {
          terms := terms + Flush(token, quoted);
          token, quoted := "", !quoted;
        } else {
          token := token + [text[i]];
        }
      }
      RemainingEnds(token, text, quoted);
      terms := terms + Flush(token, quoted);
    }

    // ---------------------------------------------------------------- what the terms are

    /** White space only as single spaces between other characters. */
    ghost predicate Normal(text: string) {
      && (forall i :: 0 <= i < |text| && isSpace(text[i]) ==> text[i] == ' ' && 0 < i < |text| - 1)
      && (forall i :: 0 < i < |text| ==> !(isSpace(text[i - 1]) && isSpace(text[i])))
    }

    /** Single spaces between other characters, whatever stands at the ends. */
    ghost predicate Single(text: string) {
      && (forall i :: 0 <= i < |text| && isSpace(text[i]) ==> text[i] == ' ')
      && (forall i :: 0 < i < |text| ==> !(isSpace(text[i - 1]) && isSpace(text[i])))
    }

    /** Collapsing leaves single spaces, and only characters of the text or spaces. */
    lemma {:induction false} Collapsed(text: string)
      requires Lawful()
      ensures Single(Collapse(text)) && forall x :: x in Collapse(text) ==> x in text || x == ' '
      ensures Collapse(text) != "" && isSpace(Collapse(text)[0]) <==> text != "" && isSpace(text[0])
      ensures Collapse(text) == "" <==> text == ""
    {
      if text != "" {
        Collapsed(text[1..]);
      }
    }

    lemma {:induction false} TrimmedStart(text: string)
      ensures var t := TrimStart(text);
              |t| <= |text| && t == text[|text| - |t|..] && (t != "" ==> !isSpace(t[0]))
    {
      if text != "" && isSpace(text[0]) {
        TrimmedStart(text[1..]);
      }
    }

    lemma {:induction false} TrimmedEnd(text: string)
      ensures var t := TrimEnd(text);
              |t| <= |text| && t == text[..|t|] && (t != "" ==> !isSpace(t[|t| - 1]))
    {
      if text != "" && isSpace(text[|text| - 1]) {
        TrimmedEnd(text[..|text| - 1]);
      }
    }

    lemma SliceStaysSingle(text: string, lo: nat, slice: string)
      requires Single(text) && lo + |slice| <= |text| && slice == text[lo..lo + |slice|]
      ensures Single(slice) && forall x :: x in slice ==> x in text
    {
      assert forall i :: 0 <= i < |slice| ==> slice[i] == text[lo + i];
      forall i | 0 < i < |slice| ensures !(isSpace(slice[i - 1]) && isSpace(slice[i])) {
        assert !(isSpace(text[lo + i - 1]) && isSpace(text[lo + i]));
      }
    }

    lemma PhraseIsNormal(text: string)
      requires Lawful()
      ensures Normal(Phrase(text)) && forall x :: x in Phrase(text) ==> x in text || x == ' '
    {
      hide Single, Collapse, TrimStart, TrimEnd;
      var c := Collapse(text);
      var s := TrimStart(c);
      var p := TrimEnd(s);
      Collapsed(text);
      TrimmedStart(c);
      SliceStaysSingle(c, |c| - |s|, s);
      TrimmedEnd(s);
      SliceStaysSingle(s, 0, p);
      assert p != "" ==> p[0] == s[0];
      SingleIsNormal(p);
    }

    lemma SingleIsNormal(text: string)
      requires Single(text) && (text != "" ==> !isSpace(text[0]) && !isSpace(text[|text| - 1]))
      ensures Normal(text)
    {
    }

    /** A normalized phrase is left alone, so normalizing twice is normalizing once. */
    lemma NormalIsPhrase(text: string)
      requires Normal(text)
      ensures Phrase(text) == text
    {
      NormalCollapses(text);
    }

    lemma {:induction false} NormalCollapses(text: string)
      requires Single(text)
      ensures Collapse(text) == text
    {
      if text != "" {
        var rest := text[1..];
        assert forall i :: 0 < i < |rest| ==> rest[i - 1] == text[i] && rest[i] == text[i + 1];
        NormalCollapses(rest);
        assert [text[0]] + rest == text;
        assert |text| > 1 ==> !(isSpace(text[0]) && isSpace(text[1]));
      }
    }

    /** Every parsed term is nonempty, carries no quote, and is a word or a normalized phrase. */
    lemma TermsMeans(text: string)
      requires Lawful()
      ensures forall t :: t in Terms(text) ==> t != "" && '"' !in t && (AllWord(t) || Normal(t))
    {
      TermsOfMeans(Split(text, '"'), false);
    }

    lemma {:induction false} TermsOfMeans(parts: seq<string>, quoted: bool)
      requires Lawful() && forall i :: 0 <= i < |parts| ==> '"' !in parts[i]
      ensures forall t :: t in TermsOf(parts, quoted) ==> t != "" && '"' !in t && (AllWord(t) || Normal(t))
    {
      if parts != [] {
        PhraseIsNormal(parts[0]);
        TermsOfMeans(parts[1..], !quoted);
      }
    }

    /** Separators alone yield nothing: no terms exactly when every bare part has no word character
        and every quoted part is white space. */
    lemma {:induction false} NoTermsIff(parts: seq<string>, quoted: bool)
      requires Lawful()
      ensures TermsOf(parts, quoted) == [] <==>
              forall i :: 0 <= i < |parts| ==>
                if quoted == (i % 2 == 0) then IsWhite(parts[i]) else NoWord(parts[i])
    {
      if parts != [] {
        FlushEmptyIff(parts[0], quoted);
        NoTermsIff(parts[1..], !quoted);
        assert forall i :: 0 <= i < |parts| - 1 ==> parts[1..][i] == parts[i + 1] && (i % 2 == 0 <==> (i + 1) % 2 != 0);
      }
    }

    predicate IsWhite(text: string) { forall i :: 0 <= i < |text| ==> isSpace(text[i]) }

    predicate NoWord(text: string) { forall i :: 0 <= i < |text| ==> !isWord(text[i]) }

    lemma FlushEmptyIff(token: string, quoted: bool)
      requires Lawful()
      ensures Flush(token, quoted) == [] <==> if quoted then IsWhite(token) else NoWord(token)
    {
      if quoted {
        PhraseEmptyIff(token);
      } else {
        WordsEmptyIff(token);
      }
    }

    lemma {:induction false} WordsEmptyIff(text: string)
      ensures Words(text) == [] <==> NoWord(text)
    {
      if text != "" && !isWord(text[0]) {
        WordsEmptyIff(text[1..]);
        assert NoWord(text[1..]) ==> NoWord(text);
      }
    }

    lemma PhraseEmptyIff(text: string)
      requires Lawful()
      ensures Phrase(text) == "" <==> IsWhite(text)
    {
      CollapseWhite(text);
      StartWhite(Collapse(text));
      EndWhite(TrimStart(Collapse(text)));
      TrimmedStart(Collapse(text));
    }

    lemma {:induction false} CollapseWhite(text: string)
      requires Lawful()
      ensures IsWhite(Collapse(text)) <==> IsWhite(text)
      decreases |text|
    {
      if text != "" {
        CollapseWhite(text[1..]);
        Collapsed(text);
        ConsWhite(text);
        ConsWhite(Collapse(text));
      }
    }

    lemma ConsWhite(text: string)
      requires text != ""
      ensures IsWhite(text) <==> isSpace(text[0]) && IsWhite(text[1..])
    {
      assert forall i :: 0 < i < |text| ==> text[i] == text[1..][i - 1];
    }

    lemma {:induction false} StartWhite(text: string)
      ensures TrimStart(text) == "" <==> IsWhite(text)
    {
      if text != "" && isSpace(text[0]) {
        StartWhite(text[1..]);
        assert IsWhite(text[1..]) ==> IsWhite(text);
      }
    }

    lemma {:induction false} EndWhite(text: string)
      ensures TrimEnd(text) == "" <==> IsWhite(text)
    {
      if text != "" && isSpace(text[|text| - 1]) {
        EndWhite(text[..|text| - 1]);
        assert IsWhite(text[..|text| - 1]) ==> IsWhite(text);
      }
    }

    // ---------------------------------------------------------------- printing

    predicate IsTerm(term: Term) {
      match term
      case Word(text) => text != "" && AllWord(text)
      case Quoted(text) => text != "" && '"' !in text && Phrase(text) == text
    }

    function PrintTerm(term: Term): string {
      match term
      case Word(text) => text
      case Quoted(text) => "\"" + text + "\""
    }

    function Print(terms: seq<Term>): string {
      if terms == [] then ""
      else PrintTerm(terms[0]) + (if |terms| == 1 then "" else " " + Print(terms[1..]))
    }

    function Texts(terms: seq<Term>): seq<string> { seq(|terms|, i requires 0 <= i < |terms| => terms[i].text) }

    /** Words end where a separator stands. */
    lemma {:induction false} WordsConcat(a: string, b: string)
      requires a == "" || b == "" || !isWord(a[|a| - 1]) || !isWord(b[0])
      ensures Words(a + b) == Words(a) + Words(b)
      decreases |a|
    {
      if a == "" {
        assert a + b == b;
      } else if !isWord(a[0]) {
        assert (a + b)[1..] == a[1..] + b;
        WordsConcat(a[1..], b);
      } else {
        var n := RunLength(a);
        RunWithin(a, b);
        assert (a + b)[..n] == a[..n] && (a + b)[n..] == a[n..] + b;
        WordsConcat(a[n..], b);
      }
    }

    lemma {:induction false} RunWithin(a: string, b: string)
      requires a != "" && (b == "" || !isWord(a[|a| - 1]) || !isWord(b[0]))
      ensures RunLength(a + b) == RunLength(a)
      decreases |a|
    {
      if isWord(a[0]) {
        assert (a + b)[1..] == a[1..] + b;
        if |a| > 1 {
          RunWithin(a[1..], b);
        }
      }
    }

    lemma {:induction false} RunAll(word: string)
      requires AllWord(word)
      ensures RunLength(word) == |word|
    {
      if word != "" {
        RunAll(word[1..]);
      }
    }

    lemma OneWord(word: string)
      requires Lawful() && word != "" && AllWord(word)
      ensures Words(word) == [word] && Words(word + " ") == [word]
    {
      RunAll(word);
      assert word[..|word|] == word && word[|word|..] == "";
      var spaced := word + " ";
      assert forall i :: 0 <= i < |word| ==> spaced[i] == word[i];
      assert !isWord(' ') && spaced[|word|] == ' ';
      assert RunLength(spaced) == |word|;
      assert spaced[..|word|] == word && spaced[|word|..] == " ";
      NoWords();
    }

    lemma NoWords()
      requires Lawful()
      ensures Words(" ") == [] && Words("") == []
    {
      assert " "[1..] == "";
    }

    /** Characters other than quotes only grow the token. */
    lemma {:induction false} RemainingPlain(token: string, plain: string, text: string, quoted: bool)
      requires '"' !in plain
      ensures Remaining(token, plain + text, quoted) == Remaining(token + plain, text, quoted)
      decreases |plain|
    {
      hide Remaining;
      if plain == "" {
        assert plain + text == text && token + plain == token;
      } else {
        RemainingStep(token, plain + text, quoted);
        assert (plain + text)[1..] == plain[1..] + text;
        RemainingPlain(token + [plain[0]], plain[1..], text, quoted);
        assert token + [plain[0]] + plain[1..] == token + plain;
      }
    }

    /** A token that the next word cannot run into. */
    predicate Settled(token: string) { token == "" || !isWord(token[|token| - 1]) }

    lemma QuotedReadsBack(token: string, phrase: string, rest: string)
      requires IsTerm(Quoted(phrase))
      ensures Remaining(token, "\"" + phrase + "\"" + rest, false) == Words(token) + [phrase] + Remaining("", rest, false)
    {
      hide Remaining, Phrase;
      var text := "\"" + phrase + "\"" + rest;
      RemainingStep(token, text, false);
      assert text[1..] == phrase + ("\"" + rest);
      RemainingPlain("", phrase, "\"" + rest, true);
      assert "" + phrase == phrase;
      RemainingStep(phrase, "\"" + rest, true);
      assert ("\"" + rest)[1..] == rest;
      assert Words(token) + ([phrase] + Remaining("", rest, false)) == Words(token) + [phrase] + Remaining("", rest, false);
    }

    lemma WordIsPlain(word: string)
      requires Lawful() && AllWord(word)
      ensures '"' !in word
    {
    }

    lemma PrintFirst(terms: seq<Term>)
      requires terms != []
      ensures Print(terms) == PrintTerm(terms[0]) + (if |terms| == 1 then "" else " " + Print(terms[1..]))
    {
      hide PrintTerm;
    }

    lemma TextsFirst(terms: seq<Term>)
      requires terms != []
      ensures Texts(terms) == [terms[0].text] + Texts(terms[1..])
    {
    }

    lemma PrintNothing()
      ensures Print([]) == "" && Texts([]) == []
    {
    }

    lemma {:induction false} PrintReadsBack(token: string, terms: seq<Term>)
      requires Lawful() && Settled(token) && forall i :: 0 <= i < |terms| ==> IsTerm(terms[i])
      ensures Remaining(token, Print(terms), false) == Words(token) + Texts(terms)
      decreases |terms|, 0
    {
      hide Remaining, Lawful, Words, AllWord, Phrase, Texts, Print;
      if terms == [] {
        PrintNothing();
        RemainingEnds(token, "", false);
      } else {
        var term, rest := terms[0], terms[1..];
        var tail := if rest == [] then "" else " " + Print(rest);
        PrintFirst(terms);
        TextsFirst(terms);
        match term
        case Word(word) => WordReadsBack(token, word, rest);
        case Quoted(phrase) =>
          QuotedReadsBack(token, phrase, tail);
          TailReadsBack("", rest);
      }
    }

    lemma {:induction false} WordReadsBack(token: string, word: string, rest: seq<Term>)
      requires Lawful() && Settled(token) && IsTerm(Word(word)) && forall i :: 0 <= i < |rest| ==> IsTerm(rest[i])
      ensures var tail := if rest == [] then "" else " " + Print(rest);
              Remaining(token, word + tail, false) == Words(token) + ([word] + Texts(rest))
      decreases |rest|, 1
    {
      hide Remaining, Words, Phrase, Print, Texts;
      var tail := if rest == [] then "" else " " + Print(rest);
      WordIsPlain(word);
      RemainingPlain(token, word, tail, false);
      OneWord(word);
      PrintNothing();
      if rest == [] {
        RemainingEnds(token + word, "", false);
        WordsConcat(token, word);
      } else {
        RemainingPlain(token + word, " ", Print(rest), false);
        PrintReadsBack(token + word + " ", rest);
        assert token + word + " " == token + (word + " ");
        WordsConcat(token, word + " ");
        assert Words(token) + [word] + Texts(rest) == Words(token) + ([word] + Texts(rest));
      }
    }

    lemma {:induction false} TailReadsBack(token: string, rest: seq<Term>)
      requires Lawful() && token == "" && forall i :: 0 <= i < |rest| ==> IsTerm(rest[i])
      ensures Remaining(token, if rest == [] then "" else " " + Print(rest), false) == Texts(rest)
      decreases |rest|, 1
    {
      hide Remaining;
      NoWords();
      if rest == [] {
        RemainingEnds("", "", false);
      } else {
        RemainingPlain("", " ", Print(rest), false);
        assert "" + " " == " ";
        PrintReadsBack(" ", rest);
      }
    }

    /** Parsing undoes printing, for every list of words and normalized phrases. */
    lemma ParsePrint(terms: seq<Term>)
      requires Lawful() && forall i :: 0 <= i < |terms| ==> IsTerm(terms[i])
      ensures Terms(Print(terms)) == Texts(terms)
    {
      RemainingEnds("", Print(terms), false);
      PrintReadsBack("", terms);
    }

    function AllQuoted(texts: seq<string>): seq<Term> { seq(|texts|, i requires 0 <= i < |texts| => Quoted(texts[i])) }

    /** So the terms of any text, printed quoted, parse to themselves. */
    lemma ReprintedTerms(text: string)
      requires Lawful()
      ensures Terms(Print(AllQuoted(Terms(text)))) == Terms(text)
    {
      hide Terms, Print, Phrase, Normal, AllWord;
      var terms := Terms(text);
      var quoted := AllQuoted(terms);
      TermsMeans(text);
      forall i | 0 <= i < |terms| ensures IsTerm(quoted[i]) {
        assert terms[i] in terms;
        if AllWord(terms[i]) {
          WordIsNormal(terms[i]);
        }
        NormalIsPhrase(terms[i]);
      }
      ParsePrint(quoted);
      assert Texts(quoted) == terms;
    }

    lemma WordIsNormal(word: string)
      requires Lawful() && AllWord(word)
      ensures Normal(word)
    {
    }
  }

  /** A term as the operator writes it: bare, or between quotes. */
  datatype Term = Word(text: string) | Quoted(text: string)
}
