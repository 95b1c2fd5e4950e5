/**
 * `supabase/mapping_script2.py`: the extended variant of the normalisers
 * and the alias expander. It knows one more exchange (NEO), strips four
 * more corporate suffixes, has no ".CN" shortcut, and adds the contents of
 * parentheses and letter-only initials as aliases.
 */
module MappingScript2 {
  import opened Wrappers
  import opened Text
  import opened Patterns
  import MappingScript

  // ---------------------------------------------------------------------------
  // normalize_ticker

  const TickerPrefixes2: seq<string> := ["CVE", "TSE", "TSX", "TSXV", "CSE", "CNSX", "NYSE", "NASDAQ", "OTC", "NEO"]
  const TickerSuffixes2: seq<string> := ["V", "TO", "CN", "T", "VN", "WT", "CSE", "NEO"]

  /** `normalize_ticker`: one exchange prefix and one exchange suffix go,
      then every '.', '-' and '_'; the rest is trimmed and upper-cased.
      There is no special case: the result never holds ticker punctuation. */
  function NormalizeTicker2(ticker: Option<string>): (r: Option<string>)
    ensures r.None? <==> ticker.None? || ticker.value == []
    ensures r.Some? ==> IsStripped(r.value)
    ensures r.Some? ==> forall i :: 0 <= i < |r.value| ==> !IsLower(r.value[i]) && r.value[i] !in TickerPunctuation
  {
    if ticker.None? || ticker.value == [] then None
    else
      var t := StripExchangeSuffix(StripExchangePrefix(ticker.value, TickerPrefixes2), TickerSuffixes2);
      var d := DeleteChars(t, TickerPunctuation);
      var r := StripUpper(d);
      StripUpperNoPunctuation(d, r);
      Some(r)
  }

  /** The ten prefixes and eight suffixes are words of letters. */
  lemma TickerCodeLists2()
    ensures IsCodeList(TickerPrefixes2) && IsCodeList(TickerSuffixes2)
  {
  }

  /** The exchange prefixes are written in capitals. */
  lemma TickerPrefixes2Upper(code: string)
    requires code in TickerPrefixes2
    ensures code != [] && forall j :: 0 <= j < |code| ==> IsUpper(code[j])
  {
  }

  /** Without exchange prefix, a colon ticker passes the rest of the
      pipeline unchanged. */
  lemma ColonTickerSurvives2(t: string)
    requires MappingScript.IsColonTicker(t)
    ensures StripUpper(DeleteChars(StripExchangeSuffix(t, TickerSuffixes2), TickerPunctuation)) == t
  {
    MappingScript.ColonTickerKeeps(t, TickerSuffixes2);
  }

  /** An exchange code and a colon in front of a colon ticker are removed,
      and nothing else is. */
  lemma NormalizeTicker2Colon(code: string, t: string)
    requires code in TickerPrefixes2 && MappingScript.IsColonTicker(t)
    ensures NormalizeTicker2(Some(code + ":" + t)) == Some(t)
  {
    TickerCodeLists2();
    CodeOfList(code, TickerPrefixes2);
    StripExchangePrefixRemoves(code, t, TickerPrefixes2);
    ColonTickerSurvives2(t);
  }

  /** "NEO:ABC" gives "ABC", and so does every other listed exchange. */
  lemma NormalizeTicker2Prefixed(code: string, s: string)
    requires code in TickerPrefixes2 && MappingScript.IsPlainTicker(s)
    ensures NormalizeTicker2(Some(code + ":" + s)) == Some(s)
  {
    NormalizeTicker2Colon(code, s);
  }

  /** A plain ticker, a dot and a code: the dot and code go. */
  lemma SuffixedSurvives2(s: string, code: string)
    requires MappingScript.IsPlainTicker(s) && code in TickerSuffixes2
    ensures StripUpper(DeleteChars(StripExchangeSuffix(s + "." + code, TickerSuffixes2), TickerPunctuation)) == s
  {
    TickerCodeLists2();
    CodeOfList(code, TickerSuffixes2);
    MappingScript.SuffixedKeeps(s, code, TickerSuffixes2);
  }

  /** "ABC.NEO" and "ABC.CN" give "ABC": ".CN" is one suffix among others. */
  lemma NormalizeTicker2Suffixed(s: string, code: string)
    requires MappingScript.IsPlainTicker(s) && code in TickerSuffixes2
    ensures NormalizeTicker2(Some(s + "." + code)) == Some(s)
  {
    var x := s + "." + code;
    TickerCodeLists2();
    MappingScript.DottedNoColon(s, code);
    NoExchangePrefix(x, TickerPrefixes2);
    SuffixedSurvives2(s, code);
  }

  /** The suffix pattern ignores case: "abc.to" and "abc.cn" give "ABC". */
  lemma NormalizeTicker2AnyCaseSuffix(s: string, code: string)
    requires MappingScript.IsPlainTicker(s) && IsCodeList([code])
    requires exists c :: c in TickerSuffixes2 && EqualsIgnoreCase(code, c)
    ensures NormalizeTicker2(Some(s + "." + code)) == Some(s)
  {
    TickerCodeLists2();
    MappingScript.SuffixedKeeps(s, code, TickerSuffixes2);
    NoExchangePrefix(s + "." + code, TickerPrefixes2);
  }

  /** Both an exchange prefix and a suffix go: "CVE:ABC.CN" gives "ABC",
      where the first script keeps "CVE:ABC". */
  lemma NormalizeTicker2PrefixAndSuffix(p: string, s: string, code: string)
    requires p in TickerPrefixes2 && MappingScript.IsPlainTicker(s) && code in TickerSuffixes2
    ensures NormalizeTicker2(Some(p + ":" + s + "." + code)) == Some(s)
  {
    var rest := s + "." + code;
    assert p + ":" + s + "." + code == p + ":" + rest;
    TickerCodeLists2();
    CodeOfList(p, TickerPrefixes2);
    StripExchangePrefixRemoves(p, rest, TickerPrefixes2);
    SuffixedSurvives2(s, code);
  }

  /** At most one prefix goes per call: "NEO:TSX:ABC" gives "TSX:ABC". */
  lemma NormalizeTicker2OnePrefix(p: string, q: string, s: string)
    requires p in TickerPrefixes2 && q in TickerPrefixes2 && MappingScript.IsPlainTicker(s)
    ensures NormalizeTicker2(Some(p + ":" + q + ":" + s)) == Some(q + ":" + s)
  {
    var t := q + ":" + s;
    assert p + ":" + q + ":" + s == p + ":" + t;
    TickerPrefixes2Upper(q);
    MappingScript.ColonTickerShape(q, s);
    NormalizeTicker2Colon(p, t);
  }

  /** Without a colon, whitespace or a listed dot-code at its end, a ticker
      only loses its '.', '-' and '_' and is upper-cased: every other
      character survives, in order. */
  lemma NormalizeTicker2Deletes(t: string)
    requires t != [] && ':' !in t
    requires forall i :: 0 <= i < |t| ==> !IsSpace(t[i])
    requires forall c :: c in TickerSuffixes2 ==> !HasCodeSuffix(t, c)
    ensures NormalizeTicker2(Some(t)) == Some(Upper(DeleteChars(t, TickerPunctuation)))
  {
    NormalizeTicker2Steps(t);
    NoExchangePrefix(t, TickerPrefixes2);
    NoSuffixUnspaced(t, TickerSuffixes2);
    DeleteCharsUnspaced(t, TickerPunctuation);
    StripUpperUnspaced(DeleteChars(t, TickerPunctuation));
  }

  /** The steps of `NormalizeTicker2` on a non-empty ticker. */
  lemma NormalizeTicker2Steps(t: string)
    requires t != []
    ensures NormalizeTicker2(Some(t)) ==
      Some(StripUpper(DeleteChars(StripExchangeSuffix(StripExchangePrefix(t, TickerPrefixes2), TickerSuffixes2), TickerPunctuation)))
  {
  }

  /** Two plain tickers joined by '.', '-' or '_' give the two run
      together, as "BRK-B" and "BRK.B" give "BRKB", unless a dot joins
      them and the second is a listed code, as in "ABC.NEO". */
  lemma NormalizeTicker2Joins(a: string, p: char, b: string)
    requires MappingScript.IsPlainTicker(a) && MappingScript.IsPlainTicker(b) && p in TickerPunctuation
    requires p == '.' ==> forall c :: c in TickerSuffixes2 ==> !EqualsIgnoreCase(b, c)
    ensures NormalizeTicker2(Some(a + [p] + b)) == Some(a + b)
  {
    var t := a + [p] + b;
    forall i | 0 <= i < |t| ensures !IsSpace(t[i]) && (i == |a| || t[i] != '.') {
      if i < |a| {
        assert t[i] == a[i];
      } else if i > |a| {
        assert t[i] == b[i - |a| - 1];
      }
    }
    assert forall c :: c in TickerSuffixes2 ==> !HasCodeSuffix(t, c) by {
      forall c | c in TickerSuffixes2 ensures !HasCodeSuffix(t, c) {
        var k := |t| - |c| - 1;
        if 0 <= k < |t| && t[k] == '.' {
          assert t[|t| - |c|..] == b;
        }
      }
    }
    NormalizeTicker2Deletes(t);
    MappingScript.JoinedPlainTickers(a, p, b);
  }

  /** Whitespace around a ticker goes and its letters are upper-cased:
      " abc " gives "ABC". */
  lemma NormalizeTicker2Trims(x: string)
    requires x != [] && forall i :: 0 <= i < |x| ==> IsAlpha(x[i]) || IsDigit(x[i])
    ensures NormalizeTicker2(Some(" " + x + " ")) == Some(Upper(x))
  {
    var t := " " + x + " ";
    assert !IsSpace(x[0]) && !IsSpace(x[|x| - 1]);
    assert forall i :: 0 <= i < |t| ==> t[i] !in TickerPunctuation && t[i] != ':' by {
      forall i | 0 <= i < |t| ensures t[i] !in TickerPunctuation && t[i] != ':' {
        if 0 < i <= |x| {
          assert t[i] == x[i - 1];
        }
      }
    }
    assert StripExchangeSuffix(StripExchangePrefix(t, TickerPrefixes2), TickerSuffixes2) == t by {
      assert ':' !in t && '.' !in t;
      NoExchangePrefix(t, TickerPrefixes2);
      NoExchangeSuffix(t, TickerSuffixes2);
    }
    assert StripUpper(DeleteChars(t, TickerPunctuation)) == Upper(x) by {
      assert DeleteChars(t, TickerPunctuation) == t;
      StripPadded(x);
    }
  }

  /** A listed exchange prefix, in any case, and a colon make no
      difference: "neo:abc" normalises as "abc" does, to "ABC". A second
      colon is what would make the two differ. */
  lemma NormalizeTicker2DropsPrefix(code: string, t: string)
    requires IsCodeList([code]) && exists c :: c in TickerPrefixes2 && EqualsIgnoreCase(code, c)
    requires t != [] && ':' !in t
    ensures NormalizeTicker2(Some(code + ":" + t)) == NormalizeTicker2(Some(t))
  {
    TickerCodeLists2();
    StripExchangePrefixRemoves(code, t, TickerPrefixes2);
    NoExchangePrefix(t, TickerPrefixes2);
  }

  // ---------------------------------------------------------------------------
  // normalize_name

  /** The four patterns this script adds after the first script's 17:
      `ventures?`, `holdings?`, `group`, `international`. */
  const ExtraSuffixes: seq<SuffixPattern> := [
    SuffixPattern("venture", Some('s')), SuffixPattern("holding", Some('s')),
    SuffixPattern("group", None), SuffixPattern("international", None)
  ]

  /** The 21 end-anchored suffix patterns, in list order. */
  const NameSuffixes2: seq<SuffixPattern> := MappingScript.NameSuffixes + ExtraSuffixes

  /** `normalize_name`: lower-case, one pass over the 21 suffix patterns,
      then clean-up. The result is lower-case, trimmed and single-spaced. */
  function NormalizeName2(name: Option<string>): (r: string)
    ensures IsNormalFormOf(name, NameSuffixes2, r)
  {
    NormalizeWith(name, NameSuffixes2)
  }

  /** Where the spaces of a normal form fall: its words are those that
      `split` finds in the suffix pass once punctuation is blanked, and it is
      exactly those words joined by single spaces. */
  lemma NormalizeName2Join(name: string)
    requires name != []
    ensures Split(NormalizeName2(Some(name))) == Split(BlankNonWord(StripNameSuffixes(Lower(name), NameSuffixes2)))
    ensures NormalizeName2(Some(name)) == JoinSpaced(Split(BlankNonWord(StripNameSuffixes(Lower(name), NameSuffixes2))))
  {
    NormalizeWithJoin(name, NameSuffixes2);
  }

  /** A name in normal form that ends in none of the 21 suffixes is its own
      normal form. */
  lemma NormalizeName2Fixed(r: string)
    requires r != [] && IsNormalShape(r) && forall i :: 0 <= i < |r| ==> !IsUpper(r[i])
    requires NoSuffixMatches(r, NameSuffixes2)
    ensures NormalizeName2(Some(r)) == r
  {
    NormalizeWithFixed(r, NameSuffixes2);
  }

  /** A name that no pattern of the longer list matches is normalised alike
      by both scripts. */
  lemma NormalizeNamesAgree(r: string)
    requires r != [] && IsNormalShape(r) && forall i :: 0 <= i < |r| ==> !IsUpper(r[i])
    requires NoSuffixMatches(r, NameSuffixes2)
    ensures NormalizeName2(Some(r)) == MappingScript.NormalizeName(Some(r)) == r
  {
    assert NoSuffixMatches(r, MappingScript.NameSuffixes) by {
      forall k | 0 <= k < |MappingScript.NameSuffixes|
        ensures NameSuffixes2[k] == MappingScript.NameSuffixes[k]
      {
      }
    }
    NormalizeName2Fixed(r);
    MappingScript.NormalizeNameFixed(r);
  }

  // ---------------------------------------------------------------------------
  // extract_company_aliases

  /** The words that start with a letter, in order. */
  function LetterWords(words: seq<string>): (ws: seq<string>)
    requires forall i :: 0 <= i < |words| ==> IsToken(words[i])
    ensures |ws| <= |words|
    ensures forall i :: 0 <= i < |ws| ==> IsToken(ws[i]) && IsAlpha(ws[i][0])
  {
    if words == [] then []
    else
      assert IsToken(words[0]);
      (if IsAlpha(words[0][0]) then [words[0]] else []) + LetterWords(words[1..])
  }

  /** `''.join(w[0].upper() for w in words if w and w[0].isalpha())`: the
      first script's initials of the words that start with a letter. */
  function AlphaInitials(words: seq<string>): (r: string)
    requires forall i :: 0 <= i < |words| ==> IsToken(words[i])
    ensures |r| <= |words|
    ensures forall i :: 0 <= i < |r| ==> IsUpper(r[i])
    ensures r == MappingScript.Initials(LetterWords(words))
  {
    if words == [] then []
    else
      assert IsToken(words[0]);
      var rest := AlphaInitials(words[1..]);
      if IsAlpha(words[0][0]) then
        var ws := [words[0]] + LetterWords(words[1..]);
        assert ws[0] == words[0] && ws[1..] == LetterWords(words[1..]);
        [UpperChar(words[0][0])] + rest
      else
        rest
  }

  /** When every word starts with a letter, the initials are those of the
      first script, one per word. */
  lemma {:induction false} AlphaInitialsAllLetters(words: seq<string>)
    requires forall i :: 0 <= i < |words| ==> IsToken(words[i]) && IsAlpha(words[i][0])
    ensures AlphaInitials(words) == MappingScript.Initials(words)
  {
    if words != [] {
      AlphaInitialsAllLetters(words[1..]);
    }
  }

  /** `re.findall(r'\(([^)]+)\)', name)` behind the test for both
      parentheses: the contents of the groups, in order. */
  function ParenContents(name: string): (gs: seq<string>)
    ensures forall k :: 0 <= k < |gs| ==> gs[k] != [] && ')' !in gs[k]
    ensures gs == ParenGroups(name).1
  {
    if '(' in name && ')' in name then ParenGroups(name).1 else []
  }

  /** The first group after a text without '(' is the first content, and
      the rest come from the text after its ')': "Barrick (ABX) (Gold)"
      gives "ABX" and then "Gold". */
  lemma ParenContentsFirst(a: string, g: string, b: string)
    requires '(' !in a && g != [] && ')' !in g
    ensures ParenContents(a + "(" + g + ")" + b) == [g] + ParenGroups(b).1
  {
    assert a + "(" + g + ")" + b == a + ("(" + g + ")" + b);
    ParenGroupsPlainPrefix(a, "(" + g + ")" + b);
    ParenGroupsGroup(g, b);
  }

  /** The forms the function appends, in order, before `list(set(...))`:
      with both parentheses, the name without its groups (when something
      is left) and the groups' contents; the letter initials when there are
      at least two words and two initials; the '&' / 'and' swaps, where the
      test for " and " ignores case but the replacement does not. */
  function AliasCandidates2(name: string): (cs: seq<string>)
    ensures |cs| >= 1 && cs[0] == name
  {
    var words := Split(name);
    var abbrev := AlphaInitials(words);
    [name]
    + Maybe('(' in name && ')' in name && MappingScript.WithoutParens(name) != [], MappingScript.WithoutParens(name))
    + ParenContents(name)
    + Maybe(|words| > 1 && |abbrev| > 1, abbrev)
    + Maybe('&' in name, Replace(name, "&", "and"))
    + Maybe(Contains(Lower(name), " and "), Replace(name, " and ", " & "))
  }

  /** `extract_company_aliases`: the name itself, the name without its
      parenthesised groups (when it has both parentheses and something is
      left), each group's content, the letter initials (when it has two or
      more words and two or more of them start with a letter), and the
      '&' / 'and' swaps, without duplicates. */
  function ExtractCompanyAliases2(name: string): (r: seq<string>)
    ensures name in r
    ensures forall i, j :: 0 <= i < j < |r| ==> r[i] != r[j]
    ensures forall a :: a in r <==>
      || a == name
      || ('(' in name && ')' in name && MappingScript.WithoutParens(name) != [] && a == MappingScript.WithoutParens(name))
      || a in ParenContents(name)
      || (|Split(name)| > 1 && |AlphaInitials(Split(name))| > 1 && a == AlphaInitials(Split(name)))
      || ('&' in name && a == Replace(name, "&", "and"))
      || (Contains(Lower(name), " and ") && a == Replace(name, " and ", " & "))
  {
    CandidatesMembers2(name);
    Distinct(AliasCandidates2(name))
  }

  /** What each candidate is, one clause per form. */
  lemma CandidatesMembers2(name: string)
    ensures forall a :: a in AliasCandidates2(name) <==>
      || a == name
      || ('(' in name && ')' in name && MappingScript.WithoutParens(name) != [] && a == MappingScript.WithoutParens(name))
      || a in ParenContents(name)
      || (|Split(name)| > 1 && |AlphaInitials(Split(name))| > 1 && a == AlphaInitials(Split(name)))
      || ('&' in name && a == Replace(name, "&", "and"))
      || (Contains(Lower(name), " and ") && a == Replace(name, " and ", " & "))
  {
    var words := Split(name);
    var abbrev := AlphaInitials(words);
    forall a
      ensures a in AliasCandidates2(name) <==>
        || a == name
        || ('(' in name && ')' in name && MappingScript.WithoutParens(name) != [] && a == MappingScript.WithoutParens(name))
        || a in ParenContents(name)
        || (|words| > 1 && |abbrev| > 1 && a == abbrev)
        || ('&' in name && a == Replace(name, "&", "and"))
        || (Contains(Lower(name), " and ") && a == Replace(name, " and ", " & "))
    {
      InMaybesWith(a, name, '(' in name && ')' in name && MappingScript.WithoutParens(name) != [], MappingScript.WithoutParens(name),
                   ParenContents(name), |words| > 1 && |abbrev| > 1, abbrev, '&' in name, Replace(name, "&", "and"),
                   Contains(Lower(name), " and "), Replace(name, " and ", " & "));
    }
  }

  /** Every parenthesised group's content is an alias, and none is empty. */
  lemma AliasesParenContents(name: string, k: nat)
    requires '(' in name && ')' in name && k < |ParenGroups(name).1|
    ensures ParenGroups(name).1[k] in ExtractCompanyAliases2(name) && ParenGroups(name).1[k] != []
  {
    assert ParenGroups(name).1[k] in ParenContents(name);
  }

  /** Initials need two words that start with a letter: "Gold 2000 Corp"
      has three words but only the initials "GC". */
  lemma AlphaInitialsSkipDigits(words: seq<string>)
    requires |words| == 3 && IsToken(words[0]) && IsToken(words[1]) && IsToken(words[2])
    requires IsAlpha(words[0][0]) && IsDigit(words[1][0]) && IsAlpha(words[2][0])
    ensures AlphaInitials(words) == [UpperChar(words[0][0]), UpperChar(words[2][0])]
  {
    var tail := words[1..];
    assert tail[0] == words[1] && tail[1..] == words[2..];
    assert words[2..][1..] == [];
    assert AlphaInitials(words[2..]) == [UpperChar(words[2][0])];
    assert AlphaInitials(tail) == AlphaInitials(words[2..]);
  }

  /** An upper-case " AND " passes the case-insensitive test, but the
      case-sensitive replacement finds nothing: the form it adds is the
      name itself, so it adds no alias. */
  lemma AliasesUpperAnd(name: string)
    requires Contains(Lower(name), " and ") && !Contains(name, " and ")
    ensures Replace(name, " and ", " & ") == name
    ensures forall a :: a in ExtractCompanyAliases2(name) <==> a in AliasCandidates2(name)[..|AliasCandidates2(name)| - 1]
  {
    var cs := AliasCandidates2(name);
    var init := cs[..|cs| - 1];
    assert cs == init + [name];
    assert init[0] == name;
  }

  /** A name of one word without both parentheses, without '&' and without
      "and" in any case is its only alias. */
  lemma AliasesOfPlainName2(name: string)
    requires |Split(name)| <= 1 && '&' !in name && !Contains(Lower(name), " and ")
    requires '(' !in name || ')' !in name
    ensures ExtractCompanyAliases2(name) == [name]
  {
  }
}
