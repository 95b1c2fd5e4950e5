/**
 * `supabase/mapping_script.py` (its first copy, the one `main()` runs): the
 * normalisers, the alias expander, the lookup dictionaries, the tiered
 * matcher `perform_matching`, the cache step of `fetch_company_by_id`, and
 * the resume filter and merge of `main`.
 */
module MappingScript {
  import opened Wrappers
  import opened Text
  import opened Patterns
  import opened Records
  import opened Fuzzy
  import LookupIndex
  import opened Matcher

  // ---------------------------------------------------------------------------
  // normalize_ticker

  const TickerPrefixes: seq<string> := ["CVE", "TSE", "TSX", "TSXV", "CSE", "CNSX", "NYSE", "NASDAQ", "OTC"]
  const TickerSuffixes: seq<string> := ["V", "TO", "CN", "T", "VN", "WT"]

  /** `normalize_ticker`. A ticker ending in ".CN" (exactly that case) only
      loses those three characters; any other loses one exchange prefix and
      one exchange suffix, then every '.', '-' and '_'. Both are then
      trimmed and upper-cased. */
  function NormalizeTicker(ticker: Option<string>): (r: Option<string>)
    ensures r.None? <==> ticker.None? || ticker.value == []
    ensures r.Some? ==> IsStripped(r.value) && forall i :: 0 <= i < |r.value| ==> !IsLower(r.value[i])
    ensures r.Some? && !EndsWith(ticker.value, ".CN") ==>
      forall i :: 0 <= i < |r.value| ==> r.value[i] !in TickerPunctuation
  {
    if ticker.None? || ticker.value == [] then None
    else if EndsWith(ticker.value, ".CN") then
      Some(StripUpper(ticker.value[..|ticker.value| - 3]))
    else
      var t := StripExchangeSuffix(StripExchangePrefix(ticker.value, TickerPrefixes), TickerSuffixes);
      var d := DeleteChars(t, TickerPunctuation);
      var r := StripUpper(d);
      StripUpperNoPunctuation(d, r);
      Some(r)
  }

  /** The nine prefixes and six suffixes are words of letters. */
  lemma TickerCodeLists()
    ensures IsCodeList(TickerPrefixes) && IsCodeList(TickerSuffixes)
  {
  }

  /** What ending in ".CN" says about the last three characters. */
  lemma EndsWithCn(x: string)
    ensures EndsWith(x, ".CN") ==> |x| >= 3 && x[|x| - 3] == '.' && x[|x| - 2] == 'C' && x[|x| - 1] == 'N'
  {
    if EndsWith(x, ".CN") {
      assert x[|x| - 3..][0] == '.' && x[|x| - 3..][1] == 'C' && x[|x| - 3..][2] == 'N';
    }
  }

  /** The exchange prefixes are written in capitals. */
  lemma TickerPrefixesUpper(code: string)
    requires code in TickerPrefixes
    ensures code != [] && forall j :: 0 <= j < |code| ==> IsUpper(code[j])
  {
  }

  /** "<code>:<ticker>" holds only capitals, digits and one colon, and no
      surrounding whitespace. */
  lemma ColonTickerShape(code: string, s: string)
    requires code != [] && forall j :: 0 <= j < |code| ==> IsUpper(code[j])
    requires IsPlainTicker(s)
    ensures var t := code + ":" + s;
      && (forall i :: 0 <= i < |t| ==> t[i] == ':' || IsUpper(t[i]) || IsDigit(t[i]))
      && IsStripped(t) && '.' !in t
  {
    var t := code + ":" + s;
    forall i | 0 <= i < |t| ensures t[i] == ':' || IsUpper(t[i]) || IsDigit(t[i]) {
      if i < |code| {
        assert t[i] == code[i];
      } else if i > |code| {
        assert t[i] == s[i - |code| - 1];
      }
    }
  }

  /** A ticker of capitals and digits. */
  predicate IsPlainTicker(s: string) {
    s != [] && forall i :: 0 <= i < |s| ==> IsUpper(s[i]) || IsDigit(s[i])
  }

  /** Once the exchange codes are gone, a plain ticker passes the rest of
      the pipeline unchanged. */
  lemma PlainTickerSurvives(s: string)
    requires IsPlainTicker(s)
    ensures StripUpper(DeleteChars(s, TickerPunctuation)) == s
  {
    assert StripUpper(s) == s by {
      assert forall i :: 0 <= i < |s| ==> !IsSpace(s[i]) && !IsLower(s[i]);
      StripUpperUnspaced(s);
      UpperKeeps(s);
    }
    PlainTickerNoPunctuation(s);
  }

  /** A plain ticker has no '.', '-' or '_' to delete. */
  lemma PlainTickerNoPunctuation(s: string)
    requires IsPlainTicker(s)
    ensures DeleteChars(s, TickerPunctuation) == s
  {
    forall i | 0 <= i < |s| ensures s[i] !in TickerPunctuation {
      assert IsUpper(s[i]) || IsDigit(s[i]);
    }
  }

  /** A plain ticker is its own normal form. */
  lemma NormalizeTickerPlain(s: string)
    requires IsPlainTicker(s)
    ensures NormalizeTicker(Some(s)) == Some(s)
  {
    assert '.' !in s && ':' !in s;
    EndsWithCn(s);
    NoExchangePrefix(s, TickerPrefixes);
    NoExchangeSuffix(s, TickerSuffixes);
    PlainTickerSurvives(s);
  }

  /** Capitals, digits and colons, with no surrounding whitespace. */
  predicate IsColonTicker(t: string) {
    IsStripped(t) && forall i :: 0 <= i < |t| ==> t[i] == ':' || IsUpper(t[i]) || IsDigit(t[i])
  }

  /** Without exchange prefix, a colon ticker passes the rest of the
      pipeline unchanged. */
  lemma ColonTickerSurvives(t: string)
    requires IsColonTicker(t)
    ensures StripUpper(DeleteChars(StripExchangeSuffix(t, TickerSuffixes), TickerPunctuation)) == t
  {
    ColonTickerKeeps(t, TickerSuffixes);
  }

  /** The same for any list of suffix codes: a colon ticker has no dot, so no
      code is cut from it. */
  lemma ColonTickerKeeps(t: string, codes: seq<string>)
    requires IsColonTicker(t)
    ensures StripUpper(DeleteChars(StripExchangeSuffix(t, codes), TickerPunctuation)) == t
  {
    var a := StripExchangeSuffix(t, codes);
    assert a == t by {
      assert '.' !in t;
      NoExchangeSuffix(t, codes);
    }
    var d := DeleteChars(a, TickerPunctuation);
    assert d == t by {
      assert forall i :: 0 <= i < |t| ==> t[i] !in TickerPunctuation;
    }
    StripUpperKeeps(d);
  }

  /** A capitalised code, a colon and a colon ticker hold no dot. */
  lemma ColonPrefixNoDot(code: string, t: string)
    requires forall j :: 0 <= j < |code| ==> IsUpper(code[j])
    requires IsColonTicker(t)
    ensures '.' !in code + ":" + t
  {
    var x := code + ":" + t;
    forall i | 0 <= i < |x| ensures x[i] != '.' {
      if i < |code| {
        assert x[i] == code[i];
      } else if i > |code| {
        assert x[i] == t[i - |code| - 1];
      }
    }
  }

  /** An exchange code and a colon in front of a ticker are removed, and
      nothing else is. */
  lemma NormalizeTickerColon(code: string, t: string)
    requires code in TickerPrefixes && IsColonTicker(t)
    ensures NormalizeTicker(Some(code + ":" + t)) == Some(t)
  {
    var x := code + ":" + t;
    TickerPrefixesUpper(code);
    ColonPrefixNoDot(code, t);
    EndsWithCn(x);
    TickerCodeLists();
    CodeOfList(code, TickerPrefixes);
    StripExchangePrefixRemoves(code, t, TickerPrefixes);
    ColonTickerSurvives(t);
  }

  /** "CVE:ABC" gives "ABC". */
  lemma NormalizeTickerPrefixed(code: string, s: string)
    requires code in TickerPrefixes && IsPlainTicker(s)
    ensures NormalizeTicker(Some(code + ":" + s)) == Some(s)
  {
    NormalizeTickerColon(code, s);
  }

  /** A plain ticker, a dot and a code hold no colon. */
  lemma DottedNoColon(s: string, code: string)
    requires IsPlainTicker(s) && forall j :: 0 <= j < |code| ==> IsAlpha(code[j])
    ensures ':' !in s + "." + code
  {
    var x := s + "." + code;
    forall i | 0 <= i < |x| ensures x[i] != ':' {
      if i < |s| {
        assert x[i] == s[i];
      } else if i > |s| {
        assert x[i] == code[i - |s| - 1];
      }
    }
  }

  /** A dot and an exchange code after a plain ticker are removed: "ABC.V"
      gives "ABC"; "ABC.CN" gives "ABC" through the shortcut. */
  lemma NormalizeTickerSuffixed(s: string, code: string)
    requires IsPlainTicker(s) && code in TickerSuffixes
    ensures NormalizeTicker(Some(s + "." + code)) == Some(s)
  {
    if code == "CN" {
      CnShortcut(s);
    } else {
      OtherSuffix(s, code);
    }
  }

  /** "ABC.CN" loses its last three characters through the shortcut. */
  lemma CnShortcut(s: string)
    requires IsPlainTicker(s)
    ensures NormalizeTicker(Some(s + "." + "CN")) == Some(s)
  {
    var x := s + "." + "CN";
    assert x[|x| - 3..] == ".CN";
    assert x[..|x| - 3] == s;
    StripUpperKeeps(s);
  }

  /** A suffix other than ".CN" goes by the regular path. */
  lemma OtherSuffix(s: string, code: string)
    requires IsPlainTicker(s) && code in TickerSuffixes && code != "CN"
    ensures NormalizeTicker(Some(s + "." + code)) == Some(s)
  {
    TickerCodeLists();
    CodeOfList(code, TickerSuffixes);
    NormalizeTickerAnyCaseSuffix(s, code);
  }

  /** The suffix pattern ignores case, so "abc.to" gives "ABC" as "ABC.TO"
      does. Only ".CN" in capitals takes the shortcut; ".cn" goes by the
      regular path. */
  lemma NormalizeTickerAnyCaseSuffix(s: string, code: string)
    requires IsPlainTicker(s) && IsCodeList([code]) && code != "CN"
    requires exists c :: c in TickerSuffixes && EqualsIgnoreCase(code, c)
    ensures NormalizeTicker(Some(s + "." + code)) == Some(s)
  {
    var x := s + "." + code;
    DotCodeNotCn(s, code);
    TickerCodeLists();
    SuffixedKeeps(s, code, TickerSuffixes);
    assert StripExchangePrefix(x, TickerPrefixes) == x by {
      NoExchangePrefix(x, TickerPrefixes);
    }
    NormalizeTickerRegular(x);
  }

  /** A dot and a code of letters other than "CN" do not end in ".CN". */
  lemma DotCodeNotCn(s: string, code: string)
    requires IsCodeList([code]) && code != "CN"
    ensures !EndsWith(s + "." + code, ".CN")
  {
    var x := s + "." + code;
    assert code != [] && forall j :: 0 <= j < |code| ==> IsAlpha(code[j]) by {
      assert [code][0] == code;
    }
    EndsWithCn(x);
    var n := |code|;
    if n == 1 {
      assert x[|x| - 2] == '.';
    } else if n == 2 {
      assert code == [x[|x| - 2], x[|x| - 1]];
    } else {
      assert x[|x| - 3] == code[n - 3];
    }
  }

  /** A plain ticker followed by a dot and a code of the list, in any case,
      comes out of the suffix, punctuation and case steps as itself. */
  lemma SuffixedKeeps(s: string, code: string, codes: seq<string>)
    requires IsPlainTicker(s) && IsCodeList(codes) && IsCodeList([code])
    requires exists c :: c in codes && EqualsIgnoreCase(code, c)
    ensures ':' !in s + "." + code
    ensures StripUpper(DeleteChars(StripExchangeSuffix(s + "." + code, codes), TickerPunctuation)) == s
  {
    assert forall j :: 0 <= j < |code| ==> IsAlpha(code[j]) by {
      assert [code][0] == code;
    }
    DottedNoColon(s, code);
    StripExchangeSuffixRemoves(s, code, codes);
    PlainTickerSurvives(s);
  }

  /** The ".CN" shortcut keeps the exchange prefix: "CVE:ABC.CN" gives
      "CVE:ABC", while "CVE:ABC.V" gives "ABC". */
  lemma NormalizeTickerCnKeepsPrefix(code: string, s: string)
    requires code in TickerPrefixes && IsPlainTicker(s)
    ensures NormalizeTicker(Some(code + ":" + s + ".CN")) == Some(code + ":" + s)
  {
    var t := code + ":" + s;
    var x := t + ".CN";
    assert x == code + ":" + s + ".CN";
    assert EndsWith(x, ".CN") && x[..|x| - 3] == t;
    TickerPrefixesUpper(code);
    ColonTickerShape(code, s);
    StripUpperKeeps(t);
  }

  /** At most one prefix goes per call, so normalising twice can differ
      from normalising once: "CVE:TSX:ABC" gives "TSX:ABC", which gives "ABC". */
  lemma NormalizeTickerOnePrefix(p: string, q: string, s: string)
    requires p in TickerPrefixes && q in TickerPrefixes && IsPlainTicker(s)
    ensures NormalizeTicker(Some(p + ":" + q + ":" + s)) == Some(q + ":" + s)
    ensures NormalizeTicker(Some(q + ":" + s)) == Some(s)
  {
    var t := q + ":" + s;
    assert p + ":" + q + ":" + s == p + ":" + t;
    TickerPrefixesUpper(q);
    ColonTickerShape(q, s);
    NormalizeTickerColon(p, t);
    NormalizeTickerPrefixed(q, s);
  }

  /** Without a colon, whitespace or a listed dot-code at its end, a ticker
      only loses its '.', '-' and '_' and is upper-cased: every other
      character survives, in order. */
  lemma NormalizeTickerDeletes(t: string)
    requires t != [] && ':' !in t
    requires forall i :: 0 <= i < |t| ==> !IsSpace(t[i])
    requires forall c :: c in TickerSuffixes ==> !HasCodeSuffix(t, c)
    ensures NormalizeTicker(Some(t)) == Some(Upper(DeleteChars(t, TickerPunctuation)))
  {
    var d := DeleteChars(t, TickerPunctuation);
    assert !EndsWith(t, ".CN") by {
      CnHasCodeSuffix(t);
      assert "CN" in TickerSuffixes;
    }
    assert StripExchangeSuffix(StripExchangePrefix(t, TickerPrefixes), TickerSuffixes) == t by {
      NoExchangePrefix(t, TickerPrefixes);
      NoSuffixUnspaced(t, TickerSuffixes);
    }
    assert StripUpper(d) == Upper(d) by {
      DeleteCharsUnspaced(t, TickerPunctuation);
      StripUpperUnspaced(d);
    }
    NormalizeTickerRegular(t);
  }

  /** A ticker not ending in ".CN" takes the regular path. */
  lemma NormalizeTickerRegular(t: string)
    requires t != [] && !EndsWith(t, ".CN")
    ensures NormalizeTicker(Some(t)) ==
      Some(StripUpper(DeleteChars(StripExchangeSuffix(StripExchangePrefix(t, TickerPrefixes), TickerSuffixes), TickerPunctuation)))
  {
  }

  /** Ending in ".CN" is one way of ending in a dot and the code "CN". */
  lemma CnHasCodeSuffix(t: string)
    ensures EndsWith(t, ".CN") ==> HasCodeSuffix(t, "CN")
  {
    if EndsWith(t, ".CN") {
      EndsWithCn(t);
      assert t[|t| - 2..] == "CN";
    }
  }

  /** Two plain tickers joined by '.', '-' or '_' give the two run
      together, as "BRK-B" and "BRK.B" give "BRKB", unless a dot joins
      them and the second is a listed code, as in "ABC.V". */
  lemma NormalizeTickerJoins(a: string, p: char, b: string)
    requires IsPlainTicker(a) && IsPlainTicker(b) && p in TickerPunctuation
    requires p == '.' ==> forall c :: c in TickerSuffixes ==> !EqualsIgnoreCase(b, c)
    ensures NormalizeTicker(Some(a + [p] + b)) == Some(a + b)
  {
    var t := a + [p] + b;
    forall i | 0 <= i < |t| ensures !IsSpace(t[i]) && (i == |a| || t[i] != '.') {
      if i < |a| {
        assert t[i] == a[i];
      } else if i > |a| {
        assert t[i] == b[i - |a| - 1];
      }
    }
    assert forall c :: c in TickerSuffixes ==> !HasCodeSuffix(t, c) by {
      forall c | c in TickerSuffixes ensures !HasCodeSuffix(t, c) {
        var k := |t| - |c| - 1;
        if 0 <= k < |t| && t[k] == '.' {
          assert t[|t| - |c|..] == b;
        }
      }
    }
    NormalizeTickerDeletes(t);
    JoinedPlainTickers(a, p, b);
  }

  /** Deleting the joining punctuation and upper-casing gives the two
      plain tickers run together. */
  lemma JoinedPlainTickers(a: string, p: char, b: string)
    requires IsPlainTicker(a) && IsPlainTicker(b) && p in TickerPunctuation
    ensures Upper(DeleteChars(a + [p] + b, TickerPunctuation)) == a + b
  {
    var pb := [p] + b;
    assert DeleteChars(pb, TickerPunctuation) == b by {
      assert pb[0] == p && pb[1..] == b;
      PlainTickerNoPunctuation(b);
    }
    assert DeleteChars(a + pb, TickerPunctuation) == a + b by {
      DeleteCharsAppend(a, pb, TickerPunctuation);
      PlainTickerNoPunctuation(a);
    }
    assert a + [p] + b == a + pb;
    UpperKeeps(a + b);
  }

  /** Whitespace around a ticker goes and its letters are upper-cased:
      " abc " gives "ABC". */
  lemma NormalizeTickerTrims(x: string)
    requires x != [] && forall i :: 0 <= i < |x| ==> IsAlpha(x[i]) || IsDigit(x[i])
    ensures NormalizeTicker(Some(" " + x + " ")) == Some(Upper(x))
  {
    var t := " " + x + " ";
    assert !IsSpace(x[0]) && !IsSpace(x[|x| - 1]);
    assert forall i :: 0 <= i < |t| ==> t[i] !in TickerPunctuation && t[i] != ':' by {
      forall i | 0 <= i < |t| ensures t[i] !in TickerPunctuation && t[i] != ':' {
        if 0 < i <= |x| {
          assert t[i] == x[i - 1];
        }
      }
    }
    assert !EndsWith(t, ".CN") by {
      assert t[|t| - 1] == ' ';
    }
    assert StripExchangeSuffix(StripExchangePrefix(t, TickerPrefixes), TickerSuffixes) == t by {
      assert ':' !in t && '.' !in t;
      NoExchangePrefix(t, TickerPrefixes);
      NoExchangeSuffix(t, TickerSuffixes);
    }
    assert StripUpper(DeleteChars(t, TickerPunctuation)) == Upper(x) by {
      assert DeleteChars(t, TickerPunctuation) == t;
      StripPadded(x);
    }
    NormalizeTickerRegular(t);
  }

  /** A listed exchange prefix, in any case, and a colon make no
      difference: "cve:abc" normalises as "abc" does, to "ABC". The ".CN"
      shortcut and a second colon are what would make the two differ. */
  lemma NormalizeTickerDropsPrefix(code: string, t: string)
    requires IsCodeList([code]) && exists c :: c in TickerPrefixes && EqualsIgnoreCase(code, c)
    requires t != [] && ':' !in t && !EndsWith(t, ".CN")
    ensures NormalizeTicker(Some(code + ":" + t)) == NormalizeTicker(Some(t))
  {
    var x := code + ":" + t;
    assert !EndsWith(x, ".CN") by {
      assert forall j :: 0 <= j < |code| ==> x[j] == code[j] && IsAlpha(code[j]) by {
        assert [code][0] == code;
      }
      if |t| >= 3 {
        assert x[|x| - 3..] == t[|t| - 3..];
      } else {
        assert x[|x| - 3] != '.';
      }
    }
    NormalizeTickerRegular(x);
    NormalizeTickerRegular(t);
    TickerCodeLists();
    StripExchangePrefixRemoves(code, t, TickerPrefixes);
    NoExchangePrefix(t, TickerPrefixes);
  }

  // ---------------------------------------------------------------------------
  // normalize_name

  /** The 17 end-anchored suffix patterns, in list order. */
  const NameSuffixes: seq<SuffixPattern> := [
    SuffixPattern("inc", Some('.')), SuffixPattern("ltd", Some('.')), SuffixPattern("limited", None),
    SuffixPattern("corp", Some('.')), SuffixPattern("corporation", None), SuffixPattern("plc", None),
    SuffixPattern("llc", None), SuffixPattern("sa", None), SuffixPattern("ag", None),
    SuffixPattern("mining", None), SuffixPattern("mines", None), SuffixPattern("resources", None),
    SuffixPattern("minerals", None), SuffixPattern("gold", None), SuffixPattern("silver", None),
    SuffixPattern("metals", None), SuffixPattern("exploration", None)
  ]

  /** `normalize_name`: lower-case, one pass over the 17 suffix patterns,
      then clean-up. The result is lower-case, trimmed and single-spaced. */
  function NormalizeName(name: Option<string>): (r: string)
    ensures IsNormalFormOf(name, NameSuffixes, r)
  {
    NormalizeWith(name, NameSuffixes)
  }

  /** A name already in normal form that ends in none of the suffixes is
      its own normal form. */
  lemma NormalizeNameFixed(r: string)
    requires r != [] && IsNormalShape(r) && forall i :: 0 <= i < |r| ==> !IsUpper(r[i])
    requires NoSuffixMatches(r, NameSuffixes)
    ensures NormalizeName(Some(r)) == r
  {
    NormalizeWithFixed(r, NameSuffixes);
  }

  /** Where the spaces of a normal form fall: its words are those that
      `split` finds in the suffix pass once punctuation is blanked, and it is
      exactly those words joined by single spaces. */
  lemma NormalizeNameJoin(name: string)
    requires name != []
    ensures Split(NormalizeName(Some(name))) == Split(BlankNonWord(StripNameSuffixes(Lower(name), NameSuffixes)))
    ensures NormalizeName(Some(name)) == JoinSpaced(Split(BlankNonWord(StripNameSuffixes(Lower(name), NameSuffixes))))
  {
    NormalizeWithJoin(name, NameSuffixes);
  }

  // ---------------------------------------------------------------------------
  // extract_company_aliases

  /** `''.join(w[0].upper() for w in words if w)`: every word of `split`
      is non-empty, so each contributes its upper-cased first character. */
  function Initials(words: seq<string>): (r: string)
    requires forall i :: 0 <= i < |words| ==> IsToken(words[i])
    ensures |r| == |words|
    ensures forall i :: 0 <= i < |r| ==> IsToken(words[i]) && r[i] == UpperChar(words[i][0]) && !IsSpace(r[i])
  {
    if words == [] then []
    else
      assert IsToken(words[0]);
      [UpperChar(words[0][0])] + Initials(words[1..])
  }

  /** `re.sub(r'\([^)]+\)', '', name).strip()`: the name with its
      parenthesised groups cut out, trimmed. */
  function WithoutParens(name: string): (r: string)
    ensures IsStripped(r) && |r| <= |name|
    ensures ('(' !in name || ')' !in name) ==> r == Strip(name)
  {
    Strip(ParenGroups(name).0)
  }

  /** One group between two texts without '(' goes, with its parentheses,
      and the two texts are joined and trimmed: "Barrick (ABX) Gold" gives
      "Barrick  Gold". */
  lemma WithoutParensOneGroup(a: string, g: string, b: string)
    requires '(' !in a && g != [] && ')' !in g && '(' !in b
    ensures WithoutParens(a + "(" + g + ")" + b) == Strip(a + b)
  {
    assert a + "(" + g + ")" + b == a + ("(" + g + ")" + b);
    ParenGroupsPlainPrefix(a, "(" + g + ")" + b);
    ParenGroupsGroup(g, b);
  }

  /** The forms the function appends, in order, before `list(set(...))`. */
  function AliasCandidates(name: string): (cs: seq<string>)
    ensures 1 <= |cs| <= 5 && cs[0] == name
  {
    var words := Split(name);
    [name]
    + Maybe('(' in name && ')' in name && WithoutParens(name) != [], WithoutParens(name))
    + Maybe(|words| > 1, Initials(words))
    + Maybe('&' in name, Replace(name, "&", "and"))
    + Maybe(Contains(name, " and "), Replace(name, " and ", " & "))
  }

  /** `extract_company_aliases`: the name itself, the name without its
      parenthesised groups (when it has both parentheses and something is
      left), the initials (when it has two or more words), and the '&' /
      'and' swaps (when it has an '&', or the word "and" between spaces),
      without duplicates. */
  function ExtractCompanyAliases(name: string): (r: seq<string>)
    ensures name in r && |r| <= 5
    ensures forall i, j :: 0 <= i < j < |r| ==> r[i] != r[j]
    ensures forall a :: a in r <==>
      || a == name
      || ('(' in name && ')' in name && WithoutParens(name) != [] && a == WithoutParens(name))
      || (|Split(name)| > 1 && a == Initials(Split(name)))
      || ('&' in name && a == Replace(name, "&", "and"))
      || (Contains(name, " and ") && a == Replace(name, " and ", " & "))
  {
    CandidatesMembers(name);
    Distinct(AliasCandidates(name))
  }

  /** What each candidate is, one clause per form. */
  lemma CandidatesMembers(name: string)
    ensures forall a :: a in AliasCandidates(name) <==>
      || a == name
      || ('(' in name && ')' in name && WithoutParens(name) != [] && a == WithoutParens(name))
      || (|Split(name)| > 1 && a == Initials(Split(name)))
      || ('&' in name && a == Replace(name, "&", "and"))
      || (Contains(name, " and ") && a == Replace(name, " and ", " & "))
  {
    var words := Split(name);
    forall a
      ensures a in AliasCandidates(name) <==>
        || a == name
        || ('(' in name && ')' in name && WithoutParens(name) != [] && a == WithoutParens(name))
        || (|words| > 1 && a == Initials(words))
        || ('&' in name && a == Replace(name, "&", "and"))
        || (Contains(name, " and ") && a == Replace(name, " and ", " & "))
    {
      InMaybes(a, name, '(' in name && ')' in name && WithoutParens(name) != [], WithoutParens(name),
               |words| > 1, Initials(words), '&' in name, Replace(name, "&", "and"),
               Contains(name, " and "), Replace(name, " and ", " & "));
    }
  }

  /** The initials are added exactly for names of two or more words: one
      upper-cased letter per word. */
  lemma AliasesInitials(name: string)
    requires |Split(name)| >= 2
    ensures Initials(Split(name)) in ExtractCompanyAliases(name)
    ensures |Initials(Split(name))| == |Split(name)|
  {
  }

  /** A one-word name without parentheses, '&' or " and " is its only alias. */
  lemma AliasesOfPlainName(name: string)
    requires |Split(name)| <= 1 && '&' !in name && !Contains(name, " and ")
    requires '(' !in name || ')' !in name
    ensures ExtractCompanyAliases(name) == [name]
  {
  }
}
