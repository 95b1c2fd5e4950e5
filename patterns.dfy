/**
 * The regular expressions of `normalize_ticker` and `normalize_name`, each
 * as a function on strings with the semantics of Python's `re.sub`:
 * leftmost match first, `^` only at position 0, and `$` matching at the end
 * of the string and also just before a final newline.
 */
module Patterns {
  import opened Wrappers
  import opened Text

  /** A `...$` match ends where `body` ends; `tail` is the final newline, if
      there is one, that Python's `$` lets the match stop in front of. */
  function SplitFinalNewline(s: string): (parts: (string, string))
    ensures parts.0 + parts.1 == s
    ensures parts.1 == "\n" <==> (s != [] && s[|s| - 1] == '\n')
    ensures parts.1 != "\n" ==> parts.1 == []
  {
    if s != [] && s[|s| - 1] == '\n' then (s[..|s| - 1], "\n") else (s, "")
  }

  // ---------------------------------------------------------------------------
  // Exchange prefixes and suffixes of tickers

  /** `s` begins with `code` (in any case) and a colon. */
  predicate HasCodePrefix(s: string, code: string) {
    |s| > |code| && EqualsIgnoreCase(s[..|code|], code) && s[|code|] == ':'
  }

  /** `re.sub(r'^(c1|c2|...):', '', s, flags=re.IGNORECASE)`. The alternatives
      are tried in order at position 0 only, so at most one prefix goes. */
  function StripExchangePrefix(s: string, codes: seq<string>): (r: string)
    ensures r == s || exists c :: c in codes && HasCodePrefix(s, c) && r == s[|c| + 1..]
    ensures (forall c :: c in codes ==> !HasCodePrefix(s, c)) ==> r == s
    decreases |codes|
  {
    if codes == [] then s
    else if HasCodePrefix(s, codes[0]) then s[|codes[0]| + 1..]
    else StripExchangePrefix(s, codes[1..])
  }

  /** `body` ends with a dot and `code` (in any case). */
  predicate HasCodeSuffix(body: string, code: string) {
    |body| > |code| && body[|body| - |code| - 1] == '.' && EqualsIgnoreCase(body[|body| - |code|..], code)
  }

  /** The dot and code that end `body`, removed. No code contains a dot, so at
      most one code can fit and trying them in list order finds the same
      match as the regex engine's leftmost search. */
  function StripDotCode(body: string, codes: seq<string>): (r: string)
    ensures (exists c :: c in codes && HasCodeSuffix(body, c)) ==>
      exists c :: c in codes && HasCodeSuffix(body, c) && r == body[..|body| - |c| - 1]
    ensures (forall c :: c in codes ==> !HasCodeSuffix(body, c)) ==> r == body
    decreases |codes|
  {
    if codes == [] then body
    else if HasCodeSuffix(body, codes[0]) then
      assert codes[0] in codes;
      body[..|body| - |codes[0]| - 1]
    else
      LaterCode(body, codes);
      StripDotCode(body, codes[1..])
  }

  /** A code that ends `body` when the first code of the list does not is
      one of the later codes. */
  lemma LaterCode(body: string, codes: seq<string>)
    requires codes != [] && !HasCodeSuffix(body, codes[0])
    ensures (exists c :: c in codes && HasCodeSuffix(body, c)) ==> exists c :: c in codes[1..] && HasCodeSuffix(body, c)
    ensures forall c :: c in codes[1..] ==> c in codes
  {
    if exists c :: c in codes && HasCodeSuffix(body, c) {
      var c :| c in codes && HasCodeSuffix(body, c);
      var k :| 0 <= k < |codes| && codes[k] == c;
      assert codes[1..][k - 1] == c;
    }
  }

  /** `re.sub(r'\.(c1|c2|...)$', '', s, flags=re.IGNORECASE)`: a dot and a
      code that end `s`, or end it just before a final newline, go; the
      newline stays. Nothing else changes. */
  function StripExchangeSuffix(s: string, codes: seq<string>): (r: string)
    ensures var body := SplitFinalNewline(s).0;
      (exists c :: c in codes && HasCodeSuffix(body, c)) ==>
        exists c :: c in codes && HasCodeSuffix(body, c) && r == body[..|body| - |c| - 1] + SplitFinalNewline(s).1
    ensures (forall c :: c in codes ==> !HasCodeSuffix(SplitFinalNewline(s).0, c)) ==> r == s
  {
    var parts := SplitFinalNewline(s);
    StripDotCode(parts.0, codes) + parts.1
  }

  /** `s.strip().upper()`: every character left is a capital letter or a
      character of `s` that `upper` keeps, and the characters of `s` that
      are not whitespace all stay, upper-cased and in order. `StripUpperAt`
      places each character. */
  function StripUpper(s: string): (r: string)
    ensures IsStripped(r)
    ensures forall i :: 0 <= i < |r| ==> !IsLower(r[i]) && (IsUpper(r[i]) || r[i] in s)
    ensures NonSpace(r) == Upper(NonSpace(s))
  {
    var t := Strip(s);
    var r := Upper(t);
    StripUpperFacts(s, t, r);
    r
  }

  /** Position by position, `strip().upper()` is the trimmed ticker
      upper-cased: whitespace inside the ticker stays where it was, and
      only the ends are cut. */
  lemma StripUpperAt(s: string)
    ensures |StripUpper(s)| == |Strip(s)|
    ensures forall i :: 0 <= i < |StripUpper(s)| ==>
      StripUpper(s)[i] == UpperChar(Strip(s)[i]) && (IsSpace(StripUpper(s)[i]) <==> IsSpace(Strip(s)[i]))
  {
    assert StripUpper(s) == Upper(Strip(s));
  }

  /** The facts behind `StripUpper`, for `t` the stripped string and `r` its
      upper-case form. */
  lemma StripUpperFacts(s: string, t: string, r: string)
    requires t == Strip(s) && r == Upper(t)
    ensures IsStripped(r)
    ensures forall i :: 0 <= i < |r| ==> !IsLower(r[i]) && (IsUpper(r[i]) || r[i] in s)
    ensures NonSpace(r) == Upper(NonSpace(s))
  {
    assert IsStripped(r) by {
      if r != [] {
        assert r[0] == UpperChar(t[0]) && r[|r| - 1] == UpperChar(t[|t| - 1]);
      }
    }
    assert forall i :: 0 <= i < |r| ==> !IsLower(r[i]) && (IsUpper(r[i]) || r[i] in s) by {
      StripChars(s);
      forall i | 0 <= i < |r| ensures IsUpper(r[i]) || r[i] in s {
        assert r[i] == UpperChar(t[i]) && t[i] in s;
      }
    }
    assert NonSpace(r) == Upper(NonSpace(s)) by {
      StripNonSpace(s);
      NonSpaceUpper(t);
    }
  }

  /** `upper` keeps whitespace and non-whitespace apart. */
  lemma {:induction false} NonSpaceUpper(x: string)
    ensures NonSpace(Upper(x)) == Upper(NonSpace(x))
    decreases |x|
  {
    if x != [] {
      var u := Upper(x);
      assert u[1..] == Upper(x[1..]);
      NonSpaceUpper(x[1..]);
      var n := NonSpace(x[1..]);
      if !IsSpace(x[0]) {
        assert Upper([x[0]] + n) == [u[0]] + Upper(n);
      }
    }
  }

  /** The character class `[.\-_]` that both ticker normalisers delete. */
  const TickerPunctuation: set<char> := {'.', '-', '_'}

  /** Strings equal up to case agree up to case at every position. */
  lemma LowerAt(a: string, b: string, i: nat)
    requires Lower(a) == Lower(b) && i < |a|
    ensures LowerChar(a[i]) == LowerChar(b[i])
  {
    assert Lower(a)[i] == Lower(b)[i];
  }

  /** Exchange codes are words of letters. */
  predicate IsCodeList(codes: seq<string>) {
    forall k :: 0 <= k < |codes| ==> codes[k] != [] && forall j :: 0 <= j < |codes[k]| ==> IsAlpha(codes[k][j])
  }

  /** A code of the list is a code, in the same case as itself. */
  lemma CodeOfList(code: string, codes: seq<string>)
    requires IsCodeList(codes) && code in codes
    ensures IsCodeList([code]) && exists c :: c in codes && EqualsIgnoreCase(code, c)
  {
    var k :| 0 <= k < |codes| && codes[k] == code;
    assert EqualsIgnoreCase(code, code);
  }

  /** A code that equals `w` up to case, and a colon, begin a string that
      `w`'s alternative matches. */
  lemma PrefixOfCode(code: string, rest: string, w: string)
    requires EqualsIgnoreCase(code, w)
    ensures HasCodePrefix(code + ":" + rest, w)
  {
    var s := code + ":" + rest;
    assert |Lower(code)| == |Lower(w)|;
    assert s[..|w|] == code;
  }

  /** A ticker that starts with one of the codes, in any case, and a colon
      loses exactly that code and colon, whichever code of the list is
      tried first. */
  lemma {:induction false} StripExchangePrefixRemoves(code: string, rest: string, codes: seq<string>)
    requires IsCodeList(codes) && IsCodeList([code])
    requires exists c :: c in codes && EqualsIgnoreCase(code, c)
    ensures StripExchangePrefix(code + ":" + rest, codes) == rest
    decreases |codes|
  {
    var s := code + ":" + rest;
    var c := codes[0];
    assert forall j :: 0 <= j < |code| ==> IsAlpha(code[j]) by {
      assert [code][0] == code;
    }
    if HasCodePrefix(s, c) {
      assert forall j :: 0 <= j < |c| ==> IsAlpha(c[j]);
      if |c| < |code| {
        assert false;
      } else if |c| > |code| {
        LowerAt(s[..|c|], c, |code|);
        assert false;
      }
      assert s[|c| + 1..] == rest;
    } else {
      var w :| w in codes && EqualsIgnoreCase(code, w);
      PrefixOfCode(code, rest, w);
      var k :| 0 <= k < |codes| && codes[k] == w;
      assert k != 0;
      assert codes[1..][k - 1] == w;
      StripExchangePrefixRemoves(code, rest, codes[1..]);
    }
  }

  /** A ticker without a colon keeps its beginning. */
  lemma NoExchangePrefix(s: string, codes: seq<string>)
    requires ':' !in s
    ensures StripExchangePrefix(s, codes) == s
  {
  }

  /** A code that equals `w` up to case, after a dot, ends a string that
      `w`'s alternative matches. */
  lemma SuffixOfCode(rest: string, code: string, w: string)
    requires EqualsIgnoreCase(code, w)
    ensures HasCodeSuffix(rest + "." + code, w)
  {
    var s := rest + "." + code;
    assert |Lower(code)| == |Lower(w)|;
    assert s[|s| - |w|..] == code;
  }

  /** A code of letters that matches after the dot before `code` is `code`'s
      length: a shorter one would leave letters of `code` before its dot, a
      longer one would need the dot to be a letter. */
  lemma DotCodeMatch(rest: string, code: string, c: string)
    requires IsCodeList([code]) && forall j :: 0 <= j < |c| ==> IsAlpha(c[j])
    requires HasCodeSuffix(rest + "." + code, c)
    ensures (rest + "." + code)[..|rest + "." + code| - |c| - 1] == rest
  {
    var s := rest + "." + code;
    assert forall j :: 0 <= j < |code| ==> IsAlpha(code[j]) by {
      assert [code][0] == code;
    }
    if |c| < |code| {
      assert false;
    } else if |c| > |code| {
      LowerAt(s[|s| - |c|..], c, |c| - |code| - 1);
      assert false;
    }
  }

  /** A ticker that ends with a dot and one of the codes, in any case, loses
      exactly that dot and code, whichever code of the list is tried first. */
  lemma {:induction false} StripDotCodeRemoves(rest: string, code: string, codes: seq<string>)
    requires IsCodeList(codes) && IsCodeList([code])
    requires exists c :: c in codes && EqualsIgnoreCase(code, c)
    ensures StripDotCode(rest + "." + code, codes) == rest
    decreases |codes|
  {
    var s := rest + "." + code;
    var c := codes[0];
    if HasCodeSuffix(s, c) {
      assert forall j :: 0 <= j < |c| ==> IsAlpha(c[j]);
      DotCodeMatch(rest, code, c);
    } else {
      var w :| w in codes && EqualsIgnoreCase(code, w);
      SuffixOfCode(rest, code, w);
      var k :| 0 <= k < |codes| && codes[k] == w;
      assert k != 0;
      assert codes[1..][k - 1] == w;
      StripDotCodeRemoves(rest, code, codes[1..]);
    }
  }

  /** A ticker that ends with a dot and a code, in any case, loses them. */
  lemma StripExchangeSuffixRemoves(rest: string, code: string, codes: seq<string>)
    requires IsCodeList(codes) && IsCodeList([code])
    requires exists c :: c in codes && EqualsIgnoreCase(code, c)
    ensures StripExchangeSuffix(rest + "." + code, codes) == rest
  {
    var s := rest + "." + code;
    assert IsAlpha(code[|code| - 1]) by {
      assert [code][0] == code;
    }
    assert SplitFinalNewline(s) == (s, "");
    StripDotCodeRemoves(rest, code, codes);
  }

  /** Python's `$` also matches before a final newline: a dot and a code
      followed by one newline are removed and the newline stays. */
  lemma StripExchangeSuffixBeforeNewline(rest: string, code: string, codes: seq<string>)
    requires IsCodeList(codes) && IsCodeList([code])
    requires exists c :: c in codes && EqualsIgnoreCase(code, c)
    ensures StripExchangeSuffix(rest + "." + code + "\n", codes) == rest + "\n"
  {
    var body := rest + "." + code;
    assert SplitFinalNewline(body + "\n") == (body, "\n");
    StripDotCodeRemoves(rest, code, codes);
  }

  /** A ticker without a dot keeps its end. */
  lemma NoExchangeSuffix(s: string, codes: seq<string>)
    requires '.' !in s
    ensures StripExchangeSuffix(s, codes) == s
  {
    var (body, tail) := SplitFinalNewline(s);
    assert '.' !in body by {
      assert forall i :: 0 <= i < |body| ==> body[i] == s[i];
    }
  }

  /** A string without whitespace that ends in none of the codes keeps
      its end. */
  lemma NoSuffixUnspaced(s: string, codes: seq<string>)
    requires s != [] && !IsSpace(s[|s| - 1])
    requires forall c :: c in codes ==> !HasCodeSuffix(s, c)
    ensures StripExchangeSuffix(s, codes) == s
  {
    assert SplitFinalNewline(s) == (s, "");
  }

  /** A string without whitespace is only upper-cased by `StripUpper`. */
  lemma StripUpperUnspaced(s: string)
    requires forall i :: 0 <= i < |s| ==> !IsSpace(s[i])
    ensures StripUpper(s) == Upper(s)
  {
    StripUnspaced(s);
  }

  /** A trimmed string without lower-case letters is left alone by `StripUpper`. */
  lemma StripUpperKeeps(s: string)
    requires IsStripped(s) && forall i :: 0 <= i < |s| ==> !IsLower(s[i])
    ensures StripUpper(s) == s
  {
    assert LStrip(s) == s;
    assert RStrip(s) == s;
  }

  /** `StripUpper` brings no ticker punctuation back. */
  lemma StripUpperNoPunctuation(s: string, r: string)
    requires forall i :: 0 <= i < |s| ==> s[i] !in TickerPunctuation
    requires r == StripUpper(s)
    ensures forall i :: 0 <= i < |r| ==> r[i] !in TickerPunctuation
  {
    assert forall i :: 0 <= i < |r| ==> IsUpper(r[i]) || r[i] in s;
    CapitalsOrFrom(s, r);
  }

  /** Characters that are capitals or come from `s` are not ticker
      punctuation when no character of `s` is. */
  lemma CapitalsOrFrom(s: string, r: string)
    requires forall i :: 0 <= i < |s| ==> s[i] !in TickerPunctuation
    requires forall i :: 0 <= i < |r| ==> IsUpper(r[i]) || r[i] in s
    ensures forall i :: 0 <= i < |r| ==> r[i] !in TickerPunctuation
  {
    forall i | 0 <= i < |r| ensures r[i] !in TickerPunctuation {
      var c := r[i];
      if !IsUpper(c) {
        var k :| 0 <= k < |s| && s[k] == c;
        assert s[k] !in TickerPunctuation;
      }
    }
  }

  // ---------------------------------------------------------------------------
  // Corporate suffixes of names

  /** The pattern `\s+<word>$`, or `\s+<word><c>?$` when `optional` is `Some(c)`. */
  datatype SuffixPattern = SuffixPattern(word: string, optional: Option<char>)

  /** `body` ends with `lit` preceded by at least one whitespace character. */
  predicate EndsWithSpacedWord(body: string, lit: string) {
    |body| > |lit| && EndsWith(body, lit) && IsSpace(body[|body| - |lit| - 1])
  }

  /** The word of `p`, or the word and its optional character. */
  predicate IsPatternWord(lit: string, p: SuffixPattern) {
    lit == p.word || (p.optional.Some? && lit == p.word + [p.optional.value])
  }

  /** The pattern matches `body` from position `k` to its end: a non-empty
      run of whitespace from `k` to `j`, then the word (with or without its
      optional character) up to the end. */
  predicate MatchesFrom(body: string, k: nat, p: SuffixPattern) {
    k < |body| &&
    exists j :: k < j <= |body| && IsPatternWord(body[j..], p) &&
      forall i :: k <= i < j ==> IsSpace(body[i])
  }

  /** `r` is `s` with a match of the pattern taken out: the match starts at
      the first character of a whitespace run and runs to the end of the
      body, and the final newline, if any, stays. */
  predicate RemovesMatch(s: string, r: string, p: SuffixPattern) {
    var (body, tail) := SplitFinalNewline(s);
    exists k :: 0 <= k <= |body| && r == body[..k] + tail && MatchesFrom(body, k, p) && (k == 0 || !IsSpace(body[k - 1]))
  }

  /** The pattern matches `s` nowhere. */
  predicate NoMatch(s: string, p: SuffixPattern) {
    var body := SplitFinalNewline(s).0;
    forall k :: 0 <= k <= |body| ==> !MatchesFrom(body, k, p)
  }

  /** `re.sub(pattern, '', s)` for one suffix pattern. A match starts at the
      first character of the whitespace run before the suffix, so the whole
      run goes with it; the optional character is greedy and is tried first.
      Only one match is possible: after it only the final newline, if any,
      is left. */
  function StripNameSuffix(s: string, p: SuffixPattern): (r: string)
    ensures |r| <= |s|
    ensures NoUpper(s) ==> NoUpper(r)
    ensures NoMatch(s, p) ==> r == s
    ensures !NoMatch(s, p) ==> RemovesMatch(s, r, p)
  {
    var (body, tail) := SplitFinalNewline(s);
    var long := if p.optional.Some? then p.word + [p.optional.value] else p.word;
    if EndsWithSpacedWord(body, long) then
      var r := RStrip(body[..|body| - |long|]) + tail;
      CutSpacedWord(s, body, tail, long, p, r);
      r
    else if EndsWithSpacedWord(body, p.word) then
      var r := RStrip(body[..|body| - |p.word|]) + tail;
      CutSpacedWord(s, body, tail, p.word, p, r);
      r
    else
      NoMatchIff(s, body, p);
      s
  }

  /** Cutting a spaced pattern word off the body removes a match, makes
      the string no longer and keeps it free of capitals. */
  lemma CutSpacedWord(s: string, body: string, tail: string, lit: string, p: SuffixPattern, r: string)
    requires (body, tail) == SplitFinalNewline(s)
    requires EndsWithSpacedWord(body, lit) && IsPatternWord(lit, p)
    requires r == RStrip(body[..|body| - |lit|]) + tail
    ensures |r| <= |s| && (NoUpper(s) ==> NoUpper(r))
    ensures RemovesMatch(s, r, p) && !NoMatch(s, p)
  {
    var j := |body| - |lit|;
    CutKeepsNoUpper(s, body, tail, j, r);
    assert body[j..] == lit;
    CutMatches(s, body, tail, j, p);
  }

  /** When the body ends with whitespace and a pattern word from `j` on,
      `rstrip` of the part before `j` stops at the start of that whitespace
      run, and the pattern matches from there. */
  lemma CutMatches(s: string, body: string, tail: string, j: nat, p: SuffixPattern)
    requires (body, tail) == SplitFinalNewline(s)
    requires 0 < j <= |body| && IsSpace(body[j - 1]) && IsPatternWord(body[j..], p)
    ensures RemovesMatch(s, RStrip(body[..j]) + tail, p) && !NoMatch(s, p)
  {
    var h := body[..j];
    var k := |RStrip(h)|;
    assert k < j;
    assert body[..k] == h[..k];
    forall i | k <= i < j ensures IsSpace(body[i]) {
      assert body[i] == h[i];
    }
    if k > 0 {
      assert body[k - 1] == RStrip(h)[k - 1];
    }
    assert MatchesFrom(body, k, p);
    assert RStrip(h) + tail == body[..k] + tail;
  }

  /** A match ends the body with whitespace and a word of the pattern. */
  lemma MatchEndsSpaced(body: string, k: nat, p: SuffixPattern)
    requires MatchesFrom(body, k, p)
    ensures EndsWithSpacedWord(body, p.word) || (p.optional.Some? && EndsWithSpacedWord(body, p.word + [p.optional.value]))
  {
    var j :| k < j <= |body| && IsPatternWord(body[j..], p) && forall i :: k <= i < j ==> IsSpace(body[i]);
    var lit := body[j..];
    assert IsSpace(body[j - 1]);
    assert body[|body| - |lit|..] == lit;
  }

  /** The pattern matches nowhere exactly when the body does not end with
      whitespace and one of its words. */
  lemma NoMatchIff(s: string, body: string, p: SuffixPattern)
    requires body == SplitFinalNewline(s).0
    ensures NoMatch(s, p) <==>
      !EndsWithSpacedWord(body, p.word) && (p.optional.Some? ==> !EndsWithSpacedWord(body, p.word + [p.optional.value]))
  {
    if !NoMatch(s, p) {
      MatchIsSpacedEnd(s, body, p);
    }
    if EndsWithSpacedWord(body, p.word) || (p.optional.Some? && EndsWithSpacedWord(body, p.word + [p.optional.value])) {
      SpacedEndMatches(s, body, p);
    }
  }

  /** A match leaves the body ending with whitespace and a pattern word. */
  lemma MatchIsSpacedEnd(s: string, body: string, p: SuffixPattern)
    requires body == SplitFinalNewline(s).0 && !NoMatch(s, p)
    ensures EndsWithSpacedWord(body, p.word) || (p.optional.Some? && EndsWithSpacedWord(body, p.word + [p.optional.value]))
  {
    var k :| 0 <= k <= |body| && MatchesFrom(body, k, p);
    MatchEndsSpaced(body, k, p);
  }

  /** A body ending with whitespace and a pattern word holds a match. */
  lemma SpacedEndMatches(s: string, body: string, p: SuffixPattern)
    requires body == SplitFinalNewline(s).0
    requires EndsWithSpacedWord(body, p.word) || (p.optional.Some? && EndsWithSpacedWord(body, p.word + [p.optional.value]))
    ensures !NoMatch(s, p)
  {
    var tail := SplitFinalNewline(s).1;
    if EndsWithSpacedWord(body, p.word) {
      CutMatches(s, body, tail, |body| - |p.word|, p);
    } else {
      CutMatches(s, body, tail, |body| - |p.word| - 1, p);
    }
  }

  /** Cutting the end off the body of `s` and stripping brings no capital. */
  lemma CutKeepsNoUpper(s: string, body: string, tail: string, k: nat, r: string)
    requires (body, tail) == SplitFinalNewline(s) && k <= |body|
    requires r == RStrip(body[..k]) + tail
    ensures |r| <= |s| && (NoUpper(s) ==> NoUpper(r))
  {
    var h := RStrip(body[..k]);
    assert |h| <= k;
    if NoUpper(s) {
      forall i | 0 <= i < |r|
        ensures !IsUpper(r[i])
      {
        if i < |h| {
          assert r[i] == h[i] == s[i];
        } else {
          assert tail == "\n";
        }
      }
    }
  }

  /** The loop `for suffix in suffixes: name = re.sub(suffix, '', name)`:
      each pattern is applied once, in list order (a single pass). */
  function StripNameSuffixes(s: string, patterns: seq<SuffixPattern>): (r: string)
    ensures |r| <= |s|
    ensures NoUpper(s) ==> NoUpper(r)
    decreases |patterns|
  {
    if patterns == [] then s
    else StripNameSuffixes(StripNameSuffix(s, patterns[0]), patterns[1..])
  }

  /** The pass over `ps + qs` is the pass over `ps` followed by the pass over `qs`. */
  lemma {:induction false} StripNameSuffixesAppend(s: string, ps: seq<SuffixPattern>, qs: seq<SuffixPattern>)
    ensures StripNameSuffixes(s, ps + qs) == StripNameSuffixes(StripNameSuffixes(s, ps), qs)
    decreases |ps|
  {
    if ps != [] {
      assert (ps + qs)[0] == ps[0] && (ps + qs)[1..] == ps[1..] + qs;
      StripNameSuffixesAppend(StripNameSuffix(s, ps[0]), ps[1..], qs);
    } else {
      assert ps + qs == qs;
    }
  }

  /** No pattern of the list matches `s` (and `s` has no final newline). */
  predicate NoSuffixMatches(s: string, patterns: seq<SuffixPattern>) {
    (s == [] || s[|s| - 1] != '\n') &&
    forall k :: 0 <= k < |patterns| ==>
      && !EndsWithSpacedWord(s, patterns[k].word)
      && (patterns[k].optional.Some? ==> !EndsWithSpacedWord(s, patterns[k].word + [patterns[k].optional.value]))
  }

  lemma {:induction false} StripNameSuffixesNoMatch(s: string, patterns: seq<SuffixPattern>)
    requires NoSuffixMatches(s, patterns)
    ensures StripNameSuffixes(s, patterns) == s
    decreases |patterns|
  {
    if patterns != [] {
      assert StripNameSuffix(s, patterns[0]) == s;
      assert NoSuffixMatches(s, patterns[1..]) by {
        forall k | 0 <= k < |patterns| - 1
          ensures !EndsWithSpacedWord(s, patterns[1..][k].word)
        {
          assert patterns[1..][k] == patterns[k + 1];
        }
      }
      StripNameSuffixesNoMatch(s, patterns[1..]);
    }
  }

  /** A name that is `stem`, one space and the pattern's word loses the space
      and the word. */
  lemma StripNameSuffixRemovesWord(stem: string, p: SuffixPattern)
    requires p.word != [] && p.word[|p.word| - 1] != '\n'
    requires stem == [] || !IsSpace(stem[|stem| - 1])
    requires p.optional.Some? ==> p.optional.value != p.word[|p.word| - 1]
    ensures StripNameSuffix(stem + " " + p.word, p) == stem
  {
    var s := stem + " " + p.word;
    assert SplitFinalNewline(s) == (s, "");
    assert s[..|s| - |p.word|] == stem + " ";
    assert EndsWithSpacedWord(s, p.word);
    assert RStrip(stem + " ") == stem;
  }

  /** A one-pattern pass over `stem`, a space and the pattern's word. */
  lemma PassOne(stem: string, p: SuffixPattern)
    requires p.word != [] && p.word[|p.word| - 1] != '\n'
    requires stem == [] || !IsSpace(stem[|stem| - 1])
    requires p.optional.Some? ==> p.optional.value != p.word[|p.word| - 1]
    ensures StripNameSuffixes(stem + " " + p.word, [p]) == stem
  {
    assert StripNameSuffixes(stem + " " + p.word, [p]) == StripNameSuffixes(StripNameSuffix(stem + " " + p.word, p), []);
    StripNameSuffixRemovesWord(stem, p);
  }

  /** No pattern among `ps[i..j]` has a word ending in `c` or `c` as its
      optional character. */
  predicate EndsNoneIn(ps: seq<SuffixPattern>, i: nat, j: nat, c: char)
    requires i <= j <= |ps|
    decreases j - i
  {
    i == j ||
    (&& ps[i].word != []
     && c != ps[i].word[|ps[i].word| - 1]
     && (ps[i].optional.Some? ==> c != ps[i].optional.value)
     && EndsNoneIn(ps, i + 1, j, c))
  }

  lemma {:induction false} EndsNoneInSplit(ps: seq<SuffixPattern>, i: nat, k: nat, j: nat, c: char)
    requires i <= k <= j <= |ps|
    requires EndsNoneIn(ps, i, k, c) && EndsNoneIn(ps, k, j, c)
    ensures EndsNoneIn(ps, i, j, c)
    decreases k - i
  {
    if i < k {
      EndsNoneInSplit(ps, i + 1, k, j, c);
    }
  }

  /** Patterns appended after the slice do not change it. */
  lemma {:induction false} EndsNoneInAppend(ps: seq<SuffixPattern>, qs: seq<SuffixPattern>, i: nat, j: nat, c: char)
    requires i <= j <= |ps|
    requires EndsNoneIn(ps, i, j, c)
    ensures EndsNoneIn(ps + qs, i, j, c)
    decreases j - i
  {
    if i < j {
      assert (ps + qs)[i] == ps[i];
      EndsNoneInAppend(ps, qs, i + 1, j, c);
    }
  }

  /** A string whose last character `c` ends none of the patterns
      `ps[i..j]` comes through their pass unchanged. */
  lemma {:induction false} LastCharKeeps(s: string, c: char, ps: seq<SuffixPattern>, i: nat, j: nat)
    requires i <= j <= |ps|
    requires s != [] && s[|s| - 1] == c && c != '\n'
    requires EndsNoneIn(ps, i, j, c)
    ensures StripNameSuffixes(s, ps[i..j]) == s
    decreases j - i
  {
    if i < j {
      assert ps[i..j][0] == ps[i] && ps[i..j][1..] == ps[i + 1..j];
      assert StripNameSuffix(s, ps[i]) == s;
      LastCharKeeps(s, c, ps, i + 1, j);
    }
  }

  /** A slice of the pattern list is the slice one shorter and the next pattern. */
  lemma PatternSliceSnoc(ps: seq<SuffixPattern>, i: nat, j: nat)
    requires i < j <= |ps|
    ensures ps[i..j] == ps[i..j - 1] + [ps[j - 1]]
  {
  }

  lemma SpacedWordLast(stem: string, word: string)
    requires word != []
    ensures (stem + " " + word)[|stem + " " + word| - 1] == word[|word| - 1]
  {
  }

  /** A pass that keeps `stem`, a space and the pattern's word, followed by
      that pattern, removes the space and the word. */
  lemma PassKeptThenOne(s: string, stem: string, front: seq<SuffixPattern>, p: SuffixPattern)
    requires p.word != [] && p.word[|p.word| - 1] != '\n'
    requires p.optional.Some? ==> p.optional.value != p.word[|p.word| - 1]
    requires stem == [] || !IsSpace(stem[|stem| - 1])
    requires s == stem + " " + p.word
    requires StripNameSuffixes(s, front) == s
    ensures StripNameSuffixes(s, front + [p]) == stem
  {
    StripNameSuffixesAppend(s, front, [p]);
    PassOne(stem, p);
  }

  /** The pass over `ps[i..j]` on a stem, a space and the word of the last
      of those patterns, `p`, removes the space and the word when no earlier
      pattern of the slice ends the way that word does. */
  lemma PassRemovesAt(stem: string, ps: seq<SuffixPattern>, i: nat, j: nat, p: SuffixPattern)
    requires i < j <= |ps| && ps[j - 1] == p
    requires p.word != [] && p.word[|p.word| - 1] != '\n'
    requires p.optional.Some? ==> p.optional.value != p.word[|p.word| - 1]
    requires stem == [] || !IsSpace(stem[|stem| - 1])
    requires EndsNoneIn(ps, i, j - 1, p.word[|p.word| - 1])
    ensures StripNameSuffixes(stem + " " + p.word, ps[i..j]) == stem
  {
    var s := stem + " " + p.word;
    var c := p.word[|p.word| - 1];
    SpacedWordLast(stem, p.word);
    LastCharKeeps(s, c, ps, i, j - 1);
    PatternSliceSnoc(ps, i, j);
    PassKeptThenOne(s, stem, ps[i..j - 1], p);
  }

  /** The pattern list in three consecutive slices. */
  lemma PatternSlices(ps: seq<SuffixPattern>, k1: nat, k2: nat)
    requires k1 <= k2 <= |ps|
    ensures ps == ps[0..k1] + ps[k1..k2] + ps[k2..|ps|]
  {
  }

  /** A pass over three lists, one after the other. */
  lemma PassInThree(s: string, a: seq<SuffixPattern>, b: seq<SuffixPattern>, c: seq<SuffixPattern>,
                    r1: string, r2: string, r3: string)
    requires StripNameSuffixes(s, a) == r1 && StripNameSuffixes(r1, b) == r2 && StripNameSuffixes(r2, c) == r3
    ensures StripNameSuffixes(s, a + b + c) == r3
  {
    StripNameSuffixesAppend(s, a + b, c);
    StripNameSuffixesAppend(s, a, b);
  }

  // ---------------------------------------------------------------------------
  // Clean-up of names

  /** The shape of a normalised name: word characters and single spaces, no
      space at either end. */
  predicate IsNormalShape(r: string) {
    && (forall i :: 0 <= i < |r| ==> IsWordChar(r[i]) || r[i] == ' ')
    && (r == [] || (r[0] != ' ' && r[|r| - 1] != ' '))
    && NoDoubleSpace(r)
  }

  /** `re.sub(r'[^\w\s]', ' ', s)`, then `re.sub(r'\s+', ' ', ...)`, then
      `.strip()`: single spaces between runs of the word characters of `s`,
      which all stay, in order. The words are those that `split` finds once
      the punctuation is blanked (`CleanUpWords`), and `CleanUpJoin` gives
      the whole result. */
  function CleanUp(s: string): (r: string)
    ensures IsNormalShape(r)
    ensures forall i :: 0 <= i < |r| ==> r[i] == ' ' || r[i] in s
    ensures NonSpace(r) == WordChars(s)
  {
    var c := CollapseSpace(BlankNonWord(s));
    CollapsedShape(s, c);
    BlankNonWordWords(s);
    var r := Strip(c);
    StripKeepsShape(c, r);
    StripNonSpace(c);
    r
  }

  /** The words of the cleaned-up name are the words that `split` finds once
      punctuation is blanked: a punctuation mark between two word characters
      separates them, and no word is joined or lost. */
  lemma CleanUpWords(s: string)
    ensures Split(CleanUp(s)) == Split(BlankNonWord(s))
  {
    var c := CollapseSpace(BlankNonWord(s));
    CollapseSpaceWords(BlankNonWord(s));
    SplitStrip(c);
  }

  /** A string of the normal shape is its words joined by single spaces. */
  lemma {:induction false} NormalShapeJoin(r: string)
    requires IsNormalShape(r)
    ensures r == JoinSpaced(Split(r))
    decreases |r|
  {
    if r != [] {
      var w := TakeWord(r);
      if |w| == |r| {
        assert w == r;
        SplitToken(r);
      } else {
        var rest := r[|w| + 1..];
        NormalShapeWordStep(r, w, rest);
        NormalShapeJoin(rest);
        var ws := Split(rest);
        assert ([w] + ws)[1..] == ws;
      }
    }
  }

  /** A normal-shape string that goes on after its first word is that
      word, a space, and a normal-shape string with at least one word. */
  lemma NormalShapeWordStep(r: string, w: string, rest: string)
    requires IsNormalShape(r) && r != [] && w == TakeWord(r) && |w| < |r| && rest == r[|w| + 1..]
    ensures IsNormalShape(rest) && Split(rest) != []
    ensures r == w + " " + rest
    ensures Split(r) == [w] + Split(rest)
  {
    var k := |w|;
    assert r[k] == ' ';
    assert |rest| > 0 && rest[0] == r[k + 1] by {
      assert r[|r| - 1] != ' ';
    }
    NormalShapeTail(r, k + 1);
    NonSpaceStart(rest);
    SpaceBetween(r, w, rest);
    assert !IsSpace(r[0]) by {
      assert IsWordChar(r[0]);
    }
    SplitWordSpace(r, w, rest);
  }

  /** A string whose first word is followed by a space splits into that
      word and the words after the space. */
  lemma SplitWordSpace(r: string, w: string, rest: string)
    requires r != [] && !IsSpace(r[0]) && w == TakeWord(r) && |w| < |r| && r[|w|..] == [' '] + rest
    ensures Split(r) == [w] + Split(rest)
  {
    SplitUnfold(r);
    LStripSpaces([' '], rest);
  }

  /** A string cut at a space after its prefix `w`. */
  lemma SpaceBetween(r: string, w: string, rest: string)
    requires |w| < |r| && w == r[..|w|] && r[|w|] == ' ' && rest == r[|w| + 1..]
    ensures r[|w|..] == [' '] + rest
    ensures r == w + " " + rest
  {
  }

  /** The part of a normal-shape string after a space is of the normal shape. */
  lemma NormalShapeTail(r: string, k: nat)
    requires IsNormalShape(r) && 0 < k < |r| && r[k - 1] == ' '
    ensures IsNormalShape(r[k..])
  {
    var t := r[k..];
    assert forall i :: 0 <= i < |t| ==> t[i] == r[k + i];
    assert t[0] != ' ';
    forall i, j | 0 <= i < |t| && j == i + 1 < |t|
      ensures !(t[i] == ' ' && t[j] == ' ')
    {
      assert t[i] == r[k + i] && t[j] == r[k + i + 1];
    }
  }

  /** A string that starts with a non-whitespace character has a word. */
  lemma NonSpaceStart(s: string)
    requires s != [] && !IsSpace(s[0])
    ensures Split(s) != []
  {
    SplitUnfold(s);
  }

  /** `CleanUp` is `' '.join(s.split())` on the blanked string: the words
      that `split` finds once punctuation is blanked, joined by single
      spaces. */
  lemma CleanUpJoin(s: string)
    ensures CleanUp(s) == JoinSpaced(Split(BlankNonWord(s)))
  {
    CleanUpWords(s);
    NormalShapeJoin(CleanUp(s));
  }

  /** After the two substitutions only word characters of `s` and single spaces remain. */
  lemma CollapsedShape(s: string, c: string)
    requires c == CollapseSpace(BlankNonWord(s))
    ensures forall i :: 0 <= i < |c| ==> c[i] == ' ' || (IsWordChar(c[i]) && c[i] in s)
    ensures NoDoubleSpace(c)
  {
    var b := BlankNonWord(s);
    forall i | 0 <= i < |c| ensures c[i] == ' ' || (IsWordChar(c[i]) && c[i] in s) {
      if c[i] != ' ' {
        var j :| 0 <= j < |b| && b[j] == c[i];
      }
    }
  }

  /** A slice of a string of word characters and single spaces keeps that
      property; `.strip()` takes the spaces off its ends. */
  lemma StripKeepsShape(c: string, r: string)
    requires forall i :: 0 <= i < |c| ==> c[i] == ' ' || IsWordChar(c[i])
    requires NoDoubleSpace(c)
    requires r == Strip(c)
    ensures IsNormalShape(r)
    ensures forall i :: 0 <= i < |r| ==> r[i] in c
  {
    var k := |c| - |LStrip(c)|;
    assert r == c[k..k + |r|];
    forall i | 0 <= i < |r|
      ensures r[i] == c[k + i] && (r[i] == ' ' || IsWordChar(r[i]))
    {
    }
    forall i, j | 0 <= i < |r| && j == i + 1 < |r|
      ensures !(r[i] == ' ' && r[j] == ' ')
    {
      assert r[i] == c[k + i] && r[j] == c[k + j];
    }
    assert NoDoubleSpace(r);
    assert r == [] || (r[0] != ' ' && r[|r| - 1] != ' ');
  }

  /** A string that has the normal shape is left alone by `re.sub(r'\s+', ' ', s)`. */
  lemma {:induction false} CollapseSpaceKeepsNormal(s: string)
    requires forall i :: 0 <= i < |s| ==> !IsSpace(s[i]) || s[i] == ' '
    requires NoDoubleSpace(s)
    ensures CollapseSpace(s) == s
    decreases |s|
  {
    if s != [] {
      if IsSpace(s[0]) {
        assert |s| > 1 ==> !IsSpace(s[1]);
        assert LStrip(s[1..]) == s[1..];
        CollapseSpaceKeepsNormal(s[1..]);
      } else {
        CollapseSpaceKeepsNormal(s[1..]);
      }
    }
  }

  /** Clean-up is idempotent: a string of the normal shape comes back unchanged. */
  lemma CleanUpKeepsNormal(s: string)
    requires IsNormalShape(s)
    ensures CleanUp(s) == s
  {
    assert BlankNonWord(s) == s;
    CollapseSpaceKeepsNormal(s);
  }

  /** What `normalize_name` promises of its result `r` for the pattern list
      `patterns`: "" for a missing or empty name; otherwise lower-case,
      trimmed and single-spaced, with the word characters left by the suffix
      pass as its other characters. Where the spaces fall is stated by
      `NormalizeWithJoin`. */
  predicate IsNormalFormOf(name: Option<string>, patterns: seq<SuffixPattern>, r: string) {
    && (name.None? || name.value == [] ==> r == [])
    && IsNormalShape(r)
    && NoUpper(r)
    && (name.Some? ==> NonSpace(r) == WordChars(StripNameSuffixes(Lower(name.value), patterns)))
  }

  /** The common shape of `normalize_name`: an empty or missing name gives
      "", otherwise lower-case, one pass over `patterns`, then clean-up. The
      result is lower-case, trimmed and single-spaced, and what is not a
      space in it is the word characters left by the suffix pass, in order. */
  function NormalizeWith(name: Option<string>, patterns: seq<SuffixPattern>): (r: string)
    ensures IsNormalFormOf(name, patterns, r)
  {
    if name.None? || name.value == [] then []
    else
      var lowered := Lower(name.value);
      var stripped := StripNameSuffixes(lowered, patterns);
      var r := CleanUp(stripped);
      NoUpperIn(stripped, r);
      r
  }

  /** Spaces and characters of a string without capitals bring no capital. */
  lemma NoUpperIn(s: string, t: string)
    requires NoUpper(s)
    requires forall i :: 0 <= i < |t| ==> t[i] == ' ' || t[i] in s
    ensures forall i :: 0 <= i < |t| ==> !IsUpper(t[i])
  {
    forall i | 0 <= i < |t| ensures !IsUpper(t[i]) {
      if t[i] != ' ' {
        var k :| 0 <= k < |s| && s[k] == t[i];
      }
    }
  }

  /** Lower-casing a string without capitals changes nothing. */
  lemma LowerKeeps(s: string)
    requires forall i :: 0 <= i < |s| ==> !IsUpper(s[i])
    ensures Lower(s) == s
  {
  }

  /** A name already in normal form that ends in none of the patterns is its
      own normal form. */
  lemma NormalizeWithFixed(r: string, patterns: seq<SuffixPattern>)
    requires r != [] && IsNormalShape(r) && forall i :: 0 <= i < |r| ==> !IsUpper(r[i])
    requires NoSuffixMatches(r, patterns)
    ensures NormalizeWith(Some(r), patterns) == r
  {
    LowerKeeps(r);
    StripNameSuffixesNoMatch(r, patterns);
    NormalizeWithVia(r, r, patterns, r);
  }

  /** The normal form of a non-empty name is `' '.join(...split())` of the
      suffix pass with punctuation blanked: where its single spaces fall is
      fixed, not only its other characters. */
  lemma NormalizeWithJoin(name: string, patterns: seq<SuffixPattern>)
    requires name != []
    ensures Split(NormalizeWith(Some(name), patterns))
         == Split(BlankNonWord(StripNameSuffixes(Lower(name), patterns)))
    ensures NormalizeWith(Some(name), patterns)
         == JoinSpaced(Split(BlankNonWord(StripNameSuffixes(Lower(name), patterns))))
  {
    var stripped := StripNameSuffixes(Lower(name), patterns);
    NormalizeWithSteps(name, patterns);
    CleanUpWords(stripped);
    CleanUpJoin(stripped);
  }

  /** The three steps of `NormalizeWith` on a non-empty name. */
  lemma NormalizeWithSteps(name: string, patterns: seq<SuffixPattern>)
    requires name != []
    ensures NormalizeWith(Some(name), patterns) == CleanUp(StripNameSuffixes(Lower(name), patterns))
  {
  }

  /** The normal form of a name is its suffix pass after lower-casing, when
      that pass already leaves the normal shape. */
  lemma NormalizeWithVia(name: string, lowered: string, patterns: seq<SuffixPattern>, r: string)
    requires name != [] && Lower(name) == lowered
    requires StripNameSuffixes(lowered, patterns) == r && IsNormalShape(r)
    ensures NormalizeWith(Some(name), patterns) == r
  {
    CleanUpKeepsNormal(r);
  }

  // ---------------------------------------------------------------------------
  // Parenthesised groups

  /** `re.sub(r'\([^)]+\)', '', s)` and `re.findall(r'\(([^)]+)\)', s)` in
      one scan: the text outside the groups, and the groups' contents in
      order. A group runs from a '(' to the first ')' after it and needs at
      least one character in between; a '(' that starts no group is kept. */
  function ParenGroups(s: string): (r: (string, seq<string>))
    ensures |r.0| <= |s|
    ensures |r.0| + Bracketed(r.1) == |s|
    ensures forall k :: 0 <= k < |r.1| ==> r.1[k] != [] && ')' !in r.1[k]
    ensures ('(' !in s || ')' !in s) ==> r == (s, [])
    decreases |s|
  {
    if s == [] then ([], [])
    else if s[0] == '(' && ')' in s[1..] && IndexOfChar(s[1..], ')') > 0 then
      var j := IndexOfChar(s[1..], ')');
      var rest := ParenGroups(s[j + 2..]);
      var g := s[1..j + 1];
      GroupStep(s, j, g, rest.0, rest.1);
      (rest.0, [g] + rest.1)
    else
      var rest := ParenGroups(s[1..]);
      OtherStep(s, rest.0, rest.1);
      ([s[0]] + rest.0, rest.1)
  }

  /** The contract of `ParenGroups` carries over a group at the front of `s`. */
  lemma GroupStep(s: string, j: nat, g: string, rest0: string, rest1: seq<string>)
    requires 0 < j && j + 2 <= |s| && s[0] == '(' && s[j + 1] == ')' && g == s[1..j + 1]
    requires forall k :: 0 <= k < j ==> s[1..][k] != ')'
    requires |rest0| <= |s| - (j + 2) && |rest0| + Bracketed(rest1) == |s| - (j + 2)
    requires forall k :: 0 <= k < |rest1| ==> rest1[k] != [] && ')' !in rest1[k]
    ensures |rest0| <= |s| && |rest0| + Bracketed([g] + rest1) == |s|
    ensures forall k :: 0 <= k < |[g] + rest1| ==> ([g] + rest1)[k] != [] && ')' !in ([g] + rest1)[k]
    ensures '(' in s && ')' in s
  {
    assert ')' !in g by {
      forall k | 0 <= k < |g| ensures g[k] != ')' {
        assert g[k] == s[1..][k];
      }
    }
    assert ([g] + rest1)[0] == g && ([g] + rest1)[1..] == rest1;
  }

  /** The contract of `ParenGroups` carries over a first character that
      starts no group. */
  lemma OtherStep(s: string, rest0: string, rest1: seq<string>)
    requires s != []
    requires |rest0| <= |s| - 1 && |rest0| + Bracketed(rest1) == |s| - 1
    requires ('(' !in s[1..] || ')' !in s[1..]) ==> rest0 == s[1..] && rest1 == []
    ensures |[s[0]] + rest0| <= |s| && |[s[0]] + rest0| + Bracketed(rest1) == |s|
    ensures ('(' !in s || ')' !in s) ==> [s[0]] + rest0 == s && rest1 == []
  {
    assert s == [s[0]] + s[1..];
    assert '(' !in s ==> '(' !in s[1..];
    assert ')' !in s ==> ')' !in s[1..];
  }

  /** The characters the groups took out of the string: each content and
      its two parentheses. */
  function Bracketed(gs: seq<string>): nat
    decreases |gs|
  {
    if gs == [] then 0 else |gs[0]| + 2 + Bracketed(gs[1..])
  }

  lemma IndexOfCharIs(s: string, c: char, i: nat)
    requires i < |s| && s[i] == c && forall j :: 0 <= j < i ==> s[j] != c
    ensures IndexOfChar(s, c) == i
  {
  }

  /** A first character other than '(' is kept. */
  lemma ParenGroupsOther(s: string)
    requires s != [] && s[0] != '('
    ensures ParenGroups(s) == ([s[0]] + ParenGroups(s[1..]).0, ParenGroups(s[1..]).1)
  {
  }

  /** Text before the first '(' is kept as it is, and the scan goes on after it. */
  lemma {:induction false} ParenGroupsPlainPrefix(a: string, b: string)
    requires '(' !in a
    ensures ParenGroups(a + b) == (a + ParenGroups(b).0, ParenGroups(b).1)
    decreases |a|
  {
    if a == [] {
      assert a + b == b;
      assert a + ParenGroups(b).0 == ParenGroups(b).0;
    } else {
      var s := a + b;
      assert s[0] == a[0] && s[1..] == a[1..] + b;
      ParenGroupsOther(s);
      ParenGroupsPlainPrefix(a[1..], b);
      ConsFront(a, ParenGroups(b).0);
    }
  }

  /** A '(' followed by a non-empty text without ')' and a ')' is one group:
      the text is collected, all three parts leave the string, and the scan
      goes on after the ')'. */
  lemma ParenGroupsGroup(g: string, b: string)
    requires g != [] && ')' !in g
    ensures ParenGroups("(" + g + ")" + b) == (ParenGroups(b).0, [g] + ParenGroups(b).1)
  {
    var s := "(" + g + ")" + b;
    var t := s[1..];
    assert t == g + ")" + b;
    assert t[|g|] == ')';
    forall j | 0 <= j < |g| ensures t[j] != ')' {
      assert t[j] == g[j];
    }
    IndexOfCharIs(t, ')', |g|);
    assert s[|g| + 2..] == b;
    assert s[1..|g| + 1] == g;
  }

  /** A '(' that is not followed by a group (no ')' after it, or a ')'
      right after it) is kept as an ordinary character. */
  lemma ParenGroupsLoneOpen(b: string)
    requires b == [] || b[0] == ')' || ')' !in b
    ensures ParenGroups("(" + b) == ("(" + ParenGroups(b).0, ParenGroups(b).1)
  {
    var s := "(" + b;
    assert s[1..] == b;
    if b != [] && b[0] == ')' {
      IndexOfCharIs(b, ')', 0);
    }
  }
}
