/**
 * Worked examples of `normalize_name` in `supabase/mapping_script.py` and
 * `supabase/mapping_script2.py`: a name the single pass over the suffix
 * patterns fully handles, one it leaves half done, one the two scripts
 * normalise differently, and one whose punctuation becomes a space.
 */
module NameExamples {
  import opened Wrappers
  import opened Text
  import opened Patterns
  import opened MappingScript
  import MappingScript2

  /** "ltd" is the second pattern, "mines" the eleventh, and "inc", the
      first, does not end in 'd'. */
  lemma AgnicoPatterns()
    ensures NameSuffixes[1] == SuffixPattern("ltd", Some('.'))
    ensures NameSuffixes[10] == SuffixPattern("mines", None)
    ensures EndsNoneIn(NameSuffixes, 0, 1, 'd')
  {
  }

  /** The eight patterns from "limited" to "mining" all end in other letters than 's'. */
  lemma AgnicoBeforeMines()
    ensures EndsNoneIn(NameSuffixes, 2, 10, 's')
  {
  }

  /** The six patterns after "mines" all end in other letters than 'e'. */
  lemma AgnicoAfterMines()
    ensures EndsNoneIn(NameSuffixes, 11, 17, 'e')
  {
  }

  lemma AgnicoLtd(s2: string, ps: seq<SuffixPattern>)
    requires s2 == "agnico eagle" && ps == NameSuffixes
    ensures StripNameSuffixes(s2 + " " + "mines" + " " + "ltd", ps[0..2]) == s2 + " " + "mines"
  {
    AgnicoPatterns();
    PassRemovesAt(s2 + " " + "mines", ps, 0, 2, SuffixPattern("ltd", Some('.')));
  }

  lemma AgnicoMines(s2: string, ps: seq<SuffixPattern>)
    requires s2 == "agnico eagle" && ps == NameSuffixes
    ensures StripNameSuffixes(s2 + " " + "mines", ps[2..11]) == s2
  {
    AgnicoPatterns();
    AgnicoBeforeMines();
    PassRemovesAt(s2, ps, 2, 11, SuffixPattern("mines", None));
  }

  lemma AgnicoRest(s2: string, ps: seq<SuffixPattern>)
    requires s2 == "agnico eagle" && ps == NameSuffixes
    ensures StripNameSuffixes(s2, ps[11..17]) == s2
  {
    AgnicoAfterMines();
    LastCharKeeps(s2, 'e', ps, 11, 17);
  }

  /** The suffix pass on "agnico eagle mines ltd": "ltd" goes at the second
      pattern, "mines" at the eleventh, and the rest match nothing. */
  lemma AgnicoSuffixPass(s2: string, ps: seq<SuffixPattern>)
    requires s2 == "agnico eagle" && ps == NameSuffixes
    ensures StripNameSuffixes(s2 + " " + "mines" + " " + "ltd", ps) == s2
  {
    AgnicoLtd(s2, ps);
    AgnicoMines(s2, ps);
    AgnicoRest(s2, ps);
    PatternSlices(ps, 2, 11);
    PassInThree(s2 + " " + "mines" + " " + "ltd", ps[0..2], ps[2..11], ps[11..17], s2 + " " + "mines", s2, s2);
  }

  lemma AgnicoLower(name: string)
    requires name == "Agnico Eagle Mines Ltd"
    ensures Lower(name) == "agnico eagle" + " " + "mines" + " " + "ltd"
  {
  }

  lemma AgnicoShape(s2: string)
    requires s2 == "agnico eagle"
    ensures IsNormalShape(s2)
  {
  }

  /** "Agnico Eagle Mines Ltd" loses "ltd" and then "mines". */
  lemma NormalizeNameAgnico(name: string)
    requires name == "Agnico Eagle Mines Ltd"
    ensures NormalizeName(Some(name)) == "agnico eagle"
  {
    var s2 := "agnico eagle";
    AgnicoSuffixPass(s2, NameSuffixes);
    AgnicoLower(name);
    AgnicoShape(s2);
    NormalizeWithVia(name, s2 + " " + "mines" + " " + "ltd", NameSuffixes, s2);
  }

  /** "corp" is the fourth pattern, and the three before it end in other
      letters than 'p'. */
  lemma CorpPatterns()
    ensures NameSuffixes[3] == SuffixPattern("corp", Some('.'))
    ensures EndsNoneIn(NameSuffixes, 0, 3, 'p')
  {
  }

  /** The thirteen patterns after "corp" end in other letters than 'p'. */
  lemma CorpAfter()
    ensures EndsNoneIn(NameSuffixes, 4, 17, 'p')
  {
    CorpAfterUpToMining();
    CorpAfterFromMines();
    EndsNoneInSplit(NameSuffixes, 4, 10, 17, 'p');
  }

  lemma CorpAfterUpToMining()
    ensures EndsNoneIn(NameSuffixes, 4, 10, 'p')
  {
  }

  lemma CorpAfterFromMines()
    ensures EndsNoneIn(NameSuffixes, 10, 17, 'p')
  {
  }

  /** " corp" after a stem ending in 'p' goes at the fourth pattern, and no
      later pattern removes anything from the stem. */
  lemma CorpRemovedOnce(stem: string, ps: seq<SuffixPattern>)
    requires ps == NameSuffixes
    requires stem != [] && stem[|stem| - 1] == 'p'
    ensures StripNameSuffixes(stem + " " + "corp", ps) == stem
  {
    CorpPatterns();
    CorpAfter();
    PassRemovesAt(stem, ps, 0, 4, SuffixPattern("corp", Some('.')));
    LastCharKeeps(stem, 'p', ps, 4, 17);
    LastCharKeeps(stem, 'p', ps, 17, 17);
    PatternSlices(ps, 4, 17);
    PassInThree(stem + " " + "corp", ps[0..4], ps[4..17], ps[17..17], stem, stem, stem);
  }

  lemma CorpShapes(x: string)
    requires x == "shop"
    ensures IsNormalShape(x) && IsNormalShape(x + " " + "corp")
    ensures Lower(x + " " + "corp" + " " + "corp") == x + " " + "corp" + " " + "corp"
    ensures Lower(x + " " + "corp") == x + " " + "corp"
  {
  }

  /** The single pass leaves "shop corp corp" as "shop corp": only the
      last " corp" goes. */
  lemma NormalizeNameCorpTwice(x: string)
    requires x == "shop"
    ensures NormalizeName(Some(x + " " + "corp" + " " + "corp")) == x + " " + "corp"
  {
    var once := x + " " + "corp";
    CorpRemovedOnce(once, NameSuffixes);
    CorpShapes(x);
    NormalizeWithVia(once + " " + "corp", once + " " + "corp", NameSuffixes, once);
  }

  lemma NormalizeNameCorpOnce(x: string)
    requires x == "shop"
    ensures NormalizeName(Some(x + " " + "corp")) == x
  {
    var once := x + " " + "corp";
    CorpRemovedOnce(x, NameSuffixes);
    CorpShapes(x);
    NormalizeWithVia(once, once, NameSuffixes, x);
  }

  /** Normalising is therefore not idempotent: "shop corp corp" normalises
      to "shop corp", which normalises further to "shop". */
  lemma NormalizeNameNotIdempotent(x: string)
    requires x == "shop"
    ensures NormalizeName(Some(NormalizeName(Some(x + " " + "corp" + " " + "corp")))) != NormalizeName(Some(x + " " + "corp" + " " + "corp"))
  {
    NormalizeNameCorpTwice(x);
    NormalizeNameCorpOnce(x);
  }

  /** "international" is the last of the 21 patterns of the second script. */
  lemma InternationalIsLast()
    ensures |MappingScript2.NameSuffixes2| == 21
    ensures MappingScript2.NameSuffixes2[20] == SuffixPattern("international", None)
  {
  }

  /** None of the first script's 17 patterns ends in 'l', in three parts. */
  lemma NotLFirstFour()
    ensures EndsNoneIn(NameSuffixes, 0, 4, 'l')
  {
  }

  lemma NotLUpToMining()
    ensures EndsNoneIn(NameSuffixes, 4, 10, 'l')
  {
  }

  lemma NotLFromMines()
    ensures EndsNoneIn(NameSuffixes, 10, 17, 'l')
  {
  }

  lemma NotLInFirstList()
    ensures EndsNoneIn(NameSuffixes, 0, 17, 'l')
  {
    NotLFirstFour();
    NotLUpToMining();
    NotLFromMines();
    EndsNoneInSplit(NameSuffixes, 0, 4, 10, 'l');
    EndsNoneInSplit(NameSuffixes, 0, 10, 17, 'l');
  }

  /** Nor does any of the second script's first twenty. */
  lemma NotLBeforeInternational()
    ensures EndsNoneIn(MappingScript2.NameSuffixes2, 0, 20, 'l')
  {
    NotLInFirstList();
    EndsNoneInAppend(NameSuffixes, MappingScript2.ExtraSuffixes, 0, 17, 'l');
    assert EndsNoneIn(MappingScript2.NameSuffixes2, 17, 20, 'l');
    EndsNoneInSplit(MappingScript2.NameSuffixes2, 0, 17, 20, 'l');
  }

  /** The last of the second script's patterns removes " international";
      none of the twenty before it ends in 'l'. */
  lemma InternationalPass2(x: string, ps: seq<SuffixPattern>)
    requires ps == MappingScript2.NameSuffixes2
    requires x != [] && !IsSpace(x[|x| - 1])
    ensures StripNameSuffixes(x + " " + "international", ps) == x
  {
    InternationalIsLast();
    NotLBeforeInternational();
    PassRemovesAt(x, ps, 0, 21, SuffixPattern("international", None));
    assert ps[0..21] == ps;
  }

  /** None of the first script's 17 patterns ends in 'l'. */
  lemma InternationalPass1(x: string, ps: seq<SuffixPattern>)
    requires ps == NameSuffixes
    requires x != []
    ensures StripNameSuffixes(x + " " + "international", ps) == x + " " + "international"
  {
    var s := x + " " + "international";
    NotLInFirstList();
    SpacedWordLast(x, "international");
    LastCharKeeps(s, 'l', ps, 0, 17);
    assert ps[0..17] == ps;
  }

  /** A normalised name, a space and a word of lower-case letters is
      normalised too. */
  lemma InternationalShape(x: string)
    requires x != [] && IsNormalShape(x) && NoUpper(x)
    ensures var s := x + " " + "international";
      IsNormalShape(s) && NoUpper(s) && !IsSpace(x[|x| - 1])
  {
    var s := x + " " + "international";
    forall i, j | 0 <= i < |s| && j == i + 1 < |s|
      ensures !(s[i] == ' ' && s[j] == ' ')
    {
      if j < |x| {
        assert s[i] == x[i] && s[j] == x[j];
      }
    }
  }

  /** The second script strips " international" from a normalised name. */
  lemma NormalizeName2International(x: string)
    requires x != [] && IsNormalShape(x) && NoUpper(x)
    ensures MappingScript2.NormalizeName2(Some(x + " " + "international")) == x
  {
    var s := x + " " + "international";
    InternationalShape(x);
    LowerKeeps(s);
    InternationalPass2(x, MappingScript2.NameSuffixes2);
    NormalizeWithVia(s, s, MappingScript2.NameSuffixes2, x);
  }

  /** The first script keeps it. */
  lemma NormalizeNameKeepsInternational(x: string)
    requires x != [] && IsNormalShape(x) && NoUpper(x)
    ensures NormalizeName(Some(x + " " + "international")) == x + " " + "international"
  {
    var s := x + " " + "international";
    InternationalShape(x);
    LowerKeeps(s);
    InternationalPass1(x, NameSuffixes);
    NormalizeWithVia(s, s, NameSuffixes, s);
  }

  /** "ag" and "mining" are the ninth and tenth patterns, and the eight
      before them end in other letters than 'g'. */
  lemma AmpersandPatterns()
    ensures NameSuffixes[8] == SuffixPattern("ag", None)
    ensures NameSuffixes[9] == SuffixPattern("mining", None)
    ensures EndsNoneIn(NameSuffixes, 0, 8, 'g')
  {
    AmpersandFirstFour();
    AmpersandNextFour();
    EndsNoneInSplit(NameSuffixes, 0, 4, 8, 'g');
  }

  lemma AmpersandFirstFour()
    ensures EndsNoneIn(NameSuffixes, 0, 4, 'g')
  {
  }

  lemma AmpersandNextFour()
    ensures EndsNoneIn(NameSuffixes, 4, 8, 'g')
  {
  }

  /** The seven patterns after "mining" end in other letters than 'b'. */
  lemma AmpersandAfterMining()
    ensures EndsNoneIn(NameSuffixes, 10, 17, 'b')
  {
    AmpersandMinesToGold();
    AmpersandSilverOn();
    EndsNoneInSplit(NameSuffixes, 10, 14, 17, 'b');
  }

  lemma AmpersandMinesToGold()
    ensures EndsNoneIn(NameSuffixes, 10, 14, 'b')
  {
  }

  lemma AmpersandSilverOn()
    ensures EndsNoneIn(NameSuffixes, 14, 17, 'b')
  {
  }

  /** "ag" ends in 'g' too, but "a&b mining" does not end in " ag". */
  lemma AmpersandNotAg(s: string, p: SuffixPattern)
    requires s == "a&b mining" && p == SuffixPattern("ag", None)
    ensures StripNameSuffix(s, p) == s
  {
    assert SplitFinalNewline(s).0 == s;
    assert s[|s| - 2..] == "ng";
    NoMatchIff(s, s, p);
  }

  lemma AmpersandFront(stem: string, ps: seq<SuffixPattern>)
    requires stem == "a&b" && ps == NameSuffixes
    ensures StripNameSuffixes(stem + " " + "mining", ps[0..8]) == stem + " " + "mining"
  {
    AmpersandPatterns();
    LastCharKeeps(stem + " " + "mining", 'g', ps, 0, 8);
  }

  /** "ag" leaves "a&b mining" alone, and "mining" then goes. */
  lemma AmpersandAgMining(stem: string, ps: seq<SuffixPattern>)
    requires stem == "a&b" && ps == NameSuffixes
    ensures StripNameSuffixes(stem + " " + "mining", ps[8..10]) == stem
  {
    var s := stem + " " + "mining";
    AmpersandPatterns();
    assert ps[8..10][0] == ps[8] && ps[8..10][1..] == ps[9..10];
    AmpersandNotAg(s, ps[8]);
    PassRemovesAt(stem, ps, 9, 10, SuffixPattern("mining", None));
  }

  lemma AmpersandRest(stem: string, ps: seq<SuffixPattern>)
    requires stem == "a&b" && ps == NameSuffixes
    ensures StripNameSuffixes(stem, ps[10..17]) == stem
  {
    AmpersandAfterMining();
    LastCharKeeps(stem, 'b', ps, 10, 17);
  }

  /** The suffix pass on "a&b mining": only "mining" goes. */
  lemma AmpersandSuffixPass(stem: string, ps: seq<SuffixPattern>)
    requires stem == "a&b" && ps == NameSuffixes
    ensures StripNameSuffixes(stem + " " + "mining", ps) == stem
  {
    var s := stem + " " + "mining";
    AmpersandFront(stem, ps);
    AmpersandAgMining(stem, ps);
    AmpersandRest(stem, ps);
    PatternSlices(ps, 8, 10);
    PassInThree(s, ps[0..8], ps[8..10], ps[10..17], s, stem, stem);
  }

  lemma AmpersandLower(name: string)
    requires name == "A&B Mining"
    ensures Lower(name) == "a&b" + " " + "mining"
  {
  }

  /** Clean-up turns the '&' into a space. */
  lemma AmpersandCleanUp(stem: string)
    requires stem == "a&b"
    ensures CleanUp(stem) == "a b"
  {
    assert BlankNonWord(stem) == "a b" == BlankNonWord("a b");
    CleanUpKeepsNormal("a b");
  }

  /** "A&B Mining" loses "mining", and its '&' becomes the space between
      the two letters that are left: "a b". */
  lemma NormalizeNameAmpersand(name: string)
    requires name == "A&B Mining"
    ensures NormalizeName(Some(name)) == "a b"
  {
    var stem := "a&b";
    AmpersandLower(name);
    AmpersandSuffixPass(stem, NameSuffixes);
    AmpersandCleanUp(stem);
    NormalizeWithSteps(name, NameSuffixes);
  }
}
