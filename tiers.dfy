/**
 * The tiers of `perform_matching`, common to both scripts: a known
 * override, then an exact ticker, then an exact normalised name, then the
 * best fuzzy candidate, each tier tried only when the earlier ones found
 * nothing. What the scripts do differently (the normalisers and the fuzzy
 * thresholds) is a `Config`.
 */
module Tiers {
  import opened Wrappers
  import opened Records
  import opened Fuzzy
  import LookupIndex

  /** A fuzzy floor: the lowest score accepted. */
  type Floor = x: int | 1 <= x <= 100 witness 100

  /** The settings of one script: the `known_mappings` table that `main`
      passes to `perform_matching`, its two normalisers, the fuzzy floor
      and the score from which a fuzzy match counts as 'matched' rather
      than 'manual'. */
  datatype Config = Config(
    known: map<int, KnownEntry>,
    normalizeTicker: Option<string> -> Option<string>,
    normalizeName: Option<string> -> string,
    floor: Floor,
    split: Percent)

  // ---------------------------------------------------------------------------
  // The lookup dictionaries

  /** `normalize_ticker(t)` behind the guard `if t:` that both call sites
      put before it: a missing or empty ticker gives no key. */
  function TickerOf(cfg: Config, t: Option<string>): (r: Option<string>)
    ensures t.None? || t.value == [] ==> r.None?
  {
    if t.None? || t.value == [] then None else cfg.normalizeTicker(t)
  }

  /** The ticker keys of a company: its normalised ticker, if any. */
  function TickerKeys(cfg: Config, gs: GoldstockCompany): (ks: seq<string>)
    ensures forall k :: k in ks <==> TickerOf(cfg, gs.ticker) == Some(k)
  {
    match TickerOf(cfg, gs.ticker)
    case Some(t) => [t]
    case None => []
  }

  /** The name keys of a company: its normalised name, then its normalised
      aliases in order. */
  function NameKeys(cfg: Config, gs: GoldstockCompany): (ks: seq<string>)
    ensures forall k :: k in ks <==>
      k == cfg.normalizeName(Some(gs.companyName)) ||
      exists a :: a in gs.aliases && k == cfg.normalizeName(Some(a))
  {
    var aliasKeys := seq(|gs.aliases|, i requires 0 <= i < |gs.aliases| => cfg.normalizeName(Some(gs.aliases[i])));
    assert forall k :: k in aliasKeys <==> exists a :: a in gs.aliases && k == cfg.normalizeName(Some(a)) by {
      forall k ensures k in aliasKeys <==> exists a :: a in gs.aliases && k == cfg.normalizeName(Some(a)) {
        if exists a :: a in gs.aliases && k == cfg.normalizeName(Some(a)) {
          var a :| a in gs.aliases && k == cfg.normalizeName(Some(a));
          var i :| 0 <= i < |gs.aliases| && gs.aliases[i] == a;
          assert aliasKeys[i] == k;
        }
      }
    }
    [cfg.normalizeName(Some(gs.companyName))] + aliasKeys
  }

  function TickerKeysOf(cfg: Config): GoldstockCompany -> seq<string> {
    gs => TickerKeys(cfg, gs)
  }

  function NameKeysOf(cfg: Config): GoldstockCompany -> seq<string> {
    gs => NameKeys(cfg, gs)
  }

  /** `gs_by_ticker` after the loop over the goldstock companies. */
  function TickerIndex(cfg: Config, gss: seq<GoldstockCompany>): map<string, GoldstockCompany> {
    LookupIndex.Of(gss, TickerKeysOf(cfg))
  }

  /** `gs_by_normalized_name` after the loop over the goldstock companies. */
  function NameIndex(cfg: Config, gss: seq<GoldstockCompany>): map<string, GoldstockCompany> {
    LookupIndex.Of(gss, NameKeysOf(cfg))
  }

  /** Every ticker key is non-empty, is the normalised ticker of the company
      it maps to, and no later company has it. */
  lemma TickerIndexSound(cfg: Config, gss: seq<GoldstockCompany>, k: string)
    requires k in TickerIndex(cfg, gss)
    ensures k != [] && TickerOf(cfg, TickerIndex(cfg, gss)[k].ticker) == Some(k)
    ensures exists i :: LookupIndex.LastHolder(gss, TickerKeysOf(cfg), k, i) && TickerIndex(cfg, gss)[k] == gss[i]
  {
    LookupIndex.OfSound(gss, TickerKeysOf(cfg), k);
  }

  /** Every name key is non-empty, is the normalised name or a normalised
      alias of the company it maps to, and no later company has it. */
  lemma NameIndexSound(cfg: Config, gss: seq<GoldstockCompany>, k: string)
    requires k in NameIndex(cfg, gss)
    ensures k != []
    ensures var gs := NameIndex(cfg, gss)[k];
      k == cfg.normalizeName(Some(gs.companyName)) || exists a :: a in gs.aliases && k == cfg.normalizeName(Some(a))
    ensures exists i :: LookupIndex.LastHolder(gss, NameKeysOf(cfg), k, i) && NameIndex(cfg, gss)[k] == gss[i]
  {
    LookupIndex.OfSound(gss, NameKeysOf(cfg), k);
  }

  /** A company's non-empty normalised ticker is a key, mapped to the last
      company with that ticker. */
  lemma TickerIndexComplete(cfg: Config, gss: seq<GoldstockCompany>, i: nat, k: string)
    requires i < |gss| && k != [] && TickerOf(cfg, gss[i].ticker) == Some(k)
    requires forall j :: i < j < |gss| ==> TickerOf(cfg, gss[j].ticker) != Some(k)
    ensures k in TickerIndex(cfg, gss) && TickerIndex(cfg, gss)[k] == gss[i]
  {
    assert LookupIndex.LastHolder(gss, TickerKeysOf(cfg), k, i);
    LookupIndex.OfComplete(gss, TickerKeysOf(cfg), k, i);
  }

  /** A non-empty normalised alias is a key whatever the company's own name
      normalises to, even the empty string. */
  lemma AliasIndexed(cfg: Config, gss: seq<GoldstockCompany>, i: nat, a: string)
    requires i < |gss| && a in gss[i].aliases && cfg.normalizeName(Some(a)) != []
    ensures cfg.normalizeName(Some(a)) in NameIndex(cfg, gss)
  {
    var k := cfg.normalizeName(Some(a));
    assert k in NameKeysOf(cfg)(gss[i]);
    LookupIndex.OfKeys(gss, NameKeysOf(cfg), k);
  }

  /** The loop at the top of `perform_matching` that fills `gs_by_ticker`
      and `gs_by_normalized_name`: for each company in list order, its
      normalised ticker, its normalised name and each normalised alias,
      skipping empty keys, a later company overwriting an earlier one. The
      second script runs the same loop. */
  method BuildIndex(cfg: Config, goldstock: seq<GoldstockCompany>)
    returns (byTicker: map<string, GoldstockCompany>, byName: map<string, GoldstockCompany>)
    ensures byTicker == TickerIndex(cfg, goldstock)
    ensures byName == NameIndex(cfg, goldstock)
  {
    byTicker := map[];
    byName := map[];
    for i := 0 to |goldstock|
      invariant byTicker == TickerIndex(cfg, goldstock[..i])
      invariant byName == NameIndex(cfg, goldstock[..i])
    {
      LookupIndex.OfStep(goldstock, TickerKeysOf(cfg), i);
      LookupIndex.OfStep(goldstock, NameKeysOf(cfg), i);
      byTicker := IndexTicker(cfg, goldstock[i], byTicker);
      byName := IndexName(cfg, goldstock[i], byName);
    }
    assert goldstock[..|goldstock|] == goldstock;
  }

  /** The ticker step of the loop for one company: `gs_by_ticker[t] = gs`
      for its normalised ticker `t`, behind the guards `if gs.ticker:` and
      `if normalized_ticker:`. */
  method IndexTicker(cfg: Config, gs: GoldstockCompany, byTicker: map<string, GoldstockCompany>)
    returns (r: map<string, GoldstockCompany>)
    ensures r == LookupIndex.Put(byTicker, TickerKeys(cfg, gs), gs)
  {
    r := byTicker;
    if gs.ticker.Some? && gs.ticker.value != [] {
      var normalizedTicker := cfg.normalizeTicker(gs.ticker);
      if normalizedTicker.Some? && normalizedTicker.value != [] {
        r := r[normalizedTicker.value := gs];
      }
    }
  }

  /** The name step of the loop for one company: its normalised name, then
      each normalised alias in order, each written when non-empty. */
  method IndexName(cfg: Config, gs: GoldstockCompany, byName: map<string, GoldstockCompany>)
    returns (r: map<string, GoldstockCompany>)
    ensures r == LookupIndex.Put(byName, NameKeys(cfg, gs), gs)
  {
    var keys := NameKeys(cfg, gs);
    r := byName;
    var normalized := cfg.normalizeName(Some(gs.companyName));
    if normalized != [] {
      r := r[normalized := gs];
    }
    LookupIndex.PutStep(byName, keys, gs, 0);
    for j := 0 to |gs.aliases|
      invariant r == LookupIndex.Put(byName, keys[..j + 1], gs)
    {
      LookupIndex.PutStep(byName, keys, gs, j + 1);
      var normalizedAlias := cfg.normalizeName(Some(gs.aliases[j]));
      if normalizedAlias != [] {
        r := r[normalizedAlias := gs];
      }
    }
    assert keys[..|gs.aliases| + 1] == keys;
  }

  // ---------------------------------------------------------------------------
  // The outcome of one company

  /** The normalised names of the goldstock companies, in list order: the
      choices of the fuzzy tier. */
  function Choices(cfg: Config, gss: seq<GoldstockCompany>): (cs: seq<string>)
    ensures |cs| == |gss|
    ensures forall i :: 0 <= i < |gss| ==> cs[i] == cfg.normalizeName(Some(gss[i].companyName))
  {
    seq(|gss|, i requires 0 <= i < |gss| => cfg.normalizeName(Some(gss[i].companyName)))
  }

  /** The fuzzy tier: for a non-empty query, the first company whose
      normalised name is the best choice, with its score, when that score
      reaches the floor. */
  function FuzzyPick(cfg: Config, query: string, gss: seq<GoldstockCompany>, score: Scorer): (r: Option<(GoldstockCompany, Percent)>)
    ensures r.Some? ==> query != [] && r.value.1 >= cfg.floor && r.value.0 in gss
  {
    if query == [] then None
    else
      match ExtractOne(query, Choices(cfg, gss), score, cfg.floor)
      case None => None
      case Some(best) => Some((gss[FirstIndexOf(Choices(cfg, gss), best.0)], best.1))
  }

  /** The row `perform_matching` appends for company `c`. */
  function Outcome(cfg: Config, gss: seq<GoldstockCompany>, score: Scorer, c: Company): (m: Mapping)
    ensures WellFormed(m)
    ensures m.companyId == c.companyId && m.companyName == c.companyName && m.tsxCode == c.tsxCode
  {
    if c.companyId in cfg.known then
      var known := cfg.known[c.companyId];
      LinkedRow(c, known.goldstockId, known.goldstockName, Matched, known.confidenceScore, KnownMapping)
    else
      var t := TickerOf(cfg, c.tsxCode);
      var byTicker := TickerIndex(cfg, gss);
      if t.Some? && t.value != [] && t.value in byTicker then
        var gs := byTicker[t.value];
        LinkedRow(c, gs.goldstockId, gs.companyName, Matched, 100, ExactTicker)
      else
        var n := cfg.normalizeName(Some(c.companyName));
        var byName := NameIndex(cfg, gss);
        if n in byName then
          var gs := byName[n];
          LinkedRow(c, gs.goldstockId, gs.companyName, Matched, 95, ExactName)
        else
          match FuzzyPick(cfg, n, gss, score)
          case Some(pick) =>
            LinkedRow(c, pick.0.goldstockId, pick.0.companyName, if pick.1 >= cfg.split then Matched else Manual, pick.1, FuzzyName)
          case None => UnmatchedRow(c)
  }

  /** The rows for a list of companies, in order. */
  function Outcomes(cfg: Config, gss: seq<GoldstockCompany>, score: Scorer, cs: seq<Company>): (ms: seq<Mapping>)
    ensures |ms| == |cs|
    decreases |cs|
  {
    if cs == [] then []
    else Outcomes(cfg, gss, score, cs[..|cs| - 1]) + [Outcome(cfg, gss, score, cs[|cs| - 1])]
  }

  /** The row of each company is its outcome. */
  lemma {:induction false} OutcomeAt(cfg: Config, gss: seq<GoldstockCompany>, score: Scorer, cs: seq<Company>, i: nat)
    requires i < |cs|
    ensures Outcomes(cfg, gss, score, cs)[i] == Outcome(cfg, gss, score, cs[i])
    decreases |cs|
  {
    var front := cs[..|cs| - 1];
    if i < |front| {
      OutcomeAt(cfg, gss, score, front, i);
      assert front[i] == cs[i];
    }
  }

  lemma OutcomesAt(cfg: Config, gss: seq<GoldstockCompany>, score: Scorer, cs: seq<Company>)
    ensures forall i :: 0 <= i < |cs| ==> Outcomes(cfg, gss, score, cs)[i] == Outcome(cfg, gss, score, cs[i])
  {
    forall i | 0 <= i < |cs|
      ensures Outcomes(cfg, gss, score, cs)[i] == Outcome(cfg, gss, score, cs[i])
    {
      OutcomeAt(cfg, gss, score, cs, i);
    }
  }

  /** So the rows carry the companies' ids, in order. */
  lemma OutcomesIds(cfg: Config, gss: seq<GoldstockCompany>, score: Scorer, cs: seq<Company>)
    ensures Ids(Outcomes(cfg, gss, score, cs)) == seq(|cs|, i requires 0 <= i < |cs| => cs[i].companyId)
  {
    OutcomesAt(cfg, gss, score, cs);
  }

  /** One more company, one more row at the end. */
  lemma OutcomesSnoc(cfg: Config, gss: seq<GoldstockCompany>, score: Scorer, cs: seq<Company>, i: nat)
    requires i < |cs|
    ensures Outcomes(cfg, gss, score, cs[..i + 1]) == Outcomes(cfg, gss, score, cs[..i]) + [Outcome(cfg, gss, score, cs[i])]
  {
    assert cs[..i + 1][..i] == cs[..i];
  }

  // ---------------------------------------------------------------------------
  // Tier precedence

  /** The ticker tier finds a company: the normalised ticker is a key of
      the ticker dictionary. */
  predicate TickerHit(cfg: Config, gss: seq<GoldstockCompany>, c: Company) {
    var t := TickerOf(cfg, c.tsxCode);
    t.Some? && t.value in TickerIndex(cfg, gss)
  }

  /** A company of the override table gets the table's entry, whatever the
      other tiers would find. */
  lemma KnownTierFirst(cfg: Config, gss: seq<GoldstockCompany>, score: Scorer, c: Company)
    requires c.companyId in cfg.known
    ensures var m := Outcome(cfg, gss, score, c);
      var known := cfg.known[c.companyId];
      && m.matchStatus == Matched && m.matchMethod == KnownMapping
      && m.goldstockId == Some(known.goldstockId) && m.goldstockName == Some(known.goldstockName)
      && m.confidenceScore == known.confidenceScore
  {
  }

  /** Otherwise a ticker hit links the company to the ticker's company with
      confidence 100. */
  lemma TickerTierSecond(cfg: Config, gss: seq<GoldstockCompany>, score: Scorer, c: Company)
    requires c.companyId !in cfg.known && TickerHit(cfg, gss, c)
    ensures var m := Outcome(cfg, gss, score, c);
      var gs := TickerIndex(cfg, gss)[TickerOf(cfg, c.tsxCode).value];
      && m.matchStatus == Matched && m.matchMethod == ExactTicker && m.confidenceScore == 100
      && m.goldstockId == Some(gs.goldstockId) && m.goldstockName == Some(gs.companyName)
      && TickerOf(cfg, gs.ticker) == TickerOf(cfg, c.tsxCode)
  {
    TickerIndexSound(cfg, gss, TickerOf(cfg, c.tsxCode).value);
  }

  /** Otherwise a hit in the name dictionary links the company with
      confidence 95. */
  lemma NameTierThird(cfg: Config, gss: seq<GoldstockCompany>, score: Scorer, c: Company)
    requires c.companyId !in cfg.known && !TickerHit(cfg, gss, c)
    requires cfg.normalizeName(Some(c.companyName)) in NameIndex(cfg, gss)
    ensures var m := Outcome(cfg, gss, score, c);
      var n := cfg.normalizeName(Some(c.companyName));
      var gs := NameIndex(cfg, gss)[n];
      && m.matchStatus == Matched && m.matchMethod == ExactName && m.confidenceScore == 95
      && m.goldstockId == Some(gs.goldstockId) && m.goldstockName == Some(gs.companyName)
      && n != []
  {
    NameIndexSound(cfg, gss, cfg.normalizeName(Some(c.companyName)));
  }

  /** Otherwise the fuzzy tier decides. It links the company exactly when
      its normalised name is non-empty and some choice reaches the floor;
      it then takes the first company of highest score, with that score
      as confidence, 'matched' from the split up and 'manual' below it. */
  lemma FuzzyTierLast(cfg: Config, gss: seq<GoldstockCompany>, score: Scorer, c: Company)
    requires c.companyId !in cfg.known && !TickerHit(cfg, gss, c)
    requires cfg.normalizeName(Some(c.companyName)) !in NameIndex(cfg, gss)
    ensures var m := Outcome(cfg, gss, score, c);
      var n := cfg.normalizeName(Some(c.companyName));
      var cs := Choices(cfg, gss);
      && (m.matchMethod == FuzzyName <==> n != [] && exists j :: 0 <= j < |cs| && score(n, cs[j]) >= cfg.floor)
      && (m.matchMethod != FuzzyName ==> m == UnmatchedRow(c))
      && (m.matchMethod == FuzzyName ==>
            && cfg.floor <= m.confidenceScore
            && (m.matchStatus == Matched <==> m.confidenceScore >= cfg.split)
            && m.matchStatus != Unmatched
            && exists i :: 0 <= i < |gss|
                 && m.goldstockId == Some(gss[i].goldstockId) && m.goldstockName == Some(gss[i].companyName)
                 && m.confidenceScore == score(n, cs[i])
                 && (forall j :: 0 <= j < |cs| ==> score(n, cs[j]) <= score(n, cs[i]))
                 && (forall j :: 0 <= j < i ==> score(n, cs[j]) < score(n, cs[i])))
  {
    var n := cfg.normalizeName(Some(c.companyName));
    var cs := Choices(cfg, gss);
    var r := ExtractOne(n, cs, score, cfg.floor);
    if n != [] && r.Some? {
      ExtractOneFirstCopy(n, cs, score, cfg.floor);
      var i := BestIndex(n, cs, score);
      assert FirstIndexOf(cs, r.value.0) == i;
    }
  }

  /** A company stays unmatched exactly when no tier finds anything. */
  lemma UnmatchedExactly(cfg: Config, gss: seq<GoldstockCompany>, score: Scorer, c: Company)
    ensures var n := cfg.normalizeName(Some(c.companyName));
      var cs := Choices(cfg, gss);
      Outcome(cfg, gss, score, c).matchStatus == Unmatched <==>
        && c.companyId !in cfg.known
        && !TickerHit(cfg, gss, c)
        && n !in NameIndex(cfg, gss)
        && (n == [] || forall j :: 0 <= j < |cs| ==> score(n, cs[j]) < cfg.floor)
  {
    if c.companyId in cfg.known {
      KnownTierFirst(cfg, gss, score, c);
    } else if TickerHit(cfg, gss, c) {
      TickerTierSecond(cfg, gss, score, c);
    } else if cfg.normalizeName(Some(c.companyName)) in NameIndex(cfg, gss) {
      NameTierThird(cfg, gss, score, c);
    } else {
      FuzzyTierLast(cfg, gss, score, c);
    }
  }
}
