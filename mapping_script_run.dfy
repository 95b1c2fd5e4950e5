/**
 * `supabase/mapping_script.py` (first copy), the stateful part:
 * `perform_matching` with its checkpoints, the cache step of
 * `GoldstockScraper.fetch_company_by_id`, and `main`'s resume filter and
 * merge.
 */
module MappingScriptRun {
  import opened Wrappers
  import opened Records
  import opened Fuzzy
  import opened Tiers
  import opened Matcher
  import opened MappingScript

  /** The first script's settings: its two normalisers, fuzzy floor 80,
      'matched' from 90. */
  const Settings: Config := Config(KnownMappings, NormalizeTicker, NormalizeName, 80, 90)

  /** For this script the guard `if t:` adds nothing: `normalize_ticker`
      already gives `None` for a missing or empty ticker. */
  lemma TickerOfSettings(t: Option<string>)
    ensures TickerOf(Settings, t) == NormalizeTicker(t)
  {
  }

  // ---------------------------------------------------------------------------
  // perform_matching: the fuzzy tier

  /** `process.extractOne` with no cutoff, then the loop that looks for the
      first company whose normalised name is the best choice, kept only if
      the score reaches the floor (80 for this script). The result is the
      fuzzy tier of the specification, `FuzzyPick`. */
  method FuzzyMatch(cfg: Config, normalizedName: string, goldstock: seq<GoldstockCompany>, score: Scorer)
    returns (bestMatch: Option<GoldstockCompany>, bestScore: int)
    ensures match FuzzyPick(cfg, normalizedName, goldstock, score)
      case None => bestMatch.None?
      case Some(pick) => bestMatch == Some(pick.0) && bestScore == pick.1
  {
    bestMatch := None;
    bestScore := 0;
    if normalizedName != [] && goldstock != [] {
      var choices := Choices(cfg, goldstock);
      var result := ExtractOne(normalizedName, choices, score, 0);
      ExtractOneRaiseCutoff(normalizedName, choices, score, 0, cfg.floor);
      if result.Some? {
        var matchedName := result.value.0;
        var s := result.value.1;
        var i := 0;
        while i < |goldstock|
          invariant 0 <= i <= |goldstock|
          invariant forall j :: 0 <= j < i ==> choices[j] != matchedName
          invariant bestMatch.None?
        {
          if cfg.normalizeName(Some(goldstock[i].companyName)) == matchedName {
            assert i == FirstIndexOf(choices, matchedName);
            if s >= cfg.floor {
              bestMatch := Some(goldstock[i]);
              bestScore := s;
            }
            break;
          }
          i := i + 1;
        }
      }
    }
  }

  /** The rows of the three exact tiers, as the loop builds them. */
  lemma ExactTierRows(cfg: Config, gss: seq<GoldstockCompany>, score: Scorer, c: Company)
    ensures c.companyId in cfg.known ==>
      var known := cfg.known[c.companyId];
      Outcome(cfg, gss, score, c) == LinkedRow(c, known.goldstockId, known.goldstockName, Matched, known.confidenceScore, KnownMapping)
    ensures c.companyId !in cfg.known ==>
      var t := TickerOf(cfg, c.tsxCode);
      t.Some? && t.value != [] && t.value in TickerIndex(cfg, gss) ==>
      var m := TickerIndex(cfg, gss)[t.value];
      Outcome(cfg, gss, score, c) == LinkedRow(c, m.goldstockId, m.companyName, Matched, 100, ExactTicker)
    ensures c.companyId !in cfg.known ==>
      var t := TickerOf(cfg, c.tsxCode);
      var n := cfg.normalizeName(Some(c.companyName));
      !(t.Some? && t.value != [] && t.value in TickerIndex(cfg, gss)) && n in NameIndex(cfg, gss) ==>
      var m := NameIndex(cfg, gss)[n];
      Outcome(cfg, gss, score, c) == LinkedRow(c, m.goldstockId, m.companyName, Matched, 95, ExactName)
  {
  }

  /** The row of a company that reaches the fuzzy tier, from what
      `FuzzyMatch` returns. */
  lemma FuzzyTierRow(cfg: Config, gss: seq<GoldstockCompany>, score: Scorer, c: Company,
                     bestMatch: Option<GoldstockCompany>, bestScore: int)
    requires c.companyId !in cfg.known
    requires var t := TickerOf(cfg, c.tsxCode); !(t.Some? && t.value != [] && t.value in TickerIndex(cfg, gss))
    requires cfg.normalizeName(Some(c.companyName)) !in NameIndex(cfg, gss)
    requires match FuzzyPick(cfg, cfg.normalizeName(Some(c.companyName)), gss, score)
      case None => bestMatch.None?
      case Some(pick) => bestMatch == Some(pick.0) && bestScore == pick.1
    ensures bestMatch.Some? ==> cfg.floor <= bestScore <= 100
    ensures Outcome(cfg, gss, score, c) ==
      if bestMatch.Some? && bestScore >= cfg.floor then
        LinkedRow(c, bestMatch.value.goldstockId, bestMatch.value.companyName,
                  if bestScore >= cfg.split then Matched else Manual, bestScore, FuzzyName)
      else UnmatchedRow(c)
  {
  }

  // ---------------------------------------------------------------------------
  // perform_matching: the loop

  /** How many companies the loop processes when the loop head reads the
      flag for the first time after `p0` earlier reads: all of them unless
      the read at the head of some iteration sees the flag raised. */
  function Processed(raisedAt: Option<nat>, p0: nat, total: nat): (n: nat)
    ensures n <= total
    ensures raisedAt.None? ==> n == total
  {
    if raisedAt.None? then total
    else if raisedAt.value <= p0 then 0
    else if raisedAt.value - p0 < total then raisedAt.value - p0
    else total
  }

  /** The reads of the flag the loop makes: one per iteration started. */
  function Polls(n: nat, total: nat): nat {
    if n < total then n + 1 else total
  }

  /** A row that the tiers before the fuzzy one did not produce: only after
      such a row does the loop reach its periodic save. */
  predicate ReachesSave(m: Mapping) {
    m.matchMethod == FuzzyName || m.matchMethod == NoMethod
  }

  /** The fuzzy tier of the loop body, for a company that no earlier tier
      resolved: the best fuzzy choice at or above the floor becomes a row
      whose status is `matched` from the split up and `manual`
      below it; otherwise the company is left unmatched. */
  method FuzzyRow(cfg: Config, company: Company, normalizedName: string,
                  goldstock: seq<GoldstockCompany>, score: Scorer)
    returns (mapping: Mapping)
    requires company.companyId !in cfg.known
    requires var t := TickerOf(cfg, company.tsxCode); !(t.Some? && t.value != [] && t.value in TickerIndex(cfg, goldstock))
    requires normalizedName == cfg.normalizeName(Some(company.companyName))
    requires normalizedName !in NameIndex(cfg, goldstock)
    ensures mapping == Outcome(cfg, goldstock, score, company)
    ensures ReachesSave(mapping)
  {
    var bestMatch, bestScore := FuzzyMatch(cfg, normalizedName, goldstock, score);
    if bestMatch.Some? && bestScore >= cfg.floor {
      var status := if bestScore >= cfg.split then Matched else Manual;
      mapping := LinkedRow(company, bestMatch.value.goldstockId, bestMatch.value.companyName, status, bestScore, FuzzyName);
    } else {
      mapping := UnmatchedRow(company);
    }
    FuzzyTierRow(cfg, goldstock, score, company, bestMatch, bestScore);
  }

  /** One pass of the loop body after the poll: the override table, the
      exact ticker, the exact name, each of which ends the pass with
      `continue`, and otherwise the fuzzy tier. `reachedSave` says that the
      pass went on past the tiers to the periodic save, which happens
      exactly for the rows of the fuzzy tier. */
  method MatchCompany(cfg: Config, company: Company, goldstock: seq<GoldstockCompany>,
                      byTicker: map<string, GoldstockCompany>, byName: map<string, GoldstockCompany>,
                      score: Scorer)
    returns (mapping: Mapping, reachedSave: bool)
    requires byTicker == TickerIndex(cfg, goldstock) && byName == NameIndex(cfg, goldstock)
    ensures mapping == Outcome(cfg, goldstock, score, company)
    ensures reachedSave == ReachesSave(mapping)
  {
    ExactTierRows(cfg, goldstock, score, company);
    if company.companyId in cfg.known {
      var known := cfg.known[company.companyId];
      return LinkedRow(company, known.goldstockId, known.goldstockName, Matched, known.confidenceScore, KnownMapping), false;
    }
    if company.tsxCode.Some? && company.tsxCode.value != [] {
      var normalizedTicker := cfg.normalizeTicker(company.tsxCode);
      if normalizedTicker.Some? && normalizedTicker.value != [] && normalizedTicker.value in byTicker {
        var m := byTicker[normalizedTicker.value];
        return LinkedRow(company, m.goldstockId, m.companyName, Matched, 100, ExactTicker), false;
      }
    }
    var normalizedName := cfg.normalizeName(Some(company.companyName));
    if normalizedName in byName {
      var m := byName[normalizedName];
      return LinkedRow(company, m.goldstockId, m.companyName, Matched, 95, ExactName), false;
    }
    mapping := FuzzyRow(cfg, company, normalizedName, goldstock, score);
    reachedSave := true;
  }

  /** The sizes at which the loop saves the checkpoint on the way: after
      the k-th row when k is a multiple of 10 and that row came from the
      fuzzy tier or matched nothing. */
  function PeriodicSaves(rows: seq<Mapping>): seq<nat> {
    SavesUpTo(rows, |rows|)
  }

  /** The saves among the first `n` rows. */
  function SavesUpTo(rows: seq<Mapping>, n: nat): seq<nat>
    requires n <= |rows|
  {
    if n == 0 then []
    else SavesUpTo(rows, n - 1) + (if n % 10 == 0 && ReachesSave(rows[n - 1]) then [n] else [])
  }

  /** A save happens at size k exactly when k is a positive multiple of 10
      and the k-th row reached the save; the sizes come in increasing order. */
  lemma PeriodicSavesExactly(rows: seq<Mapping>)
    ensures forall k :: k in PeriodicSaves(rows) <==>
      1 <= k <= |rows| && k % 10 == 0 && ReachesSave(rows[k - 1])
    ensures forall i, j :: 0 <= i < j < |PeriodicSaves(rows)| ==> PeriodicSaves(rows)[i] < PeriodicSaves(rows)[j]
  {
    SavesUpToExactly(rows, |rows|);
  }

  lemma {:induction false} SavesUpToExactly(rows: seq<Mapping>, n: nat)
    requires n <= |rows|
    ensures forall k :: k in SavesUpTo(rows, n) <==>
      1 <= k <= n && k % 10 == 0 && ReachesSave(rows[k - 1])
    ensures forall i, j :: 0 <= i < j < |SavesUpTo(rows, n)| ==> SavesUpTo(rows, n)[i] < SavesUpTo(rows, n)[j]
  {
    if n > 0 {
      SavesUpToExactly(rows, n - 1);
      var p := SavesUpTo(rows, n - 1);
      forall i, j | 0 <= i < j < |SavesUpTo(rows, n)|
        ensures SavesUpTo(rows, n)[i] < SavesUpTo(rows, n)[j]
      {
        if j == |p| {
          assert p[i] in p;
        }
      }
    }
  }

  /** A row appended at the end leaves the saves among the earlier rows
      as they were. */
  lemma {:induction false} SavesUpToSnoc(rows: seq<Mapping>, m: Mapping, n: nat)
    requires n <= |rows|
    ensures SavesUpTo(rows + [m], n) == SavesUpTo(rows, n)
  {
    if n > 0 {
      SavesUpToSnoc(rows, m, n - 1);
      assert (rows + [m])[n - 1] == rows[n - 1];
    }
  }

  /** One more row: one more save exactly when it lands on a multiple of 10
      and reaches the save. */
  lemma PeriodicSavesSnoc(rows: seq<Mapping>, m: Mapping)
    ensures PeriodicSaves(rows + [m]) ==
      PeriodicSaves(rows) + (if (|rows| + 1) % 10 == 0 && ReachesSave(m) then [|rows| + 1] else [])
  {
    SavesUpToSnoc(rows, m, |rows|);
  }

  /** A run in which every company was resolved by an override, a ticker or
      an exact name never saves before the end, however long it is. */
  lemma NoSaveWithoutFuzzy(rows: seq<Mapping>)
    requires forall i :: 0 <= i < |rows| ==> !ReachesSave(rows[i])
    ensures PeriodicSaves(rows) == []
  {
    NoSaveUpTo(rows, |rows|);
  }

  lemma {:induction false} NoSaveUpTo(rows: seq<Mapping>, n: nat)
    requires n <= |rows|
    requires forall i :: 0 <= i < |rows| ==> !ReachesSave(rows[i])
    ensures SavesUpTo(rows, n) == []
  {
    if n > 0 {
      NoSaveUpTo(rows, n - 1);
    }
  }

  /** Among any ten rows in a row that reach the save, one lands on a
      multiple of ten, so the checkpoint is never behind by more than nine
      such rows; whenever every row reaches the save, at most nine rows go
      unsaved. */
  lemma SavedWithinNine(rows: seq<Mapping>, n: nat)
    requires 10 <= n <= |rows|
    requires forall i :: 0 <= i < |rows| ==> ReachesSave(rows[i])
    ensures exists k :: k in PeriodicSaves(rows) && n - 9 <= k <= n
  {
    PeriodicSavesExactly(rows);
    var k := 10 * (n / 10);
    assert k % 10 == 0 && n - 9 <= k <= n;
    assert ReachesSave(rows[k - 1]);
    assert k in PeriodicSaves(rows);
  }

  /** `perform_matching(companies, goldstock, known_mappings, matcher)`:
      builds the dictionaries, then for each company in order, unless the
      head of the iteration sees the flag raised, appends exactly the row
      `Outcome` gives; after a fuzzy or unmatched row that brings the count
      to a multiple of 10 it saves the checkpoint and the CSV; at the end it
      saves both. `cfg` is the script's `Settings`, which `main` passes. */
  method PerformMatching(cfg: Config, companies: seq<Company>, goldstock: seq<GoldstockCompany>,
                         matcher: CompanyMatcher, flag: InterruptFlag, score: Scorer)
    returns (mappings: seq<Mapping>)
    modifies matcher, matcher.files, flag
    ensures |mappings| == Processed(flag.raisedAt, old(flag.polls), |companies|)
    ensures mappings == Outcomes(cfg, goldstock, score, companies[..|mappings|])
    ensures flag.polls == old(flag.polls) + Polls(|mappings|, |companies|)
    ensures matcher.checkpoint == CheckpointOf(mappings)
    ensures matcher.files.checkpointFile == Some(CheckpointOf(mappings))
    ensures matcher.files.checkpointHistory == old(matcher.files.checkpointHistory) + PeriodicSaves(mappings) + [|mappings|]
    ensures matcher.files.csv == mappings
    ensures matcher.files.cacheFile == old(matcher.files.cacheFile)
    ensures matcher.cache == old(matcher.cache) && matcher.requests == old(matcher.requests)
  {
    var byTicker, byName := BuildIndex(cfg, goldstock);
    mappings := MatchAll(cfg, companies, goldstock, byTicker, byName, matcher, flag, score);
    SaveMappings(matcher.files, mappings);
    matcher.SaveCheckpoint(mappings);
  }

  /** The `for` loop of `perform_matching`, with the dictionaries built:
      the rows and the checkpoint saves on the way, before the final save. */
  method MatchAll(cfg: Config, companies: seq<Company>, goldstock: seq<GoldstockCompany>,
                  byTicker: map<string, GoldstockCompany>, byName: map<string, GoldstockCompany>,
                  matcher: CompanyMatcher, flag: InterruptFlag, score: Scorer)
    returns (mappings: seq<Mapping>)
    requires byTicker == TickerIndex(cfg, goldstock) && byName == NameIndex(cfg, goldstock)
    modifies matcher, matcher.files, flag
    ensures |mappings| == Processed(flag.raisedAt, old(flag.polls), |companies|)
    ensures mappings == Outcomes(cfg, goldstock, score, companies[..|mappings|])
    ensures flag.polls == old(flag.polls) + Polls(|mappings|, |companies|)
    ensures matcher.files.checkpointHistory == old(matcher.files.checkpointHistory) + PeriodicSaves(mappings)
    ensures matcher.files.cacheFile == old(matcher.files.cacheFile)
    ensures matcher.cache == old(matcher.cache) && matcher.requests == old(matcher.requests)
  {
    var p0 := flag.polls;
    var history0 := matcher.files.checkpointHistory;
    var cacheFile0, cache0, requests0 := matcher.files.cacheFile, matcher.cache, matcher.requests;
    mappings := [];
    var i := 0;
    while i < |companies|
      invariant 0 <= i <= |companies| && |mappings| == i
      invariant mappings == Outcomes(cfg, goldstock, score, companies[..i])
      invariant flag.polls == p0 + i
      invariant i > 0 ==> !flag.SeenAt(p0 + i - 1)
      invariant matcher.files.checkpointHistory == history0 + PeriodicSaves(mappings)
      invariant matcher.files.cacheFile == cacheFile0
      invariant matcher.cache == cache0 && matcher.requests == requests0
    {
      var stop := flag.Poll();
      if stop {
        break;
      }
      mappings := MatchNext(cfg, companies, goldstock, byTicker, byName, matcher, score, mappings, history0);
      i := i + 1;
    }
    assert i < |companies| ==> flag.SeenAt(p0 + i);
  }

  /** One iteration of the loop past the read of the flag: the row of the
      next company is appended, and the checkpoint and the CSV are saved
      when the fuzzy tier was reached and the count is a multiple of 10. */
  method MatchNext(cfg: Config, companies: seq<Company>, goldstock: seq<GoldstockCompany>,
                   byTicker: map<string, GoldstockCompany>, byName: map<string, GoldstockCompany>,
                   matcher: CompanyMatcher, score: Scorer, mappings: seq<Mapping>, ghost history0: seq<nat>)
    returns (next: seq<Mapping>)
    requires byTicker == TickerIndex(cfg, goldstock) && byName == NameIndex(cfg, goldstock)
    requires |mappings| < |companies| && mappings == Outcomes(cfg, goldstock, score, companies[..|mappings|])
    requires matcher.files.checkpointHistory == history0 + PeriodicSaves(mappings)
    modifies matcher, matcher.files
    ensures next == Outcomes(cfg, goldstock, score, companies[..|mappings| + 1])
    ensures matcher.files.checkpointHistory == history0 + PeriodicSaves(next)
    ensures matcher.files.cacheFile == old(matcher.files.cacheFile)
    ensures matcher.cache == old(matcher.cache) && matcher.requests == old(matcher.requests)
  {
    var i := |mappings|;
    var mapping, reachedSave := MatchCompany(cfg, companies[i], goldstock, byTicker, byName, score);
    OutcomesSnoc(cfg, goldstock, score, companies, i);
    PeriodicSavesSnoc(mappings, mapping);
    next := mappings + [mapping];
    if reachedSave && |next| % 10 == 0 {
      matcher.SaveCheckpoint(next);
      SaveMappings(matcher.files, next);
      assert (history0 + PeriodicSaves(mappings)) + [|next|] == history0 + (PeriodicSaves(mappings) + [|next|]);
    }
  }

  // ---------------------------------------------------------------------------
  // fetch_company_by_id: the cache step

  /** What the cache step of `fetch_company_by_id(id)` does with the
      response `respond(id)`: a cached id returns its entry (a company, or
      `None` for an id known to have none) with no request and no change; a
      new id is requested; a 404 stores `None`; a page without a name stores
      `None` and saves the cache when its size is a multiple of 50; a page
      with a name stores the company, with the aliases of its name, and
      saves likewise; a failure stores nothing. An entry once stored is
      never changed. */
  method FetchCompanyById(matcher: CompanyMatcher, goldstockId: nat, respond: nat -> Response)
    returns (r: Option<GoldstockCompany>)
    modifies matcher, matcher.files
    ensures goldstockId in old(matcher.cache) ==>
      && r == old(matcher.cache)[goldstockId]
      && matcher.cache == old(matcher.cache) && matcher.requests == old(matcher.requests)
      && matcher.files.cacheFile == old(matcher.files.cacheFile)
    ensures goldstockId !in old(matcher.cache) ==>
      && matcher.requests == old(matcher.requests) + [goldstockId]
      && match respond(goldstockId)
         case NotFound =>
           r.None? && matcher.cache == old(matcher.cache)[goldstockId := None]
           && matcher.files.cacheFile == old(matcher.files.cacheFile)
         case Failed =>
           r.None? && matcher.cache == old(matcher.cache)
           && matcher.files.cacheFile == old(matcher.files.cacheFile)
         case Page(name, ticker) =>
           && r == (if name == [] then None
                    else Some(GoldstockCompany(NatToString(goldstockId), name, ticker, ExtractCompanyAliases(name))))
           && matcher.cache == old(matcher.cache)[goldstockId := r]
           && matcher.files.cacheFile == (if |matcher.cache| % 50 == 0 then matcher.cache else old(matcher.files.cacheFile))
    ensures forall id :: id in old(matcher.cache) ==> id in matcher.cache && matcher.cache[id] == old(matcher.cache)[id]
    ensures matcher.checkpoint == old(matcher.checkpoint)
    ensures matcher.files.checkpointFile == old(matcher.files.checkpointFile)
    ensures matcher.files.checkpointHistory == old(matcher.files.checkpointHistory)
    ensures matcher.files.csv == old(matcher.files.csv)
  {
    if goldstockId in matcher.cache {
      return matcher.cache[goldstockId];
    }
    matcher.requests := matcher.requests + [goldstockId];
    var response := respond(goldstockId);
    match response
    case NotFound =>
      matcher.cache := matcher.cache[goldstockId := None];
      return None;
    case Failed =>
      return None;
    case Page(name, ticker) =>
      if name == [] {
        matcher.cache := matcher.cache[goldstockId := None];
        if |matcher.cache| % 50 == 0 {
          matcher.SaveCache();
        }
        return None;
      }
      var result := GoldstockCompany(NatToString(goldstockId), name, ticker, ExtractCompanyAliases(name));
      matcher.cache := matcher.cache[goldstockId := Some(result)];
      if |matcher.cache| % 50 == 0 {
        matcher.SaveCache();
      }
      return Some(result);
  }

  // ---------------------------------------------------------------------------
  // main

  /** `main` from the loaded companies on. The goldstock list that
      `fetch_companies_parallel` returns is a parameter. With `--resume` and
      a non-empty `processed_ids` only the companies not yet processed are
      matched; the merge then reads `matcher.checkpoint['mappings']`, which
      `perform_matching`'s own saves have just overwritten, so it puts the
      new rows in front of themselves (see `ResumeRepeatsNewRows`). The
      summary divides by the number of rows: with none it raises, and the
      checkpoint file stays. Otherwise the file is removed unless the final
      read of the flag sees it raised. */
  method RunMain(files: Files, resume: bool, clearCache: bool, loaded: seq<Company>,
                 fetched: seq<GoldstockCompany>, flag: InterruptFlag, score: Scorer)
    returns (exit: Exit)
    modifies files, flag
    ensures files.cacheFile == (if clearCache then map[] else old(files.cacheFile))
    ensures loaded == [] || fetched == [] ==>
      && exit == NoInput && files.csv == old(files.csv)
      && files.checkpointFile == old(files.checkpointFile) && flag.polls == old(flag.polls)
    ensures loaded != [] && fetched != [] ==>
      var prior := if old(files.checkpointFile).Some? then old(files.checkpointFile).value else EmptyCheckpoint;
      var todo := ToProcess(resume, prior, loaded);
      var n := Processed(flag.raisedAt, old(flag.polls), |todo|);
      var added := Outcomes(Settings, fetched, score, todo[..n]);
      var p1 := old(flag.polls) + Polls(n, |todo|);
      && files.csv == Merge(resume, CheckpointOf(added), added)
      && files.checkpointHistory == old(files.checkpointHistory) + PeriodicSaves(added) + [n]
      && (files.csv == [] ==> exit == Crashed && files.checkpointFile == Some(CheckpointOf(added)) && flag.polls == p1)
      && (files.csv != [] ==>
            && exit == Completed && flag.polls == p1 + 1
            && files.checkpointFile == (if flag.SeenAt(p1) then Some(CheckpointOf(added)) else None))
  {
    if clearCache {
      files.cacheFile := map[];
    }
    var matcher := new CompanyMatcher(files);
    if loaded == [] {
      return NoInput;
    }
    var companies := ToProcess(resume, matcher.checkpoint, loaded);
    if fetched == [] {
      return NoInput;
    }
    var mappings := PerformMatching(Settings, companies, fetched, matcher, flag, score);
    if resume && matcher.checkpoint.mappings != [] {
      mappings := matcher.checkpoint.mappings + mappings;
    }
    SaveMappings(files, mappings);
    if mappings == [] {
      return Crashed;
    }
    var interrupted := flag.Poll();
    if !interrupted && files.checkpointFile.Some? {
      files.checkpointFile := None;
    }
    return Completed;
  }

  /** `main` as its comment "Add any existing mappings if resuming" asks
      for it: the merge reads the
      checkpoint as it was loaded, before `perform_matching` overwrote it,
      and the summary is skipped when there are no rows. */
  method RunMainFixed(files: Files, resume: bool, clearCache: bool, loaded: seq<Company>,
                      fetched: seq<GoldstockCompany>, flag: InterruptFlag, score: Scorer)
    returns (exit: Exit)
    modifies files, flag
    ensures files.cacheFile == (if clearCache then map[] else old(files.cacheFile))
    ensures loaded == [] || fetched == [] ==>
      && exit == NoInput && files.csv == old(files.csv)
      && files.checkpointFile == old(files.checkpointFile) && flag.polls == old(flag.polls)
    ensures loaded != [] && fetched != [] ==>
      var prior := if old(files.checkpointFile).Some? then old(files.checkpointFile).value else EmptyCheckpoint;
      var todo := ToProcess(resume, prior, loaded);
      var n := Processed(flag.raisedAt, old(flag.polls), |todo|);
      var added := Outcomes(Settings, fetched, score, todo[..n]);
      var p1 := old(flag.polls) + Polls(n, |todo|);
      && exit == Completed && flag.polls == p1 + 1
      && files.csv == Merge(resume, prior, added)
      && files.checkpointFile == (if flag.SeenAt(p1) then Some(CheckpointOf(added)) else None)
  {
    if clearCache {
      files.cacheFile := map[];
    }
    var matcher := new CompanyMatcher(files);
    if loaded == [] {
      return NoInput;
    }
    var prior := matcher.checkpoint;
    var companies := ToProcess(resume, prior, loaded);
    if fetched == [] {
      return NoInput;
    }
    var mappings := PerformMatching(Settings, companies, fetched, matcher, flag, score);
    mappings := Merge(resume, prior, mappings);
    SaveMappings(files, mappings);
    var interrupted := flag.Poll();
    if !interrupted && files.checkpointFile.Some? {
      files.checkpointFile := None;
    }
    return Completed;
  }

  // ---------------------------------------------------------------------------
  // The resume merge

  /** As written: a resumed run that processes at least one company writes
      its new rows twice and none of the rows of the earlier run. */
  lemma ResumeRepeatsNewRows(prior: Checkpoint, added: seq<Mapping>)
    requires added != []
    ensures Merge(true, CheckpointOf(added), added) == added + added
    ensures !DistinctIds(Ids(Merge(true, CheckpointOf(added), added)))
    ensures forall m :: m in prior.mappings && m !in added ==> m !in Merge(true, CheckpointOf(added), added)
  {
    MergeOwnCheckpointRepeats(added);
  }

  /** As written: a resumed run over companies that were all processed
      before writes no row at all, so the summary's division raises. */
  lemma ResumeWithNothingLeft(prior: Checkpoint, loaded: seq<Company>)
    requires prior.processedIds != []
    requires forall c :: c in loaded ==> c.companyId in prior.processedIds
    ensures ToProcess(true, prior, loaded) == []
    ensures Merge(true, CheckpointOf([]), []) == []
  {
    RemainingAllProcessed(loaded, prior.processedIds);
  }

  /** Corrected: a resumed run that processes every remaining company
      writes a row for every input company and no id twice, when the
      checkpoint is one that `save_checkpoint` wrote and neither it nor the
      input holds an id twice; with nothing left it writes the earlier rows. */
  lemma ResumeFixedCoversAll(prior: Checkpoint, loaded: seq<Company>, added: seq<Mapping>)
    requires prior == CheckpointOf(prior.mappings)
    requires DistinctIds(Ids(prior.mappings)) && DistinctIds(CompanyIds(loaded))
    requires Ids(added) == CompanyIds(ToProcess(true, prior, loaded))
    ensures forall c :: c in loaded ==> c.companyId in Ids(Merge(true, prior, added))
    ensures DistinctIds(Ids(Merge(true, prior, added)))
    ensures added == [] ==> Merge(true, prior, added) == prior.mappings
  {
    if prior.processedIds == [] {
      assert Remaining(loaded, Ids(prior.mappings)) == loaded by {
        RemainingNone(loaded, Ids(prior.mappings));
      }
    }
    MergeCoversAll(prior.mappings, loaded, added);
  }
}
