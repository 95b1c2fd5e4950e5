/**
 * `supabase/mapping_script2.py`, the stateful part: `perform_matching`,
 * whose loop reads the interrupt flag twice per company and saves after
 * every tenth row and after the last one, the cache step of
 * `fetch_company_by_id`, and `main` with its exits on the flag.
 */
module MappingScript2Run {
  import opened Wrappers
  import opened Records
  import opened Fuzzy
  import opened Tiers
  import opened Matcher
  import opened MappingScript2
  import LookupIndex
  import MappingScriptRun

  /** The second script's settings: its two normalisers, fuzzy cutoff 70,
      'matched' from 85. */
  const Settings2: Config := Config(KnownMappings, NormalizeTicker2, NormalizeName2, 70, 85)

  /** The second script calls `normalize_ticker(company.tsx_code)` with no
      guard; that is the guarded call, as `normalize_ticker` already gives
      nothing for a missing or empty ticker. */
  lemma TickerOfSettings2(t: Option<string>)
    ensures TickerOf(Settings2, t) == NormalizeTicker2(t)
  {
  }

  // ---------------------------------------------------------------------------
  // perform_matching: the dictionaries and the tiers

  /** The two loops at the top of `perform_matching`: the first fills
      `gs_by_ticker`, the second `gs_by_normalized_name` with each name and
      alias. They give the same dictionaries as the first script's single
      loop. */
  method BuildIndex2(cfg: Config, goldstock: seq<GoldstockCompany>)
    returns (byTicker: map<string, GoldstockCompany>, byName: map<string, GoldstockCompany>)
    ensures byTicker == TickerIndex(cfg, goldstock)
    ensures byName == NameIndex(cfg, goldstock)
  {
    byTicker := map[];
    for i := 0 to |goldstock|
      invariant byTicker == TickerIndex(cfg, goldstock[..i])
    {
      LookupIndex.OfStep(goldstock, TickerKeysOf(cfg), i);
      byTicker := IndexTicker(cfg, goldstock[i], byTicker);
    }
    byName := map[];
    for i := 0 to |goldstock|
      invariant byName == NameIndex(cfg, goldstock[..i])
    {
      LookupIndex.OfStep(goldstock, NameKeysOf(cfg), i);
      byName := IndexName(cfg, goldstock[i], byName);
    }
    assert goldstock[..|goldstock|] == goldstock;
  }

  /** The fuzzy tier: `process.extractOne` with cutoff 70 over the
      normalised names, then `choices.index` of the name it returns. */
  method FuzzyMatch2(normalizedName: string, goldstock: seq<GoldstockCompany>, score: Scorer)
    returns (found: Option<GoldstockCompany>, confidence: int)
    ensures match FuzzyPick(Settings2, normalizedName, goldstock, score)
      case None => found.None?
      case Some(pick) => found == Some(pick.0) && confidence == pick.1
  {
    found := None;
    confidence := 0;
    if normalizedName != [] {
      var choices := Choices(Settings2, goldstock);
      var result := ExtractOne(normalizedName, choices, score, 70);
      if result.Some? {
        var idx := FirstIndexOf(choices, result.value.0);
        found := Some(goldstock[idx]);
        confidence := result.value.1;
      }
    }
  }

  /** The body of the loop for one company: the tiers as a chain of `if not
      match` tests over the fields of the row, which is built at the end.
      It gives the row of the common tier order. */
  method MatchCompany2(company: Company, goldstock: seq<GoldstockCompany>,
                       byTicker: map<string, GoldstockCompany>, byName: map<string, GoldstockCompany>,
                       score: Scorer)
    returns (mapping: Mapping)
    requires byTicker == TickerIndex(Settings2, goldstock) && byName == NameIndex(Settings2, goldstock)
    ensures mapping == Outcome(Settings2, goldstock, score, company)
  {
    TickerOfSettings2(company.tsxCode);
    MappingScriptRun.ExactTierRows(Settings2, goldstock, score, company);
    var normalizedTsxCode := NormalizeTicker2(company.tsxCode);
    var normalizedCompanyName := NormalizeName2(Some(company.companyName));
    var found := false;
    var confidence := 0;
    var status := Unmatched;
    var goldstockId: Option<string> := None;
    var goldstockName: Option<string> := None;
    var how := NoMethod;
    if company.companyId in KnownMappings {
      var known := KnownMappings[company.companyId];
      found := true;
      confidence := known.confidenceScore;
      status := Matched;
      goldstockId, goldstockName := Some(known.goldstockId), Some(known.goldstockName);
      how := KnownMapping;
    }
    if !found && normalizedTsxCode.Some? && normalizedTsxCode.value != [] && normalizedTsxCode.value in byTicker {
      var m := byTicker[normalizedTsxCode.value];
      found := true;
      confidence := 100;
      status := Matched;
      goldstockId, goldstockName := Some(m.goldstockId), Some(m.companyName);
      how := ExactTicker;
    }
    if !found && normalizedCompanyName in byName {
      var m := byName[normalizedCompanyName];
      found := true;
      confidence := 95;
      status := Matched;
      goldstockId, goldstockName := Some(m.goldstockId), Some(m.companyName);
      how := ExactName;
    }
    if !found && normalizedCompanyName != [] {
      var m, s := FuzzyMatch2(normalizedCompanyName, goldstock, score);
      if m.Some? {
        found := true;
        confidence := s;
        status := if s >= 85 then Matched else Manual;
        goldstockId, goldstockName := Some(m.value.goldstockId), Some(m.value.companyName);
        how := FuzzyName;
      }
    }
    mapping := Mapping(company.companyId, company.companyName, company.tsxCode,
                       goldstockId, goldstockName, status, confidence, how);
  }

  // ---------------------------------------------------------------------------
  // perform_matching: reads of the flag and saves

  /** The reads of the flag, counted from `p0`, that see it clear. */
  function Lag(raisedAt: nat, p0: nat): nat {
    if raisedAt <= p0 then 0 else raisedAt - p0
  }

  /** How many times the loop over `total` companies reads the flag, once
      at the head of each iteration and once after its row: it stops at the
      first read that sees the flag raised. */
  function Reads2(raisedAt: Option<nat>, p0: nat, total: nat): (count: nat)
    ensures count <= 2 * total
    ensures raisedAt.None? ==> count == 2 * total
  {
    if raisedAt.None? then 2 * total
    else
      var r := Lag(raisedAt.value, p0);
      if r < 2 * total then r + 1 else 2 * total
  }

  /** The loop stops at the first read that sees the flag: every earlier
      read sees it clear, and the last read sees it unless the loop ran out
      of companies. */
  lemma Reads2First(raisedAt: Option<nat>, p0: nat, total: nat)
    ensures var count := Reads2(raisedAt, p0, total);
      && (raisedAt.Some? && count >= 2 ==> raisedAt.value >= p0 + count - 1)
      && (count < 2 * total ==> count >= 1 && raisedAt.Some? && raisedAt.value <= p0 + count - 1)
  {
  }

  /** The rows the loop appends: one per iteration whose head read saw the
      flag clear. */
  function Processed2(raisedAt: Option<nat>, p0: nat, total: nat): (n: nat)
    ensures n <= total
    ensures raisedAt.None? ==> n == total
  {
    Reads2(raisedAt, p0, total) / 2
  }

  /** The loop stopped at the read after a row, which saves once more. */
  predicate StoppedAfterRow2(raisedAt: Option<nat>, p0: nat, total: nat) {
    raisedAt.Some? && Lag(raisedAt.value, p0) < 2 * total && Lag(raisedAt.value, p0) % 2 == 1
  }

  /** The row counts at which the loop saves on its way: every tenth and
      the last of `total`, among the first `n`. */
  function SavesUpTo2(n: nat, total: nat): seq<nat> {
    if n == 0 then []
    else SavesUpTo2(n - 1, total) + (if n % 10 == 0 || n == total then [n] else [])
  }

  /** A save happens at size k exactly when k is a multiple of 10 or the
      last row, and the sizes come in increasing order. */
  lemma {:induction false} SavesUpTo2Exactly(n: nat, total: nat)
    ensures forall k :: k in SavesUpTo2(n, total) <==> 1 <= k <= n && (k % 10 == 0 || k == total)
    ensures forall i, j :: 0 <= i < j < |SavesUpTo2(n, total)| ==> SavesUpTo2(n, total)[i] < SavesUpTo2(n, total)[j]
  {
    if n > 0 {
      SavesUpTo2Exactly(n - 1, total);
      var p := SavesUpTo2(n - 1, total);
      forall i, j | 0 <= i < j < |SavesUpTo2(n, total)|
        ensures SavesUpTo2(n, total)[i] < SavesUpTo2(n, total)[j]
      {
        if j == |p| {
          assert p[i] in p;
        }
      }
    }
  }

  /** The rows the saved files hold after `n` of `total` rows: all of them
      once the last row is in, else those up to the last multiple of 10. */
  function LastSave2(n: nat, total: nat): (k: nat)
    requires n <= total
    ensures k <= n
  {
    if n == total then n else n - n % 10
  }

  /** Before the last row, the saved rows are those up to the last
      multiple of 10; after it, all of them. */
  lemma LastSave2Bounds(n: nat, total: nat)
    requires n <= total
    ensures n == total ==> LastSave2(n, total) == n
    ensures n < total ==> LastSave2(n, total) % 10 == 0 && n < LastSave2(n, total) + 10
  {
  }

  /** `LastSave2` is the last save of the way, or 0 when there was none. */
  lemma {:induction false} LastSave2IsLast(n: nat, total: nat)
    requires n <= total
    ensures SavesUpTo2(n, total) == [] <==> LastSave2(n, total) == 0
    ensures SavesUpTo2(n, total) != [] ==> SavesUpTo2(n, total)[|SavesUpTo2(n, total)| - 1] == LastSave2(n, total)
  {
    if n > 0 {
      LastSave2IsLast(n - 1, total);
    }
  }

  /** The files show the first `k` rows, as the last save wrote them, or,
      when there was no save, what they held before the loop. */
  predicate ShowsSaved(matcher: CompanyMatcher, rows: seq<Mapping>, k: nat,
                       checkpoint0: Checkpoint, file0: Option<Checkpoint>, csv0: seq<Mapping>)
    requires k <= |rows|
    reads matcher, matcher.files
  {
    if k == 0 then
      matcher.checkpoint == checkpoint0 && matcher.files.checkpointFile == file0 && matcher.files.csv == csv0
    else
      && matcher.checkpoint == CheckpointOf(rows[..k])
      && matcher.files.checkpointFile == Some(CheckpointOf(rows[..k]))
      && matcher.files.csv == rows[..k]
  }

  /** The rows the files hold when the loop ends. */
  function Saved2(raisedAt: Option<nat>, p0: nat, total: nat): (k: nat)
    ensures k <= Processed2(raisedAt, p0, total)
  {
    var n := Processed2(raisedAt, p0, total);
    if StoppedAfterRow2(raisedAt, p0, total) then n else LastSave2(n, total)
  }

  /** Stopped at the head of an iteration, the files miss at most the nine
      rows since the last multiple of 10; stopped after a row, they miss
      none. */
  lemma UnsavedRows2(raisedAt: Option<nat>, p0: nat, total: nat)
    ensures Processed2(raisedAt, p0, total) - Saved2(raisedAt, p0, total) <= 9
    ensures StoppedAfterRow2(raisedAt, p0, total) || raisedAt.None? ==>
      Saved2(raisedAt, p0, total) == Processed2(raisedAt, p0, total)
  {
  }

  /** `perform_matching(companies, goldstock, known_mappings, matcher)`:
      with no goldstock company it returns no row and touches nothing;
      otherwise it builds the dictionaries and appends, in order, the row
      `Outcome` gives for each company until a read of the flag sees it
      raised, saving the CSV and the checkpoint after every tenth row,
      after the last one, and once more when the read after a row stops
      the loop. */
  method PerformMatching2(companies: seq<Company>, goldstock: seq<GoldstockCompany>,
                          matcher: CompanyMatcher, flag: InterruptFlag, score: Scorer)
    returns (mappings: seq<Mapping>)
    modifies matcher, matcher.files, flag
    ensures goldstock == [] ==>
      && mappings == [] && flag.polls == old(flag.polls)
      && matcher.checkpoint == old(matcher.checkpoint) && matcher.files.checkpointFile == old(matcher.files.checkpointFile)
      && matcher.files.csv == old(matcher.files.csv) && matcher.files.checkpointHistory == old(matcher.files.checkpointHistory)
    ensures goldstock != [] ==>
      var p0 := old(flag.polls);
      var total := |companies|;
      && flag.polls == p0 + Reads2(flag.raisedAt, p0, total)
      && |mappings| == Processed2(flag.raisedAt, p0, total)
      && mappings == Outcomes(Settings2, goldstock, score, companies[..|mappings|])
      && matcher.files.checkpointHistory == old(matcher.files.checkpointHistory) + SavesUpTo2(|mappings|, total)
           + (if StoppedAfterRow2(flag.raisedAt, p0, total) then [|mappings|] else [])
      && ShowsSaved(matcher, mappings, Saved2(flag.raisedAt, p0, total),
                    old(matcher.checkpoint), old(matcher.files.checkpointFile), old(matcher.files.csv))
    ensures matcher.files.cacheFile == old(matcher.files.cacheFile)
    ensures matcher.cache == old(matcher.cache) && matcher.requests == old(matcher.requests)
  {
    if goldstock == [] {
      return [];
    }
    var byTicker, byName := BuildIndex2(Settings2, goldstock);
    mappings := MatchAll2(companies, goldstock, byTicker, byName, matcher, flag, score);
  }

  /** The `for` loop of `perform_matching`, with the dictionaries built. */
  method MatchAll2(companies: seq<Company>, goldstock: seq<GoldstockCompany>,
                   byTicker: map<string, GoldstockCompany>, byName: map<string, GoldstockCompany>,
                   matcher: CompanyMatcher, flag: InterruptFlag, score: Scorer)
    returns (mappings: seq<Mapping>)
    requires byTicker == TickerIndex(Settings2, goldstock) && byName == NameIndex(Settings2, goldstock)
    modifies matcher, matcher.files, flag
    ensures var p0 := old(flag.polls);
      var total := |companies|;
      && flag.polls == p0 + Reads2(flag.raisedAt, p0, total)
      && |mappings| == Processed2(flag.raisedAt, p0, total)
      && mappings == Outcomes(Settings2, goldstock, score, companies[..|mappings|])
      && matcher.files.checkpointHistory == old(matcher.files.checkpointHistory) + SavesUpTo2(|mappings|, total)
           + (if StoppedAfterRow2(flag.raisedAt, p0, total) then [|mappings|] else [])
      && ShowsSaved(matcher, mappings, Saved2(flag.raisedAt, p0, total),
                    old(matcher.checkpoint), old(matcher.files.checkpointFile), old(matcher.files.csv))
    ensures matcher.files.cacheFile == old(matcher.files.cacheFile)
    ensures matcher.cache == old(matcher.cache) && matcher.requests == old(matcher.requests)
  {
    var p0 := flag.polls;
    var total := |companies|;
    ghost var history0, checkpoint0 := matcher.files.checkpointHistory, matcher.checkpoint;
    ghost var file0, csv0 := matcher.files.checkpointFile, matcher.files.csv;
    ghost var cacheFile0, cache0, requests0 := matcher.files.cacheFile, matcher.cache, matcher.requests;
    mappings := [];
    while |mappings| < total
      invariant |mappings| <= total
      invariant mappings == Outcomes(Settings2, goldstock, score, companies[..|mappings|])
      invariant flag.polls == p0 + 2 * |mappings|
      invariant |mappings| > 0 ==> !flag.SeenAt(p0 + 2 * |mappings| - 1)
      invariant matcher.files.checkpointHistory == history0 + SavesUpTo2(|mappings|, total)
      invariant ShowsSaved(matcher, mappings, LastSave2(|mappings|, total), checkpoint0, file0, csv0)
      invariant matcher.files.cacheFile == cacheFile0
      invariant matcher.cache == cache0 && matcher.requests == requests0
      decreases total - |mappings|
    {
      var stop;
      mappings, stop := Iterate2(companies, goldstock, byTicker, byName, matcher, flag, score, mappings,
                                 p0, history0, checkpoint0, file0, csv0);
      if stop {
        return;
      }
    }
    RunToEnd2(flag.raisedAt, p0, total);
  }

  /** One iteration of the loop: the read of the flag at its head, the row,
      the periodic save, and the read after the row. When one of the reads
      sees the flag the loop ends, and what it leaves is what
      `perform_matching` promises. */
  method Iterate2(companies: seq<Company>, goldstock: seq<GoldstockCompany>,
                  byTicker: map<string, GoldstockCompany>, byName: map<string, GoldstockCompany>,
                  matcher: CompanyMatcher, flag: InterruptFlag, score: Scorer, mappings: seq<Mapping>,
                  ghost p0: nat, ghost history0: seq<nat>, ghost checkpoint0: Checkpoint,
                  ghost file0: Option<Checkpoint>, ghost csv0: seq<Mapping>)
    returns (next: seq<Mapping>, stop: bool)
    requires byTicker == TickerIndex(Settings2, goldstock) && byName == NameIndex(Settings2, goldstock)
    requires |mappings| < |companies| && mappings == Outcomes(Settings2, goldstock, score, companies[..|mappings|])
    requires flag.polls == p0 + 2 * |mappings|
    requires |mappings| > 0 ==> !flag.SeenAt(p0 + 2 * |mappings| - 1)
    requires matcher.files.checkpointHistory == history0 + SavesUpTo2(|mappings|, |companies|)
    requires ShowsSaved(matcher, mappings, LastSave2(|mappings|, |companies|), checkpoint0, file0, csv0)
    modifies matcher, matcher.files, flag
    ensures |next| <= |companies| && next == Outcomes(Settings2, goldstock, score, companies[..|next|])
    ensures !stop ==>
      && |next| == |mappings| + 1
      && flag.polls == p0 + 2 * |next| && !flag.SeenAt(p0 + 2 * |next| - 1)
      && matcher.files.checkpointHistory == history0 + SavesUpTo2(|next|, |companies|)
      && ShowsSaved(matcher, next, LastSave2(|next|, |companies|), checkpoint0, file0, csv0)
    ensures stop ==>
      var total := |companies|;
      && flag.polls == p0 + Reads2(flag.raisedAt, p0, total)
      && |next| == Processed2(flag.raisedAt, p0, total)
      && matcher.files.checkpointHistory == history0 + SavesUpTo2(|next|, total)
           + (if StoppedAfterRow2(flag.raisedAt, p0, total) then [|next|] else [])
      && ShowsSaved(matcher, next, Saved2(flag.raisedAt, p0, total), checkpoint0, file0, csv0)
    ensures matcher.files.cacheFile == old(matcher.files.cacheFile)
    ensures matcher.cache == old(matcher.cache) && matcher.requests == old(matcher.requests)
  {
    var i := |mappings|;
    next := mappings;
    stop := flag.Poll();
    if stop {
      StopAtHead2(flag.raisedAt, p0, |companies|, i);
      return;
    }
    assert !flag.SeenAt(p0 + 2 * i);
    var mapping := MatchCompany2(companies[i], goldstock, byTicker, byName, score);
    OutcomesSnoc(Settings2, goldstock, score, companies, i);
    next := AppendRow2(matcher, mappings, mapping, |companies|, history0, checkpoint0, file0, csv0);
    assert |next| == i + 1 && next == Outcomes(Settings2, goldstock, score, companies[..i + 1]);
    stop := PollAfterRow2(matcher, flag, next, |companies|, p0, history0, checkpoint0, file0, csv0);
  }

  /** The read of the flag after a row: when it sees the flag, the CSV and
      the checkpoint are saved with every row so far and the loop ends. */
  method PollAfterRow2(matcher: CompanyMatcher, flag: InterruptFlag, rows: seq<Mapping>, total: nat,
                       ghost p0: nat, ghost history0: seq<nat>, ghost checkpoint0: Checkpoint,
                       ghost file0: Option<Checkpoint>, ghost csv0: seq<Mapping>)
    returns (stop: bool)
    requires 0 < |rows| <= total
    requires flag.polls == p0 + 2 * |rows| - 1 && !flag.SeenAt(p0 + 2 * |rows| - 2)
    requires matcher.files.checkpointHistory == history0 + SavesUpTo2(|rows|, total)
    requires ShowsSaved(matcher, rows, LastSave2(|rows|, total), checkpoint0, file0, csv0)
    modifies matcher, matcher.files, flag
    ensures !stop ==>
      && flag.polls == p0 + 2 * |rows| && !flag.SeenAt(p0 + 2 * |rows| - 1)
      && matcher.files.checkpointHistory == history0 + SavesUpTo2(|rows|, total)
      && ShowsSaved(matcher, rows, LastSave2(|rows|, total), checkpoint0, file0, csv0)
    ensures stop ==>
      && flag.polls == p0 + Reads2(flag.raisedAt, p0, total)
      && |rows| == Processed2(flag.raisedAt, p0, total)
      && matcher.files.checkpointHistory == history0 + SavesUpTo2(|rows|, total)
           + (if StoppedAfterRow2(flag.raisedAt, p0, total) then [|rows|] else [])
      && ShowsSaved(matcher, rows, Saved2(flag.raisedAt, p0, total), checkpoint0, file0, csv0)
    ensures matcher.files.cacheFile == old(matcher.files.cacheFile)
    ensures matcher.cache == old(matcher.cache) && matcher.requests == old(matcher.requests)
  {
    var i := |rows| - 1;
    stop := flag.Poll();
    if stop {
      assert flag.SeenAt(p0 + 2 * i + 1);
      SaveMappings(matcher.files, rows);
      matcher.SaveCheckpoint(rows);
      assert rows[..|rows|] == rows;
      assert flag.raisedAt.Some? && p0 + 2 * i < flag.raisedAt.value <= p0 + 2 * i + 1;
      StopAfterRow2(flag.raisedAt, p0, total, i);
    }
  }

  /** The read at the head of iteration `i` is the first to see the flag. */
  lemma StopAtHead2(raisedAt: Option<nat>, p0: nat, total: nat, i: nat)
    requires i < total && raisedAt.Some? && raisedAt.value <= p0 + 2 * i
    requires i > 0 ==> raisedAt.value > p0 + 2 * i - 1
    ensures Reads2(raisedAt, p0, total) == 2 * i + 1 && Processed2(raisedAt, p0, total) == i
    ensures !StoppedAfterRow2(raisedAt, p0, total) && Saved2(raisedAt, p0, total) == LastSave2(i, total)
  {
  }

  /** The read after the row of iteration `i` is the first to see the flag. */
  lemma StopAfterRow2(raisedAt: Option<nat>, p0: nat, total: nat, i: nat)
    requires i < total && raisedAt.Some? && p0 + 2 * i < raisedAt.value <= p0 + 2 * i + 1
    ensures Reads2(raisedAt, p0, total) == 2 * i + 2 && Processed2(raisedAt, p0, total) == i + 1
    ensures StoppedAfterRow2(raisedAt, p0, total) && Saved2(raisedAt, p0, total) == i + 1
  {
  }

  /** No read of the loop sees the flag. */
  lemma RunToEnd2(raisedAt: Option<nat>, p0: nat, total: nat)
    requires total > 0 && raisedAt.Some? ==> raisedAt.value > p0 + 2 * total - 1
    ensures Reads2(raisedAt, p0, total) == 2 * total && Processed2(raisedAt, p0, total) == total
    ensures !StoppedAfterRow2(raisedAt, p0, total) && Saved2(raisedAt, p0, total) == total
  {
  }

  /** `mappings.append(mapping)` and the periodic save after it: the CSV
      and the checkpoint are saved when the count is a multiple of 10 or
      the row is the last one. */
  method AppendRow2(matcher: CompanyMatcher, prev: seq<Mapping>, mapping: Mapping, total: nat,
                    ghost history0: seq<nat>, ghost checkpoint0: Checkpoint,
                    ghost file0: Option<Checkpoint>, ghost csv0: seq<Mapping>)
    returns (rows: seq<Mapping>)
    requires |prev| < total
    requires matcher.files.checkpointHistory == history0 + SavesUpTo2(|prev|, total)
    requires ShowsSaved(matcher, prev, LastSave2(|prev|, total), checkpoint0, file0, csv0)
    modifies matcher, matcher.files
    ensures rows == prev + [mapping]
    ensures matcher.files.checkpointHistory == history0 + SavesUpTo2(|rows|, total)
    ensures ShowsSaved(matcher, rows, LastSave2(|rows|, total), checkpoint0, file0, csv0)
    ensures matcher.files.cacheFile == old(matcher.files.cacheFile)
    ensures matcher.cache == old(matcher.cache) && matcher.requests == old(matcher.requests)
  {
    var i := |prev|;
    rows := prev + [mapping];
    var save := (i + 1) % 10 == 0 || i == total - 1;
    SaveStep2(i, total, save);
    if save {
      SaveMappings(matcher.files, rows);
      matcher.SaveCheckpoint(rows);
      assert rows[..|rows|] == rows;
      assert (history0 + SavesUpTo2(i, total)) + [i + 1] == history0 + (SavesUpTo2(i, total) + [i + 1]);
    } else {
      var k := LastSave2(i, total);
      assert rows[..k] == prev[..k];
    }
  }

  /** One more row: a save exactly at a multiple of 10 or at the last row. */
  lemma SaveStep2(i: nat, total: nat, save: bool)
    requires i < total && save == ((i + 1) % 10 == 0 || i == total - 1)
    ensures SavesUpTo2(i + 1, total) == SavesUpTo2(i, total) + (if save then [i + 1] else [])
    ensures LastSave2(i + 1, total) == if save then i + 1 else LastSave2(i, total)
  {
  }

  // ---------------------------------------------------------------------------
  // fetch_company_by_id: the cache step

  /** The cache step of `fetch_company_by_id(id)` with the response
      `respond(id)`: a cached id returns its entry with no request and no
      change; a new id is requested; a 404 and a page without a name store
      `None`, a page with a name stores the company with the aliases of its
      name, and each of these saves the cache when its size is a multiple
      of 50; a failure stores nothing. An entry once stored is never
      changed. */
  method FetchCompanyById2(matcher: CompanyMatcher, goldstockId: nat, respond: nat -> Response)
    returns (r: Option<GoldstockCompany>)
    modifies matcher, matcher.files
    ensures goldstockId in old(matcher.cache) ==>
      && r == old(matcher.cache)[goldstockId]
      && matcher.cache == old(matcher.cache) && matcher.requests == old(matcher.requests)
      && matcher.files.cacheFile == old(matcher.files.cacheFile)
    ensures goldstockId !in old(matcher.cache) ==>
      && matcher.requests == old(matcher.requests) + [goldstockId]
      && match respond(goldstockId)
         case Failed =>
           r.None? && matcher.cache == old(matcher.cache)
           && matcher.files.cacheFile == old(matcher.files.cacheFile)
         case NotFound =>
           && r.None? && matcher.cache == old(matcher.cache)[goldstockId := None]
           && matcher.files.cacheFile == (if |matcher.cache| % 50 == 0 then matcher.cache else old(matcher.files.cacheFile))
         case Page(name, ticker) =>
           && r == (if name == [] then None
                    else Some(GoldstockCompany(NatToString(goldstockId), name, ticker, ExtractCompanyAliases2(name))))
           && matcher.cache == old(matcher.cache)[goldstockId := r]
           && matcher.files.cacheFile == (if |matcher.cache| % 50 == 0 then matcher.cache else old(matcher.files.cacheFile))
    ensures forall id :: id in old(matcher.cache) ==> id in matcher.cache && matcher.cache[id] == old(matcher.cache)[id]
    ensures matcher.checkpoint == old(matcher.checkpoint)
    ensures matcher.files.checkpointFile == old(matcher.files.checkpointFile)
    ensures matcher.files.checkpointHistory == old(matcher.files.checkpointHistory)
    ensures matcher.files.csv == old(matcher.files.csv)
  {
    if goldstockId in matcher.cache {
      return matcher.cache[goldstockId];
    }
    matcher.requests := matcher.requests + [goldstockId];
    var response := respond(goldstockId);
    match response
    case NotFound =>
      matcher.cache := matcher.cache[goldstockId := None];
      if |matcher.cache| % 50 == 0 {
        matcher.SaveCache();
      }
      return None;
    case Failed =>
      return None;
    case Page(name, ticker) =>
      if name == [] {
        matcher.cache := matcher.cache[goldstockId := None];
        if |matcher.cache| % 50 == 0 {
          matcher.SaveCache();
        }
        return None;
      }
      var result := GoldstockCompany(NatToString(goldstockId), name, ticker, ExtractCompanyAliases2(name));
      matcher.cache := matcher.cache[goldstockId := Some(result)];
      if |matcher.cache| % 50 == 0 {
        matcher.SaveCache();
      }
      return Some(result);
  }

  // ---------------------------------------------------------------------------
  // main

  /** Once the loop is over, a read that sees the flag clear means that no
      read of the loop saw it: every company was processed and the files
      hold every row. */
  lemma NotSeenAfterLoop2(raisedAt: Option<nat>, p0: nat, total: nat)
    requires !(raisedAt.Some? && raisedAt.value <= p0 + Reads2(raisedAt, p0, total))
    ensures Processed2(raisedAt, p0, total) == total && Reads2(raisedAt, p0, total) == 2 * total
    ensures !StoppedAfterRow2(raisedAt, p0, total) && Saved2(raisedAt, p0, total) == total
  {
  }

  /** The rows `main` writes when the run was not interrupted. The merge
      reads `matcher.checkpoint`, which the loop's save after the last row
      has overwritten with the new rows, unless there were none. */
  function FinalRows2(resume: bool, prior: Checkpoint, added: seq<Mapping>): (r: seq<Mapping>)
    ensures !resume ==> r == added
    ensures resume && added != [] ==> r == added + added
    ensures resume && added == [] ==> r == prior.mappings
  {
    Merge(resume, if added == [] then prior else CheckpointOf(added), added)
  }

  /** `main` from the loaded companies on. `--clear-cache` removes both the
      cache and the checkpoint file before the matcher loads them. The
      goldstock list that `fetch_companies_parallel` returns is a parameter.
      The flag is read before the fetch, after it and after
      `perform_matching`, each time leaving with `sys.exit(0)`; an empty
      company or goldstock list leaves with `sys.exit(1)`. A run that goes
      on writes the merged rows (`FinalRows2`) to the CSV and the
      checkpoint, raises in the summary when there are none, and otherwise
      removes the checkpoint file unless a last read sees the flag. */
  method RunMain2(files: Files, resume: bool, clearCache: bool, loaded: seq<Company>,
                  fetched: seq<GoldstockCompany>, flag: InterruptFlag, score: Scorer)
    returns (exit: Exit)
    modifies files, flag
    ensures files.cacheFile == (if clearCache then map[] else old(files.cacheFile))
    ensures var p0 := old(flag.polls);
      var file0 := if clearCache then None else old(files.checkpointFile);
      loaded == [] || flag.SeenAt(p0 + 1) || fetched == [] ==>
      && files.csv == old(files.csv) && files.checkpointFile == file0
      && files.checkpointHistory == old(files.checkpointHistory)
      && (loaded == [] ==> exit == NoInput && flag.polls == p0)
      && (loaded != [] && flag.SeenAt(p0) ==> exit == Interrupted && flag.polls == p0 + 1)
      && (loaded != [] && !flag.SeenAt(p0) ==> flag.polls == p0 + 2 && exit == (if flag.SeenAt(p0 + 1) then Interrupted else NoInput))
    ensures var p0 := old(flag.polls);
      var file0 := if clearCache then None else old(files.checkpointFile);
      var prior := if file0.Some? then file0.value else EmptyCheckpoint;
      var todo := ToProcess(resume, prior, loaded);
      var total := |todo|;
      var n := Processed2(flag.raisedAt, p0 + 2, total);
      var added := Outcomes(Settings2, fetched, score, todo[..n]);
      var p1 := p0 + 2 + Reads2(flag.raisedAt, p0 + 2, total);
      var k := Saved2(flag.raisedAt, p0 + 2, total);
      loaded != [] && !flag.SeenAt(p0 + 1) && fetched != [] ==>
      && (flag.SeenAt(p1) ==>
            && exit == Interrupted && flag.polls == p1 + 1
            && files.csv == (if k == 0 then old(files.csv) else added[..k])
            && files.checkpointFile == (if k == 0 then file0 else Some(CheckpointOf(added[..k])))
            && files.checkpointHistory == old(files.checkpointHistory) + SavesUpTo2(n, total)
                 + (if StoppedAfterRow2(flag.raisedAt, p0 + 2, total) then [n] else []))
      && (!flag.SeenAt(p1) ==>
            var merged := FinalRows2(resume, prior, added);
            && n == total && files.csv == merged
            && files.checkpointHistory == old(files.checkpointHistory) + SavesUpTo2(total, total) + [|merged|]
            && (merged == [] ==> exit == Crashed && flag.polls == p1 + 1 && files.checkpointFile == Some(CheckpointOf([])))
            && (merged != [] ==>
                  && exit == Completed && flag.polls == p1 + 2
                  && files.checkpointFile == (if flag.SeenAt(p1 + 1) then Some(CheckpointOf(merged)) else None)))
  {
    if clearCache {
      files.cacheFile := map[];
      files.checkpointFile := None;
    }
    var matcher := new CompanyMatcher(files);
    ghost var file0 := if clearCache then None else old(files.checkpointFile);
    assert matcher.checkpoint == if file0.Some? then file0.value else EmptyCheckpoint;
    if loaded == [] {
      return NoInput;
    }
    var companies := ToProcess(resume, matcher.checkpoint, loaded);
    var stop := flag.Poll();
    if stop {
      return Interrupted;
    }
    stop := flag.Poll();
    if stop {
      return Interrupted;
    }
    if fetched == [] {
      return NoInput;
    }
    assert flag.polls == old(flag.polls) + 2 && files.csv == old(files.csv);
    assert files.checkpointFile == (if clearCache then None else old(files.checkpointFile));
    assert files.checkpointHistory == old(files.checkpointHistory);
    exit := Finish2(files, matcher, resume, companies, fetched, flag, score, old(flag.polls) + 2);
  }

  /** `main` from `perform_matching` on, with the matcher as loaded. */
  method Finish2(files: Files, matcher: CompanyMatcher, resume: bool, companies: seq<Company>,
                 fetched: seq<GoldstockCompany>, flag: InterruptFlag, score: Scorer, ghost p: nat)
    returns (exit: Exit)
    requires matcher.files == files && matcher.cache == files.cacheFile && fetched != []
    requires flag.polls == p
    modifies files, matcher, flag
    ensures files.cacheFile == old(files.cacheFile)
    ensures var total := |companies|;
      var n := Processed2(flag.raisedAt, p, total);
      var added := Outcomes(Settings2, fetched, score, companies[..n]);
      var p1 := p + Reads2(flag.raisedAt, p, total);
      var k := Saved2(flag.raisedAt, p, total);
      && (flag.SeenAt(p1) ==>
            && exit == Interrupted && flag.polls == p1 + 1
            && files.csv == (if k == 0 then old(files.csv) else added[..k])
            && files.checkpointFile == (if k == 0 then old(files.checkpointFile) else Some(CheckpointOf(added[..k])))
            && files.checkpointHistory == old(files.checkpointHistory) + SavesUpTo2(n, total)
                 + (if StoppedAfterRow2(flag.raisedAt, p, total) then [n] else []))
      && (!flag.SeenAt(p1) ==>
            var merged := FinalRows2(resume, old(matcher.checkpoint), added);
            && n == total && files.csv == merged
            && files.checkpointHistory == old(files.checkpointHistory) + SavesUpTo2(total, total) + [|merged|]
            && (merged == [] ==> exit == Crashed && flag.polls == p1 + 1 && files.checkpointFile == Some(CheckpointOf([])))
            && (merged != [] ==>
                  && exit == Completed && flag.polls == p1 + 2
                  && files.checkpointFile == (if flag.SeenAt(p1 + 1) then Some(CheckpointOf(merged)) else None)))
  {
    ghost var prior := matcher.checkpoint;
    var mappings := PerformMatching2(companies, fetched, matcher, flag, score);
    var stop := flag.Poll();
    if stop {
      return Interrupted;
    }
    NotSeenAfterLoop2(flag.raisedAt, p, |companies|);
    assert mappings[..|mappings|] == mappings;
    assert matcher.checkpoint == (if mappings == [] then prior else CheckpointOf(mappings));
    exit := WriteResults2(files, matcher, resume, matcher.checkpoint, mappings, flag);
  }

  /** `main` from `perform_matching` on, as its comment "Merge with existing
      mappings if resuming" asks for it:
      the merge reads the checkpoint as it was loaded, before the loop's
      saves overwrote it. */
  method Finish2Fixed(files: Files, matcher: CompanyMatcher, resume: bool, companies: seq<Company>,
                      fetched: seq<GoldstockCompany>, flag: InterruptFlag, score: Scorer, ghost p: nat)
    returns (exit: Exit)
    requires matcher.files == files && matcher.cache == files.cacheFile && fetched != []
    requires flag.polls == p
    modifies files, matcher, flag
    ensures files.cacheFile == old(files.cacheFile)
    ensures var total := |companies|;
      var n := Processed2(flag.raisedAt, p, total);
      var added := Outcomes(Settings2, fetched, score, companies[..n]);
      var p1 := p + Reads2(flag.raisedAt, p, total);
      !flag.SeenAt(p1) ==>
        var merged := Merge(resume, old(matcher.checkpoint), added);
        && n == total && files.csv == merged
        && files.checkpointHistory == old(files.checkpointHistory) + SavesUpTo2(total, total) + [|merged|]
        && (merged == [] ==> exit == Crashed)
        && (merged != [] ==>
              && exit == Completed && flag.polls == p1 + 2
              && files.checkpointFile == (if flag.SeenAt(p1 + 1) then Some(CheckpointOf(merged)) else None))
  {
    var prior := matcher.checkpoint;
    var mappings := PerformMatching2(companies, fetched, matcher, flag, score);
    var stop := flag.Poll();
    if stop {
      return Interrupted;
    }
    NotSeenAfterLoop2(flag.raisedAt, p, |companies|);
    exit := WriteResults2(files, matcher, resume, prior, mappings, flag);
  }

  /** The end of `main`: the merge with the checkpoint, the saves of
      the CSV, the checkpoint and the cache, the summary that raises on no
      rows, and the removal of the checkpoint file unless the flag is seen. */
  method WriteResults2(files: Files, matcher: CompanyMatcher, resume: bool, checkpoint: Checkpoint,
                       mappings: seq<Mapping>, flag: InterruptFlag)
    returns (exit: Exit)
    requires matcher.files == files && matcher.cache == files.cacheFile
    modifies files, matcher, flag
    ensures var merged := Merge(resume, checkpoint, mappings);
      && files.csv == merged && files.cacheFile == old(files.cacheFile)
      && files.checkpointHistory == old(files.checkpointHistory) + [|merged|]
      && (merged == [] ==> exit == Crashed && flag.polls == old(flag.polls) && files.checkpointFile == Some(CheckpointOf([])))
      && (merged != [] ==>
            && exit == Completed && flag.polls == old(flag.polls) + 1
            && files.checkpointFile == (if flag.SeenAt(old(flag.polls)) then Some(CheckpointOf(merged)) else None))
  {
    var rows := mappings;
    if resume && checkpoint.mappings != [] {
      rows := checkpoint.mappings + rows;
    }
    SaveMappings(files, rows);
    matcher.SaveCheckpoint(rows);
    matcher.SaveCache();
    if rows == [] {
      return Crashed;
    }
    var interrupted := flag.Poll();
    if !interrupted && files.checkpointFile.Some? {
      files.checkpointFile := None;
    }
    return Completed;
  }

  // ---------------------------------------------------------------------------
  // The resume merge

  /** As written: a resumed run that processes at least one company and is
      not interrupted writes its new rows twice and none of the rows of the
      earlier run. */
  lemma ResumeRepeatsNewRows2(prior: Checkpoint, added: seq<Mapping>)
    requires added != []
    ensures FinalRows2(true, prior, added) == added + added
    ensures !DistinctIds(Ids(FinalRows2(true, prior, added)))
    ensures forall m :: m in prior.mappings && m !in added ==> m !in FinalRows2(true, prior, added)
  {
    MergeOwnCheckpointRepeats(added);
  }

  /** Unlike the first script, a resumed run with nothing left writes back
      the earlier rows: the loop made no save, so `matcher.checkpoint` is
      still the one loaded. */
  lemma ResumeWithNothingLeft2(prior: Checkpoint, loaded: seq<Company>)
    requires prior == CheckpointOf(prior.mappings) && prior.processedIds != []
    requires forall c :: c in loaded ==> c.companyId in prior.processedIds
    ensures ToProcess(true, prior, loaded) == []
    ensures FinalRows2(true, prior, []) == prior.mappings && prior.mappings != []
  {
    RemainingAllProcessed(loaded, prior.processedIds);
  }

  /** A run that is not interrupted writes at least one row, so the
      summary's division does not raise, whenever the checkpoint is one
      `save_checkpoint` wrote. */
  lemma CompletedRunWritesRows2(resume: bool, prior: Checkpoint, loaded: seq<Company>, added: seq<Mapping>)
    requires loaded != [] && prior == CheckpointOf(prior.mappings)
    requires |added| == |ToProcess(resume, prior, loaded)|
    ensures FinalRows2(resume, prior, added) != []
  {
  }

  /** As written: the checkpoint an interrupted resumed run leaves lists
      only this run's rows, none of the ids processed before, so the next
      resume processes those companies again. */
  lemma InterruptedResumeDropsPrior2(prior: Checkpoint, loaded: seq<Company>, fetched: seq<GoldstockCompany>,
                                     score: Scorer, n: nat, k: nat)
    requires k <= n <= |ToProcess(true, prior, loaded)|
    ensures var added := Outcomes(Settings2, fetched, score, ToProcess(true, prior, loaded)[..n]);
      forall id :: id in prior.processedIds ==> id !in CheckpointOf(added[..k]).processedIds
  {
    var todo := ToProcess(true, prior, loaded);
    var added := Outcomes(Settings2, fetched, score, todo[..n]);
    var ids := CheckpointOf(added[..k]).processedIds;
    forall id | id in prior.processedIds
      ensures id !in ids
    {
      forall j | 0 <= j < k
        ensures ids[j] != id
      {
        OutcomeAt(Settings2, fetched, score, todo[..n], j);
        assert todo[j] in todo;
      }
    }
  }
}
