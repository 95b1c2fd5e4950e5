/**
 * The state both scripts share: the files they persist, the
 * `CompanyMatcher` object with its cache and checkpoint dictionaries, the
 * `interrupted` flag, and the resume arithmetic of `main`.
 */
module Matcher {
  import opened Wrappers
  import opened Records

  /** The files on disk: `goldstock_cache.json`, `mapping_checkpoint.json`
      (absent when `None`) and `company_mappings.csv`. `checkpointHistory`
      records how many mappings each write of the checkpoint file held, in
      order, so that what a crash would leave behind can be read off it. */
  class Files {
    var cacheFile: map<nat, Option<GoldstockCompany>>
    var checkpointFile: Option<Checkpoint>
    var checkpointHistory: seq<nat>
    var csv: seq<Mapping>

    constructor (cacheFile: map<nat, Option<GoldstockCompany>>, checkpointFile: Option<Checkpoint>)
      ensures this.cacheFile == cacheFile && this.checkpointFile == checkpointFile
      ensures checkpointHistory == [] && csv == []
    {
      this.cacheFile := cacheFile;
      this.checkpointFile := checkpointFile;
      checkpointHistory := [];
      csv := [];
    }
  }

  /** `save_mappings(mappings)`: rewrites the CSV file with all rows. */
  method SaveMappings(files: Files, mappings: seq<Mapping>)
    modifies files
    ensures files.csv == mappings
    ensures files.cacheFile == old(files.cacheFile) && files.checkpointFile == old(files.checkpointFile)
    ensures files.checkpointHistory == old(files.checkpointHistory)
  {
    files.csv := mappings;
  }

  /** What a request for one goldstock page gives: a 404, a failure (a
      request error, another HTTP error, or any other exception before the
      cache is written), or a page with the company name found on it ("" when
      none was found) and its ticker. The HTML parsing is not modelled. */
  datatype Response = NotFound | Failed | Page(name: string, ticker: Option<string>)

  /** How `main` ends: an early return for an empty company or goldstock
      list, an exception raised by the summary, a complete run, or (second
      script only) `sys.exit(0)` on seeing the interrupt flag. */
  datatype Exit = NoInput | Crashed | Completed | Interrupted

  /** `CompanyMatcher`: the cache of fetched goldstock pages keyed by
      goldstock id (the key `goldstock_<id>` is a one-to-one encoding of
      the id), the checkpoint dictionary, and the ids requested over the
      network so far. */
  class CompanyMatcher {
    var cache: map<nat, Option<GoldstockCompany>>
    var checkpoint: Checkpoint
    var requests: seq<nat>
    const files: Files

    /** `__init__`: `load_cache` and `load_checkpoint`; a missing checkpoint
        file gives the empty checkpoint. */
    constructor (files: Files)
      ensures this.files == files
      ensures cache == files.cacheFile
      ensures checkpoint == (if files.checkpointFile.Some? then files.checkpointFile.value else EmptyCheckpoint)
      ensures requests == []
    {
      this.files := files;
      cache := files.cacheFile;
      checkpoint := if files.checkpointFile.Some? then files.checkpointFile.value else EmptyCheckpoint;
      requests := [];
    }

    /** `save_cache`: writes a snapshot of the cache to the cache file. */
    method SaveCache()
      modifies files
      ensures files.cacheFile == cache
      ensures files.checkpointFile == old(files.checkpointFile) && files.checkpointHistory == old(files.checkpointHistory)
      ensures files.csv == old(files.csv)
    {
      files.cacheFile := cache;
    }

    /** `save_checkpoint(mappings)`: the checkpoint becomes the mappings
        and, in the same order, their company ids; it is written out. */
    method SaveCheckpoint(mappings: seq<Mapping>)
      modifies this, files
      ensures checkpoint == CheckpointOf(mappings)
      ensures checkpoint.processedIds == Ids(mappings)
      ensures files.checkpointFile == Some(checkpoint)
      ensures files.checkpointHistory == old(files.checkpointHistory) + [|mappings|]
      ensures files.cacheFile == old(files.cacheFile) && files.csv == old(files.csv)
      ensures cache == old(cache) && requests == old(requests)
    {
      checkpoint := CheckpointOf(mappings);
      files.checkpointFile := Some(checkpoint);
      files.checkpointHistory := files.checkpointHistory + [|mappings|];
    }
  }

  /** The `interrupted` global. A signal raises it once, never to be reset:
      `raisedAt` is the number of polls that read it before the signal
      arrived (`None`: no signal during the run). */
  class InterruptFlag {
    const raisedAt: Option<nat>
    var polls: nat

    constructor (raisedAt: Option<nat>)
      ensures this.raisedAt == raisedAt && polls == 0
    {
      this.raisedAt := raisedAt;
      polls := 0;
    }

    /** The value a read of the flag sees once `p` reads have happened. */
    function SeenAt(p: nat): bool
    {
      raisedAt.Some? && raisedAt.value <= p
    }

    /** One read of `interrupted`. */
    method Poll() returns (b: bool)
      modifies this
      ensures polls == old(polls) + 1
      ensures b == SeenAt(old(polls))
    {
      b := SeenAt(polls);
      polls := polls + 1;
    }
  }

  /** Once a read sees the flag raised, every later read does. */
  lemma SeenAtMonotone(flag: InterruptFlag, p: nat, q: nat)
    requires p <= q && flag.SeenAt(p)
    ensures flag.SeenAt(q)
  {
  }

  // ---------------------------------------------------------------------------
  // Resume

  /** `[c for c in companies if c.company_id not in set(processed_ids)]`. */
  function Remaining(companies: seq<Company>, processed: seq<int>): (r: seq<Company>)
    ensures |r| <= |companies|
    ensures forall c :: c in r <==> c in companies && c.companyId !in processed
    decreases |companies|
  {
    if companies == [] then []
    else
      var rest := Remaining(companies[1..], processed);
      assert forall c :: c in companies <==> c == companies[0] || c in companies[1..];
      if companies[0].companyId in processed then rest else [companies[0]] + rest
  }

  /** The filter keeps the input order: it distributes over concatenation. */
  lemma {:induction false} RemainingAppend(a: seq<Company>, b: seq<Company>, processed: seq<int>)
    ensures Remaining(a + b, processed) == Remaining(a, processed) + Remaining(b, processed)
    decreases |a|
  {
    if a != [] {
      assert (a + b)[0] == a[0] && (a + b)[1..] == a[1..] + b;
      RemainingAppend(a[1..], b, processed);
      if a[0].companyId !in processed {
        assert Remaining(a + b, processed) == [a[0]] + Remaining(a[1..] + b, processed);
        assert Remaining(a, processed) == [a[0]] + Remaining(a[1..], processed);
      }
    } else {
      assert a + b == b;
    }
  }

  /** The list of companies `main` hands to `perform_matching`: with
      `--resume` and a non-empty `processed_ids`, those not yet processed. */
  function ToProcess(resume: bool, checkpoint: Checkpoint, companies: seq<Company>): (r: seq<Company>)
    ensures !resume ==> r == companies
    ensures forall c :: c in r <==> c in companies && !(resume && c.companyId in checkpoint.processedIds)
  {
    if resume && checkpoint.processedIds != [] then Remaining(companies, checkpoint.processedIds) else companies
  }

  /** Nothing processed: the filter keeps every company. */
  lemma {:induction false} RemainingNone(companies: seq<Company>, processed: seq<int>)
    requires processed == []
    ensures Remaining(companies, processed) == companies
    decreases |companies|
  {
    if companies != [] {
      RemainingNone(companies[1..], processed);
      assert [companies[0]] + companies[1..] == companies;
    }
  }

  /** Everything processed: the filter keeps nothing. */
  lemma {:induction false} RemainingAllProcessed(companies: seq<Company>, processed: seq<int>)
    requires forall c :: c in companies ==> c.companyId in processed
    ensures Remaining(companies, processed) == []
    decreases |companies|
  {
    if companies != [] {
      assert companies[0] in companies;
      RemainingAllProcessed(companies[1..], processed);
    }
  }

  /** The merge in `main`: with `--resume` and non-empty checkpoint
      mappings, those mappings followed by the new ones. */
  function Merge(resume: bool, checkpoint: Checkpoint, mappings: seq<Mapping>): (r: seq<Mapping>)
    ensures !resume || checkpoint.mappings == [] ==> r == mappings
    ensures resume ==> r == checkpoint.mappings + mappings
  {
    if resume && checkpoint.mappings != [] then checkpoint.mappings + mappings else mappings
  }

  /** No company id occurs twice. */
  predicate DistinctIds(ids: seq<int>) {
    forall i, j :: 0 <= i < j < |ids| ==> ids[i] != ids[j]
  }

  /** `[c.company_id for c in companies]`. */
  function CompanyIds(cs: seq<Company>): (ids: seq<int>)
    ensures |ids| == |cs|
    ensures forall i :: 0 <= i < |cs| ==> ids[i] == cs[i].companyId
  {
    seq(|cs|, i requires 0 <= i < |cs| => cs[i].companyId)
  }

  /** The filter keeps none of the processed ids, and adds no id. */
  lemma RemainingIdsFrom(companies: seq<Company>, processed: seq<int>)
    ensures forall id :: id in CompanyIds(Remaining(companies, processed)) ==> id !in processed && id in CompanyIds(companies)
  {
    var r := Remaining(companies, processed);
    forall id | id in CompanyIds(r)
      ensures id !in processed && id in CompanyIds(companies)
    {
      var k :| 0 <= k < |r| && CompanyIds(r)[k] == id;
      assert r[k] in r;
      var m :| 0 <= m < |companies| && companies[m] == r[k];
      assert CompanyIds(companies)[m] == id;
    }
  }

  /** The filter keeps distinct ids distinct. */
  lemma {:induction false} RemainingIdsDistinct(companies: seq<Company>, processed: seq<int>)
    requires DistinctIds(CompanyIds(companies))
    ensures DistinctIds(CompanyIds(Remaining(companies, processed)))
    decreases |companies|
  {
    if companies != [] {
      var tail := companies[1..];
      var rest := Remaining(tail, processed);
      var id := companies[0].companyId;
      assert CompanyIds(tail) == CompanyIds(companies)[1..];
      RemainingIdsDistinct(tail, processed);
      if id !in processed {
        RemainingIdsFrom(tail, processed);
        assert id !in CompanyIds(tail) by {
          forall k | 0 <= k < |tail| ensures CompanyIds(tail)[k] != id {
            assert CompanyIds(companies)[k + 1] == CompanyIds(tail)[k];
          }
        }
        DistinctCons(id, CompanyIds(rest));
        assert CompanyIds([companies[0]] + rest) == [id] + CompanyIds(rest);
      }
    }
  }

  lemma DistinctCons(x: int, xs: seq<int>)
    requires DistinctIds(xs) && x !in xs
    ensures DistinctIds([x] + xs)
  {
    forall i, j | 0 <= i < j < |xs| + 1
      ensures ([x] + xs)[i] != ([x] + xs)[j]
    {
      assert ([x] + xs)[j] == xs[j - 1];
      if i > 0 {
        assert ([x] + xs)[i] == xs[i - 1];
      }
    }
  }

  /** The merge as the comment "Add any existing mappings if resuming" asks
      for it, fed the checkpoint as it was when
      the run started: a resumed run that processed all remaining companies
      outputs a row for every input company and no id twice, as long as the
      checkpoint and the input held no id twice. */
  lemma MergeCoversAll(prior: seq<Mapping>, companies: seq<Company>, added: seq<Mapping>)
    requires DistinctIds(Ids(prior))
    requires DistinctIds(CompanyIds(companies))
    requires Ids(added) == CompanyIds(Remaining(companies, Ids(prior)))
    ensures forall c :: c in companies ==> c.companyId in Ids(prior + added)
    ensures DistinctIds(Ids(prior + added))
  {
    IdsAppend(prior, added);
    RemainingIdsFrom(companies, Ids(prior));
    RemainingIdsDistinct(companies, Ids(prior));
    MergeCovers(Ids(prior), companies, Ids(added));
    DistinctConcat(Ids(prior), Ids(added));
  }

  /** Every input company's id is a checkpointed id or a new row's id. */
  lemma MergeCovers(prior: seq<int>, companies: seq<Company>, added: seq<int>)
    requires added == CompanyIds(Remaining(companies, prior))
    ensures forall c :: c in companies ==> c.companyId in prior + added
  {
    var rest := Remaining(companies, prior);
    forall c | c in companies ensures c.companyId in prior + added {
      if c.companyId !in prior {
        assert c in rest;
        var k :| 0 <= k < |rest| && rest[k] == c;
        assert added[k] == c.companyId;
      }
    }
  }

  /** Two lists of distinct ids with no id in common concatenate to one. */
  lemma DistinctConcat(xs: seq<int>, ys: seq<int>)
    requires DistinctIds(xs) && DistinctIds(ys)
    requires forall id :: id in ys ==> id !in xs
    ensures DistinctIds(xs + ys)
  {
    forall i, j | 0 <= i < j < |xs + ys|
      ensures (xs + ys)[i] != (xs + ys)[j]
    {
      if i >= |xs| {
        assert (xs + ys)[i] == ys[i - |xs|] && (xs + ys)[j] == ys[j - |xs|];
      } else if j >= |xs| {
        assert (xs + ys)[j] == ys[j - |xs|] && ys[j - |xs|] in ys;
      }
    }
  }

  /** Fed the checkpoint that the run itself has just saved, the merge
      repeats every new row. */
  lemma MergeOwnCheckpointRepeats(added: seq<Mapping>)
    requires added != []
    ensures Merge(true, CheckpointOf(added), added) == added + added
    ensures !DistinctIds(Ids(Merge(true, CheckpointOf(added), added)))
  {
    var out := added + added;
    assert Ids(out)[0] == Ids(out)[|added|];
  }
}
