/**
 * The records both scripts pass around: the internal company list entries,
 * the scraped goldstockdata.com companies, the mapping rows that go to the
 * CSV file, the hand-written override table and the checkpoint.
 */
module Records {
  import opened Wrappers

  /** One internal company: `company_id`, `company_name`, `tsx_code`. */
  datatype Company = Company(companyId: int, companyName: string, tsxCode: Option<string>)

  /** One goldstockdata.com company. The `exchange` field of the second
      script is not read by the matcher and is not modelled. */
  datatype GoldstockCompany = GoldstockCompany(
    goldstockId: string,
    companyName: string,
    ticker: Option<string>,
    aliases: seq<string>)

  /** `match_status`: 'matched', 'manual' or 'unmatched'. */
  datatype MatchStatus = Matched | Manual | Unmatched

  /** `match_method`: 'known_mapping', 'exact_ticker', 'exact_name', 'fuzzy_name' or 'none'. */
  datatype MatchMethod = KnownMapping | ExactTicker | ExactName | FuzzyName | NoMethod

  /** One row of the output: the outcome for one internal company. */
  datatype Mapping = Mapping(
    companyId: int,
    companyName: string,
    tsxCode: Option<string>,
    goldstockId: Option<string>,
    goldstockName: Option<string>,
    matchStatus: MatchStatus,
    confidenceScore: int,
    matchMethod: MatchMethod)

  /** The outcome invariant: a row is unmatched exactly when it names no
      goldstock company, exactly when its method is 'none', exactly when its
      confidence is 0; a linked row carries both id and name and a
      confidence in (0, 100]. */
  predicate WellFormed(m: Mapping) {
    && (m.matchStatus == Unmatched <==> m.goldstockId.None?)
    && (m.matchStatus == Unmatched <==> m.matchMethod == NoMethod)
    && (m.matchStatus == Unmatched <==> m.confidenceScore == 0)
    && (m.goldstockId.None? <==> m.goldstockName.None?)
    && 0 <= m.confidenceScore <= 100
  }

  /** The row for a company that no tier resolved. */
  function UnmatchedRow(c: Company): (m: Mapping)
    ensures WellFormed(m) && m.matchStatus == Unmatched && m.matchMethod == NoMethod
    ensures m.companyId == c.companyId && m.companyName == c.companyName && m.tsxCode == c.tsxCode
  {
    Mapping(c.companyId, c.companyName, c.tsxCode, None, None, Unmatched, 0, NoMethod)
  }

  /** The row that links `c` to the goldstock company `id`/`name`. */
  function LinkedRow(c: Company, id: string, name: string, status: MatchStatus, confidence: int, how: MatchMethod): (m: Mapping)
    requires status != Unmatched && how != NoMethod && 0 < confidence <= 100
    ensures WellFormed(m) && m.goldstockId == Some(id) && m.goldstockName == Some(name)
    ensures m.matchStatus == status && m.confidenceScore == confidence && m.matchMethod == how
    ensures m.companyId == c.companyId && m.companyName == c.companyName && m.tsxCode == c.tsxCode
  {
    Mapping(c.companyId, c.companyName, c.tsxCode, Some(id), Some(name), status, confidence, how)
  }

  /** The confidence of a linked row. */
  type Confidence = x: int | 0 < x <= 100 witness 100

  /** One entry of the `known_mappings` table. */
  datatype KnownEntry = KnownEntry(goldstockId: string, goldstockName: string, confidenceScore: Confidence)

  /** The hand-written overrides, identical in both scripts. */
  const KnownMappings: map<int, KnownEntry> := map[
    8 := KnownEntry("1", "Abcourt Mines Inc", 100),
    10 := KnownEntry("8", "Agnico Eagle Mines Ltd", 100),
    331 := KnownEntry("374", "Probe Gold Inc", 100),
    48 := KnownEntry("1470", "Aya Gold & Silver Inc.", 100),
    313 := KnownEntry("605", "Aura Minerals Inc.", 100)
  ]

  /** The checkpoint dictionary `{"processed_ids": [...], "mappings": [...]}`. */
  datatype Checkpoint = Checkpoint(processedIds: seq<int>, mappings: seq<Mapping>)

  /** What `load_checkpoint` returns when there is no checkpoint file. */
  const EmptyCheckpoint := Checkpoint([], [])

  /** `[m.company_id for m in mappings]`. */
  function Ids(ms: seq<Mapping>): (ids: seq<int>)
    ensures |ids| == |ms|
    ensures forall i :: 0 <= i < |ms| ==> ids[i] == ms[i].companyId
  {
    seq(|ms|, i requires 0 <= i < |ms| => ms[i].companyId)
  }

  /** The checkpoint that `save_checkpoint(mappings)` writes. */
  function CheckpointOf(ms: seq<Mapping>): (cp: Checkpoint)
    ensures cp.mappings == ms
    ensures |cp.processedIds| == |ms|
    ensures forall i :: 0 <= i < |ms| ==> cp.processedIds[i] == ms[i].companyId
  {
    Checkpoint(Ids(ms), ms)
  }

  /** `Ids` distributes over concatenation. */
  lemma IdsAppend(a: seq<Mapping>, b: seq<Mapping>)
    ensures Ids(a + b) == Ids(a) + Ids(b)
  {
  }

  /** `str(n)`: the decimal digits of a natural number, without leading
      zeros, which read back as `n`. */
  function NatToString(n: nat): (s: string)
    ensures s != []
    ensures forall i :: 0 <= i < |s| ==> '0' <= s[i] <= '9'
    ensures s[0] == '0' ==> n == 0 && s == "0"
    ensures DigitsValue(s) == n
    decreases n
  {
    var d := ['0' + (n % 10) as char];
    if n < 10 then d
    else
      var h := NatToString(n / 10);
      assert (h + d)[..|h|] == h;
      h + d
  }

  /** The number a string of decimal digits spells, most significant
      digit first. */
  function DigitsValue(s: string): nat
    requires forall i :: 0 <= i < |s| ==> '0' <= s[i] <= '9'
    decreases |s|
  {
    if s == [] then 0
    else DigitsValue(s[..|s| - 1]) * 10 + (s[|s| - 1] - '0') as nat
  }

  /** Distinct identifiers give distinct `goldstock_id` strings. */
  lemma NatToStringInjective(m: nat, n: nat)
    requires NatToString(m) == NatToString(n)
    ensures m == n
  {
  }
}
