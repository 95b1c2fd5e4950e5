/**
 * The part of fuzzywuzzy that the matcher relies on. The similarity score
 * (`fuzz.token_sort_ratio`, with whatever preprocessing the library does)
 * is a parameter; `process.extractOne` keeps every choice whose score
 * reaches the cutoff and returns the first one of highest score, as
 * Python's `max` does.
 */
module Fuzzy {
  import opened Wrappers

  /** A similarity score. */
  type Percent = x: int | 0 <= x <= 100

  /** `scorer(query, choice)`. */
  type Scorer = (string, string) -> Percent

  /** The first index of highest score. */
  function BestIndex(query: string, choices: seq<string>, score: Scorer): (k: nat)
    requires choices != []
    ensures k < |choices|
    ensures forall j :: 0 <= j < |choices| ==> score(query, choices[j]) <= score(query, choices[k])
    ensures forall j :: 0 <= j < k ==> score(query, choices[j]) < score(query, choices[k])
    decreases |choices|
  {
    if |choices| == 1 then 0
    else
      var k := BestIndex(query, choices[..|choices| - 1], score);
      if score(query, choices[|choices| - 1]) > score(query, choices[k]) then |choices| - 1 else k
  }

  /** `process.extractOne(query, choices, scorer=score, score_cutoff=cutoff)`:
      the first best choice with its score, or `None` when there are no
      choices or the best score is below the cutoff. */
  function ExtractOne(query: string, choices: seq<string>, score: Scorer, cutoff: int): (r: Option<(string, Percent)>)
    ensures r.Some? ==> r.value.0 in choices && r.value.1 == score(query, r.value.0) && r.value.1 >= cutoff
    ensures r.Some? ==> forall j :: 0 <= j < |choices| ==> score(query, choices[j]) <= r.value.1
    ensures r.None? <==> forall j :: 0 <= j < |choices| ==> score(query, choices[j]) < cutoff
  {
    if choices == [] then None
    else
      var k := BestIndex(query, choices, score);
      if score(query, choices[k]) >= cutoff then Some((choices[k], score(query, choices[k]))) else None
  }

  /** `choices.index(x)`, or the first `i` with `choices[i] == x`. */
  function FirstIndexOf(choices: seq<string>, x: string): (i: nat)
    requires x in choices
    ensures i < |choices| && choices[i] == x
    ensures forall j :: 0 <= j < i ==> choices[j] != x
    decreases |choices|
  {
    if choices[0] == x then 0 else 1 + FirstIndexOf(choices[1..], x)
  }

  /** Looking the returned name up again lands on the very choice that won:
      all copies of a name score alike, so the first best choice is also the
      first copy of its name. */
  lemma ExtractOneFirstCopy(query: string, choices: seq<string>, score: Scorer, cutoff: int)
    requires ExtractOne(query, choices, score, cutoff).Some?
    ensures FirstIndexOf(choices, ExtractOne(query, choices, score, cutoff).value.0) == BestIndex(query, choices, score)
  {
  }

  /** Asking for a higher cutoff is the same as filtering the answer of a
      lower one: the best choice does not depend on the cutoff. */
  lemma ExtractOneRaiseCutoff(query: string, choices: seq<string>, score: Scorer, low: int, high: int)
    requires low <= high
    ensures ExtractOne(query, choices, score, high) ==
      match ExtractOne(query, choices, score, low)
      case None => None
      case Some(best) => if best.1 >= high then Some(best) else None
  {
  }
}
