/**
 * The lookup dictionaries built at the top of `perform_matching`: a loop
 * over the goldstock companies that writes `index[key] = gs` for each
 * non-empty key of each company, so that on a collision the company that
 * comes later in the list wins.
 */
module LookupIndex {

  /** `index[k] = r` for every non-empty key `k` of `keys`, in order. */
  function Put<R>(index: map<string, R>, keys: seq<string>, r: R): map<string, R>
    decreases |keys|
  {
    if keys == [] then index
    else
      var m := Put(index, keys[..|keys| - 1], r);
      var k := keys[|keys| - 1];
      if k == [] then m else m[k := r]
  }

  /** The dictionary the loop leaves after visiting `records` in order. */
  function Of<R>(records: seq<R>, keysOf: R -> seq<string>): map<string, R>
    decreases |records|
  {
    if records == [] then map[]
    else
      var last := records[|records| - 1];
      Put(Of(records[..|records| - 1], keysOf), keysOf(last), last)
  }

  /** `Put` adds exactly the non-empty keys, all mapped to `r`, and keeps
      every other entry. */
  lemma {:induction false} PutEntries<R>(index: map<string, R>, keys: seq<string>, r: R, k: string)
    ensures k in Put(index, keys, r) <==> k in index || (k != [] && k in keys)
    ensures k != [] && k in keys ==> Put(index, keys, r)[k] == r
    ensures !(k != [] && k in keys) && k in index ==> Put(index, keys, r)[k] == index[k]
    decreases |keys|
  {
    if keys != [] {
      PutEntries(index, keys[..|keys| - 1], r, k);
      assert keys == keys[..|keys| - 1] + [keys[|keys| - 1]];
    }
  }

  /** `records[i]` has key `k` and no later record has it. */
  predicate LastHolder<R>(records: seq<R>, keysOf: R -> seq<string>, k: string, i: int) {
    0 <= i < |records| && k in keysOf(records[i]) && forall j :: i < j < |records| ==> k !in keysOf(records[j])
  }

  /** Every key of the dictionary is non-empty and is a key of the company
      it maps to, and no later company has that key: the last writer wins. */
  lemma {:induction false} OfSound<R>(records: seq<R>, keysOf: R -> seq<string>, k: string)
    requires k in Of(records, keysOf)
    ensures k != []
    ensures exists i :: LastHolder(records, keysOf, k, i) && Of(records, keysOf)[k] == records[i]
    decreases |records|
  {
    var n := |records| - 1;
    var prefix := records[..n];
    PutEntries(Of(prefix, keysOf), keysOf(records[n]), records[n], k);
    if k != [] && k in keysOf(records[n]) {
      assert LastHolder(records, keysOf, k, n);
    } else {
      OfSound(prefix, keysOf, k);
      var i :| LastHolder(prefix, keysOf, k, i) && Of(prefix, keysOf)[k] == prefix[i];
      assert records[i] == prefix[i];
      forall j | i < j < |records| ensures k !in keysOf(records[j]) {
        if j < n {
          assert records[j] == prefix[j];
        }
      }
      assert LastHolder(records, keysOf, k, i);
    }
  }

  /** A non-empty key of some company is in the dictionary, mapped to the
      last company that has it. */
  lemma {:induction false} OfComplete<R>(records: seq<R>, keysOf: R -> seq<string>, k: string, i: nat)
    requires k != [] && LastHolder(records, keysOf, k, i)
    ensures k in Of(records, keysOf) && Of(records, keysOf)[k] == records[i]
    decreases |records|
  {
    var n := |records| - 1;
    var prefix := records[..n];
    PutEntries(Of(prefix, keysOf), keysOf(records[n]), records[n], k);
    if i < n {
      forall j | i < j < |prefix| ensures k !in keysOf(prefix[j]) {
        assert prefix[j] == records[j];
      }
      OfComplete(prefix, keysOf, k, i);
    }
  }

  /** The keys of the dictionary are exactly the non-empty keys of the companies. */
  lemma OfKeys<R>(records: seq<R>, keysOf: R -> seq<string>, k: string)
    ensures k in Of(records, keysOf) <==> k != [] && exists i :: 0 <= i < |records| && k in keysOf(records[i])
  {
    if k in Of(records, keysOf) {
      OfSound(records, keysOf, k);
    }
    if k != [] && exists i :: 0 <= i < |records| && k in keysOf(records[i]) {
      var i :| 0 <= i < |records| && k in keysOf(records[i]);
      LastWith(records, keysOf, k, i);
    }
  }

  /** Among the companies that have a key, there is a last one. */
  lemma {:induction false} LastWith<R>(records: seq<R>, keysOf: R -> seq<string>, k: string, i: nat)
    requires i < |records| && k != [] && k in keysOf(records[i])
    ensures k in Of(records, keysOf)
    decreases |records| - i
  {
    if exists j :: i < j < |records| && k in keysOf(records[j]) {
      var j :| i < j < |records| && k in keysOf(records[j]);
      LastWith(records, keysOf, k, j);
    } else {
      OfComplete(records, keysOf, k, i);
    }
  }

  /** One more key of the loop over a company's keys. */
  lemma PutStep<R>(index: map<string, R>, keys: seq<string>, r: R, j: nat)
    requires j < |keys|
    ensures Put(index, keys[..j + 1], r) ==
      if keys[j] == [] then Put(index, keys[..j], r) else Put(index, keys[..j], r)[keys[j] := r]
  {
    assert keys[..j + 1][..j] == keys[..j];
  }

  /** One more company of the loop over the companies. */
  lemma OfStep<R>(records: seq<R>, keysOf: R -> seq<string>, i: nat)
    requires i < |records|
    ensures Of(records[..i + 1], keysOf) == Put(Of(records[..i], keysOf), keysOf(records[i]), records[i])
  {
    assert records[..i + 1][..i] == records[..i];
  }
}
