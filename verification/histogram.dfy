/**
  The first-name histogram `firstnameHist` (main.go:133, 186) and the scan
  over records that fills it (main.go:136-189). A record stands for the
  text of a page's first revision, already cut into the `key = value`
  fields of its Personendaten templates, in order.
*/
module Histogram {
  import opened Base
  import opened NameField

  /** Exact, case-sensitive first name to number of occurrences. */
  type Hist = map<string, nat>

  /** The fields of all templates of one record, in order. */
  type Record = seq<Field>

  /** What Go reads for a key: the stored count, or the zero value when absent. */
  function Count(h: Hist, k: string): nat {
    if k in h then h[k] else 0
  }

  /** `firstnameHist[k] += 1` (main.go:186). */
  function Observe(h: Hist, k: string): (h': Hist)
    ensures Count(h', k) == Count(h, k) + 1
    ensures forall j :: j != k ==> Count(h', j) == Count(h, j)
    ensures h'.Keys == h.Keys + {k}
  {
    h[k := Count(h, k) + 1]
  }

  /**
    The histogram after observing each key of `ks` in order (line 186,
    repeated): every key gains its number of occurrences in `ks`.
  */
  function Tally(h: Hist, ks: seq<string>): Hist
    decreases |ks|
  {
    if |ks| == 0 then h
    else
      var init := ks[..|ks| - 1];
      assert ks == init + [ks[|ks| - 1]];
      Observe(Tally(h, init), ks[|ks| - 1])
  }

  /** The effect of one field on the histogram (main.go:171-186). */
  function Ingest(lower: string -> string, h: Hist, f: Field): (h': Hist)
    ensures h' != h <==> lower(f.key) == "name" && ',' in f.value
    ensures lower(f.key) == "name" && ',' in f.value ==>
              h' == Observe(h, Firstname(f.value).value)
  {
    match FieldCandidate(lower, f)
    case Some(k) =>
      assert Count(Observe(h, k), k) != Count(h, k);
      Observe(h, k)
    case None => h
  }

  /** The keys a sequence of fields contributes, in order: one per keyed field. */
  function FieldCandidates(lower: string -> string, fields: seq<Field>): seq<string>
    decreases |fields|
  {
    if |fields| == 0 then []
    else
      var f := fields[|fields| - 1];
      FieldCandidates(lower, fields[..|fields| - 1])
        + match FieldCandidate(lower, f) case Some(k) => [k] case None => []
  }

  /** The keys all records contribute, record by record. */
  function Candidates(lower: string -> string, records: seq<Record>): seq<string>
    decreases |records|
  {
    if |records| == 0 then []
    else Candidates(lower, records[..|records| - 1]) + FieldCandidates(lower, records[|records| - 1])
  }

  /** The fields of one record contribute at most one key each. */
  lemma {:induction false} FieldCandidatesLength(lower: string -> string, fields: seq<Field>)
    ensures |FieldCandidates(lower, fields)| <= |fields|
    decreases |fields|
  {
    if |fields| > 0 {
      FieldCandidatesLength(lower, fields[..|fields| - 1]);
    }
  }

  /** The key a field yields is among the keys of its record. */
  lemma {:induction false} FieldYields(lower: string -> string, fields: seq<Field>, i: nat, k: string)
    requires i < |fields| && FieldCandidate(lower, fields[i]) == Some(k)
    ensures k in FieldCandidates(lower, fields)
    decreases |fields|
  {
    var init := fields[..|fields| - 1];
    if i < |fields| - 1 {
      assert fields[i] == init[i];
      FieldYields(lower, init, i, k);
    }
  }

  /** Every key of a record comes from one of its fields. */
  lemma {:induction false} FieldSource(lower: string -> string, fields: seq<Field>, k: string) returns (i: nat)
    requires k in FieldCandidates(lower, fields)
    ensures i < |fields| && FieldCandidate(lower, fields[i]) == Some(k)
    decreases |fields|
  {
    var init := fields[..|fields| - 1];
    if k in FieldCandidates(lower, init) {
      i := FieldSource(lower, init, k);
      assert fields[i] == init[i];
    } else {
      i := |fields| - 1;
    }
  }

  /** The key any field of any record yields is among the keys of the dump. */
  lemma {:induction false} RecordYields(lower: string -> string, records: seq<Record>, r: nat, i: nat, k: string)
    requires r < |records| && i < |records[r]| && FieldCandidate(lower, records[r][i]) == Some(k)
    ensures k in Candidates(lower, records)
    decreases |records|
  {
    var init := records[..|records| - 1];
    if r < |records| - 1 {
      assert records[r] == init[r];
      RecordYields(lower, init, r, i, k);
    } else {
      FieldYields(lower, records[r], i, k);
    }
  }

  /** Every key of the dump comes from some field of some record. */
  lemma {:induction false} RecordSource(lower: string -> string, records: seq<Record>, k: string) returns (r: nat, i: nat)
    requires k in Candidates(lower, records)
    ensures r < |records| && i < |records[r]| && FieldCandidate(lower, records[r][i]) == Some(k)
    decreases |records|
  {
    var init := records[..|records| - 1];
    if k in Candidates(lower, init) {
      r, i := RecordSource(lower, init, k);
      assert records[r] == init[r];
    } else {
      r := |records| - 1;
      i := FieldSource(lower, records[r], k);
    }
  }

  /** Each key is counted exactly as often as it was observed; nothing else is in the map. */
  lemma TallyCounts(ks: seq<string>)
    ensures forall k :: Count(Tally(map[], ks), k) == multiset(ks)[k]
    ensures Tally(map[], ks).Keys == set k | k in ks
  {
    TallyAdds(map[], ks);
    TallyKeys(map[], ks);
  }

  /** Tallying raises every key's count by its number of occurrences. */
  lemma {:induction false} TallyAdds(h: Hist, ks: seq<string>)
    ensures forall k :: Count(Tally(h, ks), k) == Count(h, k) + multiset(ks)[k]
    decreases |ks|
  {
    if |ks| > 0 {
      var init := ks[..|ks| - 1];
      TallyAdds(h, init);
      assert ks == init + [ks[|ks| - 1]];
    }
  }

  /** No key of a histogram built from observations has count 0. */
  lemma {:induction false} NoZeroCounts(ks: seq<string>)
    ensures forall k :: k in Tally(map[], ks) ==> Tally(map[], ks)[k] > 0
  {
    TallyCounts(ks);
    forall k | k in Tally(map[], ks)
      ensures Tally(map[], ks)[k] > 0
    {
      assert Count(Tally(map[], ks), k) == multiset(ks)[k];
    }
  }

  /** Tallying two pieces one after the other is tallying their concatenation. */
  lemma TallyAppend(h: Hist, a: seq<string>, b: seq<string>)
    ensures Tally(Tally(h, a), b) == Tally(h, a + b)
  {
    assert multiset(a + b) == multiset(a) + multiset(b);
    TallyAdds(h, a);
    TallyAdds(Tally(h, a), b);
    TallyAdds(h, a + b);
    TallyKeys(h, a);
    TallyKeys(Tally(h, a), b);
    TallyKeys(h, a + b);
    SameCounts(Tally(Tally(h, a), b), Tally(h, a + b));
  }

  /** Tallying adds exactly the observed keys to the map. */
  lemma {:induction false} TallyKeys(h: Hist, ks: seq<string>)
    ensures forall k :: k in Tally(h, ks) <==> k in h || k in ks
    decreases |ks|
  {
    if |ks| > 0 {
      var init := ks[..|ks| - 1];
      TallyKeys(h, init);
      assert ks == init + [ks[|ks| - 1]];
    }
  }

  /** Two histograms with the same keys and the same counts are the same map. */
  lemma SameCounts(x: Hist, y: Hist)
    requires forall k :: k in x <==> k in y
    requires forall k :: Count(x, k) == Count(y, k)
    ensures x == y
  {
    forall k | k in x
      ensures x[k] == y[k]
    {
      assert Count(x, k) == Count(y, k);
    }
  }


  /** Ingesting one field is tallying the keys it contributes. */
  lemma IngestIsTally(lower: string -> string, h: Hist, fields: seq<Field>, j: nat)
    requires j < |fields|
    ensures Ingest(lower, Tally(h, FieldCandidates(lower, fields[..j])), fields[j])
            == Tally(h, FieldCandidates(lower, fields[..j + 1]))
  {
    var before := FieldCandidates(lower, fields[..j]);
    assert fields[..j + 1][..j] == fields[..j];
    match FieldCandidate(lower, fields[j])
    case Some(k) =>
      assert FieldCandidates(lower, fields[..j + 1]) == before + [k];
      assert (before + [k])[..|before|] == before;
    case None =>
      assert FieldCandidates(lower, fields[..j + 1]) == before;
  }

  /**
    `firstnameHist` once every record has been read (main.go:133-193):
    each first name is counted once per `name` field that yields it.
  */
  function FirstnameHist(lower: string -> string, records: seq<Record>): (h: Hist)
    ensures forall k :: Count(h, k) == multiset(Candidates(lower, records))[k]
    ensures h.Keys == set k | k in Candidates(lower, records)
  {
    TallyCounts(Candidates(lower, records));
    Tally(map[], Candidates(lower, records))
  }

  /**
    The scan of main.go:136-189: every `name` field of every record, in
    order, goes through the splitter and bumps its key. Its result is
    `FirstnameHist`, so each first name is counted once per `name` field
    that yields it.
  */
  method BuildHistogram(lower: string -> string, records: seq<Record>) returns (hist: Hist)
    ensures hist == FirstnameHist(lower, records)
  {
    hist := map[];
    var i := 0;
    while i < |records|
      invariant i <= |records|
      invariant hist == Tally(map[], Candidates(lower, records[..i]))
    {
      hist := IngestRecord(lower, hist, records[i]);
      RecordStep(lower, records, i, hist);
      i := i + 1;
    }
    assert records[..i] == records;
  }

  /** The loop over the fields of one record (main.go:164-188). */
  method IngestRecord(lower: string -> string, start: Hist, fields: Record) returns (hist: Hist)
    ensures hist == Tally(start, FieldCandidates(lower, fields))
  {
    hist := start;
    var j := 0;
    while j < |fields|
      invariant j <= |fields|
      invariant hist == Tally(start, FieldCandidates(lower, fields[..j]))
    {
      var next := Ingest(lower, hist, fields[j]);
      assert next == Tally(start, FieldCandidates(lower, fields[..j + 1])) by {
        IngestIsTally(lower, start, fields, j);
      }
      hist := next;
      j := j + 1;
    }
    assert fields[..j] == fields;
  }

  /** After the fields of record `i` have been ingested, the histogram covers records 0 to `i`. */
  lemma RecordStep(lower: string -> string, records: seq<Record>, i: nat, hist: Hist)
    requires i < |records|
    requires hist == Tally(Tally(map[], Candidates(lower, records[..i])), FieldCandidates(lower, records[i]))
    ensures hist == Tally(map[], Candidates(lower, records[..i + 1]))
  {
    var start := Candidates(lower, records[..i]);
    var more := FieldCandidates(lower, records[i]);
    TallyAppend(map[], start, more);
    assert Candidates(lower, records[..i + 1]) == start + more by {
      assert records[..i + 1][..i] == records[..i];
      assert records[..i + 1][i] == records[i];
    }
  }


}
