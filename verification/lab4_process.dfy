/** The multiprocess variant of the fetcher (lab4process.py): one timeseries
    query per state whose document maps wave keys to entries, a zero-repair
    pass that falls back to the predecessor on a trailing zero, and the
    classification of the per-process results by the test `series == [0]`. */
module ProcessVariant {
  import opened WaveData

  /** NUMBER_OF_WAVES of this variant. */
  const NumberOfWaves: nat := 15

  /** A parsed timeseries document: its top-level keys in document order, each
      with the parsed reply of its entry. */
  type Document = seq<(string, WaveReply)>

  /** The timeseries endpoint, already parsed: the document for a state code. */
  type Timeseries = string -> Document

  /** The keys of a document are distinct, as those of a Python dict are. */
  predicate DistinctKeys(doc: Document)
  {
    forall i, j :: 0 <= i < j < |doc| ==> doc[i].0 != doc[j].0
  }

  predicate HasKey(doc: Document, key: string)
  {
    exists i :: 0 <= i < |doc| && doc[i].0 == key
  }

  function Digit(d: nat): (c: char)
    requires d < 10
  {
    "0123456789"[d]
  }

  /** `str(n)` for a natural number. */
  function Decimal(n: nat): (s: string)
  {
    if n < 10 then [Digit(n)] else Decimal(n / 10) + [Digit(n % 10)]
  }

  /** The key of wave `n`: "wave" + str(n). */
  function WaveKey(n: nat): (key: string)
  {
    "wave" + Decimal(n)
  }

  /** The key whose entry supplies the final vaccinated percentage. */
  lemma FinalWaveKey()
    ensures WaveKey(NumberOfWaves) == "wave15"
  {
  }

  /** The document after `del jsonData["all"]`: the summary entry is gone and
      every other entry stays, in order. */
  function WithoutAll(doc: Document): (d: Document)
    ensures forall e :: e in d <==> e in doc && e.0 != "all"
    ensures |d| <= |doc|
  {
    if doc == [] then []
    else
      var init := WithoutAll(doc[..|doc| - 1]);
      if doc[|doc| - 1].0 == "all" then init else init + [doc[|doc| - 1]]
  }

  /** Deleting "all" from a document without it changes nothing. */
  lemma {:induction false} WithoutAllNoop(doc: Document)
    requires !HasKey(doc, "all")
    ensures WithoutAll(doc) == doc
  {
    if doc != [] {
      var init := doc[..|doc| - 1];
      assert !HasKey(init, "all") by {
        forall i | 0 <= i < |init|
          ensures init[i].0 != "all"
        {
          assert init[i] == doc[i];
        }
      }
      WithoutAllNoop(init);
      assert doc[|doc| - 1].0 != "all";
      assert init + [doc[|doc| - 1]] == doc;
    }
  }

  /** With distinct keys, deleting "all" removes exactly the entry at its
      position `j` and keeps every other entry, in document order. */
  lemma {:induction false} WithoutAllRemovesOne(doc: Document, j: nat)
    requires DistinctKeys(doc)
    requires j < |doc| && doc[j].0 == "all"
    ensures WithoutAll(doc) == doc[..j] + doc[j + 1..]
  {
    if j == |doc| - 1 {
      WithoutAllLast(doc);
      assert doc[..j] + doc[j + 1..] == doc[..|doc| - 1];
    } else {
      var init, last := doc[..|doc| - 1], doc[|doc| - 1];
      assert last.0 != "all" by {
        assert doc[j].0 != doc[|doc| - 1].0;
      }
      DistinctKeysInit(doc);
      WithoutAllRemovesOne(init, j);
      WithoutAllKeepsLast(doc, j);
    }
  }

  /** Deleting "all" when it is the last key drops just that entry. */
  lemma WithoutAllLast(doc: Document)
    requires DistinctKeys(doc)
    requires doc != [] && doc[|doc| - 1].0 == "all"
    ensures WithoutAll(doc) == doc[..|doc| - 1]
  {
    var init := doc[..|doc| - 1];
    assert !HasKey(init, "all") by {
      forall i | 0 <= i < |init|
        ensures init[i].0 != "all"
      {
        assert init[i] == doc[i];
      }
    }
    WithoutAllNoop(init);
  }

  /** The inductive step of WithoutAllRemovesOne: a last entry other than
      "all" stays at the end. */
  lemma WithoutAllKeepsLast(doc: Document, j: nat)
    requires j < |doc| - 1
    requires doc[|doc| - 1].0 != "all"
    requires WithoutAll(doc[..|doc| - 1]) == doc[..|doc| - 1][..j] + doc[..|doc| - 1][j + 1..]
    ensures WithoutAll(doc) == doc[..j] + doc[j + 1..]
  {
    assert WithoutAll(doc) == WithoutAll(doc[..|doc| - 1]) + [doc[|doc| - 1]];
    RemoveAtInit(doc, j);
  }

  /** Removing position `j` of a sequence commutes with appending an element
      after it. */
  lemma RemoveAtInit<T>(s: seq<T>, j: nat)
    requires j < |s| - 1
    ensures s[..|s| - 1][..j] + s[..|s| - 1][j + 1..] + [s[|s| - 1]] == s[..j] + s[j + 1..]
  {
    var init := s[..|s| - 1];
    assert init[..j] == s[..j];
    assert init[j + 1..] + [s[|s| - 1]] == s[j + 1..];
  }

  /** Dropping the last entry keeps the keys distinct. */
  lemma DistinctKeysInit(doc: Document)
    requires doc != [] && DistinctKeys(doc)
    ensures DistinctKeys(doc[..|doc| - 1])
  {
    var init := doc[..|doc| - 1];
    forall i, k | 0 <= i < k < |init|
      ensures init[i].0 != init[k].0
    {
      assert init[i] == doc[i] && init[k] == doc[k];
    }
  }

  /** Deleting "all" keeps the keys distinct. */
  lemma {:induction false} WithoutAllDistinct(doc: Document)
    requires DistinctKeys(doc)
    ensures DistinctKeys(WithoutAll(doc))
  {
    if doc != [] {
      var init := doc[..|doc| - 1];
      var last := doc[|doc| - 1];
      WithoutAllDistinct(init);
      var d := WithoutAll(init);
      forall i | 0 <= i < |d|
        ensures d[i].0 != last.0
      {
        assert d[i] in init;
        var j :| 0 <= j < |init| && init[j] == d[i];
        assert doc[j] == init[j];
      }
    }
  }

  // ---------------------------------------------------------------------
  // Entry collection

  /** The replies of a document's entries, in document order. */
  function EntryReplies(entries: Document): (rs: seq<WaveReply>)
    ensures |rs| == |entries|
    ensures forall i :: 0 <= i < |entries| ==> rs[i] == entries[i].1
  {
    seq(|entries|, i requires 0 <= i < |entries| => entries[i].1)
  }

  /** The final vaccinated percentage after the loop has seen the first `k`
      entries: the already-vaccinated figure of the latest entry keyed
      WaveKey(NumberOfWaves) that has 'Yes' and that figure, else 0. */
  function FinalUpTo(entries: Document, k: nat): (v: real)
    requires k <= |entries|
  {
    if k == 0 then 0.0
    else
      var reply := entries[k - 1].1;
      if entries[k - 1].0 == WaveKey(NumberOfWaves) && reply.Reply? && reply.alreadyVaccinated.Some?
      then reply.alreadyVaccinated.value
      else FinalUpTo(entries, k - 1)
  }

  /** The final vaccinated percentage the entry loop keeps. */
  function EntryFinal(entries: Document): (v: real)
  {
    if entries == [] || entries[0].1.NoYes? then 0.0 else FinalUpTo(entries, |entries|)
  }

  /** The loop over the document's entries, numbered from 1. */
  method CollectEntries(jsonData: Document) returns (series: seq<real>, finalVaccinated: real)
    ensures series == RawSeries(EntryReplies(jsonData))
    ensures finalVaccinated == EntryFinal(jsonData)
  {
    series, finalVaccinated := [], 0.0;
    var x := 1;
    while x <= |jsonData|
      invariant 1 <= x <= |jsonData| + 1
      invariant x > 1 ==> jsonData[0].1.Reply?
      invariant |series| == x - 1
      invariant forall i :: 0 <= i < x - 1 ==> series[i] == RawValue(jsonData[i].1)
      invariant finalVaccinated == FinalUpTo(jsonData, x - 1)
    {
      var (wave, reply) := jsonData[x - 1];
      var acceptanceRate: real;
      match reply {
        case NoYes =>
          if x == 1 {
            break;
          }
          acceptanceRate := 0.0;
        case Reply(percentYes, vaccinated) =>
          var percentVaccinated := 0.0;
          if vaccinated.Some? {
            if wave == WaveKey(NumberOfWaves) {
              finalVaccinated := vaccinated.value;
            }
            percentVaccinated := percentVaccinated + vaccinated.value;
          }
          acceptanceRate := percentYes + percentVaccinated;
      }
      series := series + [acceptanceRate];
      x := x + 1;
    }
  }

  /** With distinct keys, the final vaccinated percentage comes from the entry
      keyed WaveKey(NumberOfWaves), wherever it sits in the document. */
  lemma FinalFromWaveKey(entries: Document, i: nat)
    requires DistinctKeys(entries)
    requires i < |entries| && entries[i].0 == WaveKey(NumberOfWaves)
    requires entries[0].1.Reply?
    ensures EntryFinal(entries) == VaccinatedOrZero(entries[i].1)
  {
    FinalUpToKey(entries, |entries|, i);
  }

  lemma {:induction false} FinalUpToKey(entries: Document, k: nat, i: nat)
    requires DistinctKeys(entries)
    requires i < |entries| && entries[i].0 == WaveKey(NumberOfWaves)
    requires k <= |entries|
    ensures FinalUpTo(entries, k) == if i < k then VaccinatedOrZero(entries[i].1) else 0.0
  {
    if k > 0 {
      FinalUpToKey(entries, k - 1, i);
    }
  }

  /** Without an entry keyed WaveKey(NumberOfWaves) the final vaccinated
      percentage stays 0. */
  lemma {:induction false} NoWaveKeyNoFinal(entries: Document, k: nat)
    requires !HasKey(entries, WaveKey(NumberOfWaves))
    requires k <= |entries|
    ensures FinalUpTo(entries, k) == 0.0
  {
    if k > 0 {
      assert entries[k - 1].0 != WaveKey(NumberOfWaves);
      NoWaveKeyNoFinal(entries, k - 1);
    }
  }

  // ---------------------------------------------------------------------
  // Zero repair

  /** The value index `i` holds once the left-to-right pass has passed it:
      a non-zero entry is kept; a zero with a successor becomes the mean of the
      already repaired predecessor (the original last entry when `i` is 0, as
      Python's index -1 reads it) and the successor; a trailing zero takes its
      predecessor's value. */
  function RepairedAt(s: seq<real>, i: nat): (v: real)
    requires i < |s|
    decreases i
  {
    if s[i] != 0.0 then s[i]
    else
      var pred := if i == 0 then s[|s| - 1] else RepairedAt(s, i - 1);
      if i + 1 < |s| then (pred + s[i + 1]) / 2.0 else pred
  }

  /** The whole series after the repair pass. */
  function Repaired(s: seq<real>): (r: seq<real>)
    ensures |r| == |s|
    ensures forall i :: 0 <= i < |s| && s[i] != 0.0 ==> r[i] == s[i]
    ensures forall i :: 0 < i < |s| - 1 && s[i] == 0.0 ==> r[i] == (r[i - 1] + s[i + 1]) / 2.0
    ensures |s| > 1 && s[|s| - 1] == 0.0 ==> r[|s| - 1] == r[|s| - 2]
    ensures |s| > 1 && s[0] == 0.0 ==> r[0] == (s[|s| - 1] + s[1]) / 2.0
    ensures |s| == 1 ==> r == s
  {
    seq(|s|, i requires 0 <= i < |s| => RepairedAt(s, i))
  }

  /** The repair loop over acceptance_rate_list, in place, with its
      IndexError fallback. */
  method RepairInPlace(a: array<real>)
    modifies a
    ensures a[..] == Repaired(old(a[..]))
  {
    ghost var s := a[..];
    var n := a.Length;
    var idx := 0;
    while idx < n
      invariant 0 <= idx <= n
      invariant forall i :: 0 <= i < idx ==> a[i] == RepairedAt(s, i)
      invariant forall i :: idx <= i < n ==> a[i] == s[i]
    {
      if a[idx] == 0.0 {
        if idx + 1 < n {
          a[idx] := (a[PyIndex(idx - 1, n)] + a[idx + 1]) / 2.0;
        } else {
          a[idx] := a[PyIndex(idx - 1, n)];
        }
      }
      idx := idx + 1;
    }
  }

  /** Worked cases: an interior zero takes the mean of its neighbours, a
      trailing zero its predecessor, and a lone zero stays. */
  lemma RepairExamples()
    ensures Repaired([10.0, 0.0, 20.0]) == [10.0, 15.0, 20.0]
    ensures Repaired([10.0, 20.0, 0.0]) == [10.0, 20.0, 20.0]
    ensures Repaired([0.0]) == [0.0]
  {
    assert RepairedAt([10.0, 0.0, 20.0], 1) == 15.0;
    assert RepairedAt([10.0, 20.0, 0.0], 2) == 20.0;
  }

  /** Every entry of a repaired non-negative series with a positive first
      entry is positive: no zero survives the pass. */
  lemma RepairedPositive(s: seq<real>)
    requires s != [] && s[0] > 0.0
    requires forall k :: 0 <= k < |s| ==> s[k] >= 0.0
    ensures forall i :: 0 <= i < |s| ==> Repaired(s)[i] > 0.0
  {
    forall i | 0 <= i < |s|
      ensures Repaired(s)[i] > 0.0
    {
      RepairedAtPositive(s, i);
    }
  }

  lemma {:induction false} RepairedAtPositive(s: seq<real>, i: nat)
    requires s != [] && s[0] > 0.0
    requires forall k :: 0 <= k < |s| ==> s[k] >= 0.0
    requires i < |s|
    ensures RepairedAt(s, i) > 0.0
    decreases i
  {
    if i > 0 {
      RepairedAtPositive(s, i - 1);
    }
  }

  // ---------------------------------------------------------------------
  // One state

  /** The tuple getVaccineDataForState puts on the queue for `state`, given
      the document fetched for its code. */
  function StateOutcome(state: string, doc: Document): (r: StateResult)
  {
    var entries := WithoutAll(doc);
    StateResult(state, Repaired(RawSeries(EntryReplies(entries))), EntryFinal(entries))
  }

  /** The per-state fetch run by each process (the network replaced by
      `timeseries`). The name-to-code lookup sits outside any try, so an unknown
      state name raises KeyError and nothing is queued. */
  method GetVaccineDataForState(statesDict: map<string, string>, timeseries: Timeseries, state: string)
    returns (r: Result<StateResult>)
    ensures state !in statesDict ==> r == Err(KeyError)
    ensures state in statesDict ==> r == Ok(StateOutcome(state, timeseries(statesDict[state])))
  {
    if state !in statesDict {
      return Err(KeyError);
    }
    var jsonData := timeseries(statesDict[state]);
    if HasKey(jsonData, "all") {
      jsonData := WithoutAll(jsonData);
    } else {
      WithoutAllNoop(jsonData);
    }
    var series, finalVaccinated := CollectEntries(jsonData);
    var acceptanceRates := new real[|series|](i requires 0 <= i < |series| => series[i]);
    assert acceptanceRates[..] == series;
    RepairInPlace(acceptanceRates);
    r := Ok(StateResult(state, acceptanceRates[..], finalVaccinated));
  }

  /** What one state's fetch yields: no values when the first remaining entry
      lacks 'Yes' (whatever the later entries say), otherwise exactly one value
      per entry other than "all", each non-zero raw value kept in place. */
  lemma StateOutcomeSpec(state: string, doc: Document)
    ensures var entries := WithoutAll(doc);
      var r := StateOutcome(state, doc);
      r.state == state &&
      (entries != [] && entries[0].1.NoYes? ==> r.series == [] && r.finalVaccinated == 0.0) &&
      (entries != [] && entries[0].1.Reply? ==>
        |r.series| == |entries| &&
        forall i :: 0 <= i < |entries| && RawValue(entries[i].1) != 0.0 ==> r.series[i] == RawValue(entries[i].1))
  {
  }

  // ---------------------------------------------------------------------
  // Collection (MainWindow.selectedStates)

  /** The classification of the queued results as written: a result is
      reported missing exactly when its series equals [0]. */
  function ClassifyAsWritten(queued: seq<StateResult>): (r: Partition)
  {
    if queued == [] then Partition([], [])
    else
      var p := ClassifyAsWritten(queued[..|queued| - 1]);
      var res := queued[|queued| - 1];
      if res.series == [0.0] then Partition(p.stateData, p.missing + [res.state])
      else Partition(p.stateData + [res], p.missing)
  }

  /** The loop that takes one result off the queue per started process and
      sorts it; `queued` is the order in which the queue hands them out. */
  method ClassifyQueued(queued: seq<StateResult>) returns (p: Partition)
    ensures p == ClassifyAsWritten(queued)
  {
    var stateData: seq<StateResult> := [];
    var statesMissingData: seq<string> := [];
    var k := 0;
    while k < |queued|
      invariant 0 <= k <= |queued|
      invariant ClassifyAsWritten(queued[..k]) == Partition(stateData, statesMissingData)
    {
      assert queued[..k + 1][..k] == queued[..k];
      var state := queued[k];
      if state.series == [0.0] {
        statesMissingData := statesMissingData + [state.state];
      } else {
        stateData := stateData + [state];
      }
      k := k + 1;
    }
    assert queued[..k] == queued;
    p := Partition(stateData, statesMissingData);
  }

  /** Every queued result lands in exactly one list, once per time it was
      queued: each result whose series is not [0] is kept as often as it was
      queued, and the kept names and the missing names together are the
      queued names, occurrence for occurrence. */
  lemma {:induction false} ClassifyPartitions(queued: seq<StateResult>)
    ensures var p := ClassifyAsWritten(queued);
      |p.stateData| + |p.missing| == |queued| &&
      (forall r :: r in p.stateData ==> r in queued && r.series != [0.0]) &&
      (forall r :: r in queued && r.series != [0.0] ==> r in p.stateData) &&
      (forall r :: r in queued && r.series == [0.0] ==> r.state in p.missing)
    ensures var p := ClassifyAsWritten(queued);
      forall r :: multiset(p.stateData)[r] == if r.series != [0.0] then multiset(queued)[r] else 0
    ensures var p := ClassifyAsWritten(queued);
      multiset(Names(p.stateData)) + multiset(p.missing) == multiset(Names(queued))
  {
    ClassifyMembership(queued);
    ClassifyKeepsEach(queued);
    ClassifyNamesEach(queued);
  }

  /** Kept results are exactly those with a usable series, and each result
      without one has its name reported. */
  lemma {:induction false} ClassifyMembership(queued: seq<StateResult>)
    ensures var p := ClassifyAsWritten(queued);
      |p.stateData| + |p.missing| == |queued| &&
      (forall r :: r in p.stateData ==> r in queued && r.series != [0.0]) &&
      (forall r :: r in queued && r.series != [0.0] ==> r in p.stateData) &&
      (forall r :: r in queued && r.series == [0.0] ==> r.state in p.missing)
  {
    if queued != [] {
      ClassifyMembership(queued[..|queued| - 1]);
      assert queued == queued[..|queued| - 1] + [queued[|queued| - 1]];
    }
  }

  /** Each occurrence of a result with a usable series is kept, as often as
      it was queued; no other result is kept. */
  lemma {:induction false} ClassifyKeepsEach(queued: seq<StateResult>)
    ensures var p := ClassifyAsWritten(queued);
      forall r :: multiset(p.stateData)[r] == if r.series != [0.0] then multiset(queued)[r] else 0
  {
    if queued != [] {
      var init, res := queued[..|queued| - 1], queued[|queued| - 1];
      ClassifyKeepsEach(init);
      assert queued == init + [res];
      assert multiset(queued) == multiset(init) + multiset{res};
    }
  }

  /** Each queued result contributes its name exactly once: through the kept
      result or through the list of missing states. */
  lemma {:induction false} ClassifyNamesEach(queued: seq<StateResult>)
    ensures var p := ClassifyAsWritten(queued);
      multiset(Names(p.stateData)) + multiset(p.missing) == multiset(Names(queued))
  {
    if queued != [] {
      var init, res := queued[..|queued| - 1], queued[|queued| - 1];
      ClassifyNamesEach(init);
      assert queued == init + [res];
      NamesAppend(init, res);
      ClassifyNamesStep(init, res);
    }
  }

  /** One more queued result adds its name once, to one of the two lists. */
  lemma ClassifyNamesStep(init: seq<StateResult>, res: StateResult)
    ensures var p, q := ClassifyAsWritten(init), ClassifyAsWritten(init + [res]);
      multiset(Names(q.stateData)) + multiset(q.missing) ==
        multiset(Names(p.stateData)) + multiset(p.missing) + multiset{res.state}
  {
    assert (init + [res])[..|init|] == init;
    var p := ClassifyAsWritten(init);
    if res.series != [0.0] {
      NamesAppend(p.stateData, res);
    }
  }

  /** As written, a state whose first entry lacks 'Yes' gets an empty series,
      which is not [0]: it is kept with the results to plot and not reported
      missing. */
  lemma EmptySeriesIsPlotted(state: string, doc: Document)
    requires WithoutAll(doc) != [] && WithoutAll(doc)[0].1.NoYes?
    ensures StateOutcome(state, doc).series == []
    ensures ClassifyAsWritten([StateOutcome(state, doc)]) == Partition([StateOutcome(state, doc)], [])
  {
    assert [StateOutcome(state, doc)][..0] == [];
  }

  /** As written, a state is reported missing only when its document has
      exactly one entry besides "all", that entry answers 'Yes', and its raw
      value is 0. */
  lemma {:induction false} AsWrittenMissingOnlySingleZero(state: string, doc: Document)
    requires ClassifyAsWritten([StateOutcome(state, doc)]).missing == [state]
    ensures |WithoutAll(doc)| == 1
    ensures WithoutAll(doc)[0].1.Reply? && RawValue(WithoutAll(doc)[0].1) == 0.0
  {
    var r := StateOutcome(state, doc);
    assert [r][..0] == [];
    assert r.series == [0.0];
    var entries := WithoutAll(doc);
    assert |RawSeries(EntryReplies(entries))| == 1;
  }
}
