/** The threaded variant of the fetcher (lab4thread.py): one survey query per
    wave and state, a zero-repair pass that indexes past the end of the list
    on a trailing zero, a sequential batch over several states, and the
    classification of the per-thread results by an empty series. */
module ThreadVariant {
  import opened WaveData

  /** NUMBER_OF_WAVES of this variant. */
  const NumberOfWaves: nat := 16

  /** The survey endpoint, already parsed: the reply for a state code and a
      wave number. */
  type Survey = (string, nat) -> WaveReply

  /** What wave `x` yields for `state`. The name-to-code lookup sits inside
      the same try as the 'Yes' lookup, so an unknown state name reads as a
      reply without 'Yes'. */
  function WaveReplyFor(statesDict: map<string, string>, survey: Survey, state: string, x: nat): (reply: WaveReply)
  {
    if state in statesDict then survey(statesDict[state], x) else NoYes
  }

  /** The replies of waves 1..NumberOfWaves for `state`, in wave order. */
  function Replies(statesDict: map<string, string>, survey: Survey, state: string): (rs: seq<WaveReply>)
    ensures |rs| == NumberOfWaves
    ensures forall i :: 0 <= i < NumberOfWaves ==> rs[i] == WaveReplyFor(statesDict, survey, state, i + 1)
  {
    seq(NumberOfWaves, i requires 0 <= i < NumberOfWaves => WaveReplyFor(statesDict, survey, state, i + 1))
  }

  /** A state has data when its first wave answers 'Yes'. */
  predicate HasData(statesDict: map<string, string>, survey: Survey, state: string)
  {
    Replies(statesDict, survey, state)[0].Reply?
  }

  // ---------------------------------------------------------------------
  // Wave collection

  /** The final vaccinated percentage the wave loop keeps: the already-vaccinated
      figure of the last wave, 0 when that wave lacks it or the loop stopped at
      wave 1. */
  function CollectedFinal(rs: seq<WaveReply>): (v: real)
  {
    if rs == [] || rs[0].NoYes? then 0.0 else VaccinatedOrZero(rs[|rs| - 1])
  }

  /** The wave loop shared by both fetch routines of this variant. `noData`
      is the branch that appends the state to no_data_states and breaks. */
  method CollectWaves(statesDict: map<string, string>, survey: Survey, state: string)
    returns (series: seq<real>, finalVaccinated: real, noData: bool)
    ensures noData <==> !HasData(statesDict, survey, state)
    ensures series == RawSeries(Replies(statesDict, survey, state))
    ensures finalVaccinated == CollectedFinal(Replies(statesDict, survey, state))
  {
    ghost var rs := Replies(statesDict, survey, state);
    series, finalVaccinated, noData := [], 0.0, false;
    var x := 1;
    while x <= NumberOfWaves
      invariant 1 <= x <= NumberOfWaves + 1
      invariant x > 1 ==> rs[0].Reply?
      invariant |series| == x - 1
      invariant forall i :: 0 <= i < x - 1 ==> series[i] == RawValue(rs[i])
      invariant finalVaccinated == if x > NumberOfWaves then VaccinatedOrZero(rs[NumberOfWaves - 1]) else 0.0
      invariant !noData
    {
      var reply := WaveReplyFor(statesDict, survey, state, x);
      var acceptanceRate: real;
      match reply {
        case NoYes =>
          if x == 1 {
            noData := true;
            break;
          }
          acceptanceRate := 0.0;
        case Reply(percentYes, vaccinated) =>
          var percentVaccinated := 0.0;
          if vaccinated.Some? {
            if x == NumberOfWaves {
              finalVaccinated := vaccinated.value;
            }
            percentVaccinated := percentVaccinated + vaccinated.value;
          }
          acceptanceRate := percentYes + percentVaccinated;
      }
      series := series + [acceptanceRate];
      x := x + 1;
    }
  }

  // ---------------------------------------------------------------------
  // Zero repair

  /** The value index `i` holds once the left-to-right pass has passed it:
      a non-zero entry is kept; a zero becomes the mean of the already
      repaired predecessor (the original last entry when `i` is 0, as Python's
      index -1 reads it) and the original successor. Defined wherever the pass
      does not raise IndexError. */
  function RepairedAt(s: seq<real>, i: nat): (v: real)
    requires i < |s| && (s[i] != 0.0 || i + 1 < |s|)
    decreases i
  {
    if s[i] != 0.0 then s[i]
    else ((if i == 0 then s[|s| - 1] else RepairedAt(s, i - 1)) + s[i + 1]) / 2.0
  }

  /** The whole series after the repair pass; it exists exactly when the last
      entry is not a zero (the pass raises IndexError otherwise). */
  function Repaired(s: seq<real>): (r: seq<real>)
    requires s == [] || s[|s| - 1] != 0.0
    ensures |r| == |s|
    ensures forall i :: 0 <= i < |s| && s[i] != 0.0 ==> r[i] == s[i]
    ensures forall i :: 0 < i < |s| && s[i] == 0.0 ==> r[i] == (r[i - 1] + s[i + 1]) / 2.0
    ensures |s| > 1 && s[0] == 0.0 ==> r[0] == (s[|s| - 1] + s[1]) / 2.0
  {
    seq(|s|, i requires 0 <= i < |s| => RepairedAt(s, i))
  }

  /** The repair loop over acceptance_rate_list, in place. `ok` is false when
      the loop reaches a trailing zero and raises IndexError; the entries before
      it are then already overwritten. */
  method RepairInPlace(a: array<real>) returns (ok: bool)
    modifies a
    ensures ok <==> (a.Length == 0 || old(a[a.Length - 1]) != 0.0)
    ensures ok ==> a[..] == Repaired(old(a[..]))
    ensures !ok ==> a[a.Length - 1] == 0.0
    ensures !ok ==> forall i :: 0 <= i < a.Length - 1 ==> a[i] == RepairedAt(old(a[..]), i)
  {
    ghost var s := a[..];
    var n := a.Length;
    var idx := 0;
    while idx < n
      invariant 0 <= idx <= n
      invariant forall i :: 0 <= i < idx ==> (s[i] != 0.0 || i + 1 < n) && a[i] == RepairedAt(s, i)
      invariant forall i :: idx <= i < n ==> a[i] == s[i]
    {
      if a[idx] == 0.0 {
        if idx + 1 >= n {
          return false;
        }
        a[idx] := (a[PyIndex(idx - 1, n)] + a[idx + 1]) / 2.0;
      }
      idx := idx + 1;
    }
    ok := true;
  }

  /** Every entry of a repaired non-negative series with a positive last entry
      is positive: when the survey figures are percentages, no zero survives
      the pass, not even one of two consecutive missing waves. */
  lemma RepairedPositive(s: seq<real>)
    requires s != [] && s[|s| - 1] > 0.0
    requires forall k :: 0 <= k < |s| ==> s[k] >= 0.0
    ensures forall i :: 0 <= i < |s| ==> Repaired(s)[i] > 0.0
  {
    forall i | 0 <= i < |s|
      ensures Repaired(s)[i] > 0.0
    {
      RepairedAtPositive(s, i);
    }
  }

  lemma {:induction false} RepairedAtPositive(s: seq<real>, i: nat)
    requires s != [] && s[|s| - 1] > 0.0
    requires forall k :: 0 <= k < |s| ==> s[k] >= 0.0
    requires i < |s|
    ensures RepairedAt(s, i) > 0.0
    decreases i
  {
    if s[i] == 0.0 && i > 0 {
      RepairedAtPositive(s, i - 1);
    }
  }

  /** Worked cases: consecutive zeros use the already repaired predecessor,
      and a leading zero reads the last entry as its predecessor. */
  lemma RepairExamples()
    ensures Repaired([10.0, 0.0, 0.0, 20.0]) == [10.0, 5.0, 12.5, 20.0]
    ensures Repaired([0.0, 10.0, 20.0]) == [15.0, 10.0, 20.0]
  {
    var s := [10.0, 0.0, 0.0, 20.0];
    assert RepairedAt(s, 1) == 5.0;
    assert RepairedAt(s, 2) == 12.5;
    var t := [0.0, 10.0, 20.0];
    assert RepairedAt(t, 0) == 15.0;
  }

  // ---------------------------------------------------------------------
  // One state

  /** What getVaccineDataForState returns for `state` given the replies of
      its waves, or the IndexError it raises. */
  function StateOutcome(state: string, rs: seq<WaveReply>): (r: Result<StateResult>)
  {
    var series := RawSeries(rs);
    if series != [] && series[|series| - 1] == 0.0 then Err(IndexError)
    else Ok(StateResult(state, Repaired(series), CollectedFinal(rs)))
  }

  /** The body both fetch routines share: the wave loop, then the repair pass
      on the collected list. `noData` is the branch taken at wave 1. */
  method FetchState(statesDict: map<string, string>, survey: Survey, state: string)
    returns (noData: bool, r: Result<StateResult>)
    ensures noData <==> !HasData(statesDict, survey, state)
    ensures r == StateOutcome(state, Replies(statesDict, survey, state))
  {
    var series, finalVaccinated;
    series, finalVaccinated, noData := CollectWaves(statesDict, survey, state);
    var acceptanceRates := new real[|series|](i requires 0 <= i < |series| => series[i]);
    assert acceptanceRates[..] == series;
    var ok := RepairInPlace(acceptanceRates);
    if !ok {
      return noData, Err(IndexError);
    }
    r := Ok(StateResult(state, acceptanceRates[..], finalVaccinated));
  }

  /** The per-state fetch run by each thread (the network replaced by `survey`). */
  method GetVaccineDataForState(statesDict: map<string, string>, survey: Survey, state: string)
    returns (r: Result<StateResult>)
    ensures r == StateOutcome(state, Replies(statesDict, survey, state))
  {
    var noData;
    noData, r := FetchState(statesDict, survey, state);
  }

  /** What one state's fetch yields: no data when wave 1 has no 'Yes'
      (whatever the later waves say); IndexError exactly when wave 1 answers
      and the last wave's raw value is 0; otherwise one value per wave, in wave
      order, each non-zero raw value kept, and the last wave's
      already-vaccinated figure (0 if absent). */
  lemma StateOutcomeSpec(state: string, rs: seq<WaveReply>)
    requires rs != []
    ensures rs[0].NoYes? ==> StateOutcome(state, rs) == Ok(StateResult(state, [], 0.0))
    ensures StateOutcome(state, rs).Err? <==> rs[0].Reply? && RawValue(rs[|rs| - 1]) == 0.0
    ensures StateOutcome(state, rs).Ok? && rs[0].Reply? ==>
      var r := StateOutcome(state, rs).value;
      r.state == state && |r.series| == |rs| &&
      r.finalVaccinated == VaccinatedOrZero(rs[|rs| - 1]) &&
      forall i :: 0 <= i < |rs| && RawValue(rs[i]) != 0.0 ==> r.series[i] == RawValue(rs[i])
  {
  }

  /** A state missing from the name-to-code table is reported as having no
      data, exactly like one whose first wave lacks 'Yes'. */
  lemma UnknownStateHasNoData(statesDict: map<string, string>, survey: Survey, state: string)
    requires state !in statesDict
    ensures !HasData(statesDict, survey, state)
    ensures StateOutcome(state, Replies(statesDict, survey, state)) == Ok(StateResult(state, [], 0.0))
  {
  }

  /** A last wave without 'Yes' after a first wave with it makes the fetch
      raise IndexError. */
  lemma LastWaveWithoutYesRaises(statesDict: map<string, string>, survey: Survey, state: string)
    requires state in statesDict
    requires survey(statesDict[state], 1).Reply?
    requires survey(statesDict[state], NumberOfWaves).NoYes?
    ensures StateOutcome(state, Replies(statesDict, survey, state)) == Err(IndexError)
  {
    var rs := Replies(statesDict, survey, state);
    assert rs[NumberOfWaves - 1] == NoYes;
  }

  // ---------------------------------------------------------------------
  // Sequential batch (getVaccineDataForStates)

  /** The outcome of the batch over `states`: IndexError from the first state
      that raises it, otherwise the results of the states with data and the
      names of the others, each in input order. */
  function BatchOutcome(statesDict: map<string, string>, survey: Survey, states: seq<string>): (r: Result<Partition>)
    decreases |states|
  {
    if states == [] then Ok(Partition([], []))
    else
      var state := states[|states| - 1];
      match BatchOutcome(statesDict, survey, states[..|states| - 1])
      case Err(e) => Err(e)
      case Ok(p) =>
        match StateOutcome(state, Replies(statesDict, survey, state))
        case Err(e) => Err(e)
        case Ok(res) =>
          if HasData(statesDict, survey, state) then Ok(Partition(p.stateData + [res], p.missing))
          else Ok(Partition(p.stateData, p.missing + [state]))
  }

  method GetVaccineDataForStates(statesDict: map<string, string>, survey: Survey, stateList: seq<string>)
    returns (r: Result<Partition>)
    ensures r == BatchOutcome(statesDict, survey, stateList)
  {
    var stateData: seq<StateResult> := [];
    var noDataStates: seq<string> := [];
    var k := 0;
    while k < |stateList|
      invariant 0 <= k <= |stateList|
      invariant BatchOutcome(statesDict, survey, stateList[..k]) == Ok(Partition(stateData, noDataStates))
      invariant forall s :: s in noDataStates ==> !HasData(statesDict, survey, s)
    {
      BatchStep(statesDict, survey, stateList, k, Partition(stateData, noDataStates));
      var ok;
      ok, stateData, noDataStates := AddState(statesDict, survey, stateList[k], stateData, noDataStates);
      if !ok {
        BatchErrExtends(statesDict, survey, stateList, k + 1);
        return Err(IndexError);
      }
      k := k + 1;
    }
    assert stateList[..k] == stateList;
    r := Ok(Partition(stateData, noDataStates));
  }

  /** One pass of the batch loop: fetch `state`, record it as having no data
      when wave 1 lacks 'Yes', and keep its result unless it was so recorded.
      `ok` is false when the fetch raised. */
  method AddState(statesDict: map<string, string>, survey: Survey, state: string,
                  stateData: seq<StateResult>, noDataStates: seq<string>)
    returns (ok: bool, stateData': seq<StateResult>, noDataStates': seq<string>)
    requires forall s :: s in noDataStates ==> !HasData(statesDict, survey, s)
    ensures ok <==> StateOutcome(state, Replies(statesDict, survey, state)).Ok?
    ensures ok ==>
      var o := StateOutcome(state, Replies(statesDict, survey, state));
      Partition(stateData', noDataStates') ==
        if HasData(statesDict, survey, state) then Partition(stateData + [o.value], noDataStates)
        else Partition(stateData, noDataStates + [state])
    ensures forall s :: s in noDataStates' ==> !HasData(statesDict, survey, s)
  {
    stateData', noDataStates' := stateData, noDataStates;
    var noData, outcome := FetchState(statesDict, survey, state);
    if noData {
      noDataStates' := noDataStates' + [state];
    }
    if outcome.Err? {
      return false, stateData', noDataStates';
    }
    if state !in noDataStates' {
      stateData' := stateData' + [outcome.value];
    }
    ok := true;
  }

  /** One more state of the batch. */
  lemma BatchStep(statesDict: map<string, string>, survey: Survey, states: seq<string>, k: nat, p: Partition)
    requires k < |states|
    requires BatchOutcome(statesDict, survey, states[..k]) == Ok(p)
    ensures var o := StateOutcome(states[k], Replies(statesDict, survey, states[k]));
      BatchOutcome(statesDict, survey, states[..k + 1]) ==
        if o.Err? then Err(o.error)
        else if HasData(statesDict, survey, states[k]) then Ok(Partition(p.stateData + [o.value], p.missing))
        else Ok(Partition(p.stateData, p.missing + [states[k]]))
  {
    assert states[..k + 1][..k] == states[..k];
  }

  /** Once a prefix of the batch raises, the whole batch raises the same. */
  lemma {:induction false} BatchErrExtends(statesDict: map<string, string>, survey: Survey, states: seq<string>, k: nat)
    requires k <= |states|
    requires BatchOutcome(statesDict, survey, states[..k]).Err?
    ensures BatchOutcome(statesDict, survey, states) == BatchOutcome(statesDict, survey, states[..k])
    decreases |states|
  {
    if k == |states| {
      assert states[..k] == states;
    } else {
      var init := states[..|states| - 1];
      assert init[..k] == states[..k];
      BatchErrExtends(statesDict, survey, init, k);
    }
  }

  /** The input states that have data, in input order. */
  function WithData(statesDict: map<string, string>, survey: Survey, states: seq<string>): seq<string>
  {
    if states == [] then []
    else
      var init := WithData(statesDict, survey, states[..|states| - 1]);
      if HasData(statesDict, survey, states[|states| - 1]) then init + [states[|states| - 1]] else init
  }

  /** The input states without data, in input order. */
  function WithoutData(statesDict: map<string, string>, survey: Survey, states: seq<string>): seq<string>
  {
    if states == [] then []
    else
      var init := WithoutData(statesDict, survey, states[..|states| - 1]);
      if HasData(statesDict, survey, states[|states| - 1]) then init else init + [states[|states| - 1]]
  }

  /** Every input state is in exactly one of WithData and WithoutData. */
  lemma {:induction false} DataSplitCoversInput(statesDict: map<string, string>, survey: Survey, states: seq<string>)
    ensures multiset(WithData(statesDict, survey, states)) + multiset(WithoutData(statesDict, survey, states)) == multiset(states)
  {
    if states != [] {
      var init := states[..|states| - 1];
      DataSplitCoversInput(statesDict, survey, init);
      assert init + [states[|states| - 1]] == states;
    }
  }

  /** A batch that completes puts every input state in exactly one of its two
      lists, keeps the input order in each, and every plotted series has one
      value per wave. */
  lemma BatchPartitions(statesDict: map<string, string>, survey: Survey, states: seq<string>)
    requires BatchOutcome(statesDict, survey, states).Ok?
    ensures var p := BatchOutcome(statesDict, survey, states).value;
      Names(p.stateData) == WithData(statesDict, survey, states) &&
      p.missing == WithoutData(statesDict, survey, states) &&
      multiset(Names(p.stateData)) + multiset(p.missing) == multiset(states) &&
      forall r :: r in p.stateData ==> |r.series| == NumberOfWaves
  {
    BatchKeepsOrder(statesDict, survey, states);
    DataSplitCoversInput(statesDict, survey, states);
  }

  lemma {:induction false} BatchKeepsOrder(statesDict: map<string, string>, survey: Survey, states: seq<string>)
    requires BatchOutcome(statesDict, survey, states).Ok?
    ensures var p := BatchOutcome(statesDict, survey, states).value;
      Names(p.stateData) == WithData(statesDict, survey, states) &&
      p.missing == WithoutData(statesDict, survey, states) &&
      forall r :: r in p.stateData ==> |r.series| == NumberOfWaves
  {
    if states != [] {
      var k := |states| - 1;
      var init := states[..k];
      var state := states[k];
      assert BatchOutcome(statesDict, survey, init).Ok?;
      BatchKeepsOrder(statesDict, survey, init);
      var p := BatchOutcome(statesDict, survey, init).value;
      BatchStep(statesDict, survey, states, k, p);
      assert states[..k + 1] == states;
      var rs := Replies(statesDict, survey, state);
      StateOutcomeSpec(state, rs);
      if HasData(statesDict, survey, state) {
        var res := StateOutcome(state, rs).value;
        assert Names(p.stateData + [res]) == Names(p.stateData) + [state];
      }
    }
  }

  /** Whether the fetch of `state` raises IndexError: wave 1 answers and the
      last wave's raw value is 0 (see StateOutcomeSpec). */
  predicate Raises(statesDict: map<string, string>, survey: Survey, state: string)
  {
    var rs := Replies(statesDict, survey, state);
    rs[0].Reply? && RawValue(rs[NumberOfWaves - 1]) == 0.0
  }

  /** The batch raises exactly when one of its states' fetches raises, that
      is, when some state answers wave 1 and its last wave's raw value is 0. */
  lemma BatchFailsIff(statesDict: map<string, string>, survey: Survey, states: seq<string>)
    ensures BatchOutcome(statesDict, survey, states).Err? <==>
      exists i :: 0 <= i < |states| && Raises(statesDict, survey, states[i])
  {
    if BatchOutcome(statesDict, survey, states).Err? {
      var i := BatchFailsOnlyIfRaises(statesDict, survey, states);
    } else {
      forall i | 0 <= i < |states|
        ensures !Raises(statesDict, survey, states[i])
      {
        if Raises(statesDict, survey, states[i]) {
          BatchFailsIfRaises(statesDict, survey, states, i);
        }
      }
    }
  }

  /** A batch that raises has a state whose fetch raises. */
  lemma {:induction false} BatchFailsOnlyIfRaises(statesDict: map<string, string>, survey: Survey, states: seq<string>)
    returns (i: nat)
    requires BatchOutcome(statesDict, survey, states).Err?
    ensures i < |states| && Raises(statesDict, survey, states[i])
  {
    var k := |states| - 1;
    var init := states[..k];
    if BatchOutcome(statesDict, survey, init).Err? {
      i := BatchFailsOnlyIfRaises(statesDict, survey, init);
      assert states[i] == init[i];
    } else {
      BatchStepErr(statesDict, survey, states, k);
      assert states[..k + 1] == states;
      i := k;
    }
  }

  /** A state whose fetch raises makes the batch raise. */
  lemma BatchFailsIfRaises(statesDict: map<string, string>, survey: Survey, states: seq<string>, i: nat)
    requires i < |states| && Raises(statesDict, survey, states[i])
    ensures BatchOutcome(statesDict, survey, states).Err?
  {
    if BatchOutcome(statesDict, survey, states[..i]).Ok? {
      BatchStepErr(statesDict, survey, states, i);
    } else {
      assert states[..i + 1][..i] == states[..i];
    }
    BatchErrExtends(statesDict, survey, states, i + 1);
  }

  /** After a prefix that completes, the next state makes the batch raise
      exactly when its own fetch raises. */
  lemma BatchStepErr(statesDict: map<string, string>, survey: Survey, states: seq<string>, k: nat)
    requires k < |states|
    requires BatchOutcome(statesDict, survey, states[..k]).Ok?
    ensures BatchOutcome(statesDict, survey, states[..k + 1]).Err? <==> Raises(statesDict, survey, states[k])
  {
    assert states[..k + 1][..k] == states[..k];
    StateOutcomeSpec(states[k], Replies(statesDict, survey, states[k]));
  }

  // ---------------------------------------------------------------------
  // Threaded collection (MainWindow.selectedStates)

  /** The classification of the queued results: a result whose series is
      empty is reported missing, every other one is kept for plotting. */
  function ClassifyThreaded(queued: seq<StateResult>): (r: Partition)
  {
    if queued == [] then Partition([], [])
    else
      var p := ClassifyThreaded(queued[..|queued| - 1]);
      var res := queued[|queued| - 1];
      if res.series == [] then Partition(p.stateData, p.missing + [res.state])
      else Partition(p.stateData + [res], p.missing)
  }

  /** The loop that takes each thread's result off the queue and sorts it;
      `queued` is the order in which the queue hands them out. */
  method ClassifyQueued(queued: seq<StateResult>) returns (p: Partition)
    ensures p == ClassifyThreaded(queued)
  {
    var stateData: seq<StateResult> := [];
    var statesMissingData: seq<string> := [];
    var k := 0;
    while k < |queued|
      invariant 0 <= k <= |queued|
      invariant ClassifyThreaded(queued[..k]) == Partition(stateData, statesMissingData)
    {
      assert queued[..k + 1][..k] == queued[..k];
      var state := queued[k];
      if state.series == [] {
        statesMissingData := statesMissingData + [state.state];
      } else {
        stateData := stateData + [state];
      }
      k := k + 1;
    }
    assert queued[..k] == queued;
    p := Partition(stateData, statesMissingData);
  }

  /** Every queued result lands in exactly one list, once per time it was
      queued: each result with a series is kept as often as it was queued,
      and the kept names and the missing names together are the queued
      names, occurrence for occurrence. */
  lemma {:induction false} ClassifyPartitions(queued: seq<StateResult>)
    ensures var p := ClassifyThreaded(queued);
      |p.stateData| + |p.missing| == |queued| &&
      (forall r :: r in p.stateData ==> r in queued && r.series != []) &&
      (forall r :: r in queued && r.series != [] ==> r in p.stateData) &&
      (forall r :: r in queued && r.series == [] ==> r.state in p.missing)
    ensures var p := ClassifyThreaded(queued);
      forall r :: multiset(p.stateData)[r] == if r.series != [] then multiset(queued)[r] else 0
    ensures var p := ClassifyThreaded(queued);
      multiset(Names(p.stateData)) + multiset(p.missing) == multiset(Names(queued))
  {
    ClassifyMembership(queued);
    ClassifyKeepsEach(queued);
    ClassifyNamesEach(queued);
  }

  /** Kept results are exactly those with a usable series, and each result
      without one has its name reported. */
  lemma {:induction false} ClassifyMembership(queued: seq<StateResult>)
    ensures var p := ClassifyThreaded(queued);
      |p.stateData| + |p.missing| == |queued| &&
      (forall r :: r in p.stateData ==> r in queued && r.series != []) &&
      (forall r :: r in queued && r.series != [] ==> r in p.stateData) &&
      (forall r :: r in queued && r.series == [] ==> r.state in p.missing)
  {
    if queued != [] {
      ClassifyMembership(queued[..|queued| - 1]);
      assert queued == queued[..|queued| - 1] + [queued[|queued| - 1]];
    }
  }

  /** Each occurrence of a result with a usable series is kept, as often as
      it was queued; no other result is kept. */
  lemma {:induction false} ClassifyKeepsEach(queued: seq<StateResult>)
    ensures var p := ClassifyThreaded(queued);
      forall r :: multiset(p.stateData)[r] == if r.series != [] then multiset(queued)[r] else 0
  {
    if queued != [] {
      var init, res := queued[..|queued| - 1], queued[|queued| - 1];
      ClassifyKeepsEach(init);
      assert queued == init + [res];
      assert multiset(queued) == multiset(init) + multiset{res};
    }
  }

  /** Each queued result contributes its name exactly once: through the kept
      result or through the list of missing states. */
  lemma {:induction false} ClassifyNamesEach(queued: seq<StateResult>)
    ensures var p := ClassifyThreaded(queued);
      multiset(Names(p.stateData)) + multiset(p.missing) == multiset(Names(queued))
  {
    if queued != [] {
      var init, res := queued[..|queued| - 1], queued[|queued| - 1];
      ClassifyNamesEach(init);
      assert queued == init + [res];
      NamesAppend(init, res);
      ClassifyNamesStep(init, res);
    }
  }

  /** One more queued result adds its name once, to one of the two lists. */
  lemma ClassifyNamesStep(init: seq<StateResult>, res: StateResult)
    ensures var p, q := ClassifyThreaded(init), ClassifyThreaded(init + [res]);
      multiset(Names(q.stateData)) + multiset(q.missing) ==
        multiset(Names(p.stateData)) + multiset(p.missing) + multiset{res.state}
  {
    assert (init + [res])[..|init|] == init;
    var p := ClassifyThreaded(init);
    if res.series != [] {
      NamesAppend(p.stateData, res);
    }
  }

  /** The results the threads put on the queue, in the order of `states`, or
      the IndexError one of them raises (that thread then puts nothing). */
  function ThreadResults(statesDict: map<string, string>, survey: Survey, states: seq<string>): (r: Result<seq<StateResult>>)
  {
    if states == [] then Ok([])
    else
      var state := states[|states| - 1];
      match ThreadResults(statesDict, survey, states[..|states| - 1])
      case Err(e) => Err(e)
      case Ok(q) =>
        match StateOutcome(state, Replies(statesDict, survey, state))
        case Err(e) => Err(e)
        case Ok(res) => Ok(q + [res])
  }

  /** The threaded path sorts the states exactly as the sequential batch does:
      the "series is empty" test agrees with the batch's "appended to
      no_data_states" test for every state. */
  lemma {:induction false} ThreadedMatchesBatch(statesDict: map<string, string>, survey: Survey, states: seq<string>)
    ensures BatchOutcome(statesDict, survey, states) ==
      match ThreadResults(statesDict, survey, states)
      case Err(e) => Err(e)
      case Ok(q) => Ok(ClassifyThreaded(q))
  {
    if states != [] {
      var init := states[..|states| - 1];
      var state := states[|states| - 1];
      ThreadedMatchesBatch(statesDict, survey, init);
      match ThreadResults(statesDict, survey, init)
      case Err(_) =>
      case Ok(q) =>
        var outcome := StateOutcome(state, Replies(statesDict, survey, state));
        if outcome.Ok? {
          StateOutcomeSpec(state, Replies(statesDict, survey, state));
          assert (q + [outcome.value])[..|q|] == q;
        }
    }
  }

  /** Splitting the queue splits both lists. */
  lemma {:induction false} ClassifyAppend(u: seq<StateResult>, v: seq<StateResult>)
    ensures ClassifyThreaded(u + v).stateData == ClassifyThreaded(u).stateData + ClassifyThreaded(v).stateData
    ensures ClassifyThreaded(u + v).missing == ClassifyThreaded(u).missing + ClassifyThreaded(v).missing
    decreases |v|
  {
    if v == [] {
      assert u + v == u;
    } else {
      var w := v[..|v| - 1];
      ClassifyAppend(u, w);
      assert (u + v)[..|u + v| - 1] == u + w;
    }
  }

  /** The order in which the queue hands out the results does not change what
      ends up in either list, only the order within each. */
  lemma {:induction false} ClassifyIgnoresOrder(q1: seq<StateResult>, q2: seq<StateResult>)
    requires multiset(q1) == multiset(q2)
    ensures multiset(ClassifyThreaded(q1).stateData) == multiset(ClassifyThreaded(q2).stateData)
    ensures multiset(ClassifyThreaded(q1).missing) == multiset(ClassifyThreaded(q2).missing)
    decreases |q1|
  {
    if q1 == [] {
      assert |q2| == |multiset(q2)| == 0;
    } else {
      var x := q1[|q1| - 1];
      var init := q1[..|q1| - 1];
      assert q1 == init + [x];
      var a, b := RemoveOne(init, x, q2);
      ClassifyIgnoresOrder(init, a + b);
      ClassifyAppend(init, [x]);
      ClassifyAppend(a + b, [x]);
      ClassifyMoveLast(a, x, b);
    }
  }

  /** Splits `q2` around an occurrence of `x`, the last element of `init + [x]`. */
  lemma RemoveOne(init: seq<StateResult>, x: StateResult, q2: seq<StateResult>) returns (a: seq<StateResult>, b: seq<StateResult>)
    requires multiset(init + [x]) == multiset(q2)
    ensures q2 == a + [x] + b
    ensures multiset(init) == multiset(a + b)
  {
    assert x in multiset(q2) by {
      assert x in multiset(init + [x]);
    }
    var j :| 0 <= j < |q2| && q2[j] == x;
    a, b := q2[..j], q2[j + 1..];
    assert q2 == a + [x] + b;
    assert multiset(q2) == multiset(a) + multiset{x} + multiset(b);
    assert multiset(init + [x]) == multiset(init) + multiset{x};
    assert multiset(a + b) == multiset(a) + multiset(b);
    forall y
      ensures multiset(init)[y] == multiset(a + b)[y]
    {
      assert multiset(init + [x])[y] == multiset(q2)[y];
    }
  }

  /** Moving one result to the end of the queue only reorders the lists. */
  lemma ClassifyMoveLast(a: seq<StateResult>, x: StateResult, b: seq<StateResult>)
    ensures multiset(ClassifyThreaded(a + [x] + b).stateData) == multiset(ClassifyThreaded(a + b + [x]).stateData)
    ensures multiset(ClassifyThreaded(a + [x] + b).missing) == multiset(ClassifyThreaded(a + b + [x]).missing)
  {
    ClassifyAppend(a + [x], b);
    ClassifyAppend(a, [x]);
    ClassifyAppend(a + b, [x]);
    ClassifyAppend(a, b);
  }
}
