/** Values shared by both variants of the survey fetcher: what one wave of the
    survey endpoint yields once parsed, the per-state result tuple, and the
    Python errors that escape the fetch routine. */
module WaveData {

  datatype Option<T> = None | Some(value: T)

  /** The parsed outcome of one wave for one state. `NoYes` stands for every
      way the lookup of the weighted 'Yes' figure raises KeyError (the field is
      absent, or the state name is not in the name-to-code table); otherwise
      the 'Yes' percentage and, when present, the 'I have already been
      vaccinated' percentage. */
  datatype WaveReply = NoYes | Reply(yes: real, alreadyVaccinated: Option<real>)

  /** The tuple (state, acceptance_rate_list, final_percent_vaccinated). */
  datatype StateResult = StateResult(state: string, series: seq<real>, finalVaccinated: real)

  /** The two lists a caller ends up with: results to plot, and the names of
      states reported as missing data. */
  datatype Partition = Partition(stateData: seq<StateResult>, missing: seq<string>)

  /** Python exceptions that leave the fetch routine uncaught. */
  datatype Error = IndexError | KeyError

  datatype Result<T> = Ok(value: T) | Err(error: Error)

  /** The already-vaccinated figure of a reply, counted as 0 when absent. */
  function VaccinatedOrZero(reply: WaveReply): (v: real)
  {
    if reply.Reply? && reply.alreadyVaccinated.Some? then reply.alreadyVaccinated.value else 0.0
  }

  /** The raw acceptance rate a wave contributes before repair: Yes plus the
      already-vaccinated figure, and 0 for a wave without 'Yes'. */
  function RawValue(reply: WaveReply): (v: real)
  {
    match reply
    case NoYes => 0.0
    case Reply(yes, _) => yes + VaccinatedOrZero(reply)
  }

  /** The raw series a wave loop builds from the replies of its waves, taken
      in order: nothing when the first wave lacks 'Yes' (the loop stops there
      and the state has no data), otherwise one raw value per wave, where a
      later wave without 'Yes' contributes 0. */
  function RawSeries(rs: seq<WaveReply>): (r: seq<real>)
  {
    if rs == [] || rs[0].NoYes? then [] else seq(|rs|, i requires 0 <= i < |rs| => RawValue(rs[i]))
  }

  /** The raw series is empty when the first wave lacks 'Yes'; otherwise it
      has one value per wave, each the wave's Yes plus its already-vaccinated
      figure, and 0 for a later wave without 'Yes'. */
  lemma RawSeriesSpec(rs: seq<WaveReply>)
    ensures rs == [] || rs[0].NoYes? ==> RawSeries(rs) == []
    ensures rs != [] && rs[0].Reply? ==>
      |RawSeries(rs)| == |rs| &&
      forall i :: 0 <= i < |rs| ==>
        RawSeries(rs)[i] == if rs[i].NoYes? then 0.0 else rs[i].yes + VaccinatedOrZero(rs[i])
  {
  }

  /** Python's list indexing: a negative index counts from the end. */
  function PyIndex(i: int, n: nat): (k: nat)
    requires -(n as int) <= i < n
    ensures k < n
    ensures k == i || k == i + n
  {
    if i < 0 then i + n else i
  }

  /** The state names of a list of results, in order. */
  function Names(results: seq<StateResult>): (names: seq<string>)
    ensures |names| == |results|
    ensures forall i :: 0 <= i < |results| ==> names[i] == results[i].state
  {
    if results == [] then [] else Names(results[..|results| - 1]) + [results[|results| - 1].state]
  }

  /** Appending a result appends its name. */
  lemma NamesAppend(results: seq<StateResult>, res: StateResult)
    ensures Names(results + [res]) == Names(results) + [res.state]
  {
    assert (results + [res])[..|results|] == results;
  }
}
