/** Relations between the two variants: where their repair passes agree, and
    the classification by an empty series applied to the multiprocess
    variant's results. */
module VariantComparison {
  import opened WaveData
  import ThreadVariant
  import ProcessVariant

  /** The multiprocess repair is defined on every series and gives the same
      result as the threaded repair wherever the latter does not raise, so it
      is the threaded pass with its IndexError replaced by a fallback. */
  lemma RepairsAgree(s: seq<real>)
    requires s == [] || s[|s| - 1] != 0.0
    ensures ProcessVariant.Repaired(s) == ThreadVariant.Repaired(s)
  {
    forall i | 0 <= i < |s|
      ensures ProcessVariant.Repaired(s)[i] == ThreadVariant.Repaired(s)[i]
    {
      RepairedAtAgree(s, i);
    }
  }

  lemma {:induction false} RepairedAtAgree(s: seq<real>, i: nat)
    requires s != [] && s[|s| - 1] != 0.0
    requires i < |s|
    ensures ProcessVariant.RepairedAt(s, i) == ThreadVariant.RepairedAt(s, i)
    decreases i
  {
    if i > 0 {
      RepairedAtAgree(s, i - 1);
    }
  }

  /** A trailing zero: the threaded pass raises, the multiprocess pass copies
      the predecessor. */
  lemma TrailingZeroExample()
    ensures ThreadVariant.StateOutcome("Ohio", TrailingZeroReplies()).Err?
    ensures ProcessVariant.Repaired(RawSeries(TrailingZeroReplies()))[ThreadVariant.NumberOfWaves - 1] == 60.0
  {
    var rs := TrailingZeroReplies();
    var s := RawSeries(rs);
    assert s[ThreadVariant.NumberOfWaves - 1] == 0.0;
    assert s[ThreadVariant.NumberOfWaves - 2] == 60.0;
    assert ProcessVariant.RepairedAt(s, ThreadVariant.NumberOfWaves - 1) == ProcessVariant.RepairedAt(s, ThreadVariant.NumberOfWaves - 2);
  }

  /** Sixteen waves answering Yes = 60 except the last, which lacks 'Yes'. */
  function TrailingZeroReplies(): (rs: seq<WaveReply>)
    ensures |rs| == ThreadVariant.NumberOfWaves
  {
    seq(ThreadVariant.NumberOfWaves, i => if i == ThreadVariant.NumberOfWaves - 1 then NoYes else Reply(60.0, None))
  }

  /** Classifying the multiprocess results by an empty series, as the threaded
      variant does, reports a state missing exactly when its first entry
      other than "all" lacks 'Yes' or there is no such entry. */
  lemma CorrectedClassification(state: string, doc: ProcessVariant.Document)
    ensures var entries := ProcessVariant.WithoutAll(doc);
      ThreadVariant.ClassifyThreaded([ProcessVariant.StateOutcome(state, doc)]).missing == [state] <==>
        (entries == [] || entries[0].1.NoYes?)
  {
    var r := ProcessVariant.StateOutcome(state, doc);
    assert [r][..0] == [];
  }
}
