/** The retry loop of the `/regenerate` handler (app.py): draw up to five summaries from the
    language model and keep the first that differs from the previous one once both are
    stripped; if none does, keep the last one drawn. The model's answers are the sequence
    `candidates`, one per attempt. */
module Regenerate {
  import opened Seqs
  import opened Text

  /** `max_attempts` */
  const MaxAttempts: nat := 5

  function DiffersTest(previous: string): (test: string -> bool)
  {
    c => Strip(c) != Strip(previous)
  }

  /** The summary the loop settles on, from the first `MaxAttempts` answers. */
  function RegenerateChoice(previous: string, candidates: seq<string>): (r: string)
    requires |candidates| >= MaxAttempts
  {
    var differing := Filter(candidates[..MaxAttempts], DiffersTest(previous));
    if differing != [] then differing[0] else candidates[MaxAttempts - 1]
  }

  /** The loop at app.py:277-293; `drawn` counts the answers taken from the model. */
  method RegenerateSummary(previous: string, candidates: seq<string>) returns (newSummary: string, ghost drawn: nat)
    requires |candidates| >= MaxAttempts
    ensures 1 <= drawn <= MaxAttempts
    ensures newSummary == candidates[drawn - 1]
    ensures newSummary == RegenerateChoice(previous, candidates)
  {
    ghost var tried := candidates[..MaxAttempts];
    newSummary := "";
    var attempts := 0;
    var candidate := "";
    drawn := 0;
    while attempts < MaxAttempts
      invariant 0 <= attempts <= MaxAttempts && drawn == attempts
      invariant newSummary == ""
      invariant attempts > 0 ==> candidate == candidates[attempts - 1]
      invariant Filter(tried[..attempts], DiffersTest(previous)) == []
    {
      candidate := candidates[attempts];
      drawn := drawn + 1;
      assert tried[attempts] == candidate;
      FilterStep(tried, attempts, DiffersTest(previous));
      if Strip(candidate) != Strip(previous) {
        newSummary := candidate;
        FirstKept(tried, attempts, DiffersTest(previous));
        break;
      }
      attempts := attempts + 1;
    }
    if newSummary == "" {
      newSummary := candidate;
    }
    assert tried[..MaxAttempts] == tried;
  }

  /** The result is the first of the five answers whose stripped text differs from the stripped
      previous summary; when all five match it, it is the fifth. */
  lemma RegenerateChoiceMeaning(previous: string, candidates: seq<string>)
    requires |candidates| >= MaxAttempts
    ensures (exists k :: 0 <= k < MaxAttempts && Strip(candidates[k]) != Strip(previous)) ==>
              exists k :: 0 <= k < MaxAttempts && RegenerateChoice(previous, candidates) == candidates[k] &&
                          Strip(candidates[k]) != Strip(previous) &&
                          forall j :: 0 <= j < k ==> Strip(candidates[j]) == Strip(previous)
    ensures (forall k :: 0 <= k < MaxAttempts ==> Strip(candidates[k]) == Strip(previous)) ==>
              RegenerateChoice(previous, candidates) == candidates[MaxAttempts - 1]
  {
    var tried := candidates[..MaxAttempts];
    var test := DiffersTest(previous);
    assert forall i :: 0 <= i < MaxAttempts ==> tried[i] == candidates[i];
    assert forall i :: 0 <= i < MaxAttempts ==> (test(tried[i]) <==> Strip(candidates[i]) != Strip(previous));
    FilterEmpty(tried, test);
    if Filter(tried, test) != [] {
      var k := FilterHead(tried, test);
      assert RegenerateChoice(previous, candidates) == candidates[k];
    }
  }
}
