/** `generate_summary_until_different` (flaskapp.py): ask the language model for summaries until
    one differs from the previous summary and mentions both the indication and pregnancy;
    failing that, patch the last summary with the missing sentences. The model's answers are
    the sequence `candidates`, one per attempt. */
module SummaryRetry {
  import opened Seqs
  import opened Text
  import opened DrugTable

  /** The acceptance test of the loop. */
  predicate Accepts(oldSummary: string, c: string)
  {
    Strip(c) != Strip(oldSummary) && Contains(Lower(c), "pregnancy") && Contains(Lower(c), "indication")
  }

  function AcceptTest(oldSummary: string): (test: string -> bool)
  {
    c => Accepts(oldSummary, c)
  }

  function IndicationSentence(item: Row): (r: string)
  {
    " This drug is indicated for " + Strip(item.indication) + "."
  }

  function PregnancySentence(item: Row): (r: string)
  {
    " Use during pregnancy: " + Strip(item.useInPregnancy) + "."
  }

  /** The fallback: the last summary stripped, with a sentence on the indication when it does not
      mention one, then a sentence on pregnancy when the text so far does not mention it. */
  function Patched(last: string, item: Row): (r: string)
  {
    var s := Strip(last);
    var s1 := if !Contains(Lower(s), "indication") then s + IndicationSentence(item) else s;
    if !Contains(Lower(s1), "pregnancy") then s1 + PregnancySentence(item) else s1
  }

  /** What the call returns for the first `maxAttempts` answers of the model. */
  function SummaryChoice(item: Row, oldSummary: string, candidates: seq<string>, maxAttempts: nat): (r: string)
    requires 1 <= maxAttempts <= |candidates|
  {
    var accepted := Filter(candidates[..maxAttempts], AcceptTest(oldSummary));
    if accepted != [] then accepted[0] else Patched(candidates[maxAttempts - 1], item)
  }

  /** `generate_summary_until_different(item, old_summary, max_attempts)`. With no attempt at all
      the source reads an unbound variable, so at least one is required. */
  method GenerateSummaryUntilDifferent(item: Row, oldSummary: string, candidates: seq<string>, maxAttempts: nat)
    returns (summary: string)
    requires 1 <= maxAttempts <= |candidates|
    ensures summary == SummaryChoice(item, oldSummary, candidates, maxAttempts)
  {
    for k := 0 to maxAttempts
      invariant Filter(candidates[..k], AcceptTest(oldSummary)) == []
    {
      var newSummary := candidates[k];
      FilterStep(candidates, k, AcceptTest(oldSummary));
      if Strip(newSummary) != Strip(oldSummary) && Contains(Lower(newSummary), "pregnancy") &&
         Contains(Lower(newSummary), "indication") {
        ghost var tried := candidates[..maxAttempts];
        assert tried[..k] == candidates[..k];
        assert AcceptTest(oldSummary)(tried[k]);
        FirstKept(tried, k, AcceptTest(oldSummary));
        return newSummary;
      }
    }
    // the last answer drawn
    var finalSummary := Strip(candidates[maxAttempts - 1]);
    if !Contains(Lower(finalSummary), "indication") {
      finalSummary := finalSummary + IndicationSentence(item);
    }
    if !Contains(Lower(finalSummary), "pregnancy") {
      finalSummary := finalSummary + PregnancySentence(item);
    }
    summary := finalSummary;
  }

  /** The result is the first of the first `maxAttempts` answers the test accepts; when it accepts
      none, it is the patched last answer. */
  lemma SummaryChoiceMeaning(item: Row, oldSummary: string, candidates: seq<string>, maxAttempts: nat)
    requires 1 <= maxAttempts <= |candidates|
    ensures (exists k :: 0 <= k < maxAttempts && Accepts(oldSummary, candidates[k])) ==>
              exists k :: 0 <= k < maxAttempts && Accepts(oldSummary, candidates[k]) &&
                          SummaryChoice(item, oldSummary, candidates, maxAttempts) == candidates[k] &&
                          forall j :: 0 <= j < k ==> !Accepts(oldSummary, candidates[j])
    ensures (forall k :: 0 <= k < maxAttempts ==> !Accepts(oldSummary, candidates[k])) ==>
              SummaryChoice(item, oldSummary, candidates, maxAttempts) == Patched(candidates[maxAttempts - 1], item)
  {
    var tried := candidates[..maxAttempts];
    var test := AcceptTest(oldSummary);
    assert forall i :: 0 <= i < maxAttempts ==> tried[i] == candidates[i];
    assert forall i :: 0 <= i < maxAttempts ==> (test(tried[i]) <==> Accepts(oldSummary, candidates[i]));
    FilterEmpty(tried, test);
    if Filter(tried, test) != [] {
      var k := FilterHead(tried, test);
      assert SummaryChoice(item, oldSummary, candidates, maxAttempts) == candidates[k];
    }
  }

  lemma PregnancyInSentence(s: string, item: Row)
    ensures Contains(Lower(s + PregnancySentence(item)), "pregnancy")
  {
    var tail := PregnancySentence(item);
    LowerConcat(s, tail);
    var u := Lower(s + tail);
    assert u[|s| + 12..|s| + 21] == "pregnancy" by {
      forall k | 0 <= k < 9 ensures u[|s| + 12 + k] == "pregnancy"[k] {
        assert (s + tail)[|s| + 12 + k] == " Use during pregnancy: "[12 + k];
      }
    }
    ContainsAt(u, "pregnancy", |s| + 12);
  }

  /** The fallback starts with the stripped last answer and appends a sentence only for what is
      missing: the indication sentence exactly when the answer does not mention an indication,
      then the pregnancy sentence only when the text so far does not mention pregnancy. So it
      always mentions pregnancy, and an answer mentioning both is left as is. */
  lemma PatchedMeaning(last: string, item: Row)
    ensures Strip(last) <= Patched(last, item)
    ensures Contains(Lower(Patched(last, item)), "pregnancy")
    ensures Contains(Lower(Strip(last)), "indication") ==>
              Patched(last, item) == Strip(last) || Patched(last, item) == Strip(last) + PregnancySentence(item)
    ensures !Contains(Lower(Strip(last)), "indication") ==>
              Patched(last, item) == Strip(last) + IndicationSentence(item) ||
              Patched(last, item) == Strip(last) + IndicationSentence(item) + PregnancySentence(item)
    ensures Contains(Lower(Strip(last)), "pregnancy") ==>
              Patched(last, item) == Strip(last) || Patched(last, item) == Strip(last) + IndicationSentence(item)
    ensures Contains(Lower(Strip(last)), "indication") && Contains(Lower(Strip(last)), "pregnancy") ==>
              Patched(last, item) == Strip(last)
  {
    var s := Strip(last);
    var s1 := if !Contains(Lower(s), "indication") then s + IndicationSentence(item) else s;
    if !Contains(Lower(s), "indication") && Contains(Lower(s), "pregnancy") {
      LowerConcat(s, IndicationSentence(item));
      ContainsAppend(Lower(s), Lower(IndicationSentence(item)), "pregnancy");
    }
    if !Contains(Lower(s1), "pregnancy") {
      PregnancyInSentence(s1, item);
    }
  }

  /** Whatever the model answers, the summary mentions pregnancy. */
  lemma SummaryMentionsPregnancy(item: Row, oldSummary: string, candidates: seq<string>, maxAttempts: nat)
    requires 1 <= maxAttempts <= |candidates|
    ensures Contains(Lower(SummaryChoice(item, oldSummary, candidates, maxAttempts)), "pregnancy")
  {
    SummaryChoiceMeaning(item, oldSummary, candidates, maxAttempts);
    PatchedMeaning(candidates[maxAttempts - 1], item);
  }
}
