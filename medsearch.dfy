/** `search_dataset`: substring and token-subset search over the normalised dataset, with a
    fuzzy fallback. */
module MedSearch {
  import opened Options
  import opened Seqs
  import opened Text
  import opened MedData

  /** Every whitespace-separated word of the query occurs in the drug name
      (`all(t in dn for t in name_norm.split())`). */
  predicate AllWordsIn(nameNorm: string, dn: string)
  {
    forall w :: w in Words(nameNorm) ==> Contains(dn, w)
  }

  /** The test the primary loop applies to one item, both branches of its `if`/`elif` together
      and after the `continue` for items with neither a drug name nor an active ingredient. */
  predicate IsPrimaryMatch(nameNorm: string, item: Item)
  {
    && !(item.normDrug == [] && item.normActive == [])
    && (|| nameNorm == item.normDrug
        || Contains(item.normDrug, nameNorm)
        || AllWordsIn(nameNorm, item.normDrug)
        || Contains(item.normActive, nameNorm))
  }

  function PrimaryTest(nameNorm: string): (test: Item -> bool)
  {
    item => IsPrimaryMatch(nameNorm, item)
  }

  /** The items the primary stage collects, in dataset order. */
  function PrimaryMatches(nameNorm: string, dataset: seq<Item>): (items: seq<Item>)
  {
    Filter(dataset, PrimaryTest(nameNorm))
  }

  /** The first two disjuncts of the test are subsumed by the third: a primary match either has
      every query word inside its drug name or the whole query inside its active ingredient. */
  lemma PrimaryMatchMeaning(nameNorm: string, item: Item)
    requires IsPrimaryMatch(nameNorm, item)
    ensures item.normDrug != [] || item.normActive != []
    ensures AllWordsIn(nameNorm, item.normDrug) || Contains(item.normActive, nameNorm)
  {
    if nameNorm == item.normDrug {
      assert nameNorm <= item.normDrug[0..];
    }
    if Contains(item.normDrug, nameNorm) {
      WordsOfContained(item.normDrug, nameNorm);
    }
  }

  /** The primary stage keeps exactly the dataset items that pass the test. */
  lemma PrimaryMatchesExactly(nameNorm: string, dataset: seq<Item>, item: Item)
    ensures item in PrimaryMatches(nameNorm, dataset) <==> item in dataset && IsPrimaryMatch(nameNorm, item)
  {
    if item in dataset && IsPrimaryMatch(nameNorm, item) {
      FilterKeeps(dataset, PrimaryTest(nameNorm), item);
    }
  }

  /** The primary stage keeps dataset order. */
  lemma PrimaryMatchesInOrder(nameNorm: string, a: seq<Item>, b: seq<Item>)
    ensures PrimaryMatches(nameNorm, a + b) == PrimaryMatches(nameNorm, a) + PrimaryMatches(nameNorm, b)
  {
    FilterConcat(a, b, PrimaryTest(nameNorm));
  }

  /** `all_drugs`: the non-empty normalised drug names, in dataset order. */
  function AllDrugs(dataset: seq<Item>): (names: seq<string>)
    ensures forall c :: c in names ==> c != [] && exists i :: 0 <= i < |dataset| && dataset[i].normDrug == c
    decreases |dataset|
  {
    if dataset == [] then []
    else
      var init := AllDrugs(dataset[..|dataset| - 1]);
      assert forall i :: 0 <= i < |dataset| - 1 ==> dataset[..|dataset| - 1][i] == dataset[i];
      var last := dataset[|dataset| - 1].normDrug;
      init + (if last != [] then [last] else [])
  }

  /** What `difflib.get_close_matches(word, possibilities, n)` may return: at most `n` of the
      possibilities. Its similarity ratio and cut-off are not modelled. */
  predicate IsCloseMatchAnswer(close: seq<string>, possibilities: seq<string>, n: nat)
  {
    |close| <= n && forall c :: c in close ==> c in possibilities
  }

  /** `next((i for i in DATASET if i["_norm_drug"] == c), None)` */
  function FirstWithDrug(dataset: seq<Item>, c: string): (r: Option<Item>)
    ensures r.None? <==> forall i :: 0 <= i < |dataset| ==> dataset[i].normDrug != c
    ensures r.Some? ==> exists i :: 0 <= i < |dataset| && r.value == dataset[i] && dataset[i].normDrug == c &&
                                    forall j :: 0 <= j < i ==> dataset[j].normDrug != c
    decreases |dataset|
  {
    if dataset == [] then None
    else if dataset[0].normDrug == c then Some(dataset[0])
    else
      var r := FirstWithDrug(dataset[1..], c);
      assert forall i :: 0 <= i < |dataset| - 1 ==> dataset[1..][i] == dataset[i + 1];
      r
  }

  /** The items the fallback stage collects: for each close match, in order, the first item
      with that normalised drug name. */
  function FallbackMatches(dataset: seq<Item>, close: seq<string>): (items: seq<Item>)
    ensures |items| <= |close|
    ensures forall x :: x in items ==> x in dataset && x.normDrug in close
    decreases |close|
  {
    if close == [] then []
    else
      var init := FallbackMatches(dataset, close[..|close| - 1]);
      var c := close[|close| - 1];
      init + (match FirstWithDrug(dataset, c) case Some(x) => [x] case None => [])
  }

  /** Each close match that names a dataset item contributes that item. */
  lemma FallbackFindsEveryMatch(dataset: seq<Item>, close: seq<string>)
    requires forall c :: c in close ==> c in AllDrugs(dataset)
    ensures |FallbackMatches(dataset, close)| == |close|
  {
    if close != [] {
      var c := close[|close| - 1];
      assert forall x :: x in close[..|close| - 1] ==> x in close;
      FallbackFindsEveryMatch(dataset, close[..|close| - 1]);
      assert c in AllDrugs(dataset);
    }
  }

  /** The early return: an empty name, or one shorter than two characters once stripped. */
  predicate IsTooShort(name: string)
  {
    name == [] || |Strip(name)| < 2
  }

  /** A call either returns a list or raises, as `get_close_matches` does for `n <= 0`. */
  datatype Outcome = Returned(items: seq<Item>) | RaisedValueError

  /** The primary loop of `search_dataset`. */
  method CollectPrimary(dataset: seq<Item>, nameNorm: string) returns (results: seq<Item>)
    ensures results == PrimaryMatches(nameNorm, dataset)
  {
    results := [];
    for i := 0 to |dataset|
      invariant results == Filter(dataset[..i], PrimaryTest(nameNorm))
    {
      FilterStep(dataset, i, PrimaryTest(nameNorm));
      var dn := dataset[i].normDrug;
      var ai := dataset[i].normActive;
      if dn == [] && ai == [] {
        continue;
      }
      if nameNorm == dn || Contains(dn, nameNorm) || AllWordsIn(nameNorm, dn) {
        results := results + [dataset[i]];
      } else if Contains(ai, nameNorm) {
        results := results + [dataset[i]];
      }
    }
    assert dataset[..|dataset|] == dataset;
  }

  /** The fallback loop of `search_dataset`, over the close matches. */
  method CollectFallback(dataset: seq<Item>, closeMatches: seq<string>) returns (results: seq<Item>)
    ensures results == FallbackMatches(dataset, closeMatches)
  {
    results := [];
    for j := 0 to |closeMatches|
      invariant results == FallbackMatches(dataset, closeMatches[..j])
    {
      assert closeMatches[..j + 1][..j] == closeMatches[..j];
      var found := FirstWithDrug(dataset, closeMatches[j]);
      if found.Some? {
        results := results + [found.value];
      }
    }
    assert closeMatches[..|closeMatches|] == closeMatches;
  }

  /** `search_dataset(name, max_results)` over `dataset`, where `closeMatches` is what the fuzzy
      matcher answers for the normalised name. */
  method SearchDataset(dataset: seq<Item>, name: string, maxResults: nat, closeMatches: seq<string>)
    returns (r: Outcome)
    requires IsCloseMatchAnswer(closeMatches, AllDrugs(dataset), maxResults)
    ensures IsTooShort(name) ==> r == Returned([])
    ensures r.RaisedValueError? <==>
      !IsTooShort(name) && PrimaryMatches(NormalizeString(name), dataset) == [] && maxResults == 0
    ensures r.Returned? ==> |r.items| <= maxResults
    ensures r.Returned? ==> forall x :: x in r.items ==> x in dataset && (x.normDrug != [] || x.normActive != [])
    ensures !IsTooShort(name) && PrimaryMatches(NormalizeString(name), dataset) != [] ==>
      r == Returned(Take(PrimaryMatches(NormalizeString(name), dataset), maxResults))
    ensures !IsTooShort(name) && PrimaryMatches(NormalizeString(name), dataset) == [] && maxResults > 0 ==>
      r == Returned(FallbackMatches(dataset, closeMatches))
  {
    if name == [] || |Strip(name)| < 2 {
      return Returned([]);
    }
    var nameNorm := NormalizeString(name);
    var results := CollectPrimary(dataset, nameNorm);
    if results == [] {
      if maxResults == 0 {
        return RaisedValueError;
      }
      results := CollectFallback(dataset, closeMatches);
      forall x | x in results ensures x.normDrug != [] {
        assert x.normDrug in closeMatches;
      }
    } else {
      forall x | x in results ensures x.normDrug != [] || x.normActive != [] {
        PrimaryMatchesExactly(nameNorm, dataset, x);
      }
    }
    r := Returned(Take(results, maxResults));
  }
}
