/** `get_alternatives_by_active_ingredient`: other dataset records with the same active
    ingredient as the record found. */
module Alternatives {
  import opened Seqs
  import opened Text
  import opened MedData

  /** The placeholder record returned when nothing qualifies. */
  const NoAlternatesEntry: RawItem := [("Drug Name", "\U{1F64F} No alternates available in my dataset")]

  /** The loop's test: the same lower-cased active ingredient, a different lower-cased drug name. */
  predicate IsAlternative(mainActive: string, mainDrug: string, item: Item)
  {
    Lower(Field(item, "active_ingredient")) == mainActive && Lower(Field(item, "drug_name")) != mainDrug
  }

  function AltTest(mainActive: string, mainDrug: string): (test: Item -> bool)
  {
    item => IsAlternative(mainActive, mainDrug, item)
  }

  /** The items the loop appends before it stops. The bound is checked after the test of each
      item, so with a bound of 0 the first item is still examined. */
  function ChosenAlternatives(dataset: seq<Item>, mainActive: string, mainDrug: string, maxResults: nat): (items: seq<Item>)
  {
    if maxResults == 0 then Filter(dataset[..if |dataset| == 0 then 0 else 1], AltTest(mainActive, mainDrug))
    else Take(Filter(dataset, AltTest(mainActive, mainDrug)), maxResults)
  }

  /** `[i["_raw"] for i in items]` */
  function Raws(items: seq<Item>): (rs: seq<RawItem>)
    ensures |rs| == |items| && forall k :: 0 <= k < |items| ==> rs[k] == items[k].raw
  {
    seq(|items|, k requires 0 <= k < |items| => items[k].raw)
  }

  lemma RawsAppend(items: seq<Item>, x: Item)
    ensures Raws(items + [x]) == Raws(items) + [x.raw]
  {
  }

  /** The chosen items are alternatives taken from the dataset. There are at most as many as
      the bound, or at most one when the bound is 0. When the bound is positive, none is chosen exactly
      when the dataset holds no alternative. */
  lemma ChosenAlternativesMeaning(dataset: seq<Item>, mainActive: string, mainDrug: string, maxResults: nat)
    ensures forall x :: x in ChosenAlternatives(dataset, mainActive, mainDrug, maxResults) ==>
      x in dataset && IsAlternative(mainActive, mainDrug, x)
    ensures |ChosenAlternatives(dataset, mainActive, mainDrug, maxResults)| <= if maxResults == 0 then 1 else maxResults
    ensures maxResults > 0 ==>
      (ChosenAlternatives(dataset, mainActive, mainDrug, maxResults) == [] <==>
       forall x :: x in dataset ==> !IsAlternative(mainActive, mainDrug, x))
  {
    var p := AltTest(mainActive, mainDrug);
    var chosen := ChosenAlternatives(dataset, mainActive, mainDrug, maxResults);
    if maxResults == 0 {
      var pre := dataset[..if |dataset| == 0 then 0 else 1];
      assert forall x :: x in pre ==> x in dataset;
    } else {
      var f := Filter(dataset, p);
      assert forall x :: x in chosen ==> x in f;
      if chosen != [] {
        assert chosen[0] in chosen;
      } else {
        forall x | x in dataset ensures !IsAlternative(mainActive, mainDrug, x) {
          if IsAlternative(mainActive, mainDrug, x) {
            FilterKeeps(dataset, p, x);
          }
        }
      }
    }
  }

  /** Where the loop stops determines what it has collected. */
  lemma StopPoint(dataset: seq<Item>, mainActive: string, mainDrug: string, maxResults: nat, stop: nat)
    requires stop <= |dataset|
    requires || (stop == |dataset| && (stop == 0 || |Filter(dataset[..stop], AltTest(mainActive, mainDrug))| < maxResults))
             || (stop >= 1 && (maxResults == 0 ==> stop == 1) &&
                 (maxResults > 0 ==> |Filter(dataset[..stop], AltTest(mainActive, mainDrug))| == maxResults))
    ensures Filter(dataset[..stop], AltTest(mainActive, mainDrug)) == ChosenAlternatives(dataset, mainActive, mainDrug, maxResults)
  {
    assert dataset[..|dataset|] == dataset;
    TakeFilterPrefix(dataset, stop, AltTest(mainActive, mainDrug));
  }

  /** The loop of `get_alternatives_by_active_ingredient`, with its `break` at the bound. */
  method CollectAlternatives(dataset: seq<Item>, mainActive: string, mainDrug: string, maxResults: nat)
    returns (alts: seq<RawItem>)
    ensures alts == Raws(ChosenAlternatives(dataset, mainActive, mainDrug, maxResults))
  {
    ghost var p := AltTest(mainActive, mainDrug);
    alts := [];
    ghost var picked: seq<Item> := [];
    ghost var stop := |dataset|;
    for i := 0 to |dataset|
      invariant picked == Filter(dataset[..i], p) && alts == Raws(picked)
      invariant i == 0 || |picked| < maxResults
      invariant stop == |dataset|
    {
      FilterStep(dataset, i, p);
      var item := dataset[i];
      if Lower(Field(item, "active_ingredient")) == mainActive && Lower(Field(item, "drug_name")) != mainDrug {
        RawsAppend(picked, item);
        alts := alts + [item.raw];
        picked := picked + [item];
      }
      if |alts| >= maxResults {
        stop := i + 1;
        break;
      }
    }
    StopPoint(dataset, mainActive, mainDrug, maxResults, stop);
  }

  /** `get_alternatives_by_active_ingredient(main_doc, max_results)` over `dataset`. */
  method GetAlternativesByActiveIngredient(dataset: seq<Item>, mainDoc: Item, maxResults: nat)
    returns (alts: seq<RawItem>)
    ensures Lower(Field(mainDoc, "active_ingredient")) == [] ==> alts == []
    ensures Lower(Field(mainDoc, "active_ingredient")) != [] ==>
      var chosen := ChosenAlternatives(dataset, Lower(Field(mainDoc, "active_ingredient")),
                                       Lower(Field(mainDoc, "drug_name")), maxResults);
      alts == if chosen == [] then [NoAlternatesEntry] else Raws(chosen)
  {
    var mainActive := Lower(Field(mainDoc, "active_ingredient"));
    var mainDrug := Lower(Field(mainDoc, "drug_name"));
    if mainActive == [] {
      return [];
    }
    alts := CollectAlternatives(dataset, mainActive, mainDrug, maxResults);
    if alts == [] {
      alts := alts + [NoAlternatesEntry];
    }
  }
}
