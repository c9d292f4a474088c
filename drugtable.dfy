/** The case-insensitive lookups of flaskapp.py over the medicine table: `get_item` finds a
    medicine by name and `find_alternates` lists other medicines with the same active
    ingredient. */
module DrugTable {
  import opened Seqs
  import opened Text

  /** One row of the table, with the seven columns the lookups and the summary use. */
  datatype Row = Row(
    drugName: string,
    companyName: string,
    activeIngredient: string,
    indication: string,
    dosageAndAdministration: string,
    sideEffects: string,
    useInPregnancy: string)

  /** `df["Drug Name"].str.lower() == drug_name.lower()` for one row. */
  function SameNameTest(q: string): (test: Row -> bool)
  {
    (r: Row) => Lower(r.drugName) == Lower(q)
  }

  /** `get_item` returns either a row or an error message. */
  datatype Lookup = Found(row: Row) | NotFound(message: string)

  function NotFoundMessage(q: string): (r: string)
  {
    "No information found for '" + q + "'."
  }

  /** `get_item(drug_name)` */
  function GetItem(df: seq<Row>, q: string): (r: Lookup)
  {
    var rows := Filter(df, SameNameTest(q));
    if rows == [] then NotFound(NotFoundMessage(q)) else Found(rows[0])
  }

  /** `get_item` finds the first row whose drug name equals the query up to case, and reports
      the query by name exactly when there is none. */
  lemma GetItemFindsFirst(df: seq<Row>, q: string)
    ensures GetItem(df, q).NotFound? <==> forall i :: 0 <= i < |df| ==> Lower(df[i].drugName) != Lower(q)
    ensures GetItem(df, q).NotFound? ==> GetItem(df, q).message == "No information found for '" + q + "'."
    ensures GetItem(df, q).Found? ==>
              exists i :: 0 <= i < |df| && GetItem(df, q).row == df[i] && Lower(df[i].drugName) == Lower(q) &&
                          forall j :: 0 <= j < i ==> Lower(df[j].drugName) != Lower(q)
  {
    FilterEmpty(df, SameNameTest(q));
    if GetItem(df, q).Found? {
      var i := FilterHead(df, SameNameTest(q));
    }
  }

  /** The one-entry answer of `find_alternates` when there is no alternative. */
  const NoAlternates := "\U{1F64F} No alternates available in my dataset"

  /** The `filtered` condition of `find_alternates` for one row. */
  function AlternateTest(active: string, current: string): (test: Row -> bool)
  {
    (r: Row) => Lower(r.activeIngredient) == Lower(active) && Lower(r.drugName) != Lower(current)
  }

  /** `rows["Drug Name"].tolist()` */
  function DrugNames(rows: seq<Row>): (names: seq<string>)
    ensures |names| == |rows|
    ensures forall i :: 0 <= i < |rows| ==> names[i] == rows[i].drugName
  {
    seq(|rows|, i requires 0 <= i < |rows| => rows[i].drugName)
  }

  /** `find_alternates(active_ingredient, current_drug_name, df, max_alternates)` */
  function FindAlternates(active: string, current: string, df: seq<Row>, maxAlternates: nat): (r: seq<string>)
    ensures r != []
  {
    var alternates := Take(DrugNames(Filter(df, AlternateTest(active, current))), maxAlternates);
    if alternates == [] then [NoAlternates] else alternates
  }

  /** The answer is the one-entry notice when the bound is zero or no other row shares the
      active ingredient; otherwise it is the first `maxAlternates` names of such rows, in table
      order, each with the same active ingredient and a name other than the current one. */
  lemma FindAlternatesMeaning(active: string, current: string, df: seq<Row>, maxAlternates: nat)
    ensures (maxAlternates == 0 || forall i :: 0 <= i < |df| ==> !AlternateTest(active, current)(df[i])) ==>
              FindAlternates(active, current, df, maxAlternates) == [NoAlternates]
    ensures (maxAlternates > 0 && exists i :: 0 <= i < |df| && AlternateTest(active, current)(df[i])) ==>
              var r := FindAlternates(active, current, df, maxAlternates);
              && r == Take(DrugNames(Filter(df, AlternateTest(active, current))), maxAlternates)
              && 1 <= |r| <= maxAlternates
              && forall k :: 0 <= k < |r| ==>
                   exists i :: 0 <= i < |df| && r[k] == df[i].drugName &&
                               Lower(df[i].activeIngredient) == Lower(active) &&
                               Lower(df[i].drugName) != Lower(current)
  {
    var test := AlternateTest(active, current);
    var rows := Filter(df, test);
    FilterEmpty(df, test);
    var r := FindAlternates(active, current, df, maxAlternates);
    if maxAlternates > 0 && rows != [] {
      forall k | 0 <= k < |r| ensures exists i :: 0 <= i < |df| && r[k] == df[i].drugName &&
                                        Lower(df[i].activeIngredient) == Lower(active) &&
                                        Lower(df[i].drugName) != Lower(current)
      {
        assert r[k] == rows[k].drugName;
        assert rows[k] in rows;
        var i :| 0 <= i < |df| && df[i] == rows[k];
      }
    }
  }
}
