/** The comma-separated list of medicine names a user types:
    `[n.strip() for n in q.split(",") if n.strip()]` (app.py and flaskapp.py). */
module NameInput {
  import opened Text

  /** The stripped pieces that are not empty, in order. */
  function NonEmptyStripped(pieces: seq<string>): (names: seq<string>)
    ensures |names| <= |pieces|
    ensures forall n :: n in names ==> n != [] && IsStripped(n) && exists p :: p in pieces && n == Strip(p)
    decreases |pieces|
  {
    if pieces == [] then []
    else
      StripIdempotent(pieces[0]);
      Kept(pieces[0]) + NonEmptyStripped(pieces[1..])
  }

  /** What one piece contributes. */
  function Kept(piece: string): (r: seq<string>)
  {
    if Strip(piece) != [] then [Strip(piece)] else []
  }

  function SplitNames(q: string): (r: seq<string>)
  {
    NonEmptyStripped(SplitOn(q, ','))
  }

  /** Every name is non-empty, has nothing to strip and holds no comma. */
  lemma SplitNamesShape(q: string)
    ensures forall n :: n in SplitNames(q) ==> n != [] && IsStripped(n) && ',' !in n
  {
    forall n | n in SplitNames(q) ensures ',' !in n {
      var p :| p in SplitOn(q, ',') && n == Strip(p);
      var lead := StripShape(p);
    }
  }

  lemma {:induction false} NonEmptyStrippedConcat(a: seq<string>, b: seq<string>)
    ensures NonEmptyStripped(a + b) == NonEmptyStripped(a) + NonEmptyStripped(b)
    decreases |a|
  {
    if a == [] {
      assert a + b == b;
    } else {
      calc {
        NonEmptyStripped(a + b);
        { assert (a + b)[0] == a[0] && (a + b)[1..] == a[1..] + b; }
        Kept(a[0]) + NonEmptyStripped(a[1..] + b);
        { NonEmptyStrippedConcat(a[1..], b); }
        Kept(a[0]) + (NonEmptyStripped(a[1..]) + NonEmptyStripped(b));
        NonEmptyStripped(a) + NonEmptyStripped(b);
      }
    }
  }

  /** Splitting keeps the input order: the names of two lists joined by a comma are the names
      of the first followed by those of the second. */
  lemma SplitNamesConcat(a: string, b: string)
    ensures SplitNames(a + "," + b) == SplitNames(a) + SplitNames(b)
  {
    SplitOnConcat(a, b, ',');
    NonEmptyStrippedConcat(SplitOn(a, ','), SplitOn(b, ','));
  }

  /** A name list without commas is the one stripped name, or nothing when it is blank. */
  lemma SplitNamesSingle(q: string)
    requires ',' !in q
    ensures SplitNames(q) == if Strip(q) == [] then [] else [Strip(q)]
  {
    SplitOnNoSep(q, ',');
  }
}
