/** The medicine dataset of the request/response front end: the name normaliser used for
    searching, and the canonicalisation of the records loaded from the JSON file. */
module MedData {
  import opened Text
  import opened Seqs

  /** The characters matched by the class `[a-z0-9]`. */
  predicate IsLowerAlnum(c: char) { IsLower(c) || IsDigit(c) }

  /** The characters matched by `[^a-z0-9]`. */
  predicate IsSeparator(c: char) { !IsLowerAlnum(c) }

  /** `normalize_string`: lower-case, turn each run of characters outside `[a-z0-9]` into one
      space, strip. */
  function NormalizeString(s: string): (r: string)
  {
    if s == [] then [] else Strip(RunsToSpace(Lower(s), IsSeparator))
  }

  /** The shape of a normalised name: lower-case letters and digits, separated by single
      spaces, with no space at either end. */
  predicate IsNormal(t: string)
  {
    && (forall i :: 0 <= i < |t| ==> IsLowerAlnum(t[i]) || t[i] == ' ')
    && (forall i :: 0 <= i < |t| && t[i] == ' ' ==> 0 < i < |t| - 1)
    && (forall i, j :: 0 <= i < |t| && j == i + 1 && j < |t| && t[i] == ' ' ==> t[j] != ' ')
  }

  lemma NormalizeEmpty()
    ensures NormalizeString("") == ""
  {
  }

  /** Whatever the input, the normalised name has the normal shape. */
  lemma NormalizeIsNormal(s: string)
    ensures IsNormal(NormalizeString(s))
  {
    if s != [] {
      var r := RunsToSpace(Lower(s), IsSeparator);
      var lead := StripShape(r);
      var t := Strip(r);
      forall i | 0 <= i < |t| ensures IsLowerAlnum(t[i]) || t[i] == ' ' {
        assert t[i] == r[lead + i];
      }
      forall i | 0 <= i < |t| && t[i] == ' ' ensures 0 < i < |t| - 1 {
        assert t[i] == r[lead + i];
      }
      forall i, j | 0 <= i < |t| && j == i + 1 && j < |t| && t[i] == ' ' ensures t[j] != ' ' {
        assert t[i] == r[lead + i];
        assert t[j] == r[lead + j];
      }
    }
  }

  lemma {:induction false} RunsToSpaceOfSeparated(s: string)
    requires forall i :: 0 <= i < |s| && IsSeparator(s[i]) ==> s[i] == ' '
    requires forall i, j :: 0 <= i && j == i + 1 && j < |s| && IsSeparator(s[i]) ==> !IsSeparator(s[j])
    ensures RunsToSpace(s, IsSeparator) == s
    decreases |s|
  {
    if s != [] {
      assert forall i :: 0 <= i < |s[1..]| ==> s[1..][i] == s[i + 1];
      RunsToSpaceOfSeparated(s[1..]);
      if IsSeparator(s[0]) {
        assert DropWhile(s[1..], IsSeparator) == s[1..];
      }
    }
  }

  /** A name already in the normal shape is left as it is. */
  lemma NormalOfNormal(t: string)
    requires IsNormal(t)
    ensures NormalizeString(t) == t
  {
    if t != [] {
      assert Lower(t) == t;
      RunsToSpaceOfSeparated(t);
      StripOfStripped(t);
    }
  }

  /** `normalize_string` is idempotent. */
  lemma NormalizeIdempotent(s: string)
    ensures NormalizeString(NormalizeString(s)) == NormalizeString(s)
  {
    NormalizeIsNormal(s);
    NormalOfNormal(NormalizeString(s));
  }

  /** `re.sub(r'[^a-z0-9]+', '', s)`: only the letters and digits of `s`, in order. */
  function Compact(s: string): (r: string)
  {
    Filter(s, IsLowerAlnum)
  }

  lemma CompactCons(c: char, s: string)
    ensures Compact([c] + s) == (if IsLowerAlnum(c) then [c] else []) + Compact(s)
  {
    FilterConcat([c], s, IsLowerAlnum);
    assert [c][..0] == [];
  }

  lemma {:induction false} CompactOfSeparators(s: string)
    requires forall i :: 0 <= i < |s| ==> IsSeparator(s[i])
    ensures Compact(s) == []
    decreases |s|
  {
    if s != [] {
      assert forall i :: 0 <= i < |s[1..]| ==> s[1..][i] == s[i + 1];
      CompactOfSeparators(s[1..]);
      CompactCons(s[0], s[1..]);
      assert [s[0]] + s[1..] == s;
    }
  }

  lemma {:induction false} RunsToSpaceKeepsAlnum(s: string)
    ensures Compact(RunsToSpace(s, IsSeparator)) == Compact(s)
    decreases |s|
  {
    if s != [] {
      assert [s[0]] + s[1..] == s;
      CompactCons(s[0], s[1..]);
      if !IsSeparator(s[0]) {
        RunsToSpaceKeepsAlnum(s[1..]);
        CompactCons(s[0], RunsToSpace(s[1..], IsSeparator));
      } else {
        var d := DropWhile(s[1..], IsSeparator);
        RunsToSpaceKeepsAlnum(d);
        CompactCons(' ', RunsToSpace(d, IsSeparator));
        CompactOfDropWhile(s[1..]);
      }
    }
  }

  /** Dropping leading separators drops no letter or digit. */
  lemma CompactOfDropWhile(s: string)
    ensures Compact(DropWhile(s, IsSeparator)) == Compact(s)
  {
    var d := DropWhile(s, IsSeparator);
    var k := |s| - |d|;
    CompactOfSeparators(s[..k]);
    calc {
      Compact(s);
      { assert s == s[..k] + d; }
      Compact(s[..k] + d);
      { FilterConcat(s[..k], d, IsLowerAlnum); }
      Compact(s[..k]) + Compact(d);
    }
  }

  lemma CompactOfStrip(s: string)
    ensures Compact(Strip(s)) == Compact(s)
  {
    var lead := StripShape(s);
    var m := Strip(s);
    var a, b := s[..lead], s[lead + |m|..];
    assert forall i :: 0 <= i < |a| ==> a[i] == s[i];
    assert forall i :: 0 <= i < |b| ==> b[i] == s[lead + |m| + i];
    CompactOfSeparators(a);
    CompactOfSeparators(b);
    calc {
      Compact(s);
      { assert s == (a + m) + b; }
      Compact((a + m) + b);
      { FilterConcat(a + m, b, IsLowerAlnum); }
      Compact(a + m) + Compact(b);
      { FilterConcat(a, m, IsLowerAlnum); }
      Compact(a) + Compact(m) + Compact(b);
    }
  }

  /** Normalising drops only separators: the letters and digits of the lower-cased input all
      survive, in order. */
  lemma NormalizeKeepsAlnum(s: string)
    ensures Compact(NormalizeString(s)) == Compact(Lower(s))
  {
    if s != [] {
      RunsToSpaceKeepsAlnum(Lower(s));
      CompactOfStrip(RunsToSpace(Lower(s), IsSeparator));
    }
  }

  /** A record as loaded from the JSON file: its key/value pairs in file order. */
  type RawItem = seq<(string, string)>

  /** A dataset entry after `normalize_dataset`: the seven canonical fields, the raw record
      (`_raw`) and the normalised drug name and active ingredient (`_norm_drug`, `_norm_active`). */
  datatype Item = Item(fields: map<string, string>, raw: RawItem, normDrug: string, normActive: string)

  /** `item.get(key, "")` */
  function Field(item: Item, key: string): (r: string)
  {
    if key in item.fields then item.fields[key] else ""
  }

  /** `canonical_map`: each canonical field with the key spellings accepted for it, in
      priority order. */
  const CanonicalMap: seq<(string, seq<string>)> := [
    ("drug_name", ["drug name", "drug_name", "medicine", "name"]),
    ("company_name", ["company name", "manufacturer", "company"]),
    ("active_ingredient", ["active ingredient", "ingredient", "salt"]),
    ("indication", ["indication", "use", "uses"]),
    ("dosage_and_administration", ["dosage and administration", "dosage", "dose"]),
    ("side_effects", ["side effects", "adverse effects"]),
    ("use_in_pregnancy", ["use in pregnancy", "pregnancy safety"])
  ]

  const CanonicalKeys: set<string> := set j | 0 <= j < |CanonicalMap| :: CanonicalMap[j].0

  /** The lookup key of a record key: lower-cased, then only letters and digits. */
  function KeyOf(k: string): (r: string)
  {
    Compact(Lower(k))
  }

  /** `key_map`: the record re-keyed by `KeyOf`; a later pair wins over an earlier one with
      the same key. */
  function KeyMap(raw: RawItem): (r: map<string, string>)
    decreases |raw|
  {
    if raw == [] then map[]
    else KeyMap(raw[..|raw| - 1])[KeyOf(raw[|raw| - 1].0) := raw[|raw| - 1].1]
  }

  /** A key of `key_map` comes from some pair of the record, and its value from the last such
      pair. */
  lemma {:induction false} KeyMapLast(raw: RawItem, k: string)
    ensures k in KeyMap(raw) <==> exists j :: 0 <= j < |raw| && KeyOf(raw[j].0) == k
    ensures k in KeyMap(raw) ==> exists j :: 0 <= j < |raw| && KeyOf(raw[j].0) == k && KeyMap(raw)[k] == raw[j].1 &&
                                              forall i :: j < i < |raw| ==> KeyOf(raw[i].0) != k
    decreases |raw|
  {
    if raw != [] {
      var init := raw[..|raw| - 1];
      KeyMapLast(init, k);
      assert forall j :: 0 <= j < |init| ==> init[j] == raw[j];
      if KeyOf(raw[|raw| - 1].0) != k && k in KeyMap(raw) {
        var j :| 0 <= j < |init| && KeyOf(init[j].0) == k && KeyMap(init)[k] == init[j].1 &&
                 forall i :: j < i < |init| ==> KeyOf(init[i].0) != k;
        assert forall i :: j < i < |raw| ==> KeyOf(raw[i].0) != k;
      }
    }
  }

  /** The key a variant spelling is looked up under (`re.sub(r'[^a-z0-9]+', '', v)`). */
  function VariantKey(v: string): (r: string)
  {
    Compact(v)
  }

  /** The variant is present in the record with a non-empty value. */
  predicate Usable(km: map<string, string>, v: string)
  {
    VariantKey(v) in km && km[VariantKey(v)] != ""
  }

  /** No variant before index `j` is usable. */
  predicate NoneUsableBefore(km: map<string, string>, vs: seq<string>, j: nat)
    requires j <= |vs|
  {
    forall i :: 0 <= i < j ==> !Usable(km, vs[i])
  }

  /** Variant `j` is the first usable one. */
  predicate FirstUsableAt(km: map<string, string>, vs: seq<string>, j: nat)
  {
    j < |vs| && Usable(km, vs[j]) && NoneUsableBefore(km, vs, j)
  }

  /** `val` is what the inner loop of `normalize_dataset` picks for a canonical field: the
      value of the first usable variant in list order, or `""` when no variant is usable. */
  predicate IsFirstVariant(km: map<string, string>, vs: seq<string>, val: string)
  {
    || (val == "" && NoneUsableBefore(km, vs, |vs|))
    || (exists j :: 0 <= j < |vs| && FirstUsableAt(km, vs, j) && val == km[VariantKey(vs[j])])
  }

  lemma FirstUsableUnique(km: map<string, string>, vs: seq<string>, i: nat, j: nat)
    requires FirstUsableAt(km, vs, i) && FirstUsableAt(km, vs, j)
    ensures i == j
  {
  }

  /** The rule picks exactly one value. */
  lemma FirstVariantUnique(km: map<string, string>, vs: seq<string>, a: string, b: string)
    requires IsFirstVariant(km, vs, a) && IsFirstVariant(km, vs, b)
    ensures a == b
  {
    if !NoneUsableBefore(km, vs, |vs|) {
      var ja :| 0 <= ja < |vs| && FirstUsableAt(km, vs, ja) && a == km[VariantKey(vs[ja])];
      var jb :| 0 <= jb < |vs| && FirstUsableAt(km, vs, jb) && b == km[VariantKey(vs[jb])];
      FirstUsableUnique(km, vs, ja, jb);
    }
  }

  /** `item` is the canonical form of `raw`: exactly the seven canonical keys, each filled by
      the first usable variant, the record kept, the two normalised keys computed. */
  predicate IsNormalizedFrom(item: Item, raw: RawItem)
  {
    && item.fields.Keys == CanonicalKeys
    && (forall j :: 0 <= j < |CanonicalMap| ==>
          IsFirstVariant(KeyMap(raw), CanonicalMap[j].1, item.fields[CanonicalMap[j].0]))
    && item.raw == raw
    && item.normDrug == NormalizeString(Field(item, "drug_name"))
    && item.normActive == NormalizeString(Field(item, "active_ingredient"))
  }

  /** The value the inner loop over the variants picks. */
  method PickVariant(keyMap: map<string, string>, variants: seq<string>) returns (val: string)
    ensures IsFirstVariant(keyMap, variants, val)
  {
    val := "";
    for j := 0 to |variants|
      invariant val == ""
      invariant NoneUsableBefore(keyMap, variants, j)
    {
      var key := Compact(variants[j]);
      if key in keyMap && keyMap[key] != "" {
        val := keyMap[key];
        assert FirstUsableAt(keyMap, variants, j);
        return;
      }
    }
  }

  lemma CanonicalNamesDistinct()
    ensures forall a, b :: 0 <= a < b < |CanonicalMap| ==> CanonicalMap[a].0 != CanonicalMap[b].0
  {
  }

  /** One pass of the outer loop of `normalize_dataset`. */
  method NormalizeItem(rawItem: RawItem) returns (item: Item)
    ensures IsNormalizedFrom(item, rawItem)
  {
    var keyMap := KeyMap(rawItem);
    var fields: map<string, string> := map[];
    CanonicalNamesDistinct();
    for j := 0 to |CanonicalMap|
      invariant fields.Keys == set k | 0 <= k < j :: CanonicalMap[k].0
      invariant forall k :: 0 <= k < j ==> IsFirstVariant(keyMap, CanonicalMap[k].1, fields[CanonicalMap[k].0])
    {
      var (canonical, variants) := CanonicalMap[j];
      var val := PickVariant(keyMap, variants);
      fields := fields[canonical := val];
    }
    var drug := if "drug_name" in fields then fields["drug_name"] else "";
    var active := if "active_ingredient" in fields then fields["active_ingredient"] else "";
    item := Item(fields, rawItem, NormalizeString(drug), NormalizeString(active));
  }

  /** `normalize_dataset`: every record becomes one canonical item, in order. */
  method NormalizeDataset(rawDataset: seq<RawItem>) returns (normalized: seq<Item>)
    ensures |normalized| == |rawDataset|
    ensures forall i :: 0 <= i < |rawDataset| ==> IsNormalizedFrom(normalized[i], rawDataset[i])
  {
    normalized := [];
    for i := 0 to |rawDataset|
      invariant |normalized| == i
      invariant forall k :: 0 <= k < i ==> IsNormalizedFrom(normalized[k], rawDataset[k])
    {
      var item := NormalizeItem(rawDataset[i]);
      normalized := normalized + [item];
    }
  }
}
