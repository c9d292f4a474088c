/** The post-processing of OCR output in `extract_medicines_from_image` (flaskapp.py): the
    lines read off a prescription are grouped so that a dosage-form marker (`TAB`, `CAP`,
    `INJ`, `SYR`) on a line of its own is joined with the line after it, and a medicine name
    is then taken out of each group by two anchored regular expressions. */
module OcrLines {
  import opened Options
  import opened Seqs
  import opened Text

  /** `line.strip().upper() in ['TAB', 'CAP', 'INJ', 'SYR']` */
  predicate IsMarker(line: string)
  {
    Upper(Strip(line)) in ["TAB", "CAP", "INJ", "SYR"]
  }

  /** A marker line is three characters once stripped. */
  lemma MarkerShape(line: string)
    requires IsMarker(line)
    ensures |Strip(line)| == 3 && IsStripped(Strip(line))
  {
    StripIdempotent(line);
  }

  /** The groups of lines the loop consumes, in order: a marker line together with the next
      line when that one is not a marker, any other line on its own. */
  function Chunks(lines: seq<string>): (cs: seq<seq<string>>)
    ensures forall c :: c in cs ==> 1 <= |c| <= 2
    decreases |lines|
  {
    if lines == [] then []
    else if IsMarker(lines[0]) && |lines| > 1 && !IsMarker(lines[1]) then [lines[..2]] + Chunks(lines[2..])
    else [lines[..1]] + Chunks(lines[1..])
  }

  /** The text one group becomes, built exactly as the loop builds it. */
  function Render(c: seq<string>): (r: string)
    requires 1 <= |c| <= 2
  {
    if |c| == 2 then Strip(Strip(c[0]) + " " + Strip(c[1]))
    else if IsMarker(c[0]) then Strip(Strip(c[0]) + " ")
    else Strip(c[0])
  }

  function RenderAll(cs: seq<seq<string>>): (gs: seq<string>)
    requires forall c :: c in cs ==> 1 <= |c| <= 2
    ensures |gs| == |cs|
    decreases |cs|
  {
    if cs == [] then [] else [Render(cs[0])] + RenderAll(cs[1..])
  }

  /** The grouped lines of `result`. */
  function Grouped(result: seq<string>): (r: seq<string>)
  {
    RenderAll(Chunks(result))
  }

  /** The first group of `rest` and what follows it. */
  lemma GroupStep(rest: seq<string>)
    requires rest != []
    ensures IsMarker(rest[0]) && |rest| > 1 && !IsMarker(rest[1]) ==>
              RenderAll(Chunks(rest)) == [Strip(Strip(rest[0]) + " " + Strip(rest[1]))] + RenderAll(Chunks(rest[2..]))
    ensures IsMarker(rest[0]) && (|rest| == 1 || IsMarker(rest[1])) ==>
              RenderAll(Chunks(rest)) == [Strip(Strip(rest[0]) + " ")] + RenderAll(Chunks(rest[1..]))
    ensures !IsMarker(rest[0]) ==> RenderAll(Chunks(rest)) == [Strip(rest[0])] + RenderAll(Chunks(rest[1..]))
  {
    var cs := Chunks(rest);
    assert cs[1..] == Chunks(if IsMarker(rest[0]) && |rest| > 1 && !IsMarker(rest[1]) then rest[2..] else rest[1..]);
  }

  /** The grouping loop of `extract_medicines_from_image`. */
  method GroupOcrLines(result: seq<string>) returns (grouped: seq<string>)
    ensures grouped == Grouped(result)
  {
    grouped := [];
    var i := 0;
    while i < |result|
      invariant 0 <= i <= |result|
      invariant grouped + RenderAll(Chunks(result[i..])) == Grouped(result)
      decreases |result| - i
    {
      ghost var rest := result[i..];
      GroupStep(rest);
      if IsMarker(result[i]) {
        var line := Strip(result[i]) + " ";
        i := i + 1;
        if i < |result| && !IsMarker(result[i]) {
          line := line + Strip(result[i]);
          i := i + 1;
          assert rest[2..] == result[i..];
        } else {
          assert rest[1..] == result[i..];
        }
        assert RenderAll(Chunks(rest)) == [Strip(line)] + RenderAll(Chunks(result[i..]));
        AppendAssoc(grouped, Strip(line), RenderAll(Chunks(result[i..])));
        grouped := grouped + [Strip(line)];
      } else {
        AppendAssoc(grouped, Strip(result[i]), RenderAll(Chunks(result[i + 1..])));
        grouped := grouped + [Strip(result[i])];
        i := i + 1;
        assert rest[1..] == result[i..];
      }
    }
  }

  /** Every line is consumed exactly once, in order. */
  lemma {:induction false} ChunksCoverLines(lines: seq<string>)
    ensures Flatten(Chunks(lines)) == lines
    decreases |lines|
  {
    if lines != [] {
      if IsMarker(lines[0]) && |lines| > 1 && !IsMarker(lines[1]) {
        ChunksCoverLines(lines[2..]);
        assert lines == lines[..2] + lines[2..];
      } else {
        ChunksCoverLines(lines[1..]);
        assert lines == lines[..1] + lines[1..];
      }
    }
  }

  /** A group of two lines is a marker followed by a line that is not one, so two markers
      are never merged; a marker left on its own is the last line or is followed by another
      marker. */
  lemma {:induction false} ChunkShapes(lines: seq<string>)
    ensures forall k :: 0 <= k < |Chunks(lines)| && |Chunks(lines)[k]| == 2 ==>
              IsMarker(Chunks(lines)[k][0]) && !IsMarker(Chunks(lines)[k][1])
    ensures forall k :: 0 <= k < |Chunks(lines)| && |Chunks(lines)[k]| == 1 && IsMarker(Chunks(lines)[k][0]) ==>
              k + 1 == |Chunks(lines)| || IsMarker(Chunks(lines)[k + 1][0])
    decreases |lines|
  {
    if lines != [] {
      var cs := Chunks(lines);
      var tail := if IsMarker(lines[0]) && |lines| > 1 && !IsMarker(lines[1]) then lines[2..] else lines[1..];
      ChunkShapes(tail);
      assert cs[1..] == Chunks(tail);
      if tail != [] {
        assert Chunks(tail)[0][0] == tail[0];
      }
      forall k | 0 <= k < |cs| && |cs[k]| == 1 && IsMarker(cs[k][0])
        ensures k + 1 == |cs| || IsMarker(cs[k + 1][0])
      {
        if k > 0 {
          assert cs[k] == Chunks(tail)[k - 1];
        }
      }
    }
  }

  /** Each group takes one or two lines: `len(grouped) <= len(result) <= 2 * len(grouped)`. */
  lemma {:induction false} GroupCount(lines: seq<string>)
    ensures |Grouped(lines)| <= |lines| <= 2 * |Grouped(lines)|
    decreases |lines|
  {
    if lines != [] {
      if IsMarker(lines[0]) && |lines| > 1 && !IsMarker(lines[1]) {
        GroupCount(lines[2..]);
      } else {
        GroupCount(lines[1..]);
      }
    }
  }

  /** What a group reads as: a single line stripped; or a marker, one space and the next
      line stripped (just the marker when that line is blank). */
  lemma RenderShape(c: seq<string>)
    requires |c| == 1 || (|c| == 2 && IsMarker(c[0]))
    ensures |c| == 1 ==> Render(c) == Strip(c[0])
    ensures |c| == 2 ==> Render(c) == if Strip(c[1]) == [] then Strip(c[0]) else Strip(c[0]) + " " + Strip(c[1])
  {
    if |c| == 1 && IsMarker(c[0]) {
      MarkerShape(c[0]);
      StripSpaceAfter(Strip(c[0]));
    } else if |c| == 2 {
      MarkerShape(c[0]);
      StripIdempotent(c[1]);
      if Strip(c[1]) == [] {
        assert Strip(c[0]) + " " + Strip(c[1]) == Strip(c[0]) + " ";
        StripSpaceAfter(Strip(c[0]));
      } else {
        StripJoined(Strip(c[0]), Strip(c[1]));
      }
    }
  }

  // The extraction step.

  predicate IsDash(c: char) { c == '-' || c == '–' }

  /** `[A-Z\s]` under `re.IGNORECASE`. */
  predicate IsNameClass(c: char) { IsLetter(c) || IsSpace(c) }

  /** `$` without MULTILINE: the end of the string, or just before a final newline. */
  predicate EndAt(t: string, p: nat)
  {
    p == |t| || (p + 1 == |t| && t[p] == '\n')
  }

  /** Letters and whitespace of `t` from `a` up to `e`. */
  predicate AllNameClass(t: string, a: nat, e: nat)
    requires a <= e <= |t|
  {
    forall i :: a <= i < e ==> IsNameClass(t[i])
  }

  /** The length of the run of `[A-Z\s]` characters from `p` on. */
  function ClassRun(t: string, p: nat): (n: nat)
    requires p <= |t|
    ensures p + n <= |t| && AllNameClass(t, p, p + n)
    decreases |t| - p
  {
    if p < |t| && IsNameClass(t[p]) then 1 + ClassRun(t, p + 1) else 0
  }

  /** `([A-Z\s]+)$` from `q`, greedy: `m` characters first, then fewer. The group it captures,
      which reaches the end of the text. */
  function TryGroup(t: string, q: nat, m: nat): (r: Option<string>)
    requires q + m <= |t| && AllNameClass(t, q, q + m)
    ensures r.Some? ==> q < |t| && r.value != [] && AllNameClass(t, q, |t|)
    ensures r.Some? ==> forall i :: 0 <= i < |r.value| ==> IsNameClass(r.value[i])
    decreases m
  {
    if m == 0 then None
    else if EndAt(t, q + m) then
      var g := t[q..q + m];
      assert forall i :: 0 <= i < |g| ==> g[i] == t[q + i];
      Some(g)
    else TryGroup(t, q, m - 1)
  }

  /** The second `\s*`, greedy: `k` whitespace characters, then fewer, followed by the group. */
  function TryTrail(t: string, p: nat, k: nat): (r: Option<string>)
    requires p + k <= |t| && AllSpace(t, p, p + k)
    ensures r.Some? ==> p < |t| && r.value != [] && (forall i :: p <= i < |t| ==> IsNameClass(t[i]))
    ensures r.Some? ==> forall i :: 0 <= i < |r.value| ==> IsNameClass(r.value[i])
    decreases k
  {
    var g := TryGroup(t, p + k, ClassRun(t, p + k));
    if g.Some? then g
    else if k == 0 then None
    else TryTrail(t, p, k - 1)
  }

  /** `[-–]?` at `p`, greedy, followed by the second `\s*` and the group. */
  function TryDash(t: string, p: nat): (r: Option<string>)
    requires p <= |t|
    ensures r.Some? ==> r.value != [] && forall i :: 0 <= i < |r.value| ==> IsNameClass(r.value[i])
    ensures r.Some? ==> forall i :: p <= i < |t| ==> IsNameClass(t[i]) || IsDash(t[i])
  {
    var withDash := if p < |t| && IsDash(t[p]) then TryTrail(t, p + 1, SpaceRun(t, p + 1)) else None;
    if withDash.Some? then withDash else TryTrail(t, p, SpaceRun(t, p))
  }

  /** The first `\s*` after the marker, greedy: `k` whitespace characters, then fewer. */
  function TryLead(t: string, k: nat): (r: Option<string>)
    requires 3 + k <= |t| && AllSpace(t, 3, 3 + k)
    ensures r.Some? ==> r.value != [] && forall i :: 0 <= i < |r.value| ==> IsNameClass(r.value[i])
    ensures r.Some? ==> forall i :: 3 <= i < |t| ==> IsNameClass(t[i]) || IsDash(t[i])
    decreases k
  {
    var m := TryDash(t, 3 + k);
    if m.Some? then m
    else if k == 0 then None
    else TryLead(t, k - 1)
  }

  /** `(TAB|CAP|INJ|SYR)` at the start of `t`, case-insensitively. */
  predicate MarkerPrefix(t: string)
  {
    |t| >= 3 && Lower(t[..3]) in ["tab", "cap", "inj", "syr"]
  }

  /** The second group of `^(TAB|CAP|INJ|SYR)\s*[-–]?\s*([A-Z\s]+)$` (with `re.IGNORECASE`)
      when `pattern.search(line)` matches. */
  function MatchMarkerLine(t: string): (r: Option<string>)
    ensures r.Some? ==> MarkerPrefix(t)
    ensures r.Some? ==> r.value != [] && forall i :: 0 <= i < |r.value| ==> IsNameClass(r.value[i])
    ensures r.Some? ==> forall i :: 3 <= i < |t| ==> IsNameClass(t[i]) || IsDash(t[i])
  {
    if MarkerPrefix(t) then TryLead(t, SpaceRun(t, 3)) else None
  }

  /** `name_pattern.search(line)` for `^[A-Z\s]+$` with `re.IGNORECASE`. */
  predicate MatchesNameOnly(t: string)
  {
    TryGroup(t, 0, ClassRun(t, 0)).Some?
  }

  /** The name one grouped line contributes, if any. */
  function ExtractName(line: string): (name: Option<string>)
  {
    match MatchMarkerLine(line)
    case Some(g) => Some(Title(Strip(g)))
    case None => if MatchesNameOnly(line) then Some(Title(Strip(line))) else None
  }

  /** The names of all grouped lines, in order. */
  function ExtractedNames(grouped: seq<string>): (names: seq<string>)
    ensures |names| <= |grouped|
    decreases |grouped|
  {
    if grouped == [] then []
    else
      (match ExtractName(grouped[0]) case Some(n) => [n] case None => []) + ExtractedNames(grouped[1..])
  }

  lemma ExtractedNamesStep(grouped: seq<string>)
    requires grouped != []
    ensures ExtractName(grouped[0]).Some? ==>
              ExtractedNames(grouped) == [ExtractName(grouped[0]).value] + ExtractedNames(grouped[1..])
    ensures ExtractName(grouped[0]).None? ==> ExtractedNames(grouped) == ExtractedNames(grouped[1..])
  {
  }

  /** The extraction loop of `extract_medicines_from_image`. */
  method ExtractNames(grouped: seq<string>) returns (extracted: seq<string>)
    ensures extracted == ExtractedNames(grouped)
  {
    extracted := [];
    var i := 0;
    while i < |grouped|
      invariant 0 <= i <= |grouped|
      invariant extracted + ExtractedNames(grouped[i..]) == ExtractedNames(grouped)
      decreases |grouped| - i
    {
      assert grouped[i..][1..] == grouped[i + 1..];
      ExtractedNamesStep(grouped[i..]);
      var line := grouped[i];
      var m := MatchMarkerLine(line);
      if m.Some? {
        AppendAssoc(extracted, Title(Strip(m.value)), ExtractedNames(grouped[i + 1..]));
        extracted := extracted + [Title(Strip(m.value))];
      } else if MatchesNameOnly(line) {
        AppendAssoc(extracted, Title(Strip(line)), ExtractedNames(grouped[i + 1..]));
        extracted := extracted + [Title(Strip(line))];
      }
      i := i + 1;
    }
  }

  /** `extract_medicines_from_image` after the OCR call: group the lines, then extract. */
  method ExtractMedicines(result: seq<string>) returns (extracted: seq<string>)
    ensures extracted == ExtractedNames(Grouped(result))
  {
    var grouped := GroupOcrLines(result);
    extracted := ExtractNames(grouped);
  }

  /** A name extracted from the text `g`: `g` stripped and title-cased, so it is letters and
      single-word-initial capitals over the same letters and whitespace as `g`. */
  predicate IsExtractedFrom(name: string, g: string)
  {
    && name == Title(Strip(g))
    && (forall i :: 0 <= i < |name| ==> IsNameClass(name[i]))
    && IsStripped(name)
    && IsTitled(name)
  }

  /** Title-casing changes no whitespace or other non-letter. */
  lemma TitleKeepsClasses(s: string)
    ensures |Title(s)| == |s|
    ensures forall i :: 0 <= i < |s| ==> (IsSpace(Title(s)[i]) <==> IsSpace(s[i]))
    ensures forall i :: 0 <= i < |s| ==> (IsNameClass(Title(s)[i]) <==> IsNameClass(s[i]))
  {
  }

  lemma StripNameClass(g: string)
    requires forall i :: 0 <= i < |g| ==> IsNameClass(g[i])
    ensures forall i :: 0 <= i < |Strip(g)| ==> IsNameClass(Strip(g)[i])
  {
    var lead := StripShape(g);
    forall i | 0 <= i < |Strip(g)| ensures IsNameClass(Strip(g)[i]) {
      assert Strip(g)[i] == g[lead + i];
    }
  }

  lemma ExtractedFromNameClass(g: string)
    requires forall i :: 0 <= i < |g| ==> IsNameClass(g[i])
    ensures IsExtractedFrom(Title(Strip(g)), g)
  {
    var s := Strip(g);
    StripNameClass(g);
    StripIdempotent(g);
    TitleKeepsClasses(s);
    TitleIsTitled(s);
  }

  /** Every extracted name holds only letters and whitespace, has nothing to strip and is
      title-cased; it comes from the part of the line after the marker, or from the whole line. */
  lemma ExtractNameShape(line: string)
    ensures ExtractName(line).Some? ==>
              (MatchMarkerLine(line).Some? && IsExtractedFrom(ExtractName(line).value, MatchMarkerLine(line).value)) ||
              (MatchMarkerLine(line).None? && IsExtractedFrom(ExtractName(line).value, line))
  {
    match MatchMarkerLine(line)
    case Some(g) => ExtractedFromNameClass(g);
    case None =>
      if MatchesNameOnly(line) {
        ExtractedFromNameClass(line);
      }
  }

  /** A digit among the first three characters rules out the marker prefix. */
  lemma MarkerPrefixNoDigit(line: string, d: nat)
    requires d < 3 && d < |line| && IsDigit(line[d])
    ensures !MarkerPrefix(line)
  {
    if |line| >= 3 {
      assert Lower(line[..3])[d] == line[d];
    }
  }

  /** A line containing a digit contributes no name. */
  lemma DigitLineGivesNothing(line: string, d: nat)
    requires d < |line| && IsDigit(line[d])
    ensures ExtractName(line).None?
  {
    if d < 3 {
      MarkerPrefixNoDigit(line, d);
    }
  }

  /** Each extracted name comes from a grouped line that yields it, in order: at most one name
      per line, and every name has the shape above. */
  lemma {:induction false} ExtractedNamesFromLines(grouped: seq<string>)
    ensures forall n :: n in ExtractedNames(grouped) ==>
              exists g :: g in grouped && ExtractName(g) == Some(n)
    decreases |grouped|
  {
    if grouped != [] {
      ExtractedNamesFromLines(grouped[1..]);
      forall n | n in ExtractedNames(grouped) ensures exists g :: g in grouped && ExtractName(g) == Some(n) {
        if n in ExtractedNames(grouped[1..]) {
          var g :| g in grouped[1..] && ExtractName(g) == Some(n);
          assert g in grouped;
        } else {
          assert grouped[0] in grouped;
        }
      }
    }
  }
}
