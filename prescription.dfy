/** `parse_ocr_text` and `extract_meds_from_text`: drug names and dosages read out of the text
    that OCR found on a prescription. The two regular expressions are written out as
    backtracking matchers that try the alternatives in the order Python's `re` engine does. */
module PrescriptionText {
  import opened Options
  import opened Text

  predicate IsSign(c: char) { c == '+' || c == '-' }

  /** `[0-9](?:[+\-][0-9]){2}` matches at `p`. */
  predicate DoseAt(t: string, p: nat)
  {
    p + 5 <= |t| && IsDigit(t[p]) && IsSign(t[p + 1]) && IsDigit(t[p + 2]) && IsSign(t[p + 3]) && IsDigit(t[p + 4])
  }

  /** A dosage such as `1+0+1` or `1-1-1`. */
  predicate IsDose(d: string)
  {
    |d| == 5 && DoseAt(d, 0)
  }

  /** `\bTAB\b` matches at `s`, case-insensitively. */
  predicate TabAt(t: string, s: nat)
  {
    && s + 3 <= |t|
    && Lower(t[s..s + 3]) == "tab"
    && (s == 0 || !IsWordChar(t[s - 1]))
    && (s + 3 == |t| || !IsWordChar(t[s + 3]))
  }

  /** Where the two groups of one match of the primary pattern lie: the name is
      `t[nameStart..nameEnd]`, the dosage the five characters at `doseStart`. */
  datatype Span = Span(nameStart: nat, nameEnd: nat, doseStart: nat)

  predicate NoNewline(t: string, a: nat, e: nat)
    requires a <= e <= |t|
  {
    forall i :: a <= i < e ==> t[i] != '\n'
  }

  /** `m` has the shape of a match of `\bTAB\b\s+(.+?)\s+(dose)` starting at `s`. */
  predicate IsTabSpan(t: string, s: nat, m: Span)
  {
    && s + 3 < m.nameStart < m.nameEnd < m.doseStart
    && DoseAt(t, m.doseStart)
    && AllSpace(t, s + 3, m.nameStart)
    && NoNewline(t, m.nameStart, m.nameEnd)
    && AllSpace(t, m.nameEnd, m.doseStart)
  }

  /** The second `\s+`, greedy: `k` whitespace characters after the name, then fewer. */
  function TryClosing(t: string, a: nat, e: nat, k: nat): (r: Option<Span>)
    requires a < e && e + k <= |t| && AllSpace(t, e, e + k)
    ensures r.Some? ==> r.value.nameStart == a && r.value.nameEnd == e &&
                        e < r.value.doseStart <= e + k && DoseAt(t, r.value.doseStart)
    decreases k
  {
    if k == 0 then None
    else if DoseAt(t, e + k) then Some(Span(a, e, e + k))
    else TryClosing(t, a, e, k - 1)
  }

  /** The lazy `(.+?)`: the name `t[a..e]` for `e = a + 1, a + 2, ...`, never across a newline. */
  function TryLazyName(t: string, a: nat, e: nat): (r: Option<Span>)
    requires a < e && e <= |t| + 1 && e - 1 <= |t| && NoNewline(t, a, e - 1)
    ensures r.Some? ==> r.value.nameStart == a && a < r.value.nameEnd < r.value.doseStart &&
                        DoseAt(t, r.value.doseStart) && NoNewline(t, a, r.value.nameEnd) &&
                        AllSpace(t, r.value.nameEnd, r.value.doseStart)
    decreases |t| + 1 - e
  {
    if e > |t| then None
    else if t[e - 1] == '\n' then None
    else
      var m := TryClosing(t, a, e, SpaceRun(t, e));
      if m.Some? then m else TryLazyName(t, a, e + 1)
  }

  /** The first `\s+`, greedy: the name starts after `k` of the whitespace characters at `p`,
      then after fewer. */
  function TryOpening(t: string, p: nat, k: nat): (r: Option<Span>)
    requires 1 <= k && p + k <= |t| && AllSpace(t, p, p + k)
    ensures r.Some? ==> p < r.value.nameStart <= p + k && AllSpace(t, p, r.value.nameStart) &&
                        r.value.nameStart < r.value.nameEnd < r.value.doseStart &&
                        DoseAt(t, r.value.doseStart) && NoNewline(t, r.value.nameStart, r.value.nameEnd) &&
                        AllSpace(t, r.value.nameEnd, r.value.doseStart)
    decreases k
  {
    var m := TryLazyName(t, p + k, p + k + 1);
    if m.Some? then m
    else if k == 1 then None
    else TryOpening(t, p, k - 1)
  }

  /** The first match of the primary pattern that starts exactly at `s`, if any. */
  function MatchTabAt(t: string, s: nat): (r: Option<Span>)
    ensures r.Some? ==> IsTabSpan(t, s, r.value)
  {
    if !TabAt(t, s) then None
    else
      var w := SpaceRun(t, s + 3);
      if w == 0 then None else TryOpening(t, s + 3, w)
  }

  /** `primary_pattern.findall(t[pos:])` continued from `pos`: the (name, dosage) pairs of the
      successive non-overlapping matches, scanning left to right. */
  function FindTabEntries(t: string, pos: nat): (r: seq<(string, string)>)
    requires pos <= |t|
    ensures forall g :: g in r ==> IsDose(g.1) && g.0 != [] && '\n' !in g.0
    decreases |t| - pos
  {
    if pos + 3 > |t| then []
    else
      match MatchTabAt(t, pos)
      case Some(m) =>
        var name := t[m.nameStart..m.nameEnd];
        var dose := t[m.doseStart..m.doseStart + 5];
        assert forall i :: 0 <= i < |name| ==> name[i] == t[m.nameStart + i];
        [(name, dose)] + FindTabEntries(t, m.doseStart + 5)
      case None => FindTabEntries(t, pos + 1)
  }

  /** The class `[A-Za-z0-9\-]`. */
  predicate IsNameChar(c: char) { IsLetter(c) || IsDigit(c) || c == '-' }

  /** The length of the run of `[A-Za-z0-9\-]` characters starting at `p`. */
  function NameRun(t: string, p: nat): (n: nat)
    requires p <= |t|
    ensures p + n <= |t| && forall i :: p <= i < p + n ==> IsNameChar(t[i])
    decreases |t| - p
  {
    if p < |t| && IsNameChar(t[p]) then 1 + NameRun(t, p + 1) else 0
  }

  /** `\b` at `p`. */
  predicate Boundary(t: string, p: nat)
    requires p <= |t|
  {
    (p > 0 && IsWordChar(t[p - 1])) != (p < |t| && IsWordChar(t[p]))
  }

  /** Every character of `t[a..e]` is a name character or whitespace. */
  predicate NameOrSpace(t: string, a: nat, e: nat)
    requires a <= e <= |t|
  {
    forall i :: a <= i < e ==> IsNameChar(t[i]) || IsSpace(t[i])
  }

  /** `(?:\s+[A-Z][A-Za-z0-9\-]+)*\b` from `p`, greedy: one more word first, else stop at a
      word boundary. The answer is where the match ends. */
  function MoreWords(t: string, p: nat): (r: Option<nat>)
    requires p <= |t|
    ensures r.Some? ==> p <= r.value <= |t| && NameOrSpace(t, p, r.value) &&
                        (r.value == p || IsNameChar(t[r.value - 1]))
    decreases |t| - p, 3, 0
  {
    var w := SpaceRun(t, p);
    var next := if w > 0 then TryGap(t, p, w) else None;
    if next.Some? then next
    else if Boundary(t, p) then Some(p)
    else None
  }

  /** The `\s+` before a further word, greedy: `k` whitespace characters, then fewer. Only a
      capital letter can start the word. */
  function TryGap(t: string, p: nat, k: nat): (r: Option<nat>)
    requires 1 <= k && p + k <= |t| && AllSpace(t, p, p + k)
    ensures r.Some? ==> p < r.value <= |t| && NameOrSpace(t, p, r.value) && IsNameChar(t[r.value - 1])
    decreases |t| - p, 2, k
  {
    var u := p + k;
    var word := if u < |t| && IsUpper(t[u]) then TryWordTail(t, u + 1, NameRun(t, u + 1)) else None;
    if word.Some? then word
    else if k == 1 then None
    else TryGap(t, p, k - 1)
  }

  /** `[A-Za-z0-9\-]+` after a capital letter, greedy: `m` characters, then fewer, each time
      followed by the rest of the pattern. */
  function TryWordTail(t: string, q: nat, m: nat): (r: Option<nat>)
    requires 1 <= q && q + m <= |t| && forall i :: q <= i < q + m ==> IsNameChar(t[i])
    ensures r.Some? ==> q < r.value <= |t| && NameOrSpace(t, q, r.value) && IsNameChar(t[r.value - 1])
    decreases |t| - q + 1, 1, m
  {
    if m == 0 then None
    else
      var e := MoreWords(t, q + m);
      if e.Some? then e else TryWordTail(t, q, m - 1)
  }

  /** The end of the first match of the fallback pattern
      `\b([A-Z][A-Za-z0-9\-]+(?:\s+[A-Z][A-Za-z0-9\-]+)*)\b` that starts exactly at `s`. */
  function MatchCapsAt(t: string, s: nat): (r: Option<nat>)
    requires s <= |t|
    ensures r.Some? ==> s + 2 <= r.value <= |t| && IsUpper(t[s]) && NameOrSpace(t, s, r.value) &&
                        IsNameChar(t[r.value - 1])
  {
    if s < |t| && Boundary(t, s) && IsUpper(t[s]) then TryWordTail(t, s + 1, NameRun(t, s + 1)) else None
  }

  /** A run of capitalised words: starts with a capital letter, ends with a name character, and
      holds only name characters and whitespace. */
  predicate IsCapsPhrase(f: string)
  {
    && |f| >= 2 && IsUpper(f[0]) && IsNameChar(f[|f| - 1])
    && forall i :: 0 <= i < |f| ==> IsNameChar(f[i]) || IsSpace(f[i])
  }

  /** `re.findall` of the fallback pattern from `pos` on. */
  function FindCapsPhrases(t: string, pos: nat): (r: seq<string>)
    requires pos <= |t|
    ensures forall f :: f in r ==> IsCapsPhrase(f)
    decreases |t| - pos
  {
    if pos == |t| then []
    else
      match MatchCapsAt(t, pos)
      case Some(e) =>
        assert forall i :: 0 <= i < e - pos ==> t[pos..e][i] == t[pos + i];
        [t[pos..e]] + FindCapsPhrases(t, e)
      case None => FindCapsPhrases(t, pos + 1)
  }

  /** One entry of the parsed list: a drug name and, in the primary mode, its dosage. */
  datatype Parsed = Parsed(drugName: string, dosage: Option<string>)

  /** `re.sub(r'\s+', ' ', name).strip()` */
  function CleanName(name: string): (r: string)
  {
    Strip(RunsToSpace(name, IsSpace))
  }

  /** No whitespace at either end, only plain spaces inside, never two in a row. */
  predicate IsTidy(s: string)
  {
    && (forall i :: 0 <= i < |s| && IsSpace(s[i]) ==> s[i] == ' ' && 0 < i < |s| - 1)
    && (forall i, j :: 0 <= i < |s| && j == i + 1 && j < |s| && IsSpace(s[i]) ==> !IsSpace(s[j]))
  }

  lemma CleanNameIsTidy(name: string)
    ensures IsTidy(CleanName(name))
  {
    var r := RunsToSpace(name, IsSpace);
    var lead := StripShape(r);
    var c := CleanName(name);
    forall i | 0 <= i < |c| && IsSpace(c[i]) ensures c[i] == ' ' && 0 < i < |c| - 1 {
      assert c[i] == r[lead + i];
    }
    forall i, j | 0 <= i < |c| && j == i + 1 && j < |c| && IsSpace(c[i]) ensures !IsSpace(c[j]) {
      assert c[i] == r[lead + i];
      assert c[j] == r[lead + j];
    }
  }

  /** The entry of one primary-mode match: the cleaned name and the dosage as matched. */
  function TabEntry(m: (string, string)): (p: Parsed)
    ensures p.dosage == Some(m.1)
  {
    Parsed(CleanName(m.0), Some(m.1))
  }

  /** The entries of the primary mode, one per match, in order. */
  function TabEntries(ms: seq<(string, string)>): (ps: seq<Parsed>)
  {
    seq(|ms|, i requires 0 <= i < |ms| => TabEntry(ms[i]))
  }

  /** `[{"drug_name": f.strip()} for f in fallback if len(f.strip()) > 2]` */
  function CapsEntries(fs: seq<string>): (ps: seq<Parsed>)
    ensures |ps| <= |fs|
    ensures forall p :: p in ps ==> p.dosage.None? && |p.drugName| > 2 && exists f :: f in fs && p.drugName == Strip(f)
    decreases |fs|
  {
    if fs == [] then []
    else (if |Strip(fs[0])| > 2 then [Parsed(Strip(fs[0]), None)] else []) + CapsEntries(fs[1..])
  }

  /** What `parse_ocr_text(ocr_lines)` returns. */
  function ParsedEntries(ocrLines: seq<string>): (r: seq<Parsed>)
  {
    if ocrLines == [] then []
    else
      var fullText := Join(ocrLines, " ");
      var matches := FindTabEntries(fullText, 0);
      if matches != [] then TabEntries(matches) else CapsEntries(FindCapsPhrases(fullText, 0))
  }

  /** An entry of either mode. */
  predicate IsWellFormed(p: Parsed)
  {
    if p.dosage.Some? then IsDose(p.dosage.value) && IsTidy(p.drugName)
    else |p.drugName| > 2 && IsCapsPhrase(p.drugName)
  }

  lemma TabEntriesWellFormed(ms: seq<(string, string)>)
    requires forall g :: g in ms ==> IsDose(g.1)
    ensures forall p :: p in TabEntries(ms) ==> p.dosage.Some? && IsWellFormed(p)
  {
    forall p | p in TabEntries(ms) ensures p.dosage.Some? && IsWellFormed(p) {
      var i :| 0 <= i < |ms| && p == TabEntries(ms)[i];
      assert ms[i] in ms;
      CleanNameIsTidy(ms[i].0);
    }
  }

  /** A capitalised phrase has nothing to strip. */
  lemma CapsPhraseStripped(f: string)
    requires IsCapsPhrase(f)
    ensures Strip(f) == f
  {
    assert !IsSpace(f[0]) && !IsSpace(f[|f| - 1]);
    StripOfStripped(f);
  }

  lemma {:induction false} CapsEntriesWellFormed(fs: seq<string>)
    requires forall f :: f in fs ==> IsCapsPhrase(f)
    ensures forall p :: p in CapsEntries(fs) ==> p.dosage.None? && IsWellFormed(p)
    decreases |fs|
  {
    if fs != [] {
      assert fs[0] in fs;
      CapsPhraseStripped(fs[0]);
      assert forall f :: f in fs[1..] ==> f in fs;
      CapsEntriesWellFormed(fs[1..]);
    }
  }

  /** Every parsed entry is well formed, and either all entries carry a dosage (the primary
      mode) or none does (the fallback mode). */
  lemma ParsedEntriesWellFormed(ocrLines: seq<string>)
    ensures forall p :: p in ParsedEntries(ocrLines) ==> IsWellFormed(p)
    ensures (forall p :: p in ParsedEntries(ocrLines) ==> p.dosage.Some?) ||
            (forall p :: p in ParsedEntries(ocrLines) ==> p.dosage.None?)
  {
    if ocrLines != [] {
      var fullText := Join(ocrLines, " ");
      var matches := FindTabEntries(fullText, 0);
      if matches != [] {
        TabEntriesWellFormed(matches);
      } else {
        CapsEntriesWellFormed(FindCapsPhrases(fullText, 0));
      }
    }
  }

  /** `parse_ocr_text(ocr_lines)` */
  method ParseOcrText(ocrLines: seq<string>) returns (parsed: seq<Parsed>)
    ensures ocrLines == [] ==> parsed == []
    ensures parsed == ParsedEntries(ocrLines)
  {
    if ocrLines == [] {
      return [];
    }
    var fullText := Join(ocrLines, " ");
    var matches := FindTabEntries(fullText, 0);
    if matches != [] {
      parsed := BuildTabEntries(matches);
      return;
    }
    parsed := CapsEntries(FindCapsPhrases(fullText, 0));
  }

  /** The loop of `parse_ocr_text` that appends one entry per match. */
  method BuildTabEntries(matches: seq<(string, string)>) returns (parsed: seq<Parsed>)
    ensures parsed == TabEntries(matches)
  {
    parsed := [];
    for i := 0 to |matches|
      invariant |parsed| == i
      invariant forall k :: 0 <= k < i ==> parsed[k] == TabEntry(matches[k])
    {
      parsed := parsed + [TabEntry(matches[i])];
    }
  }

  /** The argument of `extract_meds_from_text`: a list of OCR lines or one string. */
  datatype OcrInput = Lines(lines: seq<string>) | OneText(text: string)

  /** `extract_meds_from_text(text)`: the drug names and the parsed entries they come from. */
  method ExtractMedsFromText(input: OcrInput) returns (names: seq<string>, parsed: seq<Parsed>)
    ensures parsed == ParsedEntries(if input.Lines? then input.lines else [input.text])
    ensures |names| == |parsed| && forall i :: 0 <= i < |parsed| ==> names[i] == parsed[i].drugName
  {
    if input.Lines? {
      parsed := ParseOcrText(input.lines);
    } else {
      parsed := ParseOcrText([input.text]);
    }
    if parsed != [] {
      names := seq(|parsed|, i requires 0 <= i < |parsed| => parsed[i].drugName);
      return;
    }
    names, parsed := [], [];
  }
}
