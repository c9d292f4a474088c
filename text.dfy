/** The string operations the Python code relies on (`str.lower`, `str.upper`, `str.strip`,
    `str.split`, `str.join`, `str.title`, `in` on strings and `re.sub` of a character-class run),
    over the ASCII subset of the characters. */
module Text {

  /** Python's whitespace restricted to ASCII: what `str.isspace`, `str.strip`, `str.split()`
      and the regular-expression class `\s` all accept. */
  predicate IsSpace(c: char)
  {
    c == ' ' || ('\t' <= c <= '\r') || ('\U{1C}' <= c <= '\U{1F}')
  }

  predicate IsUpper(c: char) { 'A' <= c <= 'Z' }

  predicate IsLower(c: char) { 'a' <= c <= 'z' }

  predicate IsLetter(c: char) { IsUpper(c) || IsLower(c) }

  predicate IsDigit(c: char) { '0' <= c <= '9' }

  /** The regular-expression class `\w`, which `\b` is defined by. */
  predicate IsWordChar(c: char) { IsLetter(c) || IsDigit(c) || c == '_' }

  function LowerChar(c: char): (d: char)
    ensures IsUpper(c) ==> IsLower(d)
    ensures !IsUpper(c) ==> d == c
  {
    if IsUpper(c) then (c as int + 32) as char else c
  }

  function UpperChar(c: char): (d: char)
    ensures IsLower(c) ==> IsUpper(d)
    ensures !IsLower(c) ==> d == c
  {
    if IsLower(c) then (c as int - 32) as char else c
  }

  /** `s.lower()` */
  function Lower(s: string): (r: string)
    ensures |r| == |s|
    ensures forall i :: 0 <= i < |s| ==> r[i] == LowerChar(s[i])
  {
    seq(|s|, i requires 0 <= i < |s| => LowerChar(s[i]))
  }

  /** `s.upper()` */
  function Upper(s: string): (r: string)
    ensures |r| == |s|
    ensures forall i :: 0 <= i < |s| ==> r[i] == UpperChar(s[i])
  {
    seq(|s|, i requires 0 <= i < |s| => UpperChar(s[i]))
  }

  lemma LowerConcat(a: string, b: string)
    ensures Lower(a + b) == Lower(a) + Lower(b)
  {
    assert forall i :: 0 <= i < |a + b| ==> Lower(a + b)[i] == (Lower(a) + Lower(b))[i];
  }

  /** The first `n` characters of `s` from `p` on are whitespace, and the next one is not. */
  function SpaceRun(s: string, p: nat): (n: nat)
    requires p <= |s|
    ensures p + n <= |s|
    ensures forall i :: p <= i < p + n ==> IsSpace(s[i])
    ensures p + n == |s| || !IsSpace(s[p + n])
    decreases |s| - p
  {
    if p < |s| && IsSpace(s[p]) then 1 + SpaceRun(s, p + 1) else 0
  }

  /** `t[a..e]` is all whitespace. */
  predicate AllSpace(t: string, a: nat, e: nat)
    requires a <= e <= |t|
  {
    forall i :: a <= i < e ==> IsSpace(t[i])
  }

  /** The last `n` characters of `s` before `e` are whitespace, and the one before them is not. */
  function SpacesBefore(s: string, e: nat): (n: nat)
    requires e <= |s|
    ensures n <= e
    ensures forall i :: e - n <= i < e ==> IsSpace(s[i])
    ensures n == e || !IsSpace(s[e - n - 1])
    decreases e
  {
    if 0 < e && IsSpace(s[e - 1]) then 1 + SpacesBefore(s, e - 1) else 0
  }

  /** `s.lstrip()` */
  function LStrip(s: string): (r: string)
    ensures |r| <= |s|
    ensures r == [] || !IsSpace(r[0])
    ensures forall i :: 0 <= i < |s| - |r| ==> IsSpace(s[i])
  {
    s[SpaceRun(s, 0)..]
  }

  /** `s.rstrip()` */
  function RStrip(s: string): (r: string)
    ensures |r| <= |s|
    ensures r == [] || !IsSpace(r[|r| - 1])
    ensures forall i :: |r| <= i < |s| ==> IsSpace(s[i])
  {
    s[..|s| - SpacesBefore(s, |s|)]
  }

  /** `s.strip()` */
  function Strip(s: string): (r: string)
  {
    RStrip(LStrip(s))
  }

  /** What `Strip` returns: the part of `s` between its leading and trailing whitespace. */
  lemma StripShape(s: string) returns (lead: nat)
    ensures lead + |Strip(s)| <= |s| && Strip(s) == s[lead..lead + |Strip(s)|]
    ensures forall i :: 0 <= i < lead ==> IsSpace(s[i])
    ensures forall i :: lead + |Strip(s)| <= i < |s| ==> IsSpace(s[i])
    ensures Strip(s) == [] || (!IsSpace(Strip(s)[0]) && !IsSpace(Strip(s)[|Strip(s)| - 1]))
  {
    var l := LStrip(s);
    lead := |s| - |l|;
    var r := RStrip(l);
    assert s[lead..lead + |r|] == l[..|r|];
    forall i | lead + |r| <= i < |s| ensures IsSpace(s[i]) {
      assert s[i] == l[i - lead];
    }
  }

  /** No whitespace at either end. */
  predicate IsStripped(s: string)
  {
    s == [] || (!IsSpace(s[0]) && !IsSpace(s[|s| - 1]))
  }

  /** A string without leading or trailing whitespace is its own strip. */
  lemma StripOfStripped(s: string)
    requires IsStripped(s)
    ensures Strip(s) == s
  {
  }

  /** `Strip` leaves no whitespace at either end, so stripping twice is stripping once. */
  lemma StripIdempotent(s: string)
    ensures IsStripped(Strip(s))
    ensures Strip(Strip(s)) == Strip(s)
  {
    var _ := StripShape(s);
    StripOfStripped(Strip(s));
  }

  /** One trailing space after a stripped string is stripped off again. */
  lemma StripSpaceAfter(a: string)
    requires a != [] && IsStripped(a)
    ensures Strip(a + " ") == a
  {
    var x := a + " ";
    assert SpaceRun(x, 0) == 0;
    assert SpacesBefore(x, |x| - 1) == 0;
    assert SpacesBefore(x, |x|) == 1;
    assert x[..|a|] == a;
  }

  /** Two stripped, non-empty strings joined by one space need no stripping. */
  lemma StripJoined(a: string, b: string)
    requires a != [] && IsStripped(a) && b != [] && IsStripped(b)
    ensures Strip(a + " " + b) == a + " " + b
  {
    StripOfStripped(a + " " + b);
  }

  /** `sub in s` */
  predicate Contains(s: string, sub: string)
  {
    exists i :: 0 <= i <= |s| && sub <= s[i..]
  }

  /** `sub` occurs in `s` at `i`. */
  lemma ContainsAt(s: string, sub: string, i: nat)
    requires i + |sub| <= |s| && s[i..i + |sub|] == sub
    ensures Contains(s, sub)
  {
    assert sub <= s[i..];
  }

  /** What a string contains, it still contains with more text after it. */
  lemma ContainsAppend(a: string, b: string, sub: string)
    requires Contains(a, sub)
    ensures Contains(a + b, sub)
  {
    var i :| 0 <= i <= |a| && sub <= a[i..];
    assert (a + b)[i..] == a[i..] + b;
  }

  lemma {:induction false} ContainsTrans(a: string, b: string, c: string)
    requires Contains(a, b) && Contains(b, c)
    ensures Contains(a, c)
  {
    var i :| 0 <= i <= |a| && b <= a[i..];
    var j :| 0 <= j <= |b| && c <= b[j..];
    assert c <= a[i + j..] by {
      forall k | 0 <= k < |c| ensures c[k] == a[i + j + k] {
        assert c[k] == b[j + k] == a[i + j + k];
      }
    }
  }

  /** The length of the run of non-whitespace characters of `s` starting at `p`. */
  function WordRun(s: string, p: nat): (n: nat)
    requires p <= |s|
    ensures p + n <= |s|
    ensures forall i :: p <= i < p + n ==> !IsSpace(s[i])
    ensures p + n == |s| || IsSpace(s[p + n])
    decreases |s| - p
  {
    if p < |s| && !IsSpace(s[p]) then 1 + WordRun(s, p + 1) else 0
  }

  /** `s.split()`: the maximal runs of non-whitespace characters, in order. */
  function Words(s: string): (ws: seq<string>)
    ensures forall w :: w in ws ==> w != [] && forall i :: 0 <= i < |w| ==> !IsSpace(w[i])
    decreases |s|
  {
    var t := LStrip(s);
    if t == [] then []
    else
      var n := WordRun(t, 0);
      [t[..n]] + Words(t[n..])
  }

  /** Each word is a piece of the string it was split from. */
  lemma {:induction false} WordsContained(s: string)
    ensures forall w :: w in Words(s) ==> Contains(s, w)
    decreases |s|
  {
    var t := LStrip(s);
    if t != [] {
      var n := WordRun(t, 0);
      var off := |s| - |t|;
      var rest := Words(t[n..]);
      assert Words(s) == [t[..n]] + rest;
      assert s[off..] == t;
      assert Contains(s, t[..n]) by {
        assert t[..n] <= s[off..];
      }
      WordsContained(t[n..]);
      forall w | w in rest ensures Contains(s, w) {
        var i :| 0 <= i <= |t[n..]| && w <= t[n..][i..];
        assert t[n..][i..] == t[n + i..];
        assert t[n + i..] == s[off + n + i..];
        assert w <= s[off + n + i..];
      }
    }
  }

  /** Every word of `q` occurs in any string that contains `q` whole. */
  lemma WordsOfContained(s: string, q: string)
    requires Contains(s, q)
    ensures forall w :: w in Words(q) ==> Contains(s, w)
  {
    WordsContained(q);
    forall w | w in Words(q) ensures Contains(s, w) {
      ContainsTrans(s, q, w);
    }
  }

  /** `s.split(sep)` for a one-character separator: never empty, one more piece than separators. */
  function SplitOn(s: string, sep: char): (pieces: seq<string>)
    ensures |pieces| >= 1
    ensures forall p :: p in pieces ==> sep !in p
    decreases |s|
  {
    if s == [] then [[]]
    else if s[0] == sep then [[]] + SplitOn(s[1..], sep)
    else
      var r := SplitOn(s[1..], sep);
      [[s[0]] + r[0]] + r[1..]
  }

  /** `sep.join(pieces)` */
  function Join(pieces: seq<string>, sep: string): (r: string)
    decreases |pieces|
  {
    if pieces == [] then []
    else if |pieces| == 1 then pieces[0]
    else pieces[0] + sep + Join(pieces[1..], sep)
  }

  /** Splitting on a separator and joining with it gives the input back. */
  lemma {:induction false} JoinSplitOn(s: string, sep: char)
    ensures Join(SplitOn(s, sep), [sep]) == s
    decreases |s|
  {
    if s == [] {
    } else if s[0] == sep {
      JoinSplitOn(s[1..], sep);
      assert [s[0]] + s[1..] == s;
    } else {
      var r := SplitOn(s[1..], sep);
      JoinSplitOn(s[1..], sep);
      if |r| == 1 {
        assert [s[0]] + s[1..] == s;
      } else {
        assert Join(r, [sep]) == r[0] + [sep] + Join(r[1..], [sep]);
        assert ([s[0]] + r[0] + [sep]) + Join(r[1..], [sep]) == [s[0]] + (r[0] + [sep] + Join(r[1..], [sep]));
        assert [s[0]] + s[1..] == s;
      }
    }
  }

  /** Splitting text made of two parts and a separator between them splits each part. */
  lemma {:induction false} SplitOnConcat(a: string, b: string, sep: char)
    ensures SplitOn(a + [sep] + b, sep) == SplitOn(a, sep) + SplitOn(b, sep)
    decreases |a|
  {
    var s := a + [sep] + b;
    if a == [] {
      assert s == [sep] + b && s[1..] == b;
    } else {
      assert s[0] == a[0] && s[1..] == a[1..] + [sep] + b;
      SplitOnConcat(a[1..], b, sep);
    }
  }

  /** Text without the separator is one piece. */
  lemma {:induction false} SplitOnNoSep(s: string, sep: char)
    requires sep !in s
    ensures SplitOn(s, sep) == [s]
    decreases |s|
  {
    if s != [] {
      assert sep !in s[1..];
      SplitOnNoSep(s[1..], sep);
      assert [s[0]] + s[1..] == s;
    }
  }

  /** `str.title()` over ASCII: a letter is upper-cased when the character before it is not a
      letter and lower-cased otherwise; every other character is left alone. */
  function TitleFrom(s: string, prevCased: bool): (r: string)
    ensures |r| == |s|
    ensures forall i :: 0 <= i < |s| ==> (IsLetter(r[i]) <==> IsLetter(s[i]))
    ensures forall i :: 0 <= i < |s| && !IsLetter(s[i]) ==> r[i] == s[i]
    decreases |s|
  {
    if s == [] then []
    else
      var c := if IsLetter(s[0]) then (if prevCased then LowerChar(s[0]) else UpperChar(s[0])) else s[0];
      [c] + TitleFrom(s[1..], IsLetter(s[0]))
  }

  function Title(s: string): (r: string)
  {
    TitleFrom(s, false)
  }

  /** Title case: each letter is upper case exactly when it starts a run of letters. */
  predicate IsTitled(s: string)
  {
    forall i :: 0 <= i < |s| && IsLetter(s[i]) ==> (IsUpper(s[i]) <==> (i == 0 || !IsLetter(s[i - 1])))
  }

  lemma {:induction false} TitleFromTitled(s: string, prevCased: bool)
    ensures s != [] && IsLetter(s[0]) ==> (IsUpper(TitleFrom(s, prevCased)[0]) <==> !prevCased)
    ensures forall i :: 1 <= i < |s| && IsLetter(s[i]) ==>
      (IsUpper(TitleFrom(s, prevCased)[i]) <==> !IsLetter(s[i - 1]))
    decreases |s|
  {
    if s != [] {
      var r := TitleFrom(s, prevCased);
      TitleFromTitled(s[1..], IsLetter(s[0]));
      assert r[1..] == TitleFrom(s[1..], IsLetter(s[0]));
      forall i | 1 <= i < |s| && IsLetter(s[i])
        ensures IsUpper(r[i]) <==> !IsLetter(s[i - 1])
      {
        assert r[i] == r[1..][i - 1];
        assert s[i] == s[1..][i - 1];
        if i >= 2 {
          assert s[i - 1] == s[1..][i - 2];
        }
      }
    }
  }

  /** `Title` produces title case. */
  lemma TitleIsTitled(s: string)
    ensures IsTitled(Title(s))
  {
    TitleFromTitled(s, false);
    var r := Title(s);
    forall i | 0 <= i < |r| && IsLetter(r[i])
      ensures IsUpper(r[i]) <==> (i == 0 || !IsLetter(r[i - 1]))
    {
    }
  }

  /** The length of the run of characters satisfying `p` from `i` on. */
  function RunLength(s: string, p: char -> bool, i: nat): (n: nat)
    requires i <= |s|
    ensures i + n <= |s|
    ensures forall k :: i <= k < i + n ==> p(s[k])
    ensures i + n == |s| || !p(s[i + n])
    decreases |s| - i
  {
    if i < |s| && p(s[i]) then 1 + RunLength(s, p, i + 1) else 0
  }

  /** `s` without its leading run of characters satisfying `p`. */
  function DropWhile(s: string, p: char -> bool): (r: string)
    ensures |r| <= |s|
    ensures r == [] || !p(r[0])
    ensures forall i :: 0 <= i < |s| - |r| ==> p(s[i])
  {
    s[RunLength(s, p, 0)..]
  }

  /** `re.sub(CLASS + '+', ' ', s)`, where `p` is the character class: each maximal run of
      characters satisfying `p` becomes one space. */
  function RunsToSpace(s: string, p: char -> bool): (r: string)
    requires p(' ')
    ensures r == [] <==> s == []
    ensures r != [] ==> (p(r[0]) <==> p(s[0]))
    ensures forall i :: 0 <= i < |r| && p(r[i]) ==> r[i] == ' '
    ensures forall i, j :: 0 <= i && j == i + 1 && j < |r| && p(r[i]) ==> !p(r[j])
    decreases |s|
  {
    if s == [] then []
    else if !p(s[0]) then [s[0]] + RunsToSpace(s[1..], p)
    else [' '] + RunsToSpace(DropWhile(s[1..], p), p)
  }
}
