/**
 * The operations of Python's `str` type that the planner relies on, over Dafny strings:
 * `lower`, `find`, slicing with Python's index rules, `strip`, `split`, `join`,
 * `splitlines`, and decimal digits (`str(int)`, `int(str)`, `re.findall(r'\d+', s)`).
 */
module PyStr {

  /** The characters `str.strip()` removes and the regex class `\s` matches (`str.isspace`). */
  const Whitespace: set<char> := {
    '\t', '\n', '\U{0B}', '\U{0C}', '\r', '\U{1C}', '\U{1D}', '\U{1E}', '\U{1F}', ' ',
    '\U{85}', '\U{A0}', '\U{1680}',
    '\U{2000}', '\U{2001}', '\U{2002}', '\U{2003}', '\U{2004}', '\U{2005}', '\U{2006}',
    '\U{2007}', '\U{2008}', '\U{2009}', '\U{200A}',
    '\U{2028}', '\U{2029}', '\U{202F}', '\U{205F}', '\U{3000}'
  }

  predicate IsSpace(c: char)
  {
    c in Whitespace
  }

  /** The line boundaries of `str.splitlines`. Every one of them is whitespace. */
  predicate IsLineBreak(c: char)
    ensures IsLineBreak(c) ==> IsSpace(c)
  {
    c in {'\n', '\U{0B}', '\U{0C}', '\r', '\U{1C}', '\U{1D}', '\U{1E}', '\U{85}', '\U{2028}', '\U{2029}'}
  }

  predicate IsBlank(s: string)
  {
    forall i :: 0 <= i < |s| ==> IsSpace(s[i])
  }

  predicate NoLineBreak(s: string)
  {
    forall i :: 0 <= i < |s| ==> !IsLineBreak(s[i])
  }

  predicate IsDigit(c: char)
  {
    '0' <= c <= '9'
  }

  predicate IsUpper(c: char)
  {
    'A' <= c <= 'Z'
  }

  // ---------------------------------------------------------------- lower

  function LowerChar(c: char): (d: char)
    ensures !IsUpper(d)
    ensures IsUpper(c) <==> d != c
  {
    if IsUpper(c) then (c as int + 32) as char else c
  }

  /** `str.lower()` on ASCII letters: it keeps the length, so indices found in the
      lowered text address the original text. */
  function Lower(s: string): (r: string)
    ensures |r| == |s|
  {
    seq(|s|, i requires 0 <= i < |s| => LowerChar(s[i]))
  }

  lemma LowerAppend(a: string, b: string)
    ensures Lower(a + b) == Lower(a) + Lower(b)
  {
  }

  /** Only a digit lowers to a digit. */
  lemma LowerDigit(c: char, d: char)
    requires IsDigit(d) && LowerChar(c) == d
    ensures c == d && !IsSpace(c)
  {
  }

  lemma LowerNoUpper(s: string)
    requires forall i :: 0 <= i < |s| ==> !IsUpper(s[i])
    ensures Lower(s) == s
  {
  }

  // ---------------------------------------------------------------- find

  predicate OccursAt(s: string, pat: string, i: int)
  {
    0 <= i && i + |pat| <= |s| && s[i..i + |pat|] == pat
  }

  /** `s.find(pat, start)`: the first occurrence at or after `start`, or -1. */
  function FindFrom(s: string, pat: string, start: nat): (r: int)
    ensures r == -1 || start <= r <= |s| - |pat|
    decreases |s| - start
  {
    if start + |pat| > |s| then -1
    else if s[start..start + |pat|] == pat then start
    else FindFrom(s, pat, start + 1)
  }

  /** What `find` returns is an occurrence. */
  lemma {:induction false} FindFromOccurs(s: string, pat: string, start: nat)
    ensures FindFrom(s, pat, start) == -1 || OccursAt(s, pat, FindFrom(s, pat, start))
    decreases |s| - start
  {
    if start + |pat| <= |s| && s[start..start + |pat|] != pat {
      FindFromOccurs(s, pat, start + 1);
    }
  }

  /** `find` misses nothing: there is no occurrence between `start` and what it returns. */
  lemma {:induction false} FindFromFirst(s: string, pat: string, start: nat, k: int)
    requires start <= k && (FindFrom(s, pat, start) == -1 || k < FindFrom(s, pat, start))
    ensures !OccursAt(s, pat, k)
    decreases |s| - start
  {
    if start + |pat| <= |s| && s[start..start + |pat|] != pat && start < k {
      FindFromFirst(s, pat, start + 1, k);
    }
  }

  function Find(s: string, pat: string): int
  {
    FindFrom(s, pat, 0)
  }

  /** `pat in s` */
  predicate Contains(s: string, pat: string)
  {
    Find(s, pat) != -1
  }

  lemma OccursAtContains(s: string, pat: string, i: int)
    requires OccursAt(s, pat, i)
    ensures Contains(s, pat)
  {
    if Find(s, pat) == -1 {
      FindFromFirst(s, pat, 0, i);
      assert false;
    }
  }

  lemma ContainsExtend(a: string, s: string, b: string, pat: string)
    requires Contains(s, pat)
    ensures Contains(a + s + b, pat)
  {
    var i := Find(s, pat);
    FindFromOccurs(s, pat, 0);
    assert (a + s + b)[|a| + i..|a| + i + |pat|] == s[i..i + |pat|];
    OccursAtContains(a + s + b, pat, |a| + i);
  }

  lemma ContainsSelf(s: string)
    ensures Contains(s, s)
  {
    assert s[0..|s|] == s;
    OccursAtContains(s, s, 0);
  }

  lemma ContainsAppend(s: string, b: string, pat: string)
    requires Contains(s, pat)
    ensures Contains(s + b, pat)
  {
    var i := Find(s, pat);
    FindFromOccurs(s, pat, 0);
    assert (s + b)[i..i + |pat|] == s[i..i + |pat|];
    OccursAtContains(s + b, pat, i);
  }

  /** An occurrence of `pat` inside the window of `t` that equals `u` is an occurrence in `u`. */
  lemma OccursWithin(t: string, u: string, off: nat, pat: string, k: int)
    requires off + |u| <= |t| && t[off..off + |u|] == u
    requires off <= k && k + |pat| <= off + |u| && OccursAt(t, pat, k)
    ensures Contains(u, pat)
  {
    forall j | 0 <= j < |pat|
      ensures u[k - off + j] == pat[j]
    {
      assert u[k - off + j] == t[off..off + |u|][k - off + j] == t[k + j];
      assert t[k..k + |pat|][j] == t[k + j];
    }
    assert u[k - off..k - off + |pat|] == pat;
    OccursAtContains(u, pat, k - off);
  }

  /** When `head` and then `pat` follow `start`, `find` from `start` stops right after
      `head`, unless `head` already holds `pat` or runs into it. */
  lemma FoundAfter(t: string, start: nat, head: string, pat: string)
    requires pat != [] && start + |head| + |pat| <= |t|
    requires t[start..start + |head| + |pat|] == head + pat
    requires !Contains(head + pat[..|pat| - 1], pat)
    ensures FindFrom(t, pat, start) == start + |head|
  {
    var at := start + |head|;
    var window := t[start..at + |pat|];
    assert t[at..at + |pat|] == window[|head|..] == pat;
    FindFromFirstOccurs(t, pat, start, at);
    var e := FindFrom(t, pat, start);
    if e < at {
      FindFromOccurs(t, pat, start);
      assert t[start..at + |pat| - 1] == window[..|head| + |pat| - 1] == head + pat[..|pat| - 1];
      OccursWithin(t, head + pat[..|pat| - 1], start, pat, e);
      assert false;
    }
  }

  /** An occurrence at `k` means `find` from `start <= k` finds one, no later than `k`. */
  lemma FindFromFirstOccurs(s: string, pat: string, start: nat, k: nat)
    requires start <= k && OccursAt(s, pat, k)
    ensures FindFrom(s, pat, start) != -1 && FindFrom(s, pat, start) <= k
  {
    if FindFrom(s, pat, start) == -1 || k < FindFrom(s, pat, start) {
      FindFromFirst(s, pat, start, k);
      assert false;
    }
  }

  /** A text without the first character of `pat` does not contain `pat`. */
  lemma NoCharNoContains(s: string, pat: string)
    requires pat != "" && forall i :: 0 <= i < |s| ==> s[i] != pat[0]
    ensures !Contains(s, pat)
  {
    FindFromOccurs(s, pat, 0);
  }

  // ---------------------------------------------------------------- slicing

  /** Python's reading of a slice bound: negative counts from the end, then clamped to the string. */
  function PyIndex(len: nat, i: int): (k: nat)
    ensures k <= len
    ensures 0 <= i <= len ==> k == i
    ensures -(len as int) <= i < 0 ==> k == len + i
  {
    if i < 0 then (if len + i < 0 then 0 else len + i)
    else if i > len then len
    else i
  }

  /** `s[i:j]` */
  function Slice(s: string, i: int, j: int): (r: string)
    ensures PyIndex(|s|, i) < PyIndex(|s|, j) ==> r == s[PyIndex(|s|, i)..PyIndex(|s|, j)]
    ensures PyIndex(|s|, j) <= PyIndex(|s|, i) ==> r == ""
  {
    var a, b := PyIndex(|s|, i), PyIndex(|s|, j);
    if a < b then s[a..b] else ""
  }

  // ---------------------------------------------------------------- strip

  function LStripChars(s: string, cs: set<char>): (r: string)
    ensures |r| <= |s|
  {
    if |s| > 0 && s[0] in cs then LStripChars(s[1..], cs) else s
  }

  function RStripChars(s: string, cs: set<char>): (r: string)
    ensures |r| <= |s|
  {
    if |s| > 0 && s[|s| - 1] in cs then RStripChars(s[..|s| - 1], cs) else s
  }

  /** `s.strip(cs)`: removes the longest prefix and suffix made of characters of `cs`. */
  function StripChars(s: string, cs: set<char>): (r: string)
    ensures |r| <= |s|
  {
    RStripChars(LStripChars(s, cs), cs)
  }

  /** `s.strip()` */
  function Strip(s: string): (r: string)
    ensures |r| <= |s|
  {
    StripChars(s, Whitespace)
  }

  /** `lstrip` removes a prefix of characters of `cs` and stops at the first other one. */
  lemma {:induction false} LStripCharsSpec(s: string, cs: set<char>)
    ensures var r := LStripChars(s, cs);
      && r == s[|s| - |r|..]
      && (forall i :: 0 <= i < |s| - |r| ==> s[i] in cs)
      && (r == [] || r[0] !in cs)
  {
    if |s| > 0 && s[0] in cs {
      LStripCharsSpec(s[1..], cs);
    }
  }

  /** `rstrip` removes a suffix of characters of `cs` and stops at the last other one. */
  lemma {:induction false} RStripCharsSpec(s: string, cs: set<char>)
    ensures var r := RStripChars(s, cs);
      && r == s[..|r|]
      && (forall i :: |r| <= i < |s| ==> s[i] in cs)
      && (r == [] || r[|r| - 1] !in cs)
  {
    if |s| > 0 && s[|s| - 1] in cs {
      RStripCharsSpec(s[..|s| - 1], cs);
    }
  }

  /** Where `s.strip(cs)` starts in `s`. */
  function StripStart(s: string, cs: set<char>): (k: nat)
    ensures k <= |s|
  {
    |s| - |LStripChars(s, cs)|
  }

  /** `strip` keeps the slice of `s` at `StripStart` and removes only characters of `cs` around
      it; the slice neither starts nor ends with one of them. */
  lemma StripCharsSpec(s: string, cs: set<char>)
    ensures var r, k := StripChars(s, cs), StripStart(s, cs);
      && (r == [] || (r[0] !in cs && r[|r| - 1] !in cs))
      && k + |r| <= |s| && r == s[k..k + |r|]
      && (forall i :: 0 <= i < k ==> s[i] in cs)
      && (forall i :: k + |r| <= i < |s| ==> s[i] in cs)
  {
    var l := LStripChars(s, cs);
    var r := RStripChars(l, cs);
    LStripCharsSpec(s, cs);
    RStripCharsSpec(l, cs);
    var k := |s| - |l|;
    assert r == s[k..k + |r|];
    forall i | k + |r| <= i < |s| ensures s[i] in cs {
      assert s[i] == l[i - k];
    }
  }

  /** A text made only of characters of `cs` strips to nothing. */
  lemma StripCharsAll(s: string, cs: set<char>)
    requires forall i :: 0 <= i < |s| ==> s[i] in cs
    ensures StripChars(s, cs) == []
  {
    StripCharsSpec(s, cs);
  }

  /** Every character kept by `strip` comes from the text. */
  lemma StripCharsInfix(s: string, cs: set<char>)
    ensures forall c :: c in StripChars(s, cs) ==> c in s
  {
    StripCharsSpec(s, cs);
    var r, k := StripChars(s, cs), StripStart(s, cs);
    forall c | c in r ensures c in s {
      var i :| 0 <= i < |r| && r[i] == c;
      assert s[k + i] == c;
    }
  }

  /** `strip` removes everything exactly when every character belongs to `cs`; in particular
      `s.strip()` is empty exactly for blank text. */
  lemma StripCharsEmptyIff(s: string, cs: set<char>)
    ensures StripChars(s, cs) == [] <==> forall i :: 0 <= i < |s| ==> s[i] in cs
  {
    StripCharsSpec(s, cs);
  }

  /** A text that neither starts nor ends with a character of `cs` is its own strip. */
  lemma StripCharsUnchanged(s: string, cs: set<char>)
    requires s == [] || (s[0] !in cs && s[|s| - 1] !in cs)
    ensures StripChars(s, cs) == s
  {
  }

  lemma StripIdempotent(s: string)
    ensures Strip(Strip(s)) == Strip(s)
  {
    StripCharsSpec(s, Whitespace);
    StripCharsUnchanged(Strip(s), Whitespace);
  }

  // ---------------------------------------------------------------- split and join

  /** `sep.join(parts)` */
  function Join(parts: seq<string>, sep: string): string
  {
    if |parts| == 0 then ""
    else if |parts| == 1 then parts[0]
    else parts[0] + sep + Join(parts[1..], sep)
  }

  /** Joining the two halves of a list of parts with one more separator between them gives the join of the whole list. */
  lemma {:induction false} JoinSplitAt(parts: seq<string>, a: nat, sep: string)
    requires 0 < a < |parts|
    ensures Join(parts[..a], sep) + sep + Join(parts[a..], sep) == Join(parts, sep)
  {
    if a == 1 {
      assert parts[..1] == [parts[0]];
      assert parts[1..] == parts[a..];
    } else {
      JoinSplitAt(parts[1..], a - 1, sep);
      assert parts[1..][..a - 1] == parts[..a][1..];
      assert parts[1..][a - 1..] == parts[a..];
    }
  }

  /** Nothing before the first occurrence of `sep` contains `sep`. */
  lemma NotContainsBeforeFirst(s: string, sep: string, i: nat)
    requires sep != "" && i <= |s|
    requires Find(s, sep) == -1 || i <= Find(s, sep)
    ensures !Contains(s[..i], sep)
  {
    var p := s[..i];
    if Contains(p, sep) {
      var k := Find(p, sep);
      FindFromOccurs(p, sep, 0);
      assert p[k..k + |sep|] == s[k..k + |sep|];
      FindFromFirst(s, sep, 0, k);
      assert false;
    }
  }

  /** `s.split(sep)` for a non-empty separator: the parts between the non-overlapping
      occurrences of `sep`, scanned from the left. Joining them back gives `s`. */
  function Split(s: string, sep: string): (parts: seq<string>)
    requires sep != ""
    ensures |parts| >= 1
    ensures Join(parts, sep) == s
    decreases |s|
  {
    var i := Find(s, sep);
    if i == -1 then
      [s]
    else
      var rest := Split(s[i + |sep|..], sep);
      FindFromOccurs(s, sep, 0);
      assert s == s[..i] + sep + s[i + |sep|..];
      [s[..i]] + rest
  }

  /** No part of a split contains the separator. */
  lemma {:induction false} SplitPartsNoSep(s: string, sep: string)
    requires sep != ""
    ensures forall k :: 0 <= k < |Split(s, sep)| ==> !Contains(Split(s, sep)[k], sep)
    decreases |s|
  {
    var i := Find(s, sep);
    if i == -1 {
      NotContainsBeforeFirst(s, sep, |s|);
      assert s[..|s|] == s;
    } else {
      NotContainsBeforeFirst(s, sep, i);
      SplitPartsNoSep(s[i + |sep|..], sep);
    }
  }

  /** A first part that neither holds the separator nor runs into it is split off first. */
  lemma SplitFirst(a: string, sep: string, b: string)
    requires sep != "" && !Contains(a + sep[..|sep| - 1], sep)
    ensures Split(a + sep + b, sep) == [a] + Split(b, sep)
  {
    var t := a + sep + b;
    assert t[0..|a| + |sep|] == a + sep;
    FoundAfter(t, 0, a, sep);
    assert t[..|a|] == a && t[|a| + |sep|..] == b;
  }

  /** Splitting at newlines: a line without line breaks is the first part. */
  lemma SplitNewline(a: string, b: string)
    requires NoLineBreak(a)
    ensures Split(a + "\n" + b, "\n") == [a] + Split(b, "\n")
  {
    NoCharNoContains(a, "\n");
    assert a + "\n"[..0] == a;
    SplitFirst(a, "\n", b);
  }

  /** Splitting at newlines: a line without line breaks is the only part. */
  lemma SplitOneLine(a: string)
    requires NoLineBreak(a)
    ensures Split(a, "\n") == [a]
  {
    NoCharNoContains(a, "\n");
  }

  /** Joining with the separator: the first part, the separator, then the rest joined. */
  lemma JoinCons(x: string, rest: seq<string>, sep: string)
    requires |rest| >= 1
    ensures Join([x] + rest, sep) == x + sep + Join(rest, sep)
  {
    assert ([x] + rest)[1..] == rest;
  }

  /** Lines without line breaks, joined with newlines, split back into the same lines. */
  lemma {:induction false} SplitJoinLines(ls: seq<string>)
    requires |ls| >= 1 && forall k :: 0 <= k < |ls| ==> NoLineBreak(ls[k])
    ensures Split(Join(ls, "\n"), "\n") == ls
  {
    if |ls| == 1 {
      SplitOneLine(ls[0]);
    } else {
      SplitJoinLines(ls[1..]);
      SplitNewline(ls[0], Join(ls[1..], "\n"));
    }
  }

  // ---------------------------------------------------------------- lines

  function FirstLineBreak(s: string, from: nat): (i: nat)
    requires from <= |s|
    ensures from <= i <= |s|
    ensures i < |s| ==> IsLineBreak(s[i])
    ensures forall k :: from <= k < i ==> !IsLineBreak(s[k])
    decreases |s| - from
  {
    if from == |s| || IsLineBreak(s[from]) then from else FirstLineBreak(s, from + 1)
  }

  /** The pieces of `s` between line-break characters. This is `str.splitlines()` up to
      blank pieces: a "\r\n" pair or a final line break adds one empty piece here, and
      every caller discards blank lines. */
  function SplitLines(s: string): (ls: seq<string>)
    ensures |ls| >= 1
    ensures forall k :: 0 <= k < |ls| ==> NoLineBreak(ls[k])
    decreases |s|
  {
    var i := FirstLineBreak(s, 0);
    if i == |s| then [s] else [s[..i]] + SplitLines(s[i + 1..])
  }

  /** The last piece of a text that ends with a line break and a line is that line. */
  lemma {:induction false} SplitLinesLast(a: string, c: char, q: string)
    requires IsLineBreak(c) && NoLineBreak(q)
    ensures var ls := SplitLines(a + [c] + q); ls[|ls| - 1] == q
    decreases |a|
  {
    var s := a + [c] + q;
    var i := FirstLineBreak(s, 0);
    assert s[|a|] == c;
    if i == |a| {
      assert s[i + 1..] == q;
      assert FirstLineBreak(q, 0) == |q|;
    } else {
      assert s[i + 1..] == a[i + 1..] + [c] + q;
      SplitLinesLast(a[i + 1..], c, q);
    }
  }

  // ---------------------------------------------------------------- decimal digits

  function DigitValue(c: char): nat
    requires IsDigit(c)
  {
    c as int - '0' as int
  }

  function DigitChar(d: nat): (c: char)
    requires d < 10
    ensures IsDigit(c) && DigitValue(c) == d
  {
    ('0' as int + d) as char
  }

  predicate AllDigits(s: string)
  {
    forall i :: 0 <= i < |s| ==> IsDigit(s[i])
  }

  /** `int(s)` for a string of decimal digits. */
  function DigitsValue(s: string): nat
    requires AllDigits(s)
  {
    if s == [] then 0 else 10 * DigitsValue(s[..|s| - 1]) + DigitValue(s[|s| - 1])
  }

  /** `str(n)` for a natural number: decimal digits without leading zeros. */
  function NatToString(n: nat): (s: string)
    ensures s != [] && AllDigits(s)
    ensures DigitsValue(s) == n
  {
    if n < 10 then [DigitChar(n)]
    else
      var s := NatToString(n / 10) + [DigitChar(n % 10)];
      assert s[..|s| - 1] == NatToString(n / 10);
      s
  }

  /** `str(i)` for any integer. */
  function IntToString(i: int): (s: string)
    ensures i >= 0 ==> s == NatToString(i)
    ensures i < 0 ==> s == "-" + NatToString(-i)
  {
    if i < 0 then "-" + NatToString(-i) else NatToString(i)
  }

  /** Length of the run of digits at the start of `s`. */
  function DigitPrefixLen(s: string): (k: nat)
    ensures k <= |s| && AllDigits(s[..k])
    ensures k < |s| ==> !IsDigit(s[k])
  {
    if s == [] || !IsDigit(s[0]) then 0
    else
      var k := 1 + DigitPrefixLen(s[1..]);
      assert s[..k] == [s[0]] + s[1..][..k - 1];
      k
  }

  /** `re.findall(r'\d+', s)`: the maximal runs of digits, left to right. */
  function DigitRuns(s: string): (runs: seq<string>)
    ensures forall k :: 0 <= k < |runs| ==> runs[k] != [] && AllDigits(runs[k])
    decreases |s|
  {
    if s == [] then []
    else if !IsDigit(s[0]) then DigitRuns(s[1..])
    else
      var k := DigitPrefixLen(s);
      [s[..k]] + DigitRuns(s[k..])
  }

  /** A text without digits has no digit runs. */
  lemma {:induction false} DigitRunsNone(s: string)
    requires forall i :: 0 <= i < |s| ==> !IsDigit(s[i])
    ensures DigitRuns(s) == []
  {
    if s != [] {
      DigitRunsNone(s[1..]);
    }
  }

  /** A run of digits followed by a non-digit (or nothing) is the first run found. */
  lemma DigitRunsCons(d: string, rest: string)
    requires d != [] && AllDigits(d)
    requires rest == [] || !IsDigit(rest[0])
    ensures DigitRuns(d + rest) == [d] + DigitRuns(rest)
  {
    var s := d + rest;
    DigitPrefixLenOf(d, rest);
    assert s[..|d|] == d;
    assert s[|d|..] == rest;
  }

  lemma {:induction false} DigitPrefixLenOf(d: string, rest: string)
    requires AllDigits(d)
    requires rest == [] || !IsDigit(rest[0])
    ensures DigitPrefixLen(d + rest) == |d|
  {
    if d != [] {
      assert (d + rest)[1..] == d[1..] + rest;
      DigitPrefixLenOf(d[1..], rest);
    }
  }
}
