/**
 * The reply extractor of the planner's page (app.py): splitting one free-text reply into
 * workout, meal and motivation sections, and re-extracting a short section from the stored
 * reply.
 *
 * The heading patterns are modelled line by line: a heading line is one whose first
 * non-whitespace character is the section's ordinal digit and which mentions the section's
 * keyword, in any case, further on.
 */
module Extractor {
  import opened Wrappers
  import opened PyStr
  import Utils

  datatype Sections = Sections(workout: string, meal: string, motivation: string)

  const WorkoutMarker: string := "1. workout"
  const MealMarker: string := "2. meal"
  const MotivationMarker: string := "3. motivation"

  /** A stage-one span shorter than this is retried with the heading patterns. */
  const MinSpanLength: nat := 120
  const WorkoutLabel: string := "Workout Plan\n"
  const MealLabel: string := "Meal Plan\n"
  const PartSeparator: string := "\n\n"

  /** The characters trimmed from the ends of the motivation line: dash, space and bullet. */
  const Bullets: set<char> := {'-', ' ', '\U{2022}'}

  /** Python's `a or b` on strings. */
  function Or(a: string, b: string): string
  {
    if a != "" then a else b
  }

  // ================================================================ stage one: literal markers

  /** The stripped slice of `text` from the first occurrence of `from` up to the first
      occurrence of `to`, both searched in the lowered text; "" unless both occur. */
  function MarkerSpan(text: string, from: string, to: string): string
  {
    var lower := Lower(text);
    var i, j := Find(lower, from), Find(lower, to);
    if i != -1 && j != -1 then Strip(Slice(text, i, j)) else ""
  }

  /** The stripped rest of `text` from the first occurrence of `from`; "" without one. */
  function MarkerTail(text: string, from: string): string
  {
    var i := Find(Lower(text), from);
    if i != -1 then Strip(text[i..]) else ""
  }

  function MarkerSections(text: string): (r: Sections)
    ensures r.motivation != "" <==> Contains(Lower(text), MotivationMarker)
  {
    MarkerTailNonEmpty(text);
    Sections(
      MarkerSpan(text, WorkoutMarker, MealMarker),
      MarkerSpan(text, MealMarker, MotivationMarker),
      MarkerTail(text, MotivationMarker))
  }

  /** Markers in the wrong order give an empty span; a non-empty span is the stripped text
      from its own marker, included, up to the next marker. */
  lemma MarkerSpanOrder(text: string, from: string, to: string)
    ensures var lower := Lower(text);
      var i, j := Find(lower, from), Find(lower, to);
      && (j <= i ==> MarkerSpan(text, from, to) == "")
      && (MarkerSpan(text, from, to) != "" ==>
            0 <= i < j <= |text| && MarkerSpan(text, from, to) == Strip(text[i..j]))
  {
    var lower := Lower(text);
    var i, j := Find(lower, from), Find(lower, to);
    if i != -1 && j != -1 && j <= i {
      assert Slice(text, i, j) == "";
      StripCharsEmptyIff("", Whitespace);
    }
  }

  /** The motivation marker's tail is empty exactly when the marker is missing: the marker
      itself starts with a digit, which `strip` keeps. */
  lemma MarkerTailNonEmpty(text: string)
    ensures MarkerTail(text, MotivationMarker) != "" <==> Contains(Lower(text), MotivationMarker)
  {
    DigitMarkerTail(text, MotivationMarker);
  }

  lemma DigitMarkerTail(text: string, marker: string)
    requires marker != [] && IsDigit(marker[0])
    ensures MarkerTail(text, marker) != "" <==> Contains(Lower(text), marker)
  {
    var lower := Lower(text);
    if Contains(lower, marker) {
      var i := Find(lower, marker);
      FindFromOccurs(lower, marker, 0);
      assert lower[i] == lower[i..i + |marker|][0] == marker[0];
      LowerDigit(text[i], marker[0]);
      StripCharsEmptyIff(text[i..], Whitespace);
    }
  }

  // ================================================================ stage two: heading lines

  /** A heading line: after leading whitespace comes `ordinal`, and `keyword` occurs, in
      any case, somewhere after it on the line. */
  predicate IsHeading(line: string, ordinal: char, keyword: string)
  {
    var t := LStripChars(line, Whitespace);
    t != [] && t[0] == ordinal && Contains(Lower(t[1..]), keyword)
  }

  /** The index of the first heading line in `lines[from..limit]`, or `limit`. */
  function FindHeading(lines: seq<string>, ordinal: char, keyword: string, from: nat, limit: nat): (k: nat)
    requires from <= limit <= |lines|
    ensures from <= k <= limit
    decreases limit - from
  {
    if from == limit || IsHeading(lines[from], ordinal, keyword) then from
    else FindHeading(lines, ordinal, keyword, from + 1, limit)
  }

  lemma {:induction false} FindHeadingFound(lines: seq<string>, ordinal: char, keyword: string, from: nat, limit: nat)
    requires from <= limit <= |lines|
    ensures var k := FindHeading(lines, ordinal, keyword, from, limit);
      k < limit ==> IsHeading(lines[k], ordinal, keyword)
    decreases limit - from
  {
    if from < limit && !IsHeading(lines[from], ordinal, keyword) {
      FindHeadingFound(lines, ordinal, keyword, from + 1, limit);
    }
  }

  /** `FindHeading` returns the first heading line: any `j` with no heading line before it
      and a heading line (or the limit) at it. */
  lemma {:induction false} FindHeadingIs(lines: seq<string>, ordinal: char, keyword: string, from: nat, limit: nat, j: nat)
    requires from <= j <= limit <= |lines|
    requires forall i :: from <= i < j ==> !IsHeading(lines[i], ordinal, keyword)
    requires j == limit || IsHeading(lines[j], ordinal, keyword)
    ensures FindHeading(lines, ordinal, keyword, from, limit) == j
    decreases j - from
  {
    if from < j {
      FindHeadingIs(lines, ordinal, keyword, from + 1, limit, j);
    }
  }

  lemma {:induction false} FindHeadingFirst(lines: seq<string>, ordinal: char, keyword: string, from: nat, limit: nat, i: nat)
    requires from <= limit <= |lines| && from <= i < FindHeading(lines, ordinal, keyword, from, limit)
    ensures !IsHeading(lines[i], ordinal, keyword)
    decreases limit - from
  {
    if from < i {
      FindHeadingFirst(lines, ordinal, keyword, from + 1, limit, i);
    }
  }

  /** The group captured by a section's heading pattern, over the text's lines: the lines
      after the first heading line (which must be followed by a newline) up to the newline
      before the first closing heading line that can end the lazy capture, or to the end. */
  function LinesCapture(lines: seq<string>, ordinal: char, keyword: string, nextOrdinal: char, nextKeyword: string): Option<string>
    requires |lines| >= 1
  {
    var k := FindHeading(lines, ordinal, keyword, 0, |lines| - 1);
    if k == |lines| - 1 then None
    else Some(Join(lines[k + 1..FindHeading(lines, nextOrdinal, nextKeyword, k + 2, |lines|)], "\n"))
  }

  /** The group captured by the motivation pattern, over the text's lines: everything after
      the first heading line. */
  function LinesTail(lines: seq<string>, ordinal: char, keyword: string): Option<string>
    requires |lines| >= 1
  {
    var k := FindHeading(lines, ordinal, keyword, 0, |lines| - 1);
    if k == |lines| - 1 then None
    else Some(Join(lines[k + 1..], "\n"))
  }

  function SectionCapture(text: string, ordinal: char, keyword: string, nextOrdinal: char, nextKeyword: string): Option<string>
  {
    LinesCapture(Split(text, "\n"), ordinal, keyword, nextOrdinal, nextKeyword)
  }

  function TailCapture(text: string, ordinal: char, keyword: string): Option<string>
  {
    LinesTail(Split(text, "\n"), ordinal, keyword)
  }

  function WorkoutCapture(text: string): Option<string>
  {
    SectionCapture(text, '1', "workout", '2', "meal")
  }

  function MealCapture(text: string): Option<string>
  {
    SectionCapture(text, '2', "meal", '3', "motivation")
  }

  function MotivationCapture(text: string): Option<string>
  {
    TailCapture(text, '3', "motivation")
  }

  /** No line but the last is a heading line (the last one cannot be: a heading line must
      end with a newline). */
  predicate NoHeadingLine(lines: seq<string>, ordinal: char, keyword: string)
  {
    forall i :: 0 <= i < |lines| - 1 ==> !IsHeading(lines[i], ordinal, keyword)
  }

  /** The search for an opening heading line fails exactly when there is none. */
  lemma NoHeadingLineFound(lines: seq<string>, ordinal: char, keyword: string)
    requires |lines| >= 1
    ensures FindHeading(lines, ordinal, keyword, 0, |lines| - 1) == |lines| - 1 <==> NoHeadingLine(lines, ordinal, keyword)
  {
    var k := FindHeading(lines, ordinal, keyword, 0, |lines| - 1);
    FindHeadingFound(lines, ordinal, keyword, 0, |lines| - 1);
    if k == |lines| - 1 {
      forall i | 0 <= i < |lines| - 1 ensures !IsHeading(lines[i], ordinal, keyword) {
        FindHeadingFirst(lines, ordinal, keyword, 0, |lines| - 1, i);
      }
    }
  }

  /** There is no match exactly when no line but the last is a heading line. */
  lemma CaptureNone(lines: seq<string>, ordinal: char, keyword: string, nextOrdinal: char, nextKeyword: string)
    requires |lines| >= 1
    ensures LinesCapture(lines, ordinal, keyword, nextOrdinal, nextKeyword).None? <==> NoHeadingLine(lines, ordinal, keyword)
    ensures LinesTail(lines, ordinal, keyword).None? <==> NoHeadingLine(lines, ordinal, keyword)
  {
    NoHeadingLineFound(lines, ordinal, keyword);
  }

  /** The match starts at the first heading line `k` and the capture runs from the next line
      up to the first closing heading line `j` at least two lines further, or to the end. */
  lemma CaptureSpec(lines: seq<string>, ordinal: char, keyword: string, nextOrdinal: char, nextKeyword: string, k: nat, j: nat)
    requires k + 1 < |lines| && IsHeading(lines[k], ordinal, keyword)
    requires forall i :: 0 <= i < k ==> !IsHeading(lines[i], ordinal, keyword)
    requires k + 2 <= j <= |lines|
    requires forall i :: k + 2 <= i < j ==> !IsHeading(lines[i], nextOrdinal, nextKeyword)
    requires j == |lines| || IsHeading(lines[j], nextOrdinal, nextKeyword)
    ensures LinesCapture(lines, ordinal, keyword, nextOrdinal, nextKeyword) == Some(Join(lines[k + 1..j], "\n"))
  {
    FindHeadingIs(lines, ordinal, keyword, 0, |lines| - 1, k);
    FindHeadingIs(lines, nextOrdinal, nextKeyword, k + 2, |lines|, j);
  }

  /** The motivation capture is everything after the first heading line, when that line is
      not the last one. */
  lemma TailSpec(lines: seq<string>, ordinal: char, keyword: string, k: nat)
    requires k + 1 < |lines| && IsHeading(lines[k], ordinal, keyword)
    requires forall i :: 0 <= i < k ==> !IsHeading(lines[i], ordinal, keyword)
    ensures LinesTail(lines, ordinal, keyword) == Some(Join(lines[k + 1..], "\n"))
  {
    FindHeadingIs(lines, ordinal, keyword, 0, |lines| - 1, k);
  }

  /** `match.group(1).strip() if match else ""` */
  function Extracted(capture: Option<string>): string
  {
    if capture.Some? then Strip(capture.value) else ""
  }

  /** A missing or short span is replaced by `prefix` and the capture, when the capture is
      non-empty; otherwise the span stays. */
  function Refine(span: string, capture: string, prefix: string): string
  {
    if (span == "" || |span| < MinSpanLength) && capture != "" then prefix + capture else span
  }

  function HeadingSections(text: string, s: Sections): Sections
  {
    var motivation := Extracted(MotivationCapture(text));
    Sections(
      Refine(s.workout, Extracted(WorkoutCapture(text)), WorkoutLabel),
      Refine(s.meal, Extracted(MealCapture(text)), MealLabel),
      if s.motivation == "" && motivation != "" then motivation else s.motivation)
  }

  // ================================================================ stage three: thirds

  /** `max(1, n // 3)` */
  function FirstCut(n: nat): nat
  {
    if n / 3 > 1 then n / 3 else 1
  }

  /** `max(2, 2 * n // 3)` */
  function SecondCut(n: nat): nat
  {
    if 2 * n / 3 > 2 then 2 * n / 3 else 2
  }

  /** With at least three parts the maxima never apply and the three slices `[0, n//3)`,
      `[n//3, 2n//3)` and `[2n//3, n)` are each non-empty. */
  lemma ThirdsBounds(n: nat)
    requires n >= 3
    ensures FirstCut(n) == n / 3 && SecondCut(n) == 2 * n / 3
    ensures 1 <= FirstCut(n) < SecondCut(n) < n
  {
    var q, r := n / 3, n % 3;
    assert n == 3 * q + r && 0 <= r < 3;
    assert q >= 1;
    assert 2 * n == 3 * (2 * q) + 2 * r;
    if r == 2 {
      assert 2 * n == 3 * (2 * q + 1) + 1;
      assert 2 * n / 3 == 2 * q + 1;
    } else {
      assert 2 * n / 3 == 2 * q;
    }
  }

  /** Spans still empty after the heading patterns are cut from the `"\n\n"`-separated parts;
      with fewer than three parts only the workout falls back, to the whole text. */
  function ThirdsSections(text: string, s: Sections): (r: Sections)
    ensures s.workout != "" ==> r.workout == s.workout
    ensures s.meal != "" ==> r.meal == s.meal
    ensures s.motivation != "" ==> r.motivation == s.motivation
  {
    if s.workout != "" && s.meal != "" then s
    else
      var parts := Split(text, PartSeparator);
      if |parts| >= 3 then
        ThirdsBounds(|parts|);
        var a, b := FirstCut(|parts|), SecondCut(|parts|);
        Sections(
          Or(s.workout, Join(parts[..a], PartSeparator)),
          Or(s.meal, Join(parts[a..b], PartSeparator)),
          Or(s.motivation, Join(parts[b..], PartSeparator)))
      else s.(workout := Or(s.workout, text))
  }

  /** When all three spans come from the thirds, joining them again gives the text back. */
  lemma ThirdsRebuild(text: string)
    requires |Split(text, PartSeparator)| >= 3
    ensures var r := ThirdsSections(text, Sections("", "", ""));
      r.workout + PartSeparator + r.meal + PartSeparator + r.motivation == text
  {
    var parts := Split(text, PartSeparator);
    ThirdsBounds(|parts|);
    JoinThirds(parts, FirstCut(|parts|), SecondCut(|parts|), PartSeparator);
  }

  lemma JoinThirds(parts: seq<string>, a: nat, b: nat, sep: string)
    requires 0 < a < b < |parts|
    ensures Join(parts[..a], sep) + sep + Join(parts[a..b], sep) + sep + Join(parts[b..], sep) == Join(parts, sep)
  {
    var tail := parts[a..];
    JoinSplitAt(parts, a, sep);
    JoinSplitAt(tail, b - a, sep);
    assert tail[..b - a] == parts[a..b];
    assert tail[b - a..] == parts[b..];
  }

  // ================================================================ stage four: motivation line

  /** The lines kept by the collapse, in order: each non-blank line with `bullets` trimmed
      from both ends. */
  function KeptLines(lines: seq<string>, bullets: set<char>): (r: seq<string>)
    ensures |r| <= |lines|
  {
    if lines == [] then []
    else
      var last := lines[|lines| - 1];
      KeptLines(lines[..|lines| - 1], bullets) + (if Strip(last) != "" then [StripChars(last, bullets)] else [])
  }

  /** The motivation reduced to its last kept line, or left whole when no line is kept. */
  function CollapseMotivation(motivation: string, bullets: set<char>): string
  {
    var kept := KeptLines(SplitLines(motivation), bullets);
    if kept != [] then kept[|kept| - 1] else motivation
  }

  function CollapsedSections(s: Sections): Sections
  {
    if s.motivation != "" then s.(motivation := CollapseMotivation(s.motivation, Bullets)) else s
  }

  /** `parse_sections` as the composition of its four stages. */
  function ParsedSections(text: string): Sections
  {
    CollapsedSections(ThirdsSections(text, HeadingSections(text, MarkerSections(text))))
  }

  lemma {:induction false} KeptLinesLast(lines: seq<string>, bullets: set<char>, i: nat)
    requires i < |lines| && Strip(lines[i]) != ""
    requires forall j :: i < j < |lines| ==> Strip(lines[j]) == ""
    ensures var kept := KeptLines(lines, bullets);
      kept != [] && kept[|kept| - 1] == StripChars(lines[i], bullets)
  {
    if i < |lines| - 1 {
      var init := lines[..|lines| - 1];
      assert init[i] == lines[i];
      KeptLinesLast(init, bullets, i);
    }
  }

  lemma {:induction false} KeptLinesEmpty(lines: seq<string>, bullets: set<char>)
    ensures KeptLines(lines, bullets) == [] <==> forall j :: 0 <= j < |lines| ==> Strip(lines[j]) == ""
  {
    if lines != [] {
      var init := lines[..|lines| - 1];
      KeptLinesEmpty(init, bullets);
      assert forall j :: 0 <= j < |init| ==> init[j] == lines[j];
    }
  }

  lemma {:induction false} KeptLinesNoLineBreak(lines: seq<string>, bullets: set<char>)
    requires forall j :: 0 <= j < |lines| ==> NoLineBreak(lines[j])
    ensures forall j :: 0 <= j < |KeptLines(lines, bullets)| ==> NoLineBreak(KeptLines(lines, bullets)[j])
  {
    if lines != [] {
      var init := lines[..|lines| - 1];
      var last := lines[|lines| - 1];
      KeptLinesNoLineBreak(init, bullets);
      StripCharsSpec(last, bullets);
      var r, k := StripChars(last, bullets), StripStart(last, bullets);
      forall x | 0 <= x < |r| ensures !IsLineBreak(r[x]) {
        assert r[x] == last[k + x];
      }
    }
  }

  /** A text whose lines are all blank is blank: the line breaks between them are whitespace. */
  lemma {:induction false} SplitLinesAllBlank(s: string)
    requires forall k :: 0 <= k < |SplitLines(s)| ==> IsBlank(SplitLines(s)[k])
    ensures IsBlank(s)
    decreases |s|
  {
    var i := FirstLineBreak(s, 0);
    if i == |s| {
      assert SplitLines(s) == [s];
      assert IsBlank(SplitLines(s)[0]);
    } else {
      var rest := s[i + 1..];
      assert SplitLines(s) == [s[..i]] + SplitLines(rest);
      forall k | 0 <= k < |SplitLines(rest)| ensures IsBlank(SplitLines(rest)[k]) {
        assert SplitLines(rest)[k] == SplitLines(s)[k + 1];
      }
      SplitLinesAllBlank(rest);
      forall x | 0 <= x < |s| ensures IsSpace(s[x]) {
        if x < i {
          assert s[x] == SplitLines(s)[0][x];
        } else if x > i {
          assert s[x] == rest[x - i - 1];
        } else {
          assert IsLineBreak(s[x]);
        }
      }
    }
  }

  /** The collapse keeps the last non-blank line, trimmed of `bullets`; so a last line made
      only of bullet characters collapses to "". */
  lemma CollapseLastLine(motivation: string, bullets: set<char>, i: nat)
    requires var lines := SplitLines(motivation);
      && i < |lines| && Strip(lines[i]) != ""
      && (forall j :: i < j < |lines| ==> Strip(lines[j]) == "")
    ensures var line := SplitLines(motivation)[i];
      && CollapseMotivation(motivation, bullets) == StripChars(line, bullets)
      && NoLineBreak(CollapseMotivation(motivation, bullets))
      && ((forall x :: 0 <= x < |line| ==> line[x] in bullets) ==> CollapseMotivation(motivation, bullets) == "")
  {
    var lines := SplitLines(motivation);
    KeptLinesLast(lines, bullets, i);
    KeptLinesNoLineBreak(lines, bullets);
    StripCharsEmptyIff(lines[i], bullets);
  }

  /** The collapsed motivation is a single line, unless the motivation was blank, in which
      case it is left as it was. */
  lemma CollapseShape(motivation: string, bullets: set<char>)
    ensures var r := CollapseMotivation(motivation, bullets);
      NoLineBreak(r) || (r == motivation && IsBlank(motivation))
  {
    var lines := SplitLines(motivation);
    var kept := KeptLines(lines, bullets);
    KeptLinesEmpty(lines, bullets);
    if kept == [] {
      forall k | 0 <= k < |lines| ensures IsBlank(lines[k]) {
        StripCharsEmptyIff(lines[k], Whitespace);
      }
      SplitLinesAllBlank(motivation);
    } else {
      KeptLinesNoLineBreak(lines, bullets);
    }
  }

  // ================================================================ the whole cascade

  /** `parse_sections`: the marker spans, then the heading patterns for short spans, then the
      thirds for empty spans, then the motivation collapse. */
  method ParseSections(fullText: string) returns (workoutText: string, mealText: string, motivation: string)
    ensures Sections(workoutText, mealText, motivation) == ParsedSections(fullText)
  {
    var lower := Lower(fullText);
    workoutText, mealText, motivation := "", "", "";

    var iWorkout := Find(lower, WorkoutMarker);
    var iMeal := Find(lower, MealMarker);
    var iMot := Find(lower, MotivationMarker);

    if iWorkout != -1 && iMeal != -1 {
      workoutText := Strip(Slice(fullText, iWorkout, iMeal));
    }
    if iMeal != -1 && iMot != -1 {
      mealText := Strip(Slice(fullText, iMeal, iMot));
    }
    if iMot != -1 {
      motivation := Strip(fullText[iMot..]);
    }

    workoutText, mealText, motivation := HeadingFallback(fullText, workoutText, mealText, motivation);
    workoutText, mealText, motivation := ThirdsFallback(fullText, workoutText, mealText, motivation);

    if motivation != "" {
      motivation := CollapseMotivation(motivation, Bullets);
    }
  }

  /** The heading-pattern fallback of `parse_sections`: each short or empty span is retried
      with its pattern; the motivation only when it is empty. */
  method HeadingFallback(fullText: string, workout: string, meal: string, motivation: string)
    returns (workoutText: string, mealText: string, motivationText: string)
    ensures Sections(workoutText, mealText, motivationText) == HeadingSections(fullText, Sections(workout, meal, motivation))
  {
    workoutText, mealText, motivationText := workout, meal, motivation;
    if workoutText == "" || |workoutText| < MinSpanLength {
      var rx := Extracted(WorkoutCapture(fullText));
      if rx != "" {
        workoutText := WorkoutLabel + rx;
      }
    }
    if mealText == "" || |mealText| < MinSpanLength {
      var rx := Extracted(MealCapture(fullText));
      if rx != "" {
        mealText := MealLabel + rx;
      }
    }
    if motivationText == "" {
      var rx := Extracted(MotivationCapture(fullText));
      if rx != "" {
        motivationText := rx;
      }
    }
  }

  /** The last fallback of `parse_sections`: when the workout or the meal is still empty, the
      spans still empty are filled from the thirds of the `"\n\n"`-separated parts. */
  method ThirdsFallback(fullText: string, workout: string, meal: string, motivation: string)
    returns (workoutText: string, mealText: string, motivationText: string)
    ensures Sections(workoutText, mealText, motivationText) == ThirdsSections(fullText, Sections(workout, meal, motivation))
  {
    workoutText, mealText, motivationText := workout, meal, motivation;
    if workoutText == "" || mealText == "" {
      var parts := Split(fullText, PartSeparator);
      if |parts| >= 3 {
        ThirdsBounds(|parts|);
        var a, b := FirstCut(|parts|), SecondCut(|parts|);
        workoutText := Or(workoutText, Join(parts[..a], PartSeparator));
        mealText := Or(mealText, Join(parts[a..b], PartSeparator));
        motivationText := Or(motivationText, Join(parts[b..], PartSeparator));
      } else {
        workoutText := Or(workoutText, fullText);
      }
    }
  }

  /** Empty input gives three empty sections. */
  lemma ParsedEmpty()
    ensures ParsedSections("") == Sections("", "", "")
  {
    Unstructured("");
  }

  /** A text with no marker, no heading line and fewer than three parts is returned whole,
      unstripped, as the workout, with empty meal and motivation. */
  lemma Unstructured(text: string)
    requires !Contains(Lower(text), WorkoutMarker) && !Contains(Lower(text), MealMarker)
    requires !Contains(Lower(text), MotivationMarker)
    requires var lines := Split(text, "\n");
      NoHeadingLine(lines, '1', "workout") && NoHeadingLine(lines, '2', "meal") && NoHeadingLine(lines, '3', "motivation")
    requires |Split(text, PartSeparator)| < 3
    ensures ParsedSections(text) == Sections(text, "", "")
  {
    var lines := Split(text, "\n");
    CaptureNone(lines, '1', "workout", '2', "meal");
    CaptureNone(lines, '2', "meal", '3', "motivation");
    CaptureNone(lines, '3', "motivation", '1', "workout");
  }

  /** A marker span of at least 120 characters is final: no later stage replaces it. */
  lemma LongSpansKept(text: string)
    ensures var s := MarkerSections(text);
      && (|s.workout| >= MinSpanLength ==> ParsedSections(text).workout == s.workout)
      && (|s.meal| >= MinSpanLength ==> ParsedSections(text).meal == s.meal)
  {
  }

  /** A short span is replaced, with its label, only by a non-empty capture; without one the
      short span survives. */
  lemma HeadingStage(text: string)
    ensures var s, r := MarkerSections(text), ParsedSections(text);
      var w, m := Extracted(WorkoutCapture(text)), Extracted(MealCapture(text));
      && (|s.workout| < MinSpanLength && w != "" ==> r.workout == WorkoutLabel + w)
      && (|s.workout| < MinSpanLength && w == "" && s.workout != "" ==> r.workout == s.workout)
      && (|s.meal| < MinSpanLength && m != "" ==> r.meal == MealLabel + m)
      && (|s.meal| < MinSpanLength && m == "" && s.meal != "" ==> r.meal == s.meal)
  {
  }

  /** The motivation pattern is consulted only when the literal motivation marker is absent. */
  lemma MotivationPatternOnlyWithoutMarker(text: string)
    requires Contains(Lower(text), MotivationMarker)
    ensures HeadingSections(text, MarkerSections(text)).motivation == MarkerSections(text).motivation != ""
  {
    MarkerTailNonEmpty(text);
  }

  /** The final motivation is one line, or blank. */
  lemma ParsedMotivationShape(text: string)
    ensures NoLineBreak(ParsedSections(text).motivation) || IsBlank(ParsedSections(text).motivation)
  {
    var s := ThirdsSections(text, HeadingSections(text, MarkerSections(text)));
    if s.motivation != "" {
      CollapseShape(s.motivation, Bullets);
    }
  }

  // ================================================================ re-extraction of a short section

  /** The stripped capture, or the whole stored reply when there is no match. */
  function Recaptured(capture: Option<string>, full: string): string
  {
    if capture.Some? then Strip(capture.value) else full
  }

  /** `ensure_section_text`, the stored full reply being a parameter: a displayed text of
      fewer than 200 characters is re-extracted for the workout and meal sections. */
  function EnsureSectionText(section: string, displayedText: Option<string>, fullResponse: Option<string>): string
  {
    var txt := Strip(displayedText.GetOr(""));
    if |txt| >= 200 || fullResponse.GetOr("") == "" then txt
    else if section == "workout" then Recaptured(WorkoutCapture(fullResponse.value), fullResponse.value)
    else if section == "meal" then Recaptured(MealCapture(fullResponse.value), fullResponse.value)
    else txt
  }

  /** The stripped displayed text is kept when it is long, when there is no stored reply, or
      for any other section; so a long text is a fixed point. */
  lemma EnsureKeepsLongText(section: string, displayedText: Option<string>, fullResponse: Option<string>)
    ensures var txt := Strip(displayedText.GetOr(""));
      && (|txt| >= 200 || fullResponse.GetOr("") == "" || (section != "workout" && section != "meal") ==>
            EnsureSectionText(section, displayedText, fullResponse) == txt)
      && (|txt| >= 200 ==>
            EnsureSectionText(section, Some(EnsureSectionText(section, displayedText, fullResponse)), fullResponse) ==
            EnsureSectionText(section, displayedText, fullResponse))
  {
    StripIdempotent(displayedText.GetOr(""));
  }

  /** For a short workout text, the re-extraction returns exactly what `parse_sections` put
      under the "Workout Plan" label, without the label; likewise for the meal. */
  lemma EnsureMatchesParse(displayedText: Option<string>, full: string)
    requires |Strip(displayedText.GetOr(""))| < 200 && full != ""
    ensures Extracted(WorkoutCapture(full)) != "" && |MarkerSections(full).workout| < MinSpanLength ==>
      ParsedSections(full).workout == WorkoutLabel + EnsureSectionText("workout", displayedText, Some(full))
    ensures Extracted(MealCapture(full)) != "" && |MarkerSections(full).meal| < MinSpanLength ==>
      ParsedSections(full).meal == MealLabel + EnsureSectionText("meal", displayedText, Some(full))
  {
    HeadingStage(full);
  }

  /** Without a heading line, a short section is replaced by the whole stored reply, verbatim. */
  lemma EnsureFallsBackToFull(section: string, displayedText: Option<string>, full: string)
    requires |Strip(displayedText.GetOr(""))| < 200 && full != ""
    requires section == "workout" || section == "meal"
    requires section == "workout" ==> NoHeadingLine(Split(full, "\n"), '1', "workout")
    requires section == "meal" ==> NoHeadingLine(Split(full, "\n"), '2', "meal")
    ensures EnsureSectionText(section, displayedText, Some(full)) == full
  {
    var lines := Split(full, "\n");
    CaptureNone(lines, '1', "workout", '2', "meal");
    CaptureNone(lines, '2', "meal", '3', "motivation");
  }
}
