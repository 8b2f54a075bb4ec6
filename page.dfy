/**
 * The remaining pure helpers of the planner's page (app.py): the text clean-up before a PDF
 * export, the page's own BMI, the prompt whose section headings the extractor looks for, and
 * what the extractor makes of a reply laid out as that prompt asks.
 */
module Page {
  import opened Wrappers
  import opened PyStr
  import Utils
  import Extractor

  // ================================================================ PDF clean-up

  /** The replacement table of the PDF export, in its order: bullet, en dash, em dash and
      black circle become '-', the check marks and the star '*', the ballot cross 'x'. */
  const PdfReplacements: seq<(char, char)> := [
    ('\U{2022}', '-'), ('\U{2013}', '-'), ('\U{2014}', '-'), ('\U{25CF}', '-'),
    ('\U{2714}', '*'), ('\U{2726}', '*'), ('\U{2705}', '*'), ('\U{2717}', 'x')
  ]

  predicate IsLatin1(c: char)
  {
    c as int <= 0xFF
  }

  /** `text.replace(k, v)` for a one-character `k`. */
  function ReplaceChar(text: string, k: char, v: char): (r: string)
    ensures |r| == |text|
  {
    seq(|text|, i requires 0 <= i < |text| => if text[i] == k then v else text[i])
  }

  /** What one character becomes after the replacements of `table`, applied in order. */
  function Translate(c: char, table: seq<(char, char)>): char
  {
    if table == [] then c
    else
      var d := Translate(c, table[..|table| - 1]);
      if d == table[|table| - 1].0 then table[|table| - 1].1 else d
  }

  /** Encoding to latin-1 with errors ignored and decoding back: every character above
      U+00FF is dropped. */
  function Latin1(s: string): (r: string)
    ensures |r| <= |s|
  {
    if s == [] then []
    else (if IsLatin1(s[0]) then [s[0]] else []) + Latin1(s[1..])
  }

  /** The result of the PDF clean-up: the table applied to every character, then the latin-1
      filter. */
  function Sanitized(text: string): string
  {
    Latin1(seq(|text|, i requires 0 <= i < |text| => Translate(text[i], PdfReplacements)))
  }

  /** `_sanitize_for_pdf`: the replacements one after the other, then the latin-1 filter. */
  method SanitizeForPdf(text: string) returns (r: string)
    ensures r == Sanitized(text)
  {
    r := text;
    var i := 0;
    while i < |PdfReplacements|
      invariant 0 <= i <= |PdfReplacements|
      invariant |r| == |text|
      invariant forall x :: 0 <= x < |text| ==> r[x] == Translate(text[x], PdfReplacements[..i])
    {
      var (k, v) := PdfReplacements[i];
      assert PdfReplacements[..i + 1][..i] == PdfReplacements[..i];
      r := ReplaceChar(r, k, v);
      i := i + 1;
    }
    assert PdfReplacements[..i] == PdfReplacements;
    assert r == seq(|text|, i requires 0 <= i < |text| => Translate(text[i], PdfReplacements));
    r := Latin1(r);
  }

  lemma {:induction false} Latin1Only(s: string)
    ensures forall i :: 0 <= i < |Latin1(s)| ==> IsLatin1(Latin1(s)[i])
  {
    if s != [] {
      Latin1Only(s[1..]);
    }
  }

  lemma {:induction false} Latin1Keeps(s: string)
    requires forall i :: 0 <= i < |s| ==> IsLatin1(s[i])
    ensures Latin1(s) == s
  {
    if s != [] {
      Latin1Keeps(s[1..]);
    }
  }

  /** A table whose keys all lie above U+00FF leaves latin-1 characters alone. */
  lemma {:induction false} TranslateKeepsLatin1(c: char, table: seq<(char, char)>)
    requires IsLatin1(c)
    requires forall j :: 0 <= j < |table| ==> !IsLatin1(table[j].0)
    ensures Translate(c, table) == c
  {
    if table != [] {
      TranslateKeepsLatin1(c, table[..|table| - 1]);
    }
  }

  /** The clean-up output holds only latin-1 characters. */
  lemma SanitizedIsLatin1(text: string)
    ensures forall i :: 0 <= i < |Sanitized(text)| ==> IsLatin1(Sanitized(text)[i])
  {
    Latin1Only(seq(|text|, i requires 0 <= i < |text| => Translate(text[i], PdfReplacements)));
  }

  /** Latin-1 text, and so ASCII text, comes out unchanged. */
  lemma SanitizeKeepsLatin1(text: string)
    requires forall i :: 0 <= i < |text| ==> IsLatin1(text[i])
    ensures Sanitized(text) == text
  {
    var mapped := seq(|text|, i requires 0 <= i < |text| => Translate(text[i], PdfReplacements));
    forall i | 0 <= i < |text| ensures mapped[i] == text[i] {
      TranslateKeepsLatin1(text[i], PdfReplacements);
    }
    assert mapped == text;
    Latin1Keeps(text);
  }

  /** Cleaning twice is cleaning once. */
  lemma SanitizeIdempotent(text: string)
    ensures Sanitized(Sanitized(text)) == Sanitized(text)
  {
    SanitizedIsLatin1(text);
    SanitizeKeepsLatin1(Sanitized(text));
  }

  /** In a table whose keys are distinct and whose values are not keys, each key is mapped to
      its own value. */
  lemma {:induction false} TranslateKey(table: seq<(char, char)>, j: nat)
    requires j < |table|
    requires forall a, b :: 0 <= a < b < |table| ==> table[a].0 != table[b].0
    requires forall a, b :: 0 <= a < |table| && 0 <= b < |table| ==> table[a].1 != table[b].0
    ensures Translate(table[j].0, table) == table[j].1
  {
    var pre := table[..|table| - 1];
    if j == |table| - 1 {
      TranslateNoKey(table[j].0, pre);
    } else {
      TranslateKey(pre, j);
    }
  }

  lemma {:induction false} TranslateNoKey(c: char, table: seq<(char, char)>)
    requires forall a :: 0 <= a < |table| ==> table[a].0 != c
    ensures Translate(c, table) == c
  {
    if table != [] {
      TranslateNoKey(c, table[..|table| - 1]);
    }
  }

  /** Each glyph of the table comes out as its replacement. */
  lemma SanitizeReplaces(j: nat)
    requires j < |PdfReplacements|
    ensures Sanitized([PdfReplacements[j].0]) == [PdfReplacements[j].1]
  {
    var t := PdfReplacements;
    TranslateKey(t, j);
    var mapped := seq(1, i requires 0 <= i < 1 => Translate([t[j].0][i], t));
    assert mapped == [t[j].1];
    assert Latin1([t[j].1]) == [t[j].1];
  }

  // ================================================================ BMI

  /** `compute_bmi`, the page's copy of the BMI rule: it agrees with `calculate_bmi` on every
      input. */
  function ComputeBmi(heightCm: real, weightKg: real): (r: Utils.BmiResult)
    ensures r == Utils.CalculateBmi(heightCm, weightKg)
  {
    if heightCm <= 0.0 then Utils.BmiResult(0.0, "Invalid height")
    else
      var m := heightCm / 100.0;
      assert m * m == (heightCm / 100.0) * (heightCm / 100.0);
      var bmi := weightKg / (m * m);
      var cat :=
        if bmi < 18.5 then "Underweight"
        else if bmi < 25.0 then "Normal"
        else if bmi < 30.0 then "Overweight"
        else "Obese";
      Utils.BmiResult(Utils.Round1(bmi), cat)
  }

  // ================================================================ the prompt

  /** The profile values as the prompt shows them. */
  datatype Profile = Profile(
    name: string, age: string, gender: string, heightCm: string, weightKg: string, goal: string,
    culturalFood: string, dietaryPref: string, equipment: string, timeAvailable: string, budget: string)

  /** Each heading line of the requested output: a short title, then what the section holds. */
  const WorkoutTitle: string := "1. Workout Plan"
  const WorkoutHeading: string := WorkoutTitle +
    " (Day-wise: Day 1..Day 7). For each day include: warm-up, main sets (with sets/reps or time), cool-down, and easy alternatives if short on time."
  const MealTitle: string := "2. Meal Plan"
  const MealHeading: string := MealTitle +
    " (Day-wise: Day 1..Day 7). For each day include: breakfast, lunch, dinner, and 1 snack. Respect cultural + dietary preferences and budget."
  const MotivationTitle: string := "3. Motivation Quote"
  const MotivationHeading: string := MotivationTitle + " (one short, uplifting line)"

  /** The three heading lines of the requested output, each on a line of its own. */
  function HeadingBlock(): string
  {
    "\n" + WorkoutHeading + "\n" + MealHeading + "\n" + MotivationHeading + "\n"
  }

  function ProfileBlock(p: Profile): string
  {
    "Student Profile:\n- Name: " + p.name + "\n- Age: " + p.age + " years\n- Gender: " + p.gender
    + "\n- Height: " + p.heightCm + " cm\n- Weight: " + p.weightKg + " kg\n- Fitness Goal: " + p.goal
    + "\n- Cultural / Regional Food Type: " + p.culturalFood + "\n- Dietary Preference: " + p.dietaryPref
    + "\n- Available Equipment: " + p.equipment + "\n- Daily Time Availability: " + p.timeAvailable
    + " minutes\n- Budget: " + p.budget
  }

  const PromptIntro: string :=
    "You are a professional," + " empathetic fitness and diet coach."
    + " Create a practical, budget-friendly, culturally-aware 7-day plan for the following student."
    + " Use clear day-wise formatting, bullets, and concise explanations.\n\n"
  const PromptOutro: string :=
    "\nKeep the tone friendly and human. Avoid markdown tables; prefer bullet points."

  /** The text of the prompt template between its outer newlines. */
  function PromptBody(p: Profile): string
  {
    PromptIntro + ProfileBlock(p) + "\n\nOutput strictly structured as:" + HeadingBlock() + PromptOutro
  }

  /** `build_prompt`: the template, stripped. */
  function BuildPrompt(p: Profile): string
  {
    Strip("\n" + PromptBody(p) + "\n")
  }

  /** Stripping removes exactly the template's outer newlines. */
  lemma BuildPromptIsBody(p: Profile)
    ensures BuildPrompt(p) == PromptBody(p)
  {
    TemplateEnds();
    BodyEnds(p);
    StripNewlines(PromptBody(p), 'Y', '.');
  }

  lemma BodyEnds(p: Profile)
    ensures OpensAndCloses(PromptBody(p), 'Y', '.')
  {
    TemplateEnds();
    ConcatEnds(PromptIntro, ProfileBlock(p), "\n\nOutput strictly structured as:", HeadingBlock(), PromptOutro);
  }

  /** The template text opens with 'Y' and closes with '.'. */
  lemma TemplateEnds()
    ensures PromptIntro != [] && PromptIntro[0] == 'Y'
    ensures PromptOutro != [] && PromptOutro[|PromptOutro| - 1] == '.'
    ensures !IsSpace('Y') && !IsSpace('.')
  {
    var first := "You are a professional,";
    assert PromptIntro[0] == first[0];
  }

  predicate OpensAndCloses(s: string, first: char, last: char)
  {
    s != [] && s[0] == first && s[|s| - 1] == last
  }

  lemma ConcatEnds(a: string, b: string, c: string, d: string, e: string)
    requires a != [] && e != []
    ensures OpensAndCloses(a + b + c + d + e, a[0], e[|e| - 1])
  {
  }

  lemma StripNewlines(body: string, first: char, last: char)
    requires OpensAndCloses(body, first, last) && !IsSpace(first) && !IsSpace(last)
    ensures Strip("\n" + body + "\n") == body
  {
    var s := "\n" + body + "\n";
    assert s[1..] == body + "\n";
    assert LStripChars(s, Whitespace) == body + "\n";
    assert (body + "\n")[..|body|] == body;
    assert RStripChars(body + "\n", Whitespace) == RStripChars(body, Whitespace) == body;
  }

  /** Each heading line asked for is a heading line of its section's pattern, and lowered it
      contains the section's literal marker. */
  lemma WorkoutHeadingMatches()
    ensures Extractor.IsHeading(WorkoutHeading, '1', "workout")
    ensures Contains(Lower(WorkoutHeading), Extractor.WorkoutMarker)
  {
    TitleMatches(WorkoutTitle, '1', "workout", Extractor.WorkoutMarker);
    HeadingMatches(WorkoutTitle, WorkoutHeading[|WorkoutTitle|..], '1', "workout", Extractor.WorkoutMarker);
  }

  lemma MealHeadingMatches()
    ensures Extractor.IsHeading(MealHeading, '2', "meal")
    ensures Contains(Lower(MealHeading), Extractor.MealMarker)
  {
    TitleMatches(MealTitle, '2', "meal", Extractor.MealMarker);
    HeadingMatches(MealTitle, MealHeading[|MealTitle|..], '2', "meal", Extractor.MealMarker);
  }

  lemma MotivationHeadingMatches()
    ensures Extractor.IsHeading(MotivationHeading, '3', "motivation")
    ensures Contains(Lower(MotivationHeading), Extractor.MotivationMarker)
  {
    TitleMatches(MotivationTitle, '3', "motivation", Extractor.MotivationMarker);
    HeadingMatches(MotivationTitle, MotivationHeading[|MotivationTitle|..], '3', "motivation", Extractor.MotivationMarker);
  }

  /** A title that opens with the section's marker, whatever the case of its keyword. */
  lemma TitleMatches(title: string, ordinal: char, keyword: string, marker: string)
    requires marker == [ordinal, '.', ' '] + keyword
    requires |marker| <= |title| && Lower(title[..|marker|]) == marker
    ensures Contains(Lower(title[1..]), keyword)
    ensures Contains(Lower(title), marker)
  {
    assert title == title[..|marker|] + title[|marker|..];
    LowerAppend(title[..|marker|], title[|marker|..]);
    assert OccursAt(Lower(title), marker, 0);
    OccursAtContains(Lower(title), marker, 0);
    assert Lower(title[1..])[2..2 + |keyword|] == Lower(title)[3..3 + |keyword|] == keyword;
    assert OccursAt(Lower(title[1..]), keyword, 2);
    OccursAtContains(Lower(title[1..]), keyword, 2);
  }

  /** A line made of a title and a detail is a heading line when the title is. */
  lemma HeadingMatches(title: string, detail: string, ordinal: char, keyword: string, marker: string)
    requires title != [] && title[0] == ordinal && !IsSpace(ordinal)
    requires Contains(Lower(title[1..]), keyword) && Contains(Lower(title), marker)
    ensures Extractor.IsHeading(title + detail, ordinal, keyword)
    ensures Contains(Lower(title + detail), marker)
  {
    var line := title + detail;
    assert LStripChars(line, Whitespace) == line;
    assert line[1..] == title[1..] + detail;
    LowerAppend(title[1..], detail);
    ContainsExtend([], Lower(title[1..]), Lower(detail), keyword);
    assert [] + Lower(title[1..]) + Lower(detail) == Lower(line[1..]);
    LowerAppend(title, detail);
    ContainsExtend([], Lower(title), Lower(detail), marker);
    assert [] + Lower(title) + Lower(detail) == Lower(line);
  }

  /** The prompt asks for the three headings, in order, each on its own line. */
  lemma PromptAsksForHeadings(p: Profile)
    ensures Contains(BuildPrompt(p), HeadingBlock())
  {
    BuildPromptIsBody(p);
    ContainsSelf(HeadingBlock());
    ContainsExtend(PromptIntro + ProfileBlock(p) + "\n\nOutput strictly structured as:", HeadingBlock(), PromptOutro, HeadingBlock());
  }

  // ================================================================ the reply the prompt asks for

  /** A reply laid out as the prompt asks: each section title on a line of its own, followed
      by the section's text. */
  function StructuredReply(workout: string, meal: string, quote: string): string
  {
    Layout(WorkoutTitle, workout, MealTitle, meal, MotivationTitle, quote)
  }

  /** Three titles, each followed on the next line by its section's text. */
  function Layout(t1: string, workout: string, t2: string, meal: string, t3: string, quote: string): string
  {
    t1 + "\n" + workout + "\n" + t2 + "\n" + meal + "\n" + t3 + "\n" + quote
  }

  /** A single non-empty line without whitespace at either end. */
  predicate OneLine(s: string)
  {
    s != [] && NoLineBreak(s) && !IsSpace(s[0]) && !IsSpace(s[|s| - 1])
  }

  /** A title that opens with its section's marker is a heading line of its section. */
  lemma TitleIsHeading(title: string, ordinal: char, keyword: string, marker: string)
    requires marker == [ordinal, '.', ' '] + keyword && !IsSpace(ordinal)
    requires |marker| <= |title| && Lower(title[..|marker|]) == marker && title[0] == ordinal
    ensures Extractor.IsHeading(title, ordinal, keyword)
  {
    TitleMatches(title, ordinal, keyword, marker);
    HeadingMatches(title, "", ordinal, keyword, marker);
    assert title + "" == title;
  }

  /** The workout title is a single line that the workout pattern takes for its heading and
      the meal pattern does not. */
  lemma WorkoutTitleIsHeading()
    ensures OneLine(WorkoutTitle)
    ensures Extractor.IsHeading(WorkoutTitle, '1', "workout") && !Extractor.IsHeading(WorkoutTitle, '2', "meal")
  {
    TitleIsHeading(WorkoutTitle, '1', "workout", Extractor.WorkoutMarker);
    assert LStripChars(WorkoutTitle, Whitespace) == WorkoutTitle;
  }

  /** The meal title is a single line, a heading of the meal pattern, and lowered it opens
      with the meal marker. */
  lemma MealTitleIsHeading()
    ensures OneLine(MealTitle) && Extractor.IsHeading(MealTitle, '2', "meal")
    ensures |Extractor.MealMarker| <= |MealTitle| && Lower(MealTitle[..|Extractor.MealMarker|]) == Extractor.MealMarker
  {
    TitleIsHeading(MealTitle, '2', "meal", Extractor.MealMarker);
  }

  /** The motivation title is a single line, a heading of the motivation pattern, and
      lowered it opens with the motivation marker. */
  lemma MotivationTitleIsHeading()
    ensures OneLine(MotivationTitle) && Extractor.IsHeading(MotivationTitle, '3', "motivation")
    ensures |Extractor.MotivationMarker| <= |MotivationTitle|
    ensures Lower(MotivationTitle[..|Extractor.MotivationMarker|]) == Extractor.MotivationMarker
  {
    TitleIsHeading(MotivationTitle, '3', "motivation", Extractor.MotivationMarker);
  }

  /** A title placed after `a` puts its marker into the lowered text at `|a|`. */
  lemma MarkerAt(a: string, title: string, b: string, marker: string)
    requires |marker| <= |title| && Lower(title[..|marker|]) == marker
    ensures OccursAt(Lower(a + title + b), marker, |a|)
  {
    LowerAppend(a + title, b);
    LowerAppend(a, title);
    assert Lower(a + title + b)[|a|..|a| + |marker|] == Lower(title)[..|marker|];
    assert Lower(title)[..|marker|] == Lower(title[..|marker|]);
  }

  /** A marker span ends at the first closing marker, so it is no longer than the position
      of any closing marker. */
  lemma MarkerSpanShort(text: string, from: string, to: string, pos: nat)
    requires OccursAt(Lower(text), to, pos)
    ensures |Extractor.MarkerSpan(text, from, to)| <= pos
  {
    FindFromFirstOccurs(Lower(text), to, 0, pos);
  }

  lemma Regroup(a: string, b: string, c: string, d: string, e: string, f: string)
    ensures a + "\n" + b + "\n" + c + "\n" + d + "\n" + e + "\n" + f
      == a + "\n" + (b + "\n" + (c + "\n" + (d + "\n" + (e + "\n" + f))))
  {
  }

  /** Six lines written one after the other with newlines between them are their join. */
  lemma JoinSix(a: string, b: string, c: string, d: string, e: string, f: string)
    ensures Join([a, b, c, d, e, f], "\n") == a + "\n" + b + "\n" + c + "\n" + d + "\n" + e + "\n" + f
  {
    JoinCons(e, [f], "\n");
    assert [e] + [f] == [e, f];
    JoinCons(d, [e, f], "\n");
    assert [d] + [e, f] == [d, e, f];
    JoinCons(c, [d, e, f], "\n");
    assert [c] + [d, e, f] == [c, d, e, f];
    JoinCons(b, [c, d, e, f], "\n");
    assert [b] + [c, d, e, f] == [b, c, d, e, f];
    JoinCons(a, [b, c, d, e, f], "\n");
    assert [a] + [b, c, d, e, f] == [a, b, c, d, e, f];
    Regroup(a, b, c, d, e, f);
  }

  /** Six lines joined by newlines split back into the six lines. */
  lemma SixLines(a: string, b: string, c: string, d: string, e: string, f: string)
    requires NoLineBreak(a) && NoLineBreak(b) && NoLineBreak(c)
    requires NoLineBreak(d) && NoLineBreak(e) && NoLineBreak(f)
    ensures Split(a + "\n" + b + "\n" + c + "\n" + d + "\n" + e + "\n" + f, "\n") == [a, b, c, d, e, f]
  {
    JoinSix(a, b, c, d, e, f);
    SplitJoinLines([a, b, c, d, e, f]);
  }

  /** The heading patterns capture the line after the workout title and the line after the
      meal title, provided the workout line does not itself look like the meal heading. */
  lemma SixLineCaptures(lines: seq<string>)
    requires |lines| == 6
    requires Extractor.IsHeading(lines[0], '1', "workout") && !Extractor.IsHeading(lines[0], '2', "meal")
    requires Extractor.IsHeading(lines[2], '2', "meal") && !Extractor.IsHeading(lines[1], '2', "meal")
    requires Extractor.IsHeading(lines[4], '3', "motivation")
    ensures Extractor.LinesCapture(lines, '1', "workout", '2', "meal") == Some(lines[1])
    ensures Extractor.LinesCapture(lines, '2', "meal", '3', "motivation") == Some(lines[3])
  {
    Extractor.CaptureSpec(lines, '1', "workout", '2', "meal", 0, 2);
    Extractor.CaptureSpec(lines, '2', "meal", '3', "motivation", 2, 4);
    assert lines[1..2] == [lines[1]] && lines[3..4] == [lines[3]];
  }

  /** A marker found in the lowered text at or before `pos` lies within `head`, and the
      character there lowers to the marker's first character. */
  lemma MarkerFoundInHead(head: string, quote: string, marker: string, pos: nat)
    requires marker != [] && pos <= |head|
    requires OccursAt(Lower(head + "\n" + quote), marker, pos)
    ensures var i := Find(Lower(head + "\n" + quote), marker);
      0 <= i <= |head| && LowerChar((head + "\n" + quote)[i]) == marker[0]
  {
    var text := head + "\n" + quote;
    FindFromFirstOccurs(Lower(text), marker, 0, pos);
    FindFromOccurs(Lower(text), marker, 0);
  }

  lemma SliceAfterHead(head: string, quote: string, i: nat)
    requires i <= |head|
    ensures (head + "\n" + quote)[i..] == head[i..] + "\n" + quote
  {
  }

  /** A marker that opens with a digit found within `head` leaves, stripped, the rest of
      `head` from the marker, a newline and the last line. */
  lemma TailShape(head: string, quote: string, marker: string, pos: nat)
    requires OneLine(quote) && marker != [] && IsDigit(marker[0]) && pos <= |head|
    requires OccursAt(Lower(head + "\n" + quote), marker, pos)
    ensures var i := Find(Lower(head + "\n" + quote), marker);
      0 <= i <= |head| && Extractor.MarkerTail(head + "\n" + quote, marker) == head[i..] + "\n" + quote
  {
    var text := head + "\n" + quote;
    MarkerFoundInHead(head, quote, marker, pos);
    var i := Find(Lower(text), marker);
    LowerDigit(text[i], marker[0]);
    SliceAfterHead(head, quote, i);
    var rest := head[i..] + "\n" + quote;
    assert rest[0] == text[i] && rest[|rest| - 1] == quote[|quote| - 1];
    StripCharsUnchanged(rest, Whitespace);
  }

  /** The tail from a motivation marker within `head` collapses to the last line, bullets
      removed. */
  lemma TailCollapses(head: string, quote: string, pos: nat)
    requires OneLine(quote) && pos <= |head|
    requires OccursAt(Lower(head + "\n" + quote), Extractor.MotivationMarker, pos)
    ensures var tail := Extractor.MarkerTail(head + "\n" + quote, Extractor.MotivationMarker);
      tail != "" && Extractor.CollapseMotivation(tail, Extractor.Bullets) == StripChars(quote, Extractor.Bullets)
  {
    TailShape(head, quote, Extractor.MotivationMarker, pos);
    var i := Find(Lower(head + "\n" + quote), Extractor.MotivationMarker);
    var rest := head[i..] + "\n" + quote;
    StripCharsUnchanged(quote, Whitespace);
    SplitLinesLast(head[i..], '\n', quote);
    assert head[i..] + ['\n'] + quote == rest;
    Extractor.CollapseLastLine(rest, Extractor.Bullets, |SplitLines(rest)| - 1);
  }

  /** The layout cut before the meal title, before the motivation title, and before the
      quote's line. */
  lemma LayoutCuts(t1: string, workout: string, t2: string, meal: string, t3: string, quote: string)
    ensures var text := Layout(t1, workout, t2, meal, t3, quote);
      var toMeal := t1 + "\n" + workout + "\n";
      var toMotivation := toMeal + t2 + "\n" + meal + "\n";
      && text == toMeal + t2 + ("\n" + meal + "\n" + t3 + "\n" + quote)
      && text == toMotivation + t3 + ("\n" + quote)
      && text == (toMotivation + t3) + "\n" + quote
  {
  }

  /** Both marker spans of the layout end at a title, so neither is longer than the text
      before the motivation title. */
  lemma LayoutSpans(t1: string, workout: string, t2: string, meal: string, t3: string, quote: string)
    requires |Extractor.MealMarker| <= |t2| && Lower(t2[..|Extractor.MealMarker|]) == Extractor.MealMarker
    requires |Extractor.MotivationMarker| <= |t3| && Lower(t3[..|Extractor.MotivationMarker|]) == Extractor.MotivationMarker
    ensures var s := Extractor.MarkerSections(Layout(t1, workout, t2, meal, t3, quote));
      var before := |t1 + "\n" + workout + "\n" + t2 + "\n" + meal + "\n"|;
      |s.workout| <= before && |s.meal| <= before
  {
    var text := Layout(t1, workout, t2, meal, t3, quote);
    var toMeal := t1 + "\n" + workout + "\n";
    var toMotivation := toMeal + t2 + "\n" + meal + "\n";
    LayoutCuts(t1, workout, t2, meal, t3, quote);
    MarkerAt(toMeal, t2, "\n" + meal + "\n" + t3 + "\n" + quote, Extractor.MealMarker);
    MarkerSpanShort(text, Extractor.WorkoutMarker, Extractor.MealMarker, |toMeal|);
    MarkerAt(toMotivation, t3, "\n" + quote, Extractor.MotivationMarker);
    MarkerSpanShort(text, Extractor.MealMarker, Extractor.MotivationMarker, |toMotivation|);
  }

  /** The motivation tail of the layout collapses to the quote without its bullets. */
  lemma LayoutTail(t1: string, workout: string, t2: string, meal: string, t3: string, quote: string)
    requires OneLine(quote)
    requires |Extractor.MotivationMarker| <= |t3| && Lower(t3[..|Extractor.MotivationMarker|]) == Extractor.MotivationMarker
    ensures var tail := Extractor.MarkerTail(Layout(t1, workout, t2, meal, t3, quote), Extractor.MotivationMarker);
      tail != "" && Extractor.CollapseMotivation(tail, Extractor.Bullets) == StripChars(quote, Extractor.Bullets)
  {
    var toMotivation := t1 + "\n" + workout + "\n" + t2 + "\n" + meal + "\n";
    LayoutCuts(t1, workout, t2, meal, t3, quote);
    MarkerAt(toMotivation, t3, "\n" + quote, Extractor.MotivationMarker);
    TailCollapses(toMotivation + t3, quote, |toMotivation|);
  }

  /** The heading patterns on the layout capture the workout and the meal texts. */
  lemma LayoutCaptures(t1: string, workout: string, t2: string, meal: string, t3: string, quote: string)
    requires NoLineBreak(t1) && NoLineBreak(workout) && NoLineBreak(t2)
    requires NoLineBreak(meal) && NoLineBreak(t3) && NoLineBreak(quote)
    requires Extractor.IsHeading(t1, '1', "workout") && !Extractor.IsHeading(t1, '2', "meal")
    requires Extractor.IsHeading(t2, '2', "meal") && !Extractor.IsHeading(workout, '2', "meal")
    requires Extractor.IsHeading(t3, '3', "motivation")
    ensures Extractor.WorkoutCapture(Layout(t1, workout, t2, meal, t3, quote)) == Some(workout)
    ensures Extractor.MealCapture(Layout(t1, workout, t2, meal, t3, quote)) == Some(meal)
  {
    SixLines(t1, workout, t2, meal, t3, quote);
    SixLineCaptures([t1, workout, t2, meal, t3, quote]);
  }

  /** The four stages on the layout: two title lines that the marker search and the heading
      patterns both find, each followed by one line of text, then the motivation title and
      the quote. */
  lemma LayoutParsed(t1: string, workout: string, t2: string, meal: string, t3: string, quote: string)
    requires OneLine(workout) && OneLine(meal) && OneLine(quote)
    requires NoLineBreak(t1) && NoLineBreak(t2) && NoLineBreak(t3)
    requires Extractor.IsHeading(t1, '1', "workout") && !Extractor.IsHeading(t1, '2', "meal")
    requires Extractor.IsHeading(t2, '2', "meal") && !Extractor.IsHeading(workout, '2', "meal")
    requires Extractor.IsHeading(t3, '3', "motivation")
    requires |Extractor.MealMarker| <= |t2| && Lower(t2[..|Extractor.MealMarker|]) == Extractor.MealMarker
    requires |Extractor.MotivationMarker| <= |t3| && Lower(t3[..|Extractor.MotivationMarker|]) == Extractor.MotivationMarker
    requires |t1 + "\n" + workout + "\n" + t2 + "\n" + meal + "\n"| < Extractor.MinSpanLength
    ensures Extractor.ParsedSections(Layout(t1, workout, t2, meal, t3, quote))
      == Extractor.Sections(Extractor.WorkoutLabel + workout, Extractor.MealLabel + meal, StripChars(quote, Extractor.Bullets))
  {
    LayoutSpans(t1, workout, t2, meal, t3, quote);
    LayoutTail(t1, workout, t2, meal, t3, quote);
    LayoutCaptures(t1, workout, t2, meal, t3, quote);
    StripCharsUnchanged(workout, Whitespace);
    StripCharsUnchanged(meal, Whitespace);
  }

  /** A short reply laid out as the prompt asks, with one line per section, comes out of all
      four stages of the section extraction as the labelled workout and meal texts and the
      quote without its bullets. */
  lemma StructuredReplyParsed(workout: string, meal: string, quote: string)
    requires OneLine(workout) && OneLine(meal) && OneLine(quote)
    requires !Extractor.IsHeading(workout, '2', "meal")
    requires |WorkoutTitle + "\n" + workout + "\n" + MealTitle + "\n" + meal + "\n"| < Extractor.MinSpanLength
    ensures Extractor.ParsedSections(StructuredReply(workout, meal, quote))
      == Extractor.Sections(Extractor.WorkoutLabel + workout, Extractor.MealLabel + meal, StripChars(quote, Extractor.Bullets))
  {
    WorkoutTitleIsHeading();
    MealTitleIsHeading();
    MotivationTitleIsHeading();
    LayoutParsed(WorkoutTitle, workout, MealTitle, meal, MotivationTitle, quote);
  }
}
