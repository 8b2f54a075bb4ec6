/**
 * The parts of the AI services (ai_services.py) that are not text sent to the model: how a
 * fenced JSON block is cut out of a model reply and what each reply parser returns around
 * it, and the chat assistant's conversation history.
 *
 * The model and `json.loads` are opaque: the model is a `string -> string` parameter (a
 * failed call already yields "" inside the service), `json.loads` a `string -> Option<Json>`
 * parameter whose `None` stands for the exception it raises.
 */
module AiServices {
  import opened Wrappers
  import opened PyStr

  // ================================================================ JSON values

  /** A value `json.loads` can produce. */
  datatype Json =
    | JNull
    | JBool(b: bool)
    | JNum(n: real)
    | JStr(s: string)
    | JArr(items: seq<Json>)
    | JObj(fields: map<string, Json>)

  /** `d.get(key, default)` */
  function Get(fields: map<string, Json>, key: string, default: Json): (v: Json)
    ensures key in fields ==> v == fields[key]
    ensures key !in fields ==> v == default
  {
    if key in fields then fields[key] else default
  }

  // ================================================================ the fence

  const JsonFence: string := "```json"
  const Fence: string := "```"

  /** The candidate JSON text of a reply: when the reply contains the opening fence, the text
      from just after its first occurrence up to the next closing fence. When no closing fence
      follows, `find` gives -1 and the slice stops before the reply's last character. */
  function FencedJson(response: string): (r: Option<string>)
    ensures r.None? <==> !Contains(response, JsonFence)
  {
    if !Contains(response, JsonFence) then None
    else
      var start := Find(response, JsonFence) + |JsonFence|;
      var end := FindFrom(response, Fence, start);
      Some(Slice(response, start, end))
  }

  /** What the slice is, in both cases of the closing fence. */
  lemma FencedJsonCases(response: string)
    requires Contains(response, JsonFence)
    ensures var start := Find(response, JsonFence) + |JsonFence|;
      var end := FindFrom(response, Fence, start);
      && start <= |response|
      && (end != -1 ==> start <= end && FencedJson(response) == Some(response[start..end]))
      && (end == -1 && start < |response| - 1 ==> FencedJson(response) == Some(response[start..|response| - 1]))
      && (end == -1 && |response| - 1 <= start ==> FencedJson(response) == Some(""))
  {
    FindFromOccurs(response, JsonFence, 0);
    var start := Find(response, JsonFence) + |JsonFence|;
    var end := FindFrom(response, Fence, start);
    assert FencedJson(response) == Some(Slice(response, start, end));
    SliceToEnd(response, start, end);
  }

  /** A slice from `start` to what `find` returned: up to the occurrence, or, for -1, up to
      the last character. */
  lemma SliceToEnd(s: string, start: nat, end: int)
    requires start <= |s| && (end == -1 || start <= end <= |s|)
    ensures end != -1 ==> Slice(s, start, end) == s[start..end]
    ensures end == -1 && start < |s| - 1 ==> Slice(s, start, end) == s[start..|s| - 1]
    ensures end == -1 && |s| - 1 <= start ==> Slice(s, start, end) == ""
  {
    if end != -1 {
      SliceWithin(s, start, end);
    }
  }

  /** Python slicing with indices already in range is Dafny slicing. */
  lemma SliceWithin(s: string, i: nat, j: nat)
    requires i <= j <= |s|
    ensures Slice(s, i, j) == s[i..j]
  {
  }

  /** The block cut out before a closing fence holds no closing fence. */
  lemma FencedJsonHasNoFence(response: string)
    requires Contains(response, JsonFence)
    requires FindFrom(response, Fence, Find(response, JsonFence) + |JsonFence|) != -1
    ensures !Contains(FencedJson(response).value, Fence)
  {
    FencedJsonCases(response);
    var start := Find(response, JsonFence) + |JsonFence|;
    NothingBeforeFound(response, Fence, start);
  }

  /** What lies between `start` and the occurrence `find` reports holds no occurrence. */
  lemma NothingBeforeFound(s: string, pat: string, start: nat)
    requires pat != [] && FindFrom(s, pat, start) != -1
    ensures start <= FindFrom(s, pat, start) && !Contains(s[start..FindFrom(s, pat, start)], pat)
  {
    var end := FindFrom(s, pat, start);
    if Contains(s[start..end], pat) {
      var k := Find(s[start..end], pat);
      FindFromOccurs(s[start..end], pat, 0);
      OccursShift(s, start, end, pat, k);
      FindFromFirst(s, pat, start, start + k);
      assert false;
    }
  }

  /** An occurrence inside a slice is an occurrence in the whole text, shifted by the slice's
      start. */
  lemma OccursShift(s: string, start: nat, end: nat, pat: string, k: int)
    requires start <= end <= |s| && OccursAt(s[start..end], pat, k)
    ensures OccursAt(s, pat, start + k) && start + k + |pat| <= end
  {
    forall j | 0 <= j < |pat|
      ensures s[start + k + j] == pat[j]
    {
      assert s[start..end][k..k + |pat|][j] == s[start + k + j];
    }
    assert s[start + k..start + k + |pat|] == pat;
  }

  /** Each fence without its last character. */
  lemma FenceTails()
    ensures JsonFence[..|JsonFence| - 1] == "```jso" && Fence[..|Fence| - 1] == "``"
  {
  }

  /** A reply built around a fenced block gives back exactly the block, provided the opening
      fence does not occur earlier and the block holds no closing fence, not even one that
      would run into the fence after it. */
  lemma FencedJsonRoundTrip(prefix: string, body: string, suffix: string)
    requires !Contains(prefix + "```jso", JsonFence)
    requires !Contains(body + "``", Fence)
    ensures FencedJson(prefix + JsonFence + body + Fence + suffix) == Some(body)
  {
    var t := prefix + JsonFence + body + Fence + suffix;
    var start := |prefix| + |JsonFence|;
    FenceTails();
    assert t[0..start] == prefix + JsonFence;
    FoundAfter(t, 0, prefix, JsonFence);
    assert t[start..start + |body| + |Fence|] == body + Fence;
    FoundAfter(t, start, body, Fence);
    OccursAtContains(t, JsonFence, |prefix|);
    assert FencedJson(t) == Some(Slice(t, start, start + |body|));
    SliceWithin(t, start, start + |body|);
    assert t[start..start + |body|] == body;
  }

  /** A closing fence that never comes costs the reply's last character: an unclosed block
      that runs to the end of the reply loses its final character. */
  lemma UnclosedFenceDropsLastChar(prefix: string, body: string)
    requires !Contains(prefix + "```jso", JsonFence)
    requires !Contains(body, Fence) && body != ""
    ensures FencedJson(prefix + JsonFence + body) == Some(body[..|body| - 1])
  {
    var t := prefix + JsonFence + body;
    var start := |prefix| + |JsonFence|;
    FenceTails();
    assert t[0..start] == prefix + JsonFence;
    FoundAfter(t, 0, prefix, JsonFence);
    OccursAtContains(t, JsonFence, |prefix|);
    var e := FindFrom(t, Fence, start);
    if e != -1 {
      FindFromOccurs(t, Fence, start);
      assert t[start..] == body;
      OccursWithin(t, body, start, Fence, e);
      assert false;
    }
    assert FencedJson(t) == Some(Slice(t, start, -1));
    assert PyIndex(|t|, -1) == |t| - 1;
    assert t[start..|t| - 1] == body[..|body| - 1];
  }

  // ================================================================ the reply parsers

  /** The fenced block decoded, or `fallback` when there is no block or it does not decode:
      the shared shape of the workout, timing and nutrition parsers. */
  function LoadFenced(response: string, loads: string -> Option<Json>, fallback: Json): Json
  {
    match FencedJson(response)
    case None => fallback
    case Some(candidate) => loads(candidate).GetOr(fallback)
  }

  function RawResponse(response: string): Json
  {
    JObj(map["raw_response" := JStr(response)])
  }

  /** `_parse_workout_response` */
  function ParseWorkoutResponse(response: string, loads: string -> Option<Json>): Json
  {
    LoadFenced(response, loads, RawResponse(response))
  }

  /** `_parse_timing_response` */
  function ParseTimingResponse(response: string, loads: string -> Option<Json>): Json
  {
    LoadFenced(response, loads, JObj(map["recommendation" := JStr(response)]))
  }

  /** `_parse_nutrition_response` */
  function ParseNutritionResponse(response: string, loads: string -> Option<Json>): Json
  {
    LoadFenced(response, loads, RawResponse(response))
  }

  /** Without a fence, or with one whose text does not decode, the reply itself comes back
      wrapped under the parser's key. */
  lemma DictParsersFallback(response: string, loads: string -> Option<Json>)
    requires FencedJson(response) == None || loads(FencedJson(response).value) == None
    ensures ParseWorkoutResponse(response, loads) == JObj(map["raw_response" := JStr(response)])
    ensures ParseNutritionResponse(response, loads) == JObj(map["raw_response" := JStr(response)])
    ensures ParseTimingResponse(response, loads) == JObj(map["recommendation" := JStr(response)])
  {
  }

  /** A fenced block that decodes is returned as decoded, whatever surrounds it. */
  lemma DictParsersRoundTrip(prefix: string, body: string, suffix: string, loads: string -> Option<Json>, j: Json)
    requires !Contains(prefix + "```jso", JsonFence)
    requires !Contains(body + "``", Fence)
    requires loads(body) == Some(j)
    ensures var reply := prefix + JsonFence + body + Fence + suffix;
      && ParseWorkoutResponse(reply, loads) == j
      && ParseNutritionResponse(reply, loads) == j
      && ParseTimingResponse(reply, loads) == j
  {
    FencedJsonRoundTrip(prefix, body, suffix);
  }

  /** `_parse_recommendations_response`: the "recommendations" entry of the decoded object
      (an empty list when it is missing); the reply wrapped as one recommendation when there
      is no fence, the block does not decode, or what it decodes to has no `.get`. */
  function ParseRecommendationsResponse(response: string, loads: string -> Option<Json>): Json
  {
    var fallback := JArr([JObj(map["title" := JStr("AI Recommendation"), "description" := JStr(response)])]);
    match FencedJson(response)
    case None => fallback
    case Some(candidate) =>
      match loads(candidate)
      case Some(JObj(fields)) => Get(fields, "recommendations", JArr([]))
      case _ => fallback
  }

  lemma RecommendationsCases(response: string, loads: string -> Option<Json>)
    ensures var r := ParseRecommendationsResponse(response, loads);
      var fallback := JArr([JObj(map["title" := JStr("AI Recommendation"), "description" := JStr(response)])]);
      && (!Contains(response, JsonFence) ==> r == fallback)
      && (Contains(response, JsonFence) ==>
            var decoded := loads(FencedJson(response).value);
            && (decoded.Some? && decoded.value.JObj? && "recommendations" in decoded.value.fields ==>
                  r == decoded.value.fields["recommendations"])
            && (decoded.Some? && decoded.value.JObj? && "recommendations" !in decoded.value.fields ==>
                  r == JArr([]))
            && (decoded.None? || !decoded.value.JObj? ==> r == fallback))
  {
  }

  // ---------------------------------------------------------------- insights

  /** An `AIInsight`; each field holds whatever the decoded object held under its key. */
  datatype Insight = Insight(kind: Json, title: Json, description: Json, confidence: Json, actionable: Json, priority: Json)

  /** The insight reported when parsing raises. */
  const FallbackInsight: Insight := Insight(
    JStr("general"), JStr("AI Analysis Complete"),
    JStr("AI has analyzed your data and provided personalized recommendations."),
    JNum(0.9), JBool(true), JStr("high"))

  /** One insight from a decoded object, with the defaults for missing keys. */
  function InsightOf(fields: map<string, Json>): (r: Insight)
    ensures "title" !in fields ==> r.title == JStr("Insight")
    ensures "priority" !in fields ==> r.priority == JStr("medium")
  {
    Insight(
      Get(fields, "type", JStr("general")), Get(fields, "title", JStr("Insight")),
      Get(fields, "description", JStr("")), Get(fields, "confidence", JNum(0.8)),
      Get(fields, "actionable", JBool(true)), Get(fields, "priority", JStr("medium")))
  }

  /** Iterating a list of decoded items: one insight per object, and at the first item that
      is not an object (it has no `.get`) the fallback insight after those already made. */
  function InsightsOfItems(items: seq<Json>): seq<Insight>
  {
    if items == [] then []
    else if items[0].JObj? then [InsightOf(items[0].fields)] + InsightsOfItems(items[1..])
    else [FallbackInsight]
  }

  /** Iterating the "insights" entry of the decoded value: a list is iterated item by item; an
      empty object or empty string yields nothing; any other object or string yields keys or
      characters, which have no `.get`; numbers, booleans and null are not iterable; a
      decoded value that is not an object has no `.get` itself. */
  function InsightsOfData(data: Json): seq<Insight>
  {
    if !data.JObj? then [FallbackInsight]
    else
      match Get(data.fields, "insights", JArr([]))
      case JArr(items) => InsightsOfItems(items)
      case JObj(m) => if m == map[] then [] else [FallbackInsight]
      case JStr(s) => if s == "" then [] else [FallbackInsight]
      case _ => [FallbackInsight]
  }

  /** What `_parse_insights_response` returns: nothing without a fence, the fallback insight
      when the block does not decode. */
  function Insights(response: string, loads: string -> Option<Json>): seq<Insight>
  {
    match FencedJson(response)
    case None => []
    case Some(candidate) =>
      match loads(candidate)
      case None => [FallbackInsight]
      case Some(data) => InsightsOfData(data)
  }

  /** `_parse_insights_response`, appending insight by insight. */
  method ParseInsightsResponse(response: string, loads: string -> Option<Json>) returns (insights: seq<Insight>)
    ensures insights == Insights(response, loads)
  {
    insights := [];
    var candidate := FencedJson(response);
    if candidate.None? {
      return;
    }
    var decoded := loads(candidate.value);
    if decoded.None? || !decoded.value.JObj? {
      insights := [FallbackInsight];
      return;
    }
    var entry := Get(decoded.value.fields, "insights", JArr([]));
    if !entry.JArr? {
      // An empty object or string gives no iteration at all; the first key or character of
      // any other has no `.get`, and other values cannot be iterated.
      if !((entry.JObj? && entry.fields == map[]) || (entry.JStr? && entry.s == "")) {
        insights := [FallbackInsight];
      }
      return;
    }
    var items := entry.items;
    var i := 0;
    while i < |items|
      invariant 0 <= i <= |items|
      invariant insights + InsightsOfItems(items[i..]) == InsightsOfItems(items)
    {
      assert items[i..][1..] == items[i + 1..];
      if !items[i].JObj? {
        insights := insights + [FallbackInsight];
        return;
      }
      insights := insights + [InsightOf(items[i].fields)];
      i := i + 1;
    }
  }

  /** A list of objects gives one insight per object, in order, and no fallback. */
  lemma {:induction false} InsightsOfObjects(items: seq<Json>)
    requires forall i :: 0 <= i < |items| ==> items[i].JObj?
    ensures |InsightsOfItems(items)| == |items|
    ensures forall i :: 0 <= i < |items| ==> InsightsOfItems(items)[i] == InsightOf(items[i].fields)
  {
    if items != [] {
      InsightsOfObjects(items[1..]);
    }
  }

  /** An item that is not an object ends the list: the insights of the objects before it,
      then the fallback. */
  lemma {:induction false} InsightsStopAtNonObject(items: seq<Json>, k: nat)
    requires k < |items| && !items[k].JObj?
    requires forall i :: 0 <= i < k ==> items[i].JObj?
    ensures InsightsOfItems(items) == InsightsOfItems(items[..k]) + [FallbackInsight]
  {
    if k > 0 {
      InsightsStopAtNonObject(items[1..], k - 1);
      assert items[1..][..k - 1] == items[..k][1..];
    } else {
      assert items[..0] == [];
    }
  }

  /** No fence, no insights; a block that does not decode, only the fallback. */
  lemma InsightsEdgeCases(response: string, loads: string -> Option<Json>)
    ensures !Contains(response, JsonFence) ==> Insights(response, loads) == []
    ensures Contains(response, JsonFence) && loads(FencedJson(response).value).None? ==>
      Insights(response, loads) == [FallbackInsight]
  {
  }

  // ================================================================ the chat assistant

  /** An entry of the conversation history. */
  datatype Message = Message(role: string, content: string)

  const HistoryWindow: nat := 6
  const NoHistory: string := "No previous conversation."

  /** How one entry is shown: "User" for the role "user", "AI Coach" for any other. */
  function Rendered(m: Message): (line: string)
    ensures m.role == "user" ==> line == "User: " + m.content
    ensures m.role != "user" ==> line == "AI Coach: " + m.content
  {
    (if m.role == "user" then "User" else "AI Coach") + ": " + m.content
  }

  /** `history[-6:]` */
  function LastEntries(history: seq<Message>): (w: seq<Message>)
    ensures |w| == if |history| < HistoryWindow then |history| else HistoryWindow
    ensures w == history[|history| - |w|..]
  {
    if |history| < HistoryWindow then history else history[|history| - HistoryWindow..]
  }

  /** The lines the history block shows: the last six entries, rendered, in their order. */
  function HistoryLines(history: seq<Message>): (lines: seq<string>)
    ensures |lines| == |LastEntries(history)|
  {
    var w := LastEntries(history);
    seq(|w|, i requires 0 <= i < |w| => Rendered(w[i]))
  }

  /** The history block of the chat prompt: the placeholder for an empty history, otherwise
      the shown lines joined by newlines. */
  function HistoryBlock(history: seq<Message>): string
  {
    if history == [] then NoHistory else Join(HistoryLines(history), "\n")
  }

  /** The context block of the chat prompt, from the caller's profile values; an absent or
      empty context gives "". */
  function ContextBlock(context: Option<map<string, string>>): string
  {
    if context.None? || context.value == map[] then ""
    else
      var c := context.value;
      "\n            USER CONTEXT:\n            - Name: " + (if "name" in c then c["name"] else "User")
      + "\n            - Goal: " + (if "goal" in c then c["goal"] else "General Health")
      + "\n            - Experience: " + (if "experience" in c then c["experience"] else "Beginner")
      + "\n            - Current Progress: " + (if "progress" in c then c["progress"] else "Starting out")
      + "\n            "
  }

  const ChatIntro: string :=
    "\n        You are an advanced AI fitness coach and nutritionist. You have access to cutting-edge \n        exercise science, nutrition research, and behavioral psychology.\n        \n        "
  const ChatOutro: string :=
    "\n        \n        Provide helpful, scientifically-backed advice. Be encouraging, specific, and actionable.\n        If asked about specific exercises, provide detailed instructions and safety tips.\n        If asked about nutrition, provide evidence-based recommendations.\n        Always consider the user's experience level and goals.\n        "

  const HistoryHeader: string := "\n        \n        CONVERSATION HISTORY:\n        "
  const MessageHeader: string := "\n        \n        USER MESSAGE: "

  lemma AppendTwo<T>(s: seq<T>, a: T, b: T)
    ensures s + [a] + [b] == s + [a, b]
  {
  }

  /** The prompt of one chat turn, around the formatted history. */
  function ChatPrompt(context: Option<map<string, string>>, historyText: string, userMessage: string): string
  {
    ChatIntro + ContextBlock(context) + HistoryHeader + historyText + MessageHeader + userMessage + ChatOutro
  }

  /** The prompt carries the formatted history and the user's message verbatim. */
  lemma ChatPromptCarries(context: Option<map<string, string>>, historyText: string, userMessage: string)
    ensures Contains(ChatPrompt(context, historyText, userMessage), historyText)
    ensures Contains(ChatPrompt(context, historyText, userMessage), userMessage)
  {
    var before := ChatIntro + ContextBlock(context) + HistoryHeader;
    ContainsSelf(historyText);
    ContainsExtend(before, historyText, MessageHeader, historyText);
    ContainsAppend(before + historyText + MessageHeader, userMessage, historyText);
    ContainsAppend(before + historyText + MessageHeader + userMessage, ChatOutro, historyText);
    ContainsSelf(userMessage);
    ContainsExtend(before + historyText + MessageHeader, userMessage, ChatOutro, userMessage);
  }

  /** `AIChatService`: the conversation so far, oldest first. */
  class ChatSession {
    var history: seq<Message>

    constructor()
      ensures history == []
    {
      history := [];
    }

    /** `chat_with_ai`: records the user's message, asks the model with the history that
        already holds it, records the reply and returns it. */
    method ChatWithAi(userMessage: string, context: Option<map<string, string>>, generate: string -> string)
      returns (response: string)
      modifies this
      ensures history == old(history) + [Message("user", userMessage), Message("assistant", response)]
      ensures response == generate(ChatPrompt(context, HistoryBlock(old(history) + [Message("user", userMessage)]), userMessage))
    {
      history := history + [Message("user", userMessage)];
      var historyText := FormatConversationHistory();
      response := generate(ChatPrompt(context, historyText, userMessage));
      history := history + [Message("assistant", response)];
      AppendTwo(old(history), Message("user", userMessage), Message("assistant", response));
    }

    /** `_format_conversation_history`, line by line. */
    method FormatConversationHistory() returns (text: string)
      ensures text == HistoryBlock(history)
    {
      if history == [] {
        return NoHistory;
      }
      var w := LastEntries(history);
      var formatted: seq<string> := [];
      assert |w| > 0;
      var i := 0;
      while i < |w|
        invariant 0 <= i <= |w|
        invariant formatted == seq(i, j requires 0 <= j < i => Rendered(w[j]))
      {
        formatted := formatted + [Rendered(w[i])];
        i := i + 1;
      }
      text := Join(formatted, "\n");
    }

    /** `reset_conversation` */
    method ResetConversation()
      modifies this
      ensures history == []
    {
      history := [];
    }
  }

  /** The placeholder appears exactly when there is no history: every rendered line starts
      with "User" or "AI Coach", never with the placeholder's "N". */
  lemma NoHistoryIff(history: seq<Message>)
    ensures HistoryBlock(history) == NoHistory <==> history == []
  {
    if history != [] {
      JoinFirstChar(HistoryLines(history), "\n");
      assert NoHistory[0] == 'N';
    }
  }

  /** A join of non-empty parts starts with the first part's first character. */
  lemma JoinFirstChar(parts: seq<string>, sep: string)
    requires parts != [] && parts[0] != ""
    ensures Join(parts, sep) != "" && Join(parts, sep)[0] == parts[0][0]
  {
  }

  /** Only the window matters: entries older than the last six never reach the prompt. */
  lemma HistoryWindowOnly(older: seq<Message>, recent: seq<Message>)
    requires |recent| >= HistoryWindow
    ensures HistoryBlock(older + recent) == HistoryBlock(recent)
  {
    var h := older + recent;
    assert LastEntries(h) == LastEntries(recent) by {
      assert h[|h| - HistoryWindow..] == recent[|recent| - HistoryWindow..];
    }
    assert HistoryLines(h) == HistoryLines(recent);
  }

  /** The message of the current turn is the last line of the history the model sees. */
  lemma LatestMessageLast(history: seq<Message>, userMessage: string)
    ensures var h := history + [Message("user", userMessage)];
      HistoryLines(h) != [] && HistoryLines(h)[|HistoryLines(h)| - 1] == "User: " + userMessage
  {
    var h := history + [Message("user", userMessage)];
    var w := LastEntries(h);
    assert w[|w| - 1] == h[|h| - 1];
  }
}
