/**
 * `analyzeEntriesAndGeneratePolls`: the guard on the entry list, the prompt with
 * its numbered list of opinions, the removal of Markdown code fences from the
 * model's reply, and the schema check that admits exactly five poll options.
 * The generative model and `JSON.parse` are parameters.
 */
module Analyze {
  import opened Wrappers
  import opened Strings

  // ---------------------------------------------------------------------------
  // the prompt
  // ---------------------------------------------------------------------------

  const PromptIntro: string :=
    "\n" +
    "あなたは、多様な意見をまとめて具体的な解決案や選択肢を作成する専門家です。\n" +
    "\n" +
    "議題: "

  const PromptListHeading: string :=
    "\n" +
    "\n" +
    "以下は、ユーザーから寄せられた意見の一覧です：\n" +
    "\n"

  const PromptInstructions: string :=
    "\n" +
    "\n" +
    "---\n" +
    "\n" +
    "【あなたの役割】\n" +
    "これらの意見を分析し、それらを網羅する具体的な解決案や選択肢を正確に5つ作成してください。\n" +
    "\n" +
    "【要件】\n" +
    "1. 各選択肢は、具体的で実行可能な内容にしてください\n" +
    "2. できるだけ多様な意見を反映するようにしてください\n" +
    "3. 似た意見は1つの選択肢にまとめてください\n" +
    "4. 各選択肢には、どの意見が反映されているか、なぜその選択肢が重要かを説明してください\n" +
    "5. 投票者が納得できるよう、論理的で分かりやすい説明を心がけてください\n" +
    "\n" +
    "【出力形式】\n" +
    "必ず以下のJSON形式で5つの選択肢を出力してください：\n" +
    "\n" +
    "{\n" +
    "  \"options\": [\n" +
    "    {\n" +
    "      \"option_text\": \"選択肢1のテキスト\",\n" +
    "      \"explanation\": \"説明1\",\n" +
    "      \"related_opinions\": [0, 1]\n" +
    "    },\n" +
    "    {\n" +
    "      \"option_text\": \"選択肢2のテキスト\",\n" +
    "      \"explanation\": \"説明2\",\n" +
    "      \"related_opinions\": [2]\n" +
    "    }\n" +
    "    // ... 合計5つ\n" +
    "  ]\n" +
    "}\n" +
    "\n" +
    "JSONのみを出力し、他の文章は含めないでください。\n" +
    "各選択肢には、関連する意見のインデックス（1始まりではなく0始まり）を含めてください。\n"

  /** Entry `index` (0-based) as it appears in the prompt: "(index+1). entry". */
  function NumberedLine(index: nat, entry: string): string {
    NatToString(index + 1) + ". " + entry
  }

  function NumberedLines(entries: seq<string>): (r: seq<string>)
    ensures |r| == |entries|
  {
    seq(|entries|, i requires 0 <= i < |entries| => NumberedLine(i, entries[i]))
  }

  /** `entries.map((entry, index) => `${index + 1}. ${entry}`).join("\n")`. */
  function NumberedList(entries: seq<string>): string {
    Join(NumberedLines(entries), "\n")
  }

  /** The prompt sent to the model for a room titled `roomTitle`. */
  function Prompt(entries: seq<string>, roomTitle: string): string {
    PromptIntro + roomTitle + PromptListHeading + NumberedList(entries) + PromptInstructions
  }

  /** The length of the longest prefix of `s` made of decimal digits. */
  function LeadingDigits(s: string): (n: nat)
    ensures n <= |s|
    ensures forall i :: 0 <= i < n ==> IsDigit(s[i])
    ensures n < |s| ==> !IsDigit(s[n])
  {
    if s != [] && IsDigit(s[0]) then 1 + LeadingDigits(s[1..]) else 0
  }

  /**
   * Reads a prompt line back: its leading number and the text after ". ".
   * The number always ends at the '.', so an entry that itself starts with
   * digits is recovered intact.
   */
  function ParseNumberedLine(line: string): Option<(nat, string)> {
    var n := LeadingDigits(line);
    if 0 < n && n + 2 <= |line| && line[n..n + 2] == ". " then
      Some((DecimalValue(line[..n]), line[n + 2..]))
    else None
  }

  /** Every numbered line reads back as its 1-based position and its entry. */
  lemma NumberedLineRoundTrip(index: nat, entry: string)
    ensures ParseNumberedLine(NumberedLine(index, entry)) == Some((index + 1, entry))
  {
    var digits := NatToString(index + 1);
    var line := NumberedLine(index, entry);
    assert line[..|digits|] == digits;
    assert line[|digits|] == '.';
    assert LeadingDigits(line) == |digits| by {
      LeadingDigitsOfNumeral(digits, ". " + entry);
      assert line == digits + (". " + entry);
    }
    assert line[|digits|..|digits| + 2] == ". ";
    assert line[|digits| + 2..] == entry;
    NatToStringValue(index + 1);
  }

  lemma {:induction false} LeadingDigitsOfNumeral(digits: string, rest: string)
    requires forall i :: 0 <= i < |digits| ==> IsDigit(digits[i])
    requires rest != [] && !IsDigit(rest[0])
    ensures LeadingDigits(digits + rest) == |digits|
  {
    if digits != [] {
      assert (digits + rest)[1..] == digits[1..] + rest;
      LeadingDigitsOfNumeral(digits[1..], rest);
    } else {
      assert digits + rest == rest;
    }
  }

  /**
   * When no opinion contains a line break, the list in the prompt has exactly
   * one line per opinion, in input order, and line i reads back as (i+1, entry i).
   */
  lemma NumberedListReadsBack(entries: seq<string>)
    requires |entries| >= 1
    requires forall k :: 0 <= k < |entries| ==> '\n' !in entries[k]
    ensures var lines := Split(NumberedList(entries), '\n');
      && |lines| == |entries|
      && forall i :: 0 <= i < |entries| ==> ParseNumberedLine(lines[i]) == Some((i + 1, entries[i]))
  {
    var lines := NumberedLines(entries);
    forall k | 0 <= k < |lines| ensures '\n' !in lines[k] {
      var digits := NatToString(k + 1);
      assert lines[k] == digits + ". " + entries[k];
      forall j | 0 <= j < |lines[k]| ensures lines[k][j] != '\n' {
        if j < |digits| {
          assert lines[k][j] == digits[j];
        } else if j < |digits| + 2 {
          assert lines[k][j] == ". "[j - |digits|];
        } else {
          assert lines[k][j] == entries[k][j - |digits| - 2];
        }
      }
    }
    SplitJoin(lines, '\n');
    forall i | 0 <= i < |entries| ensures ParseNumberedLine(lines[i]) == Some((i + 1, entries[i])) {
      NumberedLineRoundTrip(i, entries[i]);
    }
  }

  /**
   * The model sees the title right after the introduction, and, for opinions
   * without line breaks, a list between the heading and the instructions whose
   * lines read back as the opinions with their 1-based numbers, in order.
   */
  lemma PromptReadsBack(entries: seq<string>, roomTitle: string)
    requires |entries| >= 1
    requires forall k :: 0 <= k < |entries| ==> '\n' !in entries[k]
    ensures var p := Prompt(entries, roomTitle);
      var start := |PromptIntro| + |roomTitle| + |PromptListHeading|;
      && p[..|PromptIntro|] == PromptIntro
      && p[|PromptIntro|..|PromptIntro| + |roomTitle|] == roomTitle
      && start + |PromptInstructions| <= |p|
      && p[|p| - |PromptInstructions|..] == PromptInstructions
      && var lines := Split(p[start..|p| - |PromptInstructions|], '\n');
         && |lines| == |entries|
         && forall i :: 0 <= i < |entries| ==> ParseNumberedLine(lines[i]) == Some((i + 1, entries[i]))
  {
    var p := Prompt(entries, roomTitle);
    var list := NumberedList(entries);
    var head := PromptIntro + roomTitle + PromptListHeading;
    assert p == head + list + PromptInstructions;
    assert p[|head|..|p| - |PromptInstructions|] == list;
    assert p[..|PromptIntro|] == PromptIntro;
    assert p[|PromptIntro|..|PromptIntro| + |roomTitle|] == roomTitle;
    NumberedListReadsBack(entries);
  }

  // ---------------------------------------------------------------------------
  // removing Markdown code fences from the reply
  // ---------------------------------------------------------------------------

  const Fence: string := "```"
  const JsonFence: string := "```json"

  /**
   * `s.replace(/<marker>\n?/g, "")`: scanning left to right, every occurrence
   * of `marker`, together with one newline right after it, is deleted.
   */
  function RemoveMarker(s: string, marker: string): (r: string)
    requires marker != []
    ensures |r| <= |s|
    decreases |s|
  {
    if s == [] then []
    else if marker <= s then
      var rest := s[|marker|..];
      if rest != [] && rest[0] == '\n' then RemoveMarker(rest[1..], marker) else RemoveMarker(rest, marker)
    else [s[0]] + RemoveMarker(s[1..], marker)
  }

  predicate FenceAt(s: string, i: nat)
    requires i + 3 <= |s|
  {
    s[i] == '`' && s[i + 1] == '`' && s[i + 2] == '`'
  }

  /** No three consecutive backticks anywhere in `s`. */
  predicate NoFence(s: string) {
    forall i: nat :: i + 3 <= |s| ==> !FenceAt(s, i)
  }

  lemma RemovedFenceStart(t: string)
    ensures var r := RemoveMarker(t, Fence);
      |r| >= 2 && r[0] == '`' && r[1] == '`' ==> |t| >= 2 && t[0] == '`' && t[1] == '`'
  {
    if t != [] && !(Fence <= t) {
      var r1 := RemoveMarker(t[1..], Fence);
      assert RemoveMarker(t, Fence) == [t[0]] + r1;
      if t[1..] != [] && !(Fence <= t[1..]) {
        assert r1 == [t[1]] + RemoveMarker(t[2..], Fence);
      }
    }
  }

  /** After `replace(/```\n?/g, "")` no fence is left, not even one formed by the deletions. */
  lemma {:induction false} NoFenceAfterRemoval(t: string)
    ensures NoFence(RemoveMarker(t, Fence))
    decreases |t|
  {
    if t == [] {
    } else if Fence <= t {
      var rest := t[3..];
      if rest != [] && rest[0] == '\n' {
        NoFenceAfterRemoval(rest[1..]);
      } else {
        NoFenceAfterRemoval(rest);
      }
    } else {
      var tail := RemoveMarker(t[1..], Fence);
      var r := RemoveMarker(t, Fence);
      assert r == [t[0]] + tail;
      NoFenceAfterRemoval(t[1..]);
      RemovedFenceStart(t[1..]);
      assert |t| >= 3 && t[0] == '`' && t[1] == '`' && t[2] == '`' ==> Fence <= t;
      forall i: nat | i + 3 <= |r| ensures !FenceAt(r, i) {
        if i == 0 {
          assert r[1] == tail[0] && r[2] == tail[1];
        } else {
          assert FenceAt(r, i) == FenceAt(tail, i - 1);
        }
      }
    }
  }

  /** Text before the first backtick passes through the removal unchanged. */
  lemma {:induction false} RemoveMarkerSkipsPlainText(a: string, b: string, marker: string)
    requires marker != [] && marker[0] == '`'
    requires '`' !in a
    ensures RemoveMarker(a + b, marker) == a + RemoveMarker(b, marker)
  {
    if a != [] {
      assert (a + b)[0] == a[0];
      assert !(marker <= a + b);
      assert (a + b)[1..] == a[1..] + b;
      RemoveMarkerSkipsPlainText(a[1..], b, marker);
      assert [a[0]] + a[1..] == a;
    } else {
      assert a + b == b;
    }
  }

  /**
   * The text handed to `JSON.parse`: the trimmed reply, with ```json and ```
   * markers removed when it starts with a fence.
   */
  function StripFences(text: string): (r: string)
    ensures !(Fence <= Trim(text)) ==> r == Trim(text)
    ensures Fence <= Trim(text) ==> NoFence(r)
  {
    var t := Trim(text);
    if JsonFence <= t then
      NoFenceAfterRemoval(RemoveMarker(t, JsonFence));
      RemoveMarker(RemoveMarker(t, JsonFence), Fence)
    else if Fence <= t then
      NoFenceAfterRemoval(t);
      RemoveMarker(t, Fence)
    else t
  }

  lemma TrimKeeps(s: string)
    requires s != [] && !IsWhitespace(s[0]) && !IsWhitespace(s[|s| - 1])
    ensures Trim(s) == s
  {
    assert LeadingWhitespace(s) == 0;
  }

  /**
   * A reply wrapped in a ```json code block comes out as its body plus the
   * newline before the closing fence.
   */
  lemma StripJsonCodeBlock(body: string)
    requires '`' !in body
    ensures StripFences(JsonFence + "\n" + body + "\n" + Fence) == body + "\n"
  {
    var text := JsonFence + "\n" + body + "\n" + Fence;
    TrimKeeps(text);
    assert JsonFence <= text;
    assert text[|JsonFence|..] == "\n" + (body + "\n" + Fence);
    assert RemoveMarker(text, JsonFence) == RemoveMarker(body + "\n" + Fence, JsonFence);
    assert body + "\n" + Fence == (body + "\n") + Fence;
    RemoveMarkerSkipsPlainText(body + "\n", Fence, JsonFence);
    assert RemoveMarker(Fence, JsonFence) == Fence by {
      assert !(JsonFence <= Fence);
      assert !(JsonFence <= Fence[1..]) && !(JsonFence <= Fence[2..]);
      assert Fence[1..][1..] == Fence[2..] && Fence[2..][1..] == [];
    }
    RemoveMarkerSkipsPlainText(body + "\n", Fence, Fence);
    assert Fence[3..] == [];
    assert body + "\n" + [] == body + "\n";
  }

  /** The same for a reply wrapped in a bare ``` code block. */
  lemma StripPlainCodeBlock(body: string)
    requires '`' !in body
    ensures StripFences(Fence + "\n" + body + "\n" + Fence) == body + "\n"
  {
    var text := Fence + "\n" + body + "\n" + Fence;
    TrimKeeps(text);
    assert text[3] == '\n';
    assert !(JsonFence <= text);
    assert Fence <= text;
    assert text[3..] == "\n" + (body + "\n" + Fence);
    assert body + "\n" + Fence == (body + "\n") + Fence;
    RemoveMarkerSkipsPlainText(body + "\n", Fence, Fence);
    assert Fence[3..] == [];
    assert body + "\n" + [] == body + "\n";
  }

  // ---------------------------------------------------------------------------
  // the parsed reply and its schema
  // ---------------------------------------------------------------------------

  /** A value produced by `JSON.parse`. */
  datatype Json =
    | JNull
    | JBool(b: bool)
    | JNumber(n: real)
    | JString(s: string)
    | JArray(items: seq<Json>)
    | JObject(fields: map<string, Json>)

  /** One option of `pollOptionsSchema`. */
  datatype PollOption = PollOption(optionText: string, explanation: string, relatedOpinions: seq<real>)

  /** `AnalysisResult`: the validated reply. */
  datatype AnalysisResult = AnalysisResult(options: seq<PollOption>)

  /** The shape an option must have: two strings and an array of numbers. */
  predicate IsOptionShape(j: Json) {
    && j.JObject?
    && "option_text" in j.fields && j.fields["option_text"].JString?
    && "explanation" in j.fields && j.fields["explanation"].JString?
    && "related_opinions" in j.fields && j.fields["related_opinions"].JArray?
    && forall k :: 0 <= k < |j.fields["related_opinions"].items| ==> j.fields["related_opinions"].items[k].JNumber?
  }

  /** The shape `pollOptionsSchema` demands: an object whose "options" is an array of five options. */
  predicate WellShaped(j: Json) {
    && j.JObject?
    && "options" in j.fields && j.fields["options"].JArray?
    && |j.fields["options"].items| == 5
    && forall i :: 0 <= i < 5 ==> IsOptionShape(j.fields["options"].items[i])
  }

  /** `z.array(z.number())` on the items of an array. */
  function Numbers(items: seq<Json>): (r: Option<seq<real>>)
    ensures r.Some? <==> forall k :: 0 <= k < |items| ==> items[k].JNumber?
    ensures r.Some? ==> |r.value| == |items| && forall k :: 0 <= k < |items| ==> items[k] == JNumber(r.value[k])
  {
    if items == [] then Some([])
    else if !items[0].JNumber? then None
    else match Numbers(items[1..])
      case None => None
      case Some(rest) => Some([items[0].n] + rest)
  }

  /** The object schema of one option; unknown keys are ignored, as Zod strips them. */
  function ParseOption(j: Json): (r: Option<PollOption>)
    ensures r.Some? <==> IsOptionShape(j)
    ensures r.Some? ==>
      && j.fields["option_text"] == JString(r.value.optionText)
      && j.fields["explanation"] == JString(r.value.explanation)
      && j.fields["related_opinions"] == JArray(seq(|r.value.relatedOpinions|, k requires 0 <= k < |r.value.relatedOpinions| => JNumber(r.value.relatedOpinions[k])))
  {
    if !IsOptionShape(j) then None
    else
      var related := j.fields["related_opinions"].items;
      var numbers := Numbers(related).value;
      assert related == seq(|numbers|, k requires 0 <= k < |numbers| => JNumber(numbers[k]));
      Some(PollOption(j.fields["option_text"].s, j.fields["explanation"].s, numbers))
  }

  function ParseOptions(items: seq<Json>): (r: Option<seq<PollOption>>)
    ensures r.Some? <==> forall i :: 0 <= i < |items| ==> IsOptionShape(items[i])
    ensures r.Some? ==> |r.value| == |items| && forall i :: 0 <= i < |items| ==> ParseOption(items[i]) == Some(r.value[i])
  {
    if items == [] then Some([])
    else match (ParseOption(items[0]), ParseOptions(items[1..]))
      case (Some(o), Some(rest)) => Some([o] + rest)
      case _ => None
  }

  /** `pollOptionsSchema.parse`: the accepted result, or None when the shape is wrong. */
  function Validate(j: Json): (r: Option<AnalysisResult>)
    ensures r.Some? <==> WellShaped(j)
    ensures r.Some? ==> |r.value.options| == 5
    ensures r.Some? ==> forall i :: 0 <= i < 5 ==> ParseOption(j.fields["options"].items[i]) == Some(r.value.options[i])
  {
    if j.JObject? && "options" in j.fields && j.fields["options"].JArray? && |j.fields["options"].items| == 5 then
      match ParseOptions(j.fields["options"].items)
      case Some(options) => Some(AnalysisResult(options))
      case None => None
    else None
  }

  function OptionToJson(o: PollOption): Json {
    JObject(map[
      "option_text" := JString(o.optionText),
      "explanation" := JString(o.explanation),
      "related_opinions" := JArray(seq(|o.relatedOpinions|, k requires 0 <= k < |o.relatedOpinions| => JNumber(o.relatedOpinions[k])))])
  }

  /** The JSON text of a result, as the model is asked to write it. */
  function ToJson(a: AnalysisResult): Json {
    JObject(map["options" := JArray(seq(|a.options|, i requires 0 <= i < |a.options| => OptionToJson(a.options[i])))])
  }

  lemma ParseOptionToJson(o: PollOption)
    ensures ParseOption(OptionToJson(o)) == Some(o)
  {
    var j := OptionToJson(o);
    var ns := seq(|o.relatedOpinions|, k requires 0 <= k < |o.relatedOpinions| => JNumber(o.relatedOpinions[k]));
    assert j.fields["option_text"] == JString(o.optionText);
    assert j.fields["explanation"] == JString(o.explanation);
    assert j.fields["related_opinions"] == JArray(ns);
    assert IsOptionShape(j);
    var r := ParseOption(j).value;
    var rs := seq(|r.relatedOpinions|, k requires 0 <= k < |r.relatedOpinions| => JNumber(r.relatedOpinions[k]));
    assert JArray(rs) == JArray(ns);
    assert |r.relatedOpinions| == |o.relatedOpinions|;
    forall k | 0 <= k < |o.relatedOpinions| ensures r.relatedOpinions[k] == o.relatedOpinions[k] {
      assert rs[k] == ns[k];
    }
    assert r.relatedOpinions == o.relatedOpinions;
    assert r.optionText == o.optionText && r.explanation == o.explanation;
  }

  /** The schema accepts exactly the results with five options, and gives them back unchanged. */
  lemma ValidateToJson(a: AnalysisResult)
    ensures Validate(ToJson(a)) == if |a.options| == 5 then Some(a) else None
  {
    var j := ToJson(a);
    var items := seq(|a.options|, i requires 0 <= i < |a.options| => OptionToJson(a.options[i]));
    assert j.fields["options"] == JArray(items);
    forall i | 0 <= i < |a.options| ensures ParseOption(items[i]) == Some(a.options[i]) {
      ParseOptionToJson(a.options[i]);
    }
    if |a.options| == 5 {
      assert WellShaped(j);
      var r := Validate(j).value;
      assert |r.options| == 5;
      forall i | 0 <= i < 5 ensures r.options[i] == a.options[i] {
        assert ParseOption(items[i]) == Some(r.options[i]);
      }
      assert r.options == a.options;
    }
  }

  // ---------------------------------------------------------------------------
  // the analysis
  // ---------------------------------------------------------------------------

  /** What the generative-model call yields: a failure (network, quota, blocked reply) or text. */
  datatype Upstream = CallFailed | Replied(text: string)

  datatype AnalyzeError =
    | NoEntries   // thrown before anything else
    | Retry       // the single error every later failure becomes

  function ErrorMessage(e: AnalyzeError): string {
    match e
    case NoEntries => "意見が投稿されていません"
    case Retry => "意見の分析に失敗しました。もう一度お試しください。"
  }

  /**
   * `analyzeEntriesAndGeneratePolls(entries, roomTitle)`. `apiKey` is the
   * GOOGLE_GENERATIVE_AI_API_KEY setting, `model` answers a prompt and `parse`
   * stands for `JSON.parse` (None when it throws).
   */
  function AnalyzeEntries(entries: seq<string>, roomTitle: string, apiKey: Option<string>,
                          model: string -> Upstream, parse: string -> Option<Json>): (r: Result<AnalysisResult, AnalyzeError>)
    ensures r == Err(NoEntries) <==> entries == []
    ensures r.Err? && entries != [] ==> r.error == Retry
    ensures r.Ok? <==>
      && entries != []
      && apiKey.Some? && apiKey.value != ""
      && var reply := model(Prompt(entries, roomTitle));
         && reply.Replied?
         && parse(StripFences(reply.text)).Some?
         && WellShaped(parse(StripFences(reply.text)).value)
    ensures r.Ok? ==>
      && |r.value.options| == 5
      && Validate(parse(StripFences(model(Prompt(entries, roomTitle)).text)).value) == Some(r.value)
  {
    if entries == [] then Err(NoEntries)
    else if apiKey.None? || apiKey.value == "" then Err(Retry)
    else match model(Prompt(entries, roomTitle))
      case CallFailed => Err(Retry)
      case Replied(text) =>
        match parse(StripFences(text))
        case None => Err(Retry)
        case Some(j) =>
          match Validate(j)
          case None => Err(Retry)
          case Some(result) => Ok(result)
  }

  /** The empty-input guard comes first: with no entries neither the key, the model nor the parser matters. */
  lemma EmptyEntriesShortCircuit(roomTitle: string, apiKey1: Option<string>, apiKey2: Option<string>,
                                 model1: string -> Upstream, model2: string -> Upstream,
                                 parse1: string -> Option<Json>, parse2: string -> Option<Json>)
    ensures AnalyzeEntries([], roomTitle, apiKey1, model1, parse1) == AnalyzeEntries([], roomTitle, apiKey2, model2, parse2)
  {
  }
}
