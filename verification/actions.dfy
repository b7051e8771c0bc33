/** The three server actions: prompt construction, the agent call, extraction of an answer
    from the agent's result, and each action's fallbacks. The agent is a parameter: for a
    prompt it either resolves to some JavaScript value or rejects. */
module Actions {
  import opened Wrappers
  import Strings
  import JsValues
  import Edamam
  import NutritionTool

  /** What one `agent.generate(prompt)` call did. */
  datatype AgentOutcome = Generated(result: JsValues.JsValue) | Rejected

  const CouldNotGenerate := "回答を生成できませんでした。"

  const Apology := "申し訳ありません、エラーが発生しました。もう一度お試しください。"

  /** The fields tried for a textual answer, in the order they are tried. */
  const AnswerKeys: seq<string> := ["text", "value", "message", "output"]

  /** The position of the first key in `keys` under which `result` holds a string. */
  function FirstStringKey(result: JsValues.JsValue, keys: seq<string>): (r: Option<nat>)
    ensures r.None? <==> forall i :: 0 <= i < |keys| ==> JsValues.StringProperty(result, keys[i]).None?
    ensures r.Some? ==> r.value < |keys| && JsValues.StringProperty(result, keys[r.value]).Some?
    ensures r.Some? ==> forall j :: 0 <= j < r.value ==> JsValues.StringProperty(result, keys[j]).None?
  {
    if |keys| == 0 then None
    else if JsValues.StringProperty(result, keys[0]).Some? then Some(0)
    else match FirstStringKey(result, keys[1..])
      case None => None
      case Some(i) => Some(i + 1)
  }

  /** The string under the first such key. */
  function FirstStringProperty(result: JsValues.JsValue, keys: seq<string>): Option<string>
  {
    match FirstStringKey(result, keys)
    case None => None
    case Some(i) => JsValues.StringProperty(result, keys[i])
  }

  /** How the shared extraction block ends: with an answer, by falling through to the
      action's own fallback, or by throwing into the action's catch block. */
  datatype Extraction = Answer(text: string) | NoAnswer | Threw

  /** The extraction block shared by the three actions. Only an object result is examined;
      its debug log serialises it first, which throws on a BigInt; then the first string
      among `text`, `value`, `message`, `output` wins; failing that, the result's JSON text
      unless it is `{}`. */
  function ExtractAnswer(result: JsValues.JsValue): (e: Extraction)
    ensures !JsValues.IsObject(result) ==> e == NoAnswer
    ensures JsValues.IsObject(result) ==> (e == Threw <==> JsValues.HasBigInt(result))
    ensures JsValues.IsObject(result) && !JsValues.HasBigInt(result) ==>
              match FirstStringProperty(result, AnswerKeys)
              case Some(text) => e == Answer(text)
              case None =>
                var json := JsValues.Serialise(result).json;
                e == (if json == "{}" then NoAnswer else Answer(json))
  {
    if !JsValues.IsObject(result) then NoAnswer
    else match JsValues.Serialise(result)
      case Thrown => Threw
      case Omitted => assert false; NoAnswer
      case Text(json) =>
        match FirstStringProperty(result, AnswerKeys)
        case Some(text) => Answer(text)
        case None =>
          ObjectMarkerNeverMatches(result);
          if json != "{}" && json != "[object Object]" then Answer(json) else NoAnswer
  }

  /** The `"[object Object]"` comparison never fires: no JSON text of an object or array is that string. */
  lemma ObjectMarkerNeverMatches(result: JsValues.JsValue)
    requires JsValues.IsObject(result) && JsValues.Serialise(result).Text?
    ensures JsValues.Serialise(result).json != "[object Object]"
  {
    var json := JsValues.Serialise(result).json;
    var marker := "[object Object]";
    if result.Arr? && |result.items| > 0 {
      assert !JsValues.StartsJsonValue(marker[1]);
    }
  }

  /** An action's result: the extracted answer, `fallback` when there is none, and
      `onError` when the agent call rejects or the extraction throws. */
  function Respond(outcome: AgentOutcome, fallback: string, onError: string): (r: string)
    ensures outcome.Rejected? ==> r == onError
    ensures outcome.Generated? && !JsValues.IsObject(outcome.result) ==> r == fallback
    ensures outcome.Generated? && JsValues.IsObject(outcome.result) && JsValues.HasBigInt(outcome.result)
            ==> r == onError
    ensures outcome.Generated? && ExtractAnswer(outcome.result).Answer?
            ==> r == ExtractAnswer(outcome.result).text
    ensures outcome.Generated? && ExtractAnswer(outcome.result).NoAnswer? ==> r == fallback
  {
    match outcome
    case Rejected => onError
    case Generated(result) =>
      match ExtractAnswer(result)
      case Answer(text) => text
      case NoAnswer => fallback
      case Threw => onError
  }

  const QuickInstruction := "以下の質問に対して、簡潔で実用的な健康アドバイスを提供してください：\n"

  /** The quick prompt: the instruction line, then the question verbatim. */
  function QuickPrompt(healthQuery: string): (p: string)
    ensures QuickInstruction <= p && p[|QuickInstruction|..] == healthQuery
  {
    assert (QuickInstruction + healthQuery)[|QuickInstruction|..] == healthQuery;
    QuickInstruction + healthQuery
  }

  /** Prompts for different questions differ: the question is recoverable from its prompt. */
  lemma QuickPromptInjective(a: string, b: string)
    ensures QuickPrompt(a) == QuickPrompt(b) ==> a == b
  {
  }

  /** `getQuickHealthTip`: the agent's answer to the quick prompt, the could-not-generate
      sentinel when there is none, the apology when anything throws. */
  function GetQuickHealthTip(generate: string -> AgentOutcome, healthQuery: string): (r: string)
    ensures generate(QuickPrompt(healthQuery)).Rejected? ==> r == Apology
    ensures generate(QuickPrompt(healthQuery)).Generated? ==>
              var result := generate(QuickPrompt(healthQuery)).result;
              && (!JsValues.IsObject(result) ==> r == CouldNotGenerate)
              && (JsValues.IsObject(result) && JsValues.HasBigInt(result) ==> r == Apology)
              && ((JsValues.IsObject(result) && !JsValues.HasBigInt(result)
                   && JsValues.StringProperty(result, "text").Some?)
                  ==> r == JsValues.StringProperty(result, "text").value)
              && (ExtractAnswer(result).Answer? ==> r == ExtractAnswer(result).text)
              && (ExtractAnswer(result).NoAnswer? ==> r == CouldNotGenerate)
  {
    Respond(generate(QuickPrompt(healthQuery)), CouldNotGenerate, Apology)
  }

  /** The optional fields of a plan request; an absent or empty field is left out of the prompt. */
  datatype PlanRequest = PlanRequest(
    diet: Option<string>,
    exercise: Option<string>,
    goal: Option<string>,
    generalInfo: Option<string>)

  const PlanHeader := "健康状態の分析と改善プランを作成してください。\n"

  const PlanClosing := "\n具体的なアドバイスと、実行可能な改善プランを提案してください。"

  function SectionLine(title: string, value: string): string {
    "【" + title + "】: " + value + "\n"
  }

  /** A JavaScript string field is truthy when it is present and non-empty. */
  predicate Truthy(field: Option<string>) {
    field.Some? && field.value != ""
  }

  function Section(title: string, field: Option<string>): string {
    if Truthy(field) then SectionLine(title, field.value) else ""
  }

  /** The sections of the plan prompt, one per truthy field in the fixed order. */
  function Sections(req: PlanRequest): string {
    Section("食事内容", req.diet)
    + Section("運動習慣", req.exercise)
    + Section("目標", req.goal)
    + Section("その他情報", req.generalInfo)
  }

  /** The plan prompt, built up section by section as the action appends to it: it opens with
      the header and ends with the closing request whatever the fields hold. */
  function PlanPrompt(req: PlanRequest): (p: string)
    ensures PlanHeader <= p && Strings.EndsWith(p, PlanClosing)
  {
    Bracketed(PlanHeader, Sections(req), PlanClosing);
    PlanHeader + Sections(req) + PlanClosing
  }

  /** Text between a head and a tail begins with the head and ends with the tail. */
  lemma Bracketed(head: string, middle: string, tail: string)
    ensures head <= head + middle + tail && Strings.EndsWith(head + middle + tail, tail)
  {
    assert (head + middle + tail)[..|head|] == head;
    Strings.EndsWithAppend(head + middle, tail);
  }

  /** The request's fields with their section titles, in the fixed order. */
  function TitledFields(req: PlanRequest): seq<(string, Option<string>)> {
    [("食事内容", req.diet), ("運動習慣", req.exercise), ("目標", req.goal), ("その他情報", req.generalInfo)]
  }

  /** The titled values of the truthy fields, keeping their order. */
  function Present(fields: seq<(string, Option<string>)>): (r: seq<(string, string)>)
    ensures |r| <= |fields|
    ensures forall i :: 0 <= i < |r| ==> r[i].1 != ""
  {
    if |fields| == 0 then []
    else
      var rest := Present(fields[1..]);
      if Truthy(fields[0].1) then [(fields[0].0, fields[0].1.value)] + rest else rest
  }

  function SectionLines(sections: seq<(string, string)>): string {
    if |sections| == 0 then "" else SectionLine(sections[0].0, sections[0].1) + SectionLines(sections[1..])
  }

  lemma PresentCons(field: (string, Option<string>), rest: seq<(string, Option<string>)>)
    ensures SectionLines(Present([field] + rest)) == Section(field.0, field.1) + SectionLines(Present(rest))
  {
    assert ([field] + rest)[1..] == rest;
  }

  lemma PresentFour(a: (string, Option<string>), b: (string, Option<string>),
                    c: (string, Option<string>), d: (string, Option<string>))
    ensures SectionLines(Present([a, b, c, d]))
            == Section(a.0, a.1) + Section(b.0, b.1) + Section(c.0, c.1) + Section(d.0, d.1)
  {
    ListFour(a, b, c, d);
    PresentCons(d, []);
    PresentCons(c, [d]);
    PresentCons(b, [c, d]);
    PresentCons(a, [b, c, d]);
    assert SectionLines(Present([])) == "";
    Assoc4(Section(a.0, a.1), Section(b.0, b.1), Section(c.0, c.1), Section(d.0, d.1));
  }

  /** Four pieces appended from the right, then an empty one, regrouped from the left. */
  lemma Assoc4(a: string, b: string, c: string, d: string)
    ensures a + (b + (c + (d + ""))) == a + b + c + d
  {
    assert d + "" == d;
  }

  /** A four-element list taken apart from the front. */
  lemma ListFour<T>(a: T, b: T, c: T, d: T)
    ensures [a, b, c, d] == [a] + [b, c, d] && [b, c, d] == [b] + [c, d]
    ensures [c, d] == [c] + [d] && [d] == [d] + []
  {
  }

  /** The plan prompt is the header, one line per truthy field in the fixed order, and the closing. */
  lemma PlanPromptListsPresentFields(req: PlanRequest)
    ensures PlanPrompt(req) == PlanHeader + SectionLines(Present(TitledFields(req))) + PlanClosing
  {
    var fields := TitledFields(req);
    PresentFour(fields[0], fields[1], fields[2], fields[3]);
    assert fields == [fields[0], fields[1], fields[2], fields[3]];
  }

  /** A request without truthy fields yields only the header and the closing. */
  lemma PlanPromptWithoutFields(req: PlanRequest)
    requires !Truthy(req.diet) && !Truthy(req.exercise) && !Truthy(req.goal) && !Truthy(req.generalInfo)
    ensures PlanPrompt(req) == PlanHeader + PlanClosing
  {
    assert Sections(req) == "" + "" + "" + "" == "";
    assert PlanHeader + "" == PlanHeader;
  }

  /** A request with only a goal yields exactly one section, the goal's. */
  lemma PlanPromptGoalOnly(goal: string)
    requires goal != ""
    ensures PlanPrompt(PlanRequest(None, None, Some(goal), None))
            == PlanHeader + "【目標】: " + goal + "\n" + PlanClosing
  {
  }

  /** `getHealthPlan`: as the quick action, for the plan prompt. */
  function GetHealthPlan(generate: string -> AgentOutcome, req: PlanRequest): (r: string)
    ensures generate(PlanPrompt(req)).Rejected? ==> r == Apology
    ensures generate(PlanPrompt(req)).Generated? ==>
              var result := generate(PlanPrompt(req)).result;
              && (!JsValues.IsObject(result) ==> r == CouldNotGenerate)
              && (JsValues.IsObject(result) && JsValues.HasBigInt(result) ==> r == Apology)
              && ((JsValues.IsObject(result) && !JsValues.HasBigInt(result)
                   && JsValues.StringProperty(result, "text").Some?)
                  ==> r == JsValues.StringProperty(result, "text").value)
              && (ExtractAnswer(result).Answer? ==> r == ExtractAnswer(result).text)
              && (ExtractAnswer(result).NoAnswer? ==> r == CouldNotGenerate)
  {
    Respond(generate(PlanPrompt(req)), CouldNotGenerate, Apology)
  }

  const NutritionQuestion := "の栄養成分情報を教えてください。"

  const UseToolRequest := "ツールを使用してください。"

  /** The nutrition prompt: the food name in 「」, the question, and the instruction to use the
      nutrition tool, which the prompt names as `nutrition_lookup`. It opens by quoting the food. */
  function NutritionPrompt(foodItem: string): (p: string)
    ensures "「" + foodItem + "」" <= p
    ensures Strings.EndsWith(p, UseToolRequest)
  {
    var quoted := "「" + foodItem + "」";
    Bracketed(quoted, NutritionQuestion + "nutrition_lookup", UseToolRequest);
    assert quoted + (NutritionQuestion + "nutrition_lookup") + UseToolRequest
        == quoted + NutritionQuestion + "nutrition_lookup" + UseToolRequest;
    quoted + NutritionQuestion + "nutrition_lookup" + UseToolRequest
  }

  /** The nutrition prompt asks for the tool by its name, which is also the key the health
      agent registers it under. */
  lemma NutritionPromptNamesTool(foodItem: string)
    ensures Strings.Includes(NutritionPrompt(foodItem), NutritionTool.Name)
    ensures Strings.Includes(NutritionPrompt(foodItem), NutritionTool.AgentToolKey)
  {
    var before := "「" + foodItem + "」" + NutritionQuestion;
    Strings.IncludesMiddle(before, "nutrition_lookup", UseToolRequest);
  }

  /** The error `getNutritionInfo` throws for an empty food name. */
  datatype ActionError = ActionError(message: string)

  const MissingFoodName := ActionError("食品名が指定されていません")

  /** `getNutritionInfo`: an empty name throws before anything else; otherwise the agent's
      answer to the nutrition prompt, with the mock report on that food whenever there is
      no answer or anything throws. */
  function GetNutritionInfo(generate: string -> AgentOutcome, foodItem: string): (r: Result<string, ActionError>)
    ensures r.Failure? <==> foodItem == ""
    ensures r.Failure? ==> r.error == MissingFoodName
    ensures foodItem != "" && generate(NutritionPrompt(foodItem)).Rejected? ==>
              r == Success(Edamam.GetMockNutritionInfo(foodItem))
    ensures foodItem != "" && generate(NutritionPrompt(foodItem)).Generated? ==>
              var e := ExtractAnswer(generate(NutritionPrompt(foodItem)).result);
              r == Success(if e.Answer? then e.text else Edamam.GetMockNutritionInfo(foodItem))
  {
    if foodItem == "" then Failure(MissingFoodName)
    else
      var mock := Edamam.GetMockNutritionInfo(foodItem);
      Success(Respond(generate(NutritionPrompt(foodItem)), mock, mock))
  }

  /** An empty food name is rejected before the agent is consulted: the agent does not matter. */
  lemma EmptyFoodNameIgnoresAgent(g1: string -> AgentOutcome, g2: string -> AgentOutcome)
    ensures GetNutritionInfo(g1, "") == GetNutritionInfo(g2, "")
  {
  }

  lemma GetSkipsOtherKey(p: JsValues.Property, rest: seq<JsValues.Property>, key: string)
    requires p.key != key
    ensures JsValues.Get([p] + rest, key) == JsValues.Get(rest, key)
  {
    assert ([p] + rest)[1..] == rest;
  }

  /** `text` is preferred to a string `value` listed before it. */
  lemma TextPreferredToValue(text: string)
    ensures ExtractAnswer(JsValues.Obj([
              JsValues.Property("value", JsValues.Str("v")),
              JsValues.Property("text", JsValues.Str(text))])) == Answer(text)
  {
    var text1 := JsValues.Property("text", JsValues.Str(text));
    assert "value"[0] != "text"[0];
    GetSkipsOtherKey(JsValues.Property("value", JsValues.Str("v")), [text1], "text");
  }

  /** A numeric `value` is skipped and the string `message` is the answer. */
  lemma NonStringValueSkipped(message: string)
    ensures ExtractAnswer(JsValues.Obj([
              JsValues.Property("value", JsValues.Num(7)),
              JsValues.Property("message", JsValues.Str(message))])) == Answer(message)
  {
    var v := JsValues.Property("value", JsValues.Num(7));
    var m := JsValues.Property("message", JsValues.Str(message));
    var obj := JsValues.Obj([v, m]);
    assert "value"[0] != "text"[0] && "message"[0] != "text"[0] && "message"[0] != "value"[0];
    GetSkipsOtherKey(v, [m], "text");
    GetSkipsOtherKey(m, [], "text");
    GetSkipsOtherKey(v, [m], "message");
    assert !JsValues.HasBigInt(obj);
    MessageAnswers(obj, message);
  }

  /** An object with no string `text` or `value` but a string `message` answers with it. */
  lemma MessageAnswers(obj: JsValues.JsValue, message: string)
    requires obj.Obj? && !JsValues.HasBigInt(obj)
    requires JsValues.StringProperty(obj, "text").None? && JsValues.StringProperty(obj, "value").None?
    requires JsValues.StringProperty(obj, "message") == Some(message)
    ensures ExtractAnswer(obj) == Answer(message)
  {
    assert AnswerKeys[0] == "text" && AnswerKeys[1] == "value" && AnswerKeys[2] == "message";
    assert FirstStringKey(obj, AnswerKeys) == Some(2);
  }

  /** `null` and non-object results have no answer. */
  lemma NonObjectHasNoAnswer(text: string)
    ensures ExtractAnswer(JsValues.Null) == NoAnswer
    ensures ExtractAnswer(JsValues.Str(text)) == NoAnswer
  {
  }

  /** `{}` serialises to `{}`: no answer. */
  lemma EmptyObjectHasNoAnswer()
    ensures ExtractAnswer(JsValues.Obj([])) == NoAnswer
  {
  }

  /** An `output` that is `undefined` is no answer, and it is left out of the JSON text. */
  lemma UndefinedOutputHasNoAnswer()
    ensures ExtractAnswer(JsValues.Obj([JsValues.Property("output", JsValues.Undefined)])) == NoAnswer
  {
    var u := JsValues.Obj([JsValues.Property("output", JsValues.Undefined)]);
    assert JsValues.StringProperty(u, "output").None?;
    assert FirstStringKey(u, AnswerKeys).None?;
  }

  /** An empty array serialises to `[]`, which is returned as the answer. */
  lemma EmptyArrayAnswersBrackets()
    ensures ExtractAnswer(JsValues.Arr([])) == Answer("[]")
  {
  }

  /** A BigInt beside a string `text` makes the debug log throw: the text is not returned. */
  lemma BigIntMasksText(text: string)
    ensures ExtractAnswer(JsValues.Obj([
              JsValues.Property("text", JsValues.Str(text)),
              JsValues.Property("usage", JsValues.BigInt(1))])) == Threw
  {
    var withBig := JsValues.Obj([JsValues.Property("text", JsValues.Str(text)), JsValues.Property("usage", JsValues.BigInt(1))]);
    assert JsValues.HasBigInt(withBig.props[1].value);
  }
}
