/** The nutrition lookup tool the health agent may call: its name, its declared parameter
    schema, and its execute step. */
module NutritionTool {
  import opened Wrappers
  import Strings
  import JsValues
  import Edamam

  const Name := "nutrition_lookup"

  const Description := "食品の栄養成分情報を検索します。ユーザーが特定の食品について質問した場合に使用します。"

  /** The key under which the health agent registers this tool. */
  const AgentToolKey := "nutrition_lookup"

  datatype JsonType = StringType

  datatype ParameterSpec = ParameterSpec(name: string, kind: JsonType, description: string)

  /** An object parameter schema: its declared properties and the names it requires. */
  datatype ParameterSchema = ParameterSchema(properties: seq<ParameterSpec>, required: seq<string>)

  const Parameters := ParameterSchema(
    [ParameterSpec("foodItem", StringType, "栄養成分を検索したい食品名（例：りんご、バナナ、鶏胸肉など）")],
    ["foodItem"])

  predicate HasType(v: JsValues.JsValue, kind: JsonType) {
    match kind
    case StringType => v.Str?
  }

  /** JSON Schema reading of a parameter schema: the arguments form an object holding every
      required property, and each declared property present has its declared type. Other
      properties are allowed. */
  predicate Conforms(schema: ParameterSchema, args: JsValues.JsValue) {
    && args.Obj?
    && (forall i :: 0 <= i < |schema.required| ==> JsValues.Get(args.props, schema.required[i]).Some?)
    && (forall i :: 0 <= i < |schema.properties| ==>
          var spec := schema.properties[i];
          var found := JsValues.Get(args.props, spec.name);
          found.Some? ==> HasType(found.value, spec.kind))
  }

  /** The arguments the tool accepts are exactly the objects whose `foodItem` is a string. */
  lemma ConformsIffFoodItemString(args: JsValues.JsValue)
    ensures Conforms(Parameters, args) <==> JsValues.StringProperty(args, "foodItem").Some?
  {
    assert |Parameters.required| == 1 && Parameters.required[0] == "foodItem";
    assert |Parameters.properties| == 1 && Parameters.properties[0].name == "foodItem";
    assert Parameters.properties[0].kind == StringType;
  }

  function FailureMessage(foodItem: string): string {
    "「" + foodItem + "」" + FailureAdvice
  }

  const FailureAdvice := "の栄養成分情報の取得に失敗しました。別の食品名で試してみてください。"

  /** The failure message quotes the food name in 「」. */
  lemma FailureMessageQuotesFood(foodItem: string)
    ensures Strings.Includes(FailureMessage(foodItem), "「" + foodItem + "」")
  {
  }

  /** The tool's catch block: the text of a lookup that returned is passed on untouched; a
      lookup that threw (None) becomes a message that opens by quoting the food in 「」 and
      closes with the advice to try another name. */
  function Guarded(attempt: Option<string>, foodItem: string): (r: string)
    ensures attempt.Some? ==> r == attempt.value
    ensures attempt.None? ==> "「" + foodItem + "」" <= r && Strings.EndsWith(r, FailureAdvice)
  {
    match attempt
    case Some(text) => text
    case None => FailureMessage(foodItem)
  }

  /** `execute({foodItem})`: the mock report for the food; the mock lookup is total, so the
      failure message is never produced. */
  function Execute(foodItem: string): (r: string)
    ensures r == Edamam.GetMockNutritionInfo(foodItem)
    ensures r != FailureMessage(foodItem)
  {
    assert FailureMessage(foodItem)[0] == '「';
    Guarded(Some(Edamam.GetMockNutritionInfo(foodItem)), foodItem)
  }
}
