/** Nutrition data shapes, the report formatter for a food-database response, and the
    fixed mock table every nutrition path of the application actually uses. */
module Edamam {
  import opened Wrappers
  import Strings
  import Decimal

  datatype Nutrients = Nutrients(
    energyKcal: real,
    protein: real,
    fat: real,
    carbohydrate: real,
    fibre: Option<real>)

  datatype NutritionInfo = NutritionInfo(
    foodId: string,
    foodLabel: string,
    nutrients: Nutrients,
    category: string,
    categoryLabel: string,
    image: Option<string>)

  datatype FoodMatch = FoodMatch(food: NutritionInfo)

  /** A food-database parser response: the query text and two candidate lists. */
  datatype NutritionResponse = NutritionResponse(
    text: string,
    parsed: seq<FoodMatch>,
    hints: seq<FoodMatch>)

  function HeaderLine(name: string): string {
    "【" + name + "】の栄養成分情報:"
  }

  /** The seven report lines both renderings share; the fibre line is blank when absent. */
  function ReportLines(
    foodLabel: string, energy: string, protein: string, fat: string,
    carbohydrate: string, fibre: Option<string>, category: string): (lines: seq<string>)
    ensures |lines| == 7
  {
    [ HeaderLine(foodLabel),
      "・カロリー: " + energy + " kcal",
      "・タンパク質: " + protein + " g",
      "・脂質: " + fat + " g",
      "・炭水化物: " + carbohydrate + " g",
      if fibre.Some? then "・食物繊維: " + fibre.value + " g" else "",
      "・カテゴリ: " + category ]
  }

  function NotFoundMessage(query: string): string {
    "「" + query + "」の栄養成分情報は見つかりませんでした。"
  }

  /** The food a response is reported on: the first parsed entry, else the first hint. */
  function BestMatch(data: NutritionResponse): Option<NutritionInfo>
  {
    if |data.parsed| > 0 then Some(data.parsed[0].food)
    else if |data.hints| > 0 then Some(data.hints[0].food)
    else None
  }

  /** A JavaScript number is truthy unless it is zero (NaN is not modelled). */
  predicate HasFibre(n: Nutrients) {
    n.fibre.Some? && n.fibre.value != 0.0
  }

  /** The lines of the report on one food; `fixed1` stands for `toFixed(1)` on API numbers. */
  function FoodLines(food: NutritionInfo, fixed1: real -> string): seq<string>
  {
    var n := food.nutrients;
    [""] + ReportLines(
      food.foodLabel, fixed1(n.energyKcal), fixed1(n.protein), fixed1(n.fat), fixed1(n.carbohydrate),
      if HasFibre(n) then Some(fixed1(n.fibre.value)) else None,
      if food.categoryLabel != "" then food.categoryLabel else food.category)
    + [""]
  }

  function FormatLines(data: NutritionResponse, fixed1: real -> string): seq<string>
  {
    match BestMatch(data)
    case None => [NotFoundMessage(data.text)]
    case Some(food) => FoodLines(food, fixed1)
  }

  /** `formatNutritionInfo`: the not-found message exactly when both candidate lists are empty;
      otherwise the report on the best match, which opens with a line break. */
  function FormatNutritionInfo(data: NutritionResponse, fixed1: real -> string): (r: string)
    ensures r == NotFoundMessage(data.text) <==> |data.parsed| == 0 && |data.hints| == 0
    ensures BestMatch(data).Some? ==> 0 < |r| && r[0] == '\n'
  {
    var lines := FormatLines(data, fixed1);
    if BestMatch(data).Some? then
      JoinLeadingBlank(lines);
      assert NotFoundMessage(data.text)[0] == '「';
      Strings.Join(lines, '\n')
    else
      Strings.Join(lines, '\n')
  }

  /** Lines that start with an empty one join into text that starts with a line break. */
  lemma JoinLeadingBlank(lines: seq<string>)
    requires |lines| >= 2 && lines[0] == ""
    ensures 0 < |Strings.Join(lines, '\n')| && Strings.Join(lines, '\n')[0] == '\n'
  {
    assert Strings.Join(lines, '\n') == "" + ['\n'] + Strings.Join(lines[1..], '\n');
  }

  /** Otherwise the report names the first parsed food, falling back to the first hint, prints
      its four amounts with `fixed1` and their units, has a fibre line only for a non-zero fibre
      amount, and shows the category label unless it is empty; a blank line opens and closes it. */
  lemma FormatReportsBestMatch(data: NutritionResponse, fixed1: real -> string)
    requires |data.parsed| > 0 || |data.hints| > 0
    ensures var food := if |data.parsed| > 0 then data.parsed[0].food else data.hints[0].food;
            var n := food.nutrients;
            var lines := FormatLines(data, fixed1);
            && |lines| == 9 && lines[0] == "" && lines[8] == ""
            && lines[1] == HeaderLine(food.foodLabel)
            && lines[2] == "・カロリー: " + fixed1(n.energyKcal) + " kcal"
            && lines[3] == "・タンパク質: " + fixed1(n.protein) + " g"
            && lines[4] == "・脂質: " + fixed1(n.fat) + " g"
            && lines[5] == "・炭水化物: " + fixed1(n.carbohydrate) + " g"
            && (HasFibre(n) ==> lines[6] == "・食物繊維: " + fixed1(n.fibre.value) + " g")
            && (lines[6] == "" <==> !HasFibre(n))
            && lines[7] == "・カテゴリ: " + (if food.categoryLabel != "" then food.categoryLabel else food.category)
  {
  }

  /** Read back line by line, the formatted text gives exactly those lines, provided no shown
      field and no printed amount holds a line feed. */
  lemma FormatReadsBackAsLines(data: NutritionResponse, fixed1: real -> string)
    requires forall x :: '\n' !in fixed1(x)
    requires BestMatch(data).None? ==> '\n' !in data.text
    requires BestMatch(data).Some? ==> var food := BestMatch(data).value;
             '\n' !in food.foodLabel && '\n' !in food.category && '\n' !in food.categoryLabel
    ensures Strings.Split(FormatNutritionInfo(data, fixed1), '\n') == FormatLines(data, fixed1)
  {
    var lines := FormatLines(data, fixed1);
    match BestMatch(data)
    case None =>
      assert NotFoundMessage(data.text) == "「" + data.text + "」の栄養成分情報は見つかりませんでした。";
      Strings.SplitJoin(lines, '\n');
    case Some(food) =>
      var n := food.nutrients;
      var fibre := if HasFibre(n) then Some(fixed1(n.fibre.value)) else None;
      var category := if food.categoryLabel != "" then food.categoryLabel else food.category;
      var report := ReportLines(
        food.foodLabel, fixed1(n.energyKcal), fixed1(n.protein), fixed1(n.fat),
        fixed1(n.carbohydrate), fibre, category);
      ReportLinesHaveNoBreak(
        food.foodLabel, fixed1(n.energyKcal), fixed1(n.protein), fixed1(n.fat),
        fixed1(n.carbohydrate), fibre, category);
      assert lines == [""] + report + [""];
      FramedHaveNoBreak(report);
      Strings.SplitJoin(lines, '\n');
  }

  /** Lines free of line feeds stay so between two empty lines. */
  lemma FramedHaveNoBreak(report: seq<string>)
    requires forall i :: 0 <= i < |report| ==> '\n' !in report[i]
    ensures forall i :: 0 <= i < |[""] + report + [""]| ==> '\n' !in ([""] + report + [""])[i]
  {
  }

  /** Dropping the fibre amount blanks the fibre line and leaves every other line as it was. */
  lemma FibreLineOnly(food: NutritionInfo, fixed1: real -> string)
    ensures FoodLines(food.(nutrients := food.nutrients.(fibre := None)), fixed1)
            == FoodLines(food, fixed1)[6 := ""]
  {
  }

  /** A mock table entry; amounts are in tenths (every table value has one decimal). */
  datatype MockFood = MockFood(
    foodLabel: string,
    energyKcal: nat,
    protein: nat,
    fat: nat,
    carbohydrate: nat,
    fibre: Option<nat>,
    categoryLabel: string)

  /** The mock table in its definition order, keyed by food name. */
  const MockTable: seq<(string, MockFood)> := [
    ("りんご", MockFood("りんご", 520, 3, 2, 140, Some(24), "果物")),
    ("バナナ", MockFood("バナナ", 890, 11, 3, 228, Some(26), "果物")),
    ("鶏胸肉", MockFood("鶏胸肉", 1650, 310, 36, 0, None, "肉類")),
    ("玄米", MockFood("玄米", 3620, 75, 27, 762, Some(35), "穀物")),
    ("ブロッコリー", MockFood("ブロッコリー", 340, 28, 4, 66, Some(26), "野菜"))
  ]

  const Disclaimer := "※注意: これはデモ用のモックデータです。実際の値とは異なる場合があります。"

  /** The query contains the name or the name contains the query (case-sensitive). */
  predicate NameMatches(query: string, name: string) {
    Strings.Includes(query, name) || Strings.Includes(name, query)
  }

  /** The first table position at or after `from` whose name matches the query. */
  function FindFrom(query: string, from: nat): (r: Option<nat>)
    requires from <= |MockTable|
    ensures r.Some? ==> from <= r.value < |MockTable| && NameMatches(query, MockTable[r.value].0)
    ensures r.Some? ==> forall j :: from <= j < r.value ==> !NameMatches(query, MockTable[j].0)
    ensures r.None? ==> forall j :: from <= j < |MockTable| ==> !NameMatches(query, MockTable[j].0)
    decreases |MockTable| - from
  {
    if from == |MockTable| then None
    else if NameMatches(query, MockTable[from].0) then Some(from)
    else FindFrom(query, from + 1)
  }

  /** The entry the mock selects: the first matching name in table order, else the first entry. */
  function MockIndex(query: string): (i: nat)
    ensures i < |MockTable|
    ensures forall j :: 0 <= j < i ==> !NameMatches(query, MockTable[j].0)
    ensures NameMatches(query, MockTable[i].0) || (i == 0 && forall j :: 0 <= j < |MockTable| ==> !NameMatches(query, MockTable[j].0))
  {
    match FindFrom(query, 0)
    case Some(i) => i
    case None => 0
  }

  /** The lines of the mock report on one entry: the shared report lines, a blank line,
      the disclaimer, and a final empty line. */
  function MockLines(food: MockFood): seq<string>
  {
    [""] + ReportLines(
      food.foodLabel, Decimal.Fixed1(food.energyKcal), Decimal.Fixed1(food.protein),
      Decimal.Fixed1(food.fat), Decimal.Fixed1(food.carbohydrate),
      if food.fibre.Some? && food.fibre.value != 0 then Some(Decimal.Fixed1(food.fibre.value)) else None,
      food.categoryLabel)
    + ["", Disclaimer, ""]
  }

  /** `getMockNutritionInfo`: the report on the selected entry, which opens with a line break
      and closes with the disclaimer and a line break, whatever the query. */
  function GetMockNutritionInfo(query: string): (r: string)
    ensures 0 < |r| && r[0] == '\n'
    ensures Strings.EndsWith(r, Disclaimer + "\n")
  {
    var food := MockTable[MockIndex(query)].1;
    JoinLeadingBlank(MockLines(food));
    MockFoodEndsWithDisclaimer(food);
    MockReport(food)
  }

  /** The mock report on one entry. */
  function MockReport(food: MockFood): string
  {
    Strings.Join(MockLines(food), '\n')
  }

  /** The table's keys are distinct, as the keys of an object literal are. */
  lemma MockKeysDistinct()
    ensures forall i, j :: 0 <= i < j < |MockTable| ==> MockTable[i].0 != MockTable[j].0
  {
    assert |MockTable| == 5;
  }

  /** Each entry's label is its key. */
  lemma MockLabelsAreKeys()
    ensures forall i :: 0 <= i < |MockTable| ==> MockTable[i].1.foodLabel == MockTable[i].0
  {
  }

  lemma Fixed1HasNoBreak(tenths: nat)
    ensures '\n' !in Decimal.Fixed1(tenths)
  {
    var r := Decimal.Fixed1(tenths);
    forall k | 0 <= k < |r|
      ensures r[k] != '\n'
    {
      if k < |r| - 2 {
        assert r[k] == r[..|r| - 2][k];
      }
    }
  }

  lemma ReportLinesHaveNoBreak(
    name: string, energy: string, protein: string, fat: string,
    carbohydrate: string, fibre: Option<string>, category: string)
    requires '\n' !in name && '\n' !in energy && '\n' !in protein && '\n' !in fat
    requires '\n' !in carbohydrate && '\n' !in category
    requires fibre.Some? ==> '\n' !in fibre.value
    ensures forall i :: 0 <= i < 7 ==> '\n' !in ReportLines(name, energy, protein, fat, carbohydrate, fibre, category)[i]
  {
  }

  lemma MockTableHasNoBreak(i: nat)
    requires i < |MockTable|
    ensures '\n' !in MockTable[i].1.foodLabel && '\n' !in MockTable[i].1.categoryLabel
  {
  }

  lemma MockLinesHaveNoBreak(food: MockFood)
    requires '\n' !in food.foodLabel && '\n' !in food.categoryLabel
    ensures |MockLines(food)| == 11
    ensures forall i :: 0 <= i < 11 ==> '\n' !in MockLines(food)[i]
  {
    Fixed1HasNoBreak(food.energyKcal);
    Fixed1HasNoBreak(food.protein);
    Fixed1HasNoBreak(food.fat);
    Fixed1HasNoBreak(food.carbohydrate);
    var fibre := if food.fibre.Some? && food.fibre.value != 0 then Some(Decimal.Fixed1(food.fibre.value)) else None;
    if food.fibre.Some? {
      Fixed1HasNoBreak(food.fibre.value);
    }
    ReportLinesHaveNoBreak(
      food.foodLabel, Decimal.Fixed1(food.energyKcal), Decimal.Fixed1(food.protein),
      Decimal.Fixed1(food.fat), Decimal.Fixed1(food.carbohydrate), fibre, food.categoryLabel);
    assert '\n' !in Disclaimer;
  }

  /** `lines` are the eleven lines of the mock report on `food`, each tied to its field: an
      empty line, the header, the four amounts with one decimal and their units, the fibre
      line (empty unless the amount is present and non-zero), the category, a blank line,
      the disclaimer and the empty line after the final line feed. */
  predicate PrintsEntry(lines: seq<string>, food: MockFood) {
    && |lines| == 11
    && lines[0] == ""
    && lines[1] == HeaderLine(food.foodLabel)
    && lines[2] == "・カロリー: " + Decimal.Fixed1(food.energyKcal) + " kcal"
    && lines[3] == "・タンパク質: " + Decimal.Fixed1(food.protein) + " g"
    && lines[4] == "・脂質: " + Decimal.Fixed1(food.fat) + " g"
    && lines[5] == "・炭水化物: " + Decimal.Fixed1(food.carbohydrate) + " g"
    && (food.fibre.Some? && food.fibre.value != 0 ==>
          lines[6] == "・食物繊維: " + Decimal.Fixed1(food.fibre.value) + " g")
    && lines[7] == "・カテゴリ: " + food.categoryLabel
    && lines[8] == ""
    && lines[9] == Disclaimer
    && lines[10] == ""
  }

  /** Read line by line, the mock report prints the selected entry: its header names the
      selected key, every amount and the category are that entry's, its fibre line is blank
      exactly for 鶏胸肉, and it closes with the disclaimer line. */
  lemma MockReportLines(query: string)
    ensures PrintsEntry(Strings.Split(GetMockNutritionInfo(query), '\n'), MockTable[MockIndex(query)].1)
    ensures var lines := Strings.Split(GetMockNutritionInfo(query), '\n');
            var key := MockTable[MockIndex(query)].0;
            && |lines| == 11
            && lines[1] == HeaderLine(key)
            && (lines[6] == "" <==> key == "鶏胸肉")
            && lines[9] == Disclaimer && lines[10] == ""
  {
    MockEntryLines(MockIndex(query));
  }

  lemma MockEntryLines(i: nat)
    requires i < |MockTable|
    ensures PrintsEntry(Strings.Split(MockReport(MockTable[i].1), '\n'), MockTable[i].1)
    ensures var lines := Strings.Split(MockReport(MockTable[i].1), '\n');
            var key := MockTable[i].0;
            && |lines| == 11
            && lines[1] == HeaderLine(key)
            && (lines[6] == "" <==> key == "鶏胸肉")
            && lines[9] == Disclaimer && lines[10] == ""
  {
    var food := MockTable[i].1;
    MockTableHasNoBreak(i);
    MockLinesHaveNoBreak(food);
    Strings.SplitJoin(MockLines(food), '\n');
    MockEntryShape(i);
  }

  /** The lines of an entry's report before they are joined. */
  lemma MockEntryShape(i: nat)
    requires i < |MockTable|
    ensures PrintsEntry(MockLines(MockTable[i].1), MockTable[i].1)
    ensures var lines := MockLines(MockTable[i].1);
            var key := MockTable[i].0;
            && |lines| == 11
            && lines[1] == HeaderLine(key)
            && (lines[6] == "" <==> key == "鶏胸肉")
            && lines[9] == Disclaimer && lines[10] == ""
  {
    MockLabelsAreKeys();
    MockLinesShape(MockTable[i].1);
    OnlyChickenLacksFibre(i);
  }

  lemma MockLinesShape(food: MockFood)
    ensures PrintsEntry(MockLines(food), food)
    ensures var lines := MockLines(food);
            && |lines| == 11
            && lines[1] == HeaderLine(food.foodLabel)
            && (lines[6] == "" <==> !(food.fibre.Some? && food.fibre.value != 0))
            && lines[9] == Disclaimer && lines[10] == ""
  {
  }

  /** 鶏胸肉 is the one entry without a (non-zero) fibre amount. */
  lemma OnlyChickenLacksFibre(i: nat)
    requires i < |MockTable|
    ensures !(MockTable[i].1.fibre.Some? && MockTable[i].1.fibre.value != 0) <==> MockTable[i].0 == "鶏胸肉"
  {
  }

  lemma MockLinesClose(food: MockFood)
    ensures |MockLines(food)| == 11
    ensures MockLines(food) == MockLines(food)[..9] + [Disclaimer] + [""]
  {
  }

  lemma JoinClosingLines(front: seq<string>, last: string)
    requires |front| >= 1
    ensures Strings.EndsWith(Strings.Join(front + [last] + [""], '\n'), last + "\n")
  {
    Strings.JoinSnocTwo(front, last, "", '\n');
    assert last + ['\n'] + "" == last + "\n";
    Strings.EndsWithAppend(Strings.Join(front, '\n') + ['\n'], last + "\n");
  }

  lemma MockFoodEndsWithDisclaimer(food: MockFood)
    ensures Strings.EndsWith(MockReport(food), Disclaimer + "\n")
  {
    MockLinesClose(food);
    JoinClosingLines(MockLines(food)[..9], Disclaimer);
  }

  /** A name shorter than the query, with a first character the query lacks, does not match it. */
  lemma NoMatchAt(query: string, j: nat)
    requires j < |MockTable|
    requires |MockTable[j].0| < |query| && MockTable[j].0[0] !in query
    ensures !NameMatches(query, MockTable[j].0)
  {
    Strings.IncludesNeeds(query, MockTable[j].0);
    Strings.IncludesNeeds(MockTable[j].0, query);
  }

  /** A name longer than the query, lacking the query's first character, does not match it. */
  lemma NoMatchInLonger(query: string, j: nat)
    requires j < |MockTable|
    requires 0 < |query| < |MockTable[j].0| && query[0] !in MockTable[j].0
    ensures !NameMatches(query, MockTable[j].0)
  {
    Strings.IncludesNeeds(query, MockTable[j].0);
    Strings.IncludesNeeds(MockTable[j].0, query);
  }

  /** A non-empty query and a name that share neither one's first character do not match. */
  lemma NoSharedFirst(query: string, j: nat)
    requires j < |MockTable| && 0 < |query|
    requires MockTable[j].0[0] !in query && query[0] !in MockTable[j].0
    ensures !NameMatches(query, MockTable[j].0)
  {
    Strings.IncludesNeeds(query, MockTable[j].0);
    Strings.IncludesNeeds(MockTable[j].0, query);
  }

  /** The empty query selects りんご: every name includes "". */
  lemma EmptyQuerySelectsFirst()
    ensures MockIndex("") == 0
  {
    assert Strings.Includes(MockTable[0].0, "");
  }

  /** Every table name is non-empty, at most six characters long, and made of non-ASCII
      characters only. */
  lemma MockNamesAreShortAndJapanese(j: nat)
    requires j < |MockTable|
    ensures 0 < |MockTable[j].0| <= 6
    ensures forall k :: 0 <= k < |MockTable[j].0| ==> MockTable[j].0[k] as int >= 0x80
  {
  }

  /** Any non-empty ASCII query, such as an English food name, matches no name and falls
      back to りんご: the query holds none of a name's characters, and no name holds the
      query's first character. */
  lemma AsciiQuerySelectsFirst(query: string)
    requires |query| > 0
    requires forall k :: 0 <= k < |query| ==> query[k] as int < 0x80
    ensures MockIndex(query) == 0
  {
    forall j | 0 <= j < |MockTable|
      ensures !NameMatches(query, MockTable[j].0)
    {
      MockNamesAreShortAndJapanese(j);
      NoSharedFirst(query, j);
    }
  }

  /** An English food name unknown to the table falls back to りんご. */
  lemma UnknownFoodSelectsFirst()
    ensures MockIndex("unknown-fruit-xyz") == 0
  {
    AsciiQuerySelectsFirst("unknown-fruit-xyz");
  }

  /** So does an English name of a fruit the table knows in Japanese. */
  lemma EnglishAppleSelectsFirst()
    ensures MockIndex("green apple") == 0
  {
    AsciiQuerySelectsFirst("green apple");
  }

  /** A matching entry with no matching entry before it is the one selected. */
  lemma SelectsAt(query: string, i: nat)
    requires i < |MockTable| && NameMatches(query, MockTable[i].0)
    requires forall j :: 0 <= j < i ==> !NameMatches(query, MockTable[j].0)
    ensures MockIndex(query) == i
  {
  }

  /** A query that contains a name selects that entry: 青りんご selects りんご. */
  lemma QueryContainingNameSelectsIt()
    ensures MockIndex("青りんご") == 0
  {
    Strings.IncludesAt("青りんご", MockTable[0].0, 1);
    SelectsAt("青りんご", 0);
  }

  /** The first entry that matches wins: 完熟バナナ passes りんご and selects バナナ. */
  lemma FirstMatchingNameWins()
    ensures MockIndex("完熟バナナ") == 1
  {
    NoMatchAt("完熟バナナ", 0);
    Strings.IncludesAt("完熟バナナ", MockTable[1].0, 2);
    SelectsAt("完熟バナナ", 1);
  }

  /** A query contained in a name selects that entry: 鶏 selects 鶏胸肉. */
  lemma NameContainingQuerySelectsIt()
    ensures MockIndex("鶏") == 2
  {
    var chicken := "鶏";
    NoMatchInLonger(chicken, 0);
    NoMatchInLonger(chicken, 1);
    assert chicken <= MockTable[2].0;
    SelectsAt(chicken, 2);
  }

  /** The りんご report shows 52.0 kcal: amounts are printed with one decimal. */
  lemma MockAppleCalories()
    ensures Strings.Includes(GetMockNutritionInfo("りんご"), "・カロリー: 52.0 kcal")
  {
    assert "りんご" <= "りんご";
    assert MockIndex("りんご") == 0;
    assert Decimal.Fixed1(520) == "52.0";
    var lines := MockLines(MockTable[0].1);
    assert lines[2] == "・カロリー: 52.0 kcal";
    Strings.JoinIncludesPart(lines, '\n', 2);
  }
}
