/** The regular-expression rewrites of the stream sanitiser. Each pattern has a matcher that
    says whether, and with what length and replacement, the pattern matches at the start of a
    string; JavaScript's backtracking is resolved by hand for each pattern. `ReplaceAll` applies
    a matcher the way `String.prototype.replace` with a global pattern does: it scans left to
    right, replaces the match found at the current position and resumes after it. */
module Rewrites {
  import opened Wrappers
  import Decimal
  import Strings

  /** The character classes the patterns use. */
  datatype CharClass =
    | Digit          // `\d`: an ASCII digit
    | Space          // `\s`: white space or a line terminator
    | Is(c: char)    // the one character `c`
    | Not(c: char)   // `[^c]`: any character but `c`, line terminators included
    | Dot            // `.`: any character but a line terminator
    | DotOrNewline   // `(.|\n)`: any character but CR, U+2028 and U+2029

  predicate IsLineTerminator(c: char) {
    c == '\n' || c == '\r' || c == '\U{2028}' || c == '\U{2029}'
  }

  predicate InClass(c: char, cls: CharClass) {
    match cls
    case Digit => Decimal.IsDigit(c)
    case Space => Strings.IsSpace(c)
    case Is(x) => c == x
    case Not(x) => c != x
    case Dot => !IsLineTerminator(c)
    case DotOrNewline => c == '\n' || !IsLineTerminator(c)
  }

  predicate AllIn(s: string, cls: CharClass) {
    forall i :: 0 <= i < |s| ==> InClass(s[i], cls)
  }

  /** What a greedy `cls*` consumes at the start of `s`: the longest run of `cls` characters. */
  function Span(s: string, cls: CharClass): (n: nat)
    ensures n <= |s|
    ensures AllIn(s[..n], cls)
    ensures n < |s| ==> !InClass(s[n], cls)
    decreases |s|
  {
    if |s| > 0 && InClass(s[0], cls) then
      var n := 1 + Span(s[1..], cls);
      assert s[..n] == [s[0]] + s[1..][..n - 1];
      n
    else 0
  }

  /** A run of `cls` characters followed by a character outside `cls` is spanned exactly. */
  lemma {:induction false} SpanOf(x: string, y: string, cls: CharClass)
    requires AllIn(x, cls)
    requires |y| > 0 ==> !InClass(y[0], cls)
    ensures Span(x + y, cls) == |x|
    decreases |x|
  {
    if |x| > 0 {
      assert (x + y)[1..] == x[1..] + y;
      SpanOf(x[1..], y, cls);
    }
  }

  /** The last position of `c` in `s`. */
  function LastIndexOf(s: string, c: char): (r: Option<nat>)
    ensures r.Some? ==> r.value < |s| && s[r.value] == c
                        && forall j :: r.value < j < |s| ==> s[j] != c
    ensures r.None? ==> c !in s
    decreases |s|
  {
    if |s| == 0 then None
    else if s[|s| - 1] == c then Some(|s| - 1)
    else
      var r := LastIndexOf(s[..|s| - 1], c);
      assert s == s[..|s| - 1] + [s[|s| - 1]];
      r
  }

  /** The key of a metadata object the sanitiser deletes. */
  datatype MetaKey = FinishReason | Usage | PromptTokens

  function KeyName(key: MetaKey): string {
    match key
    case FinishReason => "finishReason"
    case Usage => "usage"
    case PromptTokens => "promptTokens"
  }

  /** The global patterns of the sanitiser. */
  datatype Pattern =
    | DigitsColon       // one or more digits, then a colon; removed
    | QuoteRun          // two or more double quotes; replaced by one
    | MessageId         // a `f:{"messageId":"…"}` record; removed
    | EscapedBlankLine  // a backslash, `n`, a backslash, `n`; replaced by two line feeds
    | EscapedNewline    // a backslash and `n`; replaced by a line feed
    | NumberedBold      // digits, `.`, white space, `**text**`; rewritten onto its own line
    | Metadata(key: MetaKey)  // a `{"key":…}` object without a nested `}`; removed
    | ContinuedEnd      // the literal `e:,"isContinued":false}d:}`; removed
    | Continuation      // from `e:` over `isContinued` to a `}`, within one line run; removed
    | DanglingClose     // the literal `d:}`; removed

  /** A match at the start of a string: how much it consumes and what replaces it. */
  datatype Hit = Hit(len: nat, replacement: string)

  /** A character that every match holds in one of its first two positions. */
  predicate Marked(c: char) {
    Decimal.IsDigit(c) || c == ':' || c == '"' || c == '\\'
  }

  const MessageIdOpen := "f:{\"messageId\":\""
  const EscapedLineFeed := "\\n"
  const ContinuedEndText := "e:,\"isContinued\":false}d:}"
  const ContinuedMark := "isContinued"

  function MetaOpen(key: MetaKey): string {
    "{\"" + KeyName(key) + "\":"
  }

  /** What the pattern matches at the start of `s`, if anything. */
  function MatchAt(p: Pattern, s: string): (r: Option<Hit>)
    ensures r.Some? ==> 2 <= r.value.len <= |s|
    ensures r.Some? ==> Marked(s[0]) || Marked(s[1])
    ensures r.Some? && p != NumberedBold ==> |r.value.replacement| < r.value.len
  {
    match p
    case DigitsColon => DigitsColonAt(s)
    case QuoteRun => QuoteRunAt(s)
    case MessageId => MessageIdAt(s)
    case EscapedBlankLine => LiteralAt(s, EscapedLineFeed + EscapedLineFeed, "\n\n")
    case EscapedNewline => LiteralAt(s, EscapedLineFeed, "\n")
    case NumberedBold => NumberedBoldAt(s)
    case Metadata(key) => MetadataAt(key, s)
    case ContinuedEnd => LiteralAt(s, ContinuedEndText, "")
    case Continuation => ContinuationAt(s)
    case DanglingClose => LiteralAt(s, "d:}", "")
  }

  function LiteralAt(s: string, lit: string, replacement: string): (r: Option<Hit>)
    ensures r.Some? <==> lit <= s
    ensures r.Some? ==> r.value == Hit(|lit|, replacement)
  {
    if lit <= s then Some(Hit(|lit|, replacement)) else None
  }

  /** Greedy digits must be followed by the colon: giving digits back leaves a digit next. */
  function DigitsColonAt(s: string): (r: Option<Hit>)
    ensures r.Some? <==> exists k :: 1 <= k < |s| && AllIn(s[..k], Digit) && s[k] == ':'
    ensures r.Some? ==> 2 <= r.value.len <= |s| && r.value.replacement == "" && Decimal.IsDigit(s[0])
                        && s[r.value.len - 1] == ':' && AllIn(s[..r.value.len - 1], Digit)
  {
    var k := Span(s, Digit);
    if 1 <= k < |s| && s[k] == ':' then Some(Hit(k + 1, ""))
    else
      None
  }

  /** The whole run of quotes, when it has at least two. */
  function QuoteRunAt(s: string): (r: Option<Hit>)
    ensures r.Some? <==> 2 <= |s| && s[0] == '"' && s[1] == '"'
    ensures r.Some? ==> 2 <= r.value.len <= |s| && r.value.replacement == "\"" && AllIn(s[..r.value.len], Is('"'))
                        && (r.value.len < |s| ==> s[r.value.len] != '"')
  {
    var k := Span(s, Is('"'));
    if k >= 2 then Some(Hit(k, "\""))
    else
      assert 2 <= |s| && s[0] == '"' ==> s[..k + 1][k] == s[k];
      None
  }

  /** The opening, a run of non-quotes (greedy; it stops at the first quote), then `"}`. */
  function MessageIdAt(s: string): (r: Option<Hit>)
    ensures r.Some? ==> MessageIdOpen <= s && r.value.replacement == ""
    ensures r.Some? ==> |MessageIdOpen| + 2 <= r.value.len <= |s| && s[1] == ':'
  {
    if MessageIdOpen <= s then
      var rest := s[|MessageIdOpen|..];
      var m := Span(rest, Not('"'));
      if "\"}" <= rest[m..] then Some(Hit(|MessageIdOpen| + m + 2, "")) else None
    else None
  }

  /** The opening `{"key":`, a run of characters other than `}`, then the `}` that ends it. */
  function MetadataAt(key: MetaKey, s: string): (r: Option<Hit>)
    ensures r.Some? ==> MetaOpen(key) <= s && r.value.replacement == ""
    ensures r.Some? ==> |MetaOpen(key)| < r.value.len <= |s| && s[1] == '"'
  {
    var open := MetaOpen(key);
    if open <= s then
      var m := Span(s[|open|..], Not('}'));
      if |open| + m < |s| then Some(Hit(|open| + m + 1, "")) else None
    else None
  }

  /** The parts of a numbered bold item: its number, the white space after the dot, and the
      bold text. */
  predicate IsNumberedItem(number: string, gap: string, text: string) {
    |number| > 0 && AllIn(number, Digit) && AllIn(gap, Space) && |text| > 0 && AllIn(text, Not('*'))
  }

  /** The item as it appears in the stream. */
  function ItemSource(number: string, gap: string, text: string): string {
    number + "." + gap + "**" + text + "**"
  }

  /** The item as the sanitiser writes it: on a new line, with one space after the dot. */
  function ItemLine(number: string, text: string): string {
    "\n" + number + ". **" + text + "**"
  }

  /** A message id record: the opening, an id without quotes, and `"}`. */
  function MessageIdRecord(id: string): string {
    MessageIdOpen + id + "\"}"
  }

  /** Every message id record at the start of a string is matched whole. */
  lemma MessageIdMatchesRecord(id: string, rest: string)
    requires '"' !in id
    ensures MessageIdAt(MessageIdRecord(id) + rest) == Some(Hit(|MessageIdRecord(id)|, ""))
  {
    var s := MessageIdRecord(id) + rest;
    assert MessageIdOpen <= s;
    assert s[|MessageIdOpen|..] == id + ("\"}" + rest);
    SpanOf(id, "\"}" + rest, Not('"'));
    assert s[|MessageIdOpen|..][|id|..] == "\"}" + rest;
  }

  /** Conversely, whatever the pattern matches is a message id record. */
  lemma MessageIdMatchIsRecord(s: string) returns (id: string)
    requires MessageIdAt(s).Some?
    ensures '"' !in id && MessageIdRecord(id) <= s
    ensures MessageIdAt(s).value == Hit(|MessageIdRecord(id)|, "")
  {
    var rest := s[|MessageIdOpen|..];
    var m := Span(rest, Not('"'));
    id := rest[..m];
    assert forall i :: 0 <= i < |id| ==> id[i] != '"';
    assert s[..|MessageIdOpen| + m + 2] == MessageIdOpen + id + "\"}";
  }

  /** A metadata object: the opening `{"key":`, a body without `}`, and the `}`. */
  function MetaObject(key: MetaKey, body: string): string {
    MetaOpen(key) + body + "}"
  }

  /** Every metadata object at the start of a string is matched whole. */
  lemma MetadataMatchesObject(key: MetaKey, body: string, rest: string)
    requires '}' !in body
    ensures MetadataAt(key, MetaObject(key, body) + rest) == Some(Hit(|MetaObject(key, body)|, ""))
  {
    var s := MetaObject(key, body) + rest;
    MetaObjectParts(key, body, rest);
    NoneIn(body, '}');
    SpanOf(body, "}" + rest, Not('}'));
    MetadataAtSpan(key, s, |body|, |MetaObject(key, body)|);
  }

  /** Where the opening, the body and the rest sit in a metadata object followed by `rest`. */
  lemma MetaObjectParts(key: MetaKey, body: string, rest: string)
    ensures var s := MetaObject(key, body) + rest;
            && |MetaOpen(key)| <= |s| && s[..|MetaOpen(key)|] == MetaOpen(key)
            && s[|MetaOpen(key)|..] == body + ("}" + rest)
            && |MetaObject(key, body)| == |MetaOpen(key)| + |body| + 1
  {
    var open := MetaOpen(key);
    assert MetaObject(key, body) + rest == open + body + ("}" + rest);
    Parts(open, body, "}" + rest);
  }

  lemma NoneIn(s: string, c: char)
    requires c !in s
    ensures AllIn(s, Not(c))
  {
  }

  /** The metadata matcher once the opening is found and the body's length known. */
  lemma MetadataAtSpan(key: MetaKey, s: string, m: nat, len: nat)
    requires |MetaOpen(key)| <= |s| && s[..|MetaOpen(key)|] == MetaOpen(key)
    requires Span(s[|MetaOpen(key)|..], Not('}')) == m && |MetaOpen(key)| + m < |s|
    requires len == |MetaOpen(key)| + m + 1
    ensures MetadataAt(key, s) == Some(Hit(len, ""))
  {
    assert MetaOpen(key) <= s;
  }

  /** Conversely, whatever the pattern matches is a metadata object with that key. */
  lemma MetadataMatchIsObject(key: MetaKey, s: string) returns (body: string)
    requires MetadataAt(key, s).Some?
    ensures '}' !in body && MetaObject(key, body) <= s
    ensures MetadataAt(key, s).value == Hit(|MetaObject(key, body)|, "")
  {
    var open := MetaOpen(key);
    var rest := s[|open|..];
    var m := Span(rest, Not('}'));
    body := rest[..m];
    assert forall i :: 0 <= i < |body| ==> body[i] != '}';
    ClosedAt(s, open, body, '}');
    assert MetaObject(key, body) <= s;
  }

  /** An opening, a body and a closing character found in turn at the front of `s`. */
  lemma ClosedAt(s: string, open: string, body: string, close: char)
    requires |open| + |body| < |s| && s[..|open|] == open
    requires s[|open|..][..|body|] == body && s[|open|..][|body|] == close
    ensures s[..|open| + |body| + 1] == open + body + [close]
  {
    assert s[..|open| + |body| + 1] == s[..|open|] + s[|open|..][..|body|] + [s[|open|..][|body|]];
  }

  /** Digits, `.`, white space, `**`, text without `*`, `**`; the digits and the text are kept.
      Every greedy part is followed by a character its class excludes, so giving characters
      back never helps and the first attempt decides. */
  function NumberedBoldAt(s: string): (r: Option<Hit>)
    ensures r.Some? ==> 2 <= r.value.len <= |s| && Decimal.IsDigit(s[0])
  {
    var k := Span(s, Digit);
    if k == 0 || k == |s| || s[k] != '.' then None
    else ItemAfterNumber(s[..k], s[k + 1..])
  }

  /** Once the digits are known: the bold item after the dot, rewritten behind the number. */
  function ItemAfterNumber(number: string, after: string): (r: Option<Hit>)
    ensures r.Some? ==> |number| + 1 <= r.value.len <= |number| + 1 + |after|
  {
    match BoldAfterDot(after)
    case None => None
    case Some(parts) => Some(Hit(|number| + 1 + parts.0, ItemLine(number, parts.1)))
  }

  /** After the dot: the length consumed up to the closing `**`, and the bold text. */
  function BoldAfterDot(s: string): (r: Option<(nat, string)>)
    ensures r.Some? ==> r.value.0 <= |s|
  {
    var g := Span(s, Space);
    match BoldRun(s[g..])
    case None => None
    case Some(b) => Some((g + b.0, b.1))
  }

  /** `**`, a non-empty run without `*`, `**`: the length consumed and the run. */
  function BoldRun(s: string): (r: Option<(nat, string)>)
    ensures r.Some? ==> r.value.0 <= |s|
  {
    if !("**" <= s) then None
    else
      var t := Span(s[2..], Not('*'));
      if t == 0 || !("**" <= s[2 + t..]) then None
      else Some((t + 4, s[2..2 + t]))
  }

  /** Where the three parts of a concatenation sit in it. */
  lemma Parts(x: string, m: string, y: string)
    ensures x + m + y == x + (m + y)
    ensures (x + m + y)[..|x|] == x
    ensures (x + m + y)[|x|..] == m + y
    ensures (x + m + y)[|x|..|x| + |m|] == m
    ensures (x + m + y)[|x| + |m|..] == y
  {
    assert (x + m + y)[|x|..] == m + y;
  }

  /** A run of `cls` characters followed by a character outside `cls` is spanned exactly. */
  lemma SpanIs(s: string, k: nat, cls: CharClass)
    requires k <= |s| && AllIn(s[..k], cls) && (k < |s| ==> !InClass(s[k], cls))
    ensures Span(s, cls) == k
  {
    assert s == s[..k] + s[k..];
    SpanOf(s[..k], s[k..], cls);
  }

  lemma BoldRunOf(text: string, rest: string)
    requires |text| > 0 && AllIn(text, Not('*'))
    ensures BoldRun("**" + text + "**" + rest) == Some((|text| + 4, text))
  {
    var s := "**" + text + "**" + rest;
    Parts("**", text, "**" + rest);
    Parts("**" + text, "**", rest);
    assert s == "**" + text + ("**" + rest);
    SpanIs(s[2..], |text|, Not('*'));
  }

  lemma BoldAfterDotOf(gap: string, text: string, rest: string)
    requires AllIn(gap, Space) && |text| > 0 && AllIn(text, Not('*'))
    ensures BoldAfterDot(gap + "**" + text + "**" + rest) == Some((|gap| + 4 + |text|, text))
  {
    var u := "**" + text + "**" + rest;
    var s := gap + "**" + text + "**" + rest;
    BoldItemAfter(gap, text, rest);
    Parts(gap, u, "");
    assert s[..|gap|] == gap && s[|gap|..] == u;
    SpanIs(s, |gap|, Space);
    BoldRunOf(text, rest);
  }

  /** The gap and the bold run of an item, as one concatenation. */
  lemma BoldItemAfter(gap: string, text: string, rest: string)
    ensures gap + "**" + text + "**" + rest == gap + ("**" + text + "**" + rest)
  {
  }

  lemma NumberedBoldIsItsMatcher(s: string)
    ensures MatchAt(NumberedBold, s) == NumberedBoldAt(s)
  {
  }

  /** A run of digits and a dot hand the rest over to the bold matcher. */
  lemma NumberedBoldAtDot(s: string, number: string, n: nat, text: string, len: nat)
    requires |number| > 0 && AllIn(number, Digit)
    requires |number| < |s| && s[..|number|] == number && s[|number|] == '.'
    requires BoldAfterDot(s[|number| + 1..]) == Some((n, text))
    requires len == |number| + 1 + n
    ensures NumberedBoldAt(s) == Some(Hit(len, ItemLine(number, text)))
  {
    SpanIs(s, |number|, Digit);
    NumberedBoldAtSpan(s, number, n, text, len);
  }

  lemma NumberedBoldAtSpan(s: string, number: string, n: nat, text: string, len: nat)
    requires 0 < |number| < |s| && s[..|number|] == number && s[|number|] == '.'
    requires Span(s, Digit) == |number|
    requires BoldAfterDot(s[|number| + 1..]) == Some((n, text))
    requires len == |number| + 1 + n
    ensures NumberedBoldAt(s) == Some(Hit(len, ItemLine(number, text)))
  {
    CutsAtDot(s, number);
    ItemAfterNumberIs(number, s[|number| + 1..], n, text, len);
  }

  /** With exactly the digits of `number` in front of a dot, the item is read after that dot. */
  lemma CutsAtDot(s: string, number: string)
    requires 0 < |number| < |s| && s[..|number|] == number && s[|number|] == '.'
    requires Span(s, Digit) == |number|
    ensures NumberedBoldAt(s) == ItemAfterNumber(number, s[|number| + 1..])
  {
  }

  lemma ItemAfterNumberIs(number: string, after: string, n: nat, text: string, len: nat)
    requires BoldAfterDot(after) == Some((n, text)) && len == |number| + 1 + n
    ensures ItemAfterNumber(number, after) == Some(Hit(len, ItemLine(number, text)))
  {
  }

  /** The item in front of `rest`, cut at its dot. */
  lemma ItemSourceParts(number: string, gap: string, text: string, rest: string)
    ensures var s := ItemSource(number, gap, text) + rest;
            && |s| > |number|
            && s[..|number|] == number && s[|number|] == '.'
            && s[|number| + 1..] == gap + "**" + text + "**" + rest
  {
    var item := gap + "**" + text + "**";
    assert ItemSource(number, gap, text) == number + "." + item;
    Parts(number, ".", item + rest);
    assert ItemSource(number, gap, text) + rest == number + "." + (item + rest);
  }

  lemma ItemSourceLength(number: string, gap: string, text: string)
    ensures |ItemSource(number, gap, text)| == |number| + 1 + (|gap| + 4 + |text|)
  {
  }

  /** Every numbered bold item at the start of a string is matched whole and rewritten. */
  lemma NumberedBoldMatchesItem(number: string, gap: string, text: string, rest: string)
    requires IsNumberedItem(number, gap, text)
    ensures NumberedBoldAt(ItemSource(number, gap, text) + rest)
            == Some(Hit(|ItemSource(number, gap, text)|, ItemLine(number, text)))
  {
    var s := ItemSource(number, gap, text) + rest;
    ItemSourceParts(number, gap, text, rest);
    ItemSourceLength(number, gap, text);
    BoldAfterItsDot(s[|number| + 1..], gap, text, rest);
    NumberedBoldAtDot(s, number, |gap| + 4 + |text|, text, |ItemSource(number, gap, text)|);
  }

  lemma BoldAfterItsDot(after: string, gap: string, text: string, rest: string)
    requires after == gap + "**" + text + "**" + rest
    requires AllIn(gap, Space) && |text| > 0 && AllIn(text, Not('*'))
    ensures BoldAfterDot(after) == Some((|gap| + 4 + |text|, text))
  {
    BoldAfterDotOf(gap, text, rest);
  }

  lemma BoldRunParts(s: string) returns (text: string)
    requires BoldRun(s).Some?
    ensures |text| > 0 && AllIn(text, Not('*'))
    ensures BoldRun(s).value == (|text| + 4, text)
    ensures |text| + 4 <= |s| && s[..|text| + 4] == "**" + text + "**"
  {
    var t := Span(s[2..], Not('*'));
    text := s[2..2 + t];
    assert s[2..][..t] == text;
    assert s[..t + 4] == "**" + text + "**";
  }

  lemma BoldAfterDotParts(s: string) returns (gap: string, text: string)
    requires BoldAfterDot(s).Some?
    ensures AllIn(gap, Space) && |text| > 0 && AllIn(text, Not('*'))
    ensures BoldAfterDot(s).value == (|gap| + 4 + |text|, text)
    ensures |gap| + 4 + |text| <= |s| && s[..|gap| + 4 + |text|] == gap + "**" + text + "**"
  {
    var g := Span(s, Space);
    gap := s[..g];
    text := BoldRunParts(s[g..]);
    FrontThen(s, g, "**" + text + "**");
    BoldItemJoin(gap, text);
  }

  lemma BoldItemJoin(gap: string, text: string)
    ensures gap + ("**" + text + "**") == gap + "**" + text + "**"
  {
  }

  /** A block found right after position `g` continues the front of the string. */
  lemma FrontThen(s: string, g: nat, w: string)
    requires g <= |s| && |w| <= |s| - g && s[g..][..|w|] == w
    ensures s[..g + |w|] == s[..g] + w
  {
    assert s[..g + |w|] == s[..g] + s[g..][..|w|];
  }

  /** Conversely, whatever the pattern matches is a numbered bold item, rewritten as above. */
  lemma NumberedBoldMatchIsItem(s: string) returns (number: string, gap: string, text: string)
    requires NumberedBoldAt(s).Some?
    ensures IsNumberedItem(number, gap, text)
    ensures ItemSource(number, gap, text) <= s
    ensures NumberedBoldAt(s).value == Hit(|ItemSource(number, gap, text)|, ItemLine(number, text))
  {
    number, gap, text := NumberedBoldParts(s);
    var src := ItemSource(number, gap, text);
    assert src <= s;
    assert s == src + s[|src|..];
    NumberedBoldMatchesItem(number, gap, text, s[|src|..]);
  }

  /** The parts of a match, with the item they form at the front of the string. */
  lemma NumberedBoldParts(s: string) returns (number: string, gap: string, text: string)
    requires NumberedBoldAt(s).Some?
    ensures IsNumberedItem(number, gap, text)
    ensures |ItemSource(number, gap, text)| <= |s| && s[..|ItemSource(number, gap, text)|] == ItemSource(number, gap, text)
  {
    var k := NumberedBoldDot(s);
    number := s[..k];
    gap, text := BoldAfterDotParts(s[k + 1..]);
    ItemAt(s, k, gap, text);
  }

  /** The digits before position `k`, its dot and the item body after it form an item. */
  lemma ItemAt(s: string, k: nat, gap: string, text: string)
    requires k < |s| && s[k] == '.'
    requires |gap| + 4 + |text| <= |s| - k - 1
    requires s[k + 1..][..|gap| + 4 + |text|] == gap + "**" + text + "**"
    ensures var src := ItemSource(s[..k], gap, text);
            |src| <= |s| && s[..|src|] == src
  {
    var item := gap + "**" + text + "**";
    ItemAfterDot(s, k, item);
    assert ItemSource(s[..k], gap, text) == s[..k] + "." + item;
  }

  /** Where the dot of a match sits, and what the bold matcher sees after it. */
  lemma NumberedBoldDot(s: string) returns (k: nat)
    requires NumberedBoldAt(s).Some?
    ensures 0 < k < |s| && AllIn(s[..k], Digit) && s[k] == '.'
    ensures BoldAfterDot(s[k + 1..]).Some?
  {
    k := Span(s, Digit);
  }

  /** The digits, the dot and the block after it make up the front of the string. */
  lemma ItemAfterDot(s: string, k: nat, w: string)
    requires k < |s| && s[k] == '.' && |w| <= |s[k + 1..]| && s[k + 1..][..|w|] == w
    ensures s[..k + 1 + |w|] == s[..k] + "." + w
  {
    assert s[..k + 1 + |w|] == s[..k] + [s[k]] + s[k + 1..][..|w|];
  }
  /** `e:`, then the longest line-terminator-free run, backtracked to its last `}`; the run
      before that `}` must hold `isContinued` after the `e:`. */
  function ContinuationAt(s: string): (r: Option<Hit>)
    ensures r.Some? ==> r.value.replacement == ""
    ensures r.Some? ==> 3 <= r.value.len <= |s| && s[1] == ':'
  {
    if !("e:" <= s) then None
    else
      var end := 2 + Span(s[2..], DotOrNewline);
      match LastIndexOf(s[..end], '}')
      case None => None
      case Some(close) =>
        if close >= 2 && Strings.Includes(s[2..close], ContinuedMark) then Some(Hit(close + 1, ""))
        else None
  }

  /** What the continuation pattern can match: `e:`, then a closing `}` at the end, with
      `isContinued` in between and no CR, U+2028 or U+2029 anywhere. */
  predicate IsContinuationBlock(w: string) {
    |w| >= 3 && w[..2] == "e:" && w[|w| - 1] == '}' && AllIn(w, DotOrNewline)
    && Strings.Includes(w[2..|w| - 1], ContinuedMark)
  }

  lemma SpanAtLeast(x: string, m: nat, cls: CharClass)
    requires m <= |x| && AllIn(x[..m], cls)
    ensures Span(x, cls) >= m
  {
  }

  /** A block that starts `s` ends no later than the continuation match. */
  lemma BlockWithinMatch(s: string, n: nat)
    requires n <= |s| && IsContinuationBlock(s[..n])
    ensures ContinuationAt(s).Some? && ContinuationAt(s).value.len >= n
  {
    var w := s[..n];
    assert "e:" <= s;
    SpanAtLeast(s[2..], n - 2, DotOrNewline) by {
      assert s[2..][..n - 2] == w[2..];
    }
    var end := 2 + Span(s[2..], DotOrNewline);
    assert s[..end][n - 1] == '}';
    var close := LastIndexOf(s[..end], '}').value;
    assert close >= n - 1;
    assert s[2..close] == w[2..n - 1] + s[n - 1..close];
    Strings.IncludesExtend(w[2..n - 1], s[n - 1..close], ContinuedMark);
  }

  /** The continuation pattern, greedy on both of its runs, matches the longest block that
      starts the string, and matches nothing when no block starts it. */
  lemma ContinuationMatchesLongestBlock(s: string)
    ensures ContinuationAt(s).Some? ==> IsContinuationBlock(s[..ContinuationAt(s).value.len])
    ensures ContinuationAt(s).Some? ==>
              forall n :: ContinuationAt(s).value.len < n <= |s| ==> !IsContinuationBlock(s[..n])
    ensures ContinuationAt(s).None? ==> forall n :: 0 <= n <= |s| ==> !IsContinuationBlock(s[..n])
  {
    forall n | 0 <= n <= |s| && IsContinuationBlock(s[..n])
      ensures ContinuationAt(s).Some? && ContinuationAt(s).value.len >= n
    {
      BlockWithinMatch(s, n);
    }
    if ContinuationAt(s).Some? {
      var end := 2 + Span(s[2..], DotOrNewline);
      var close := LastIndexOf(s[..end], '}').value;
      var w := s[..close + 1];
      assert w[2..close] == s[2..close];
      assert s[2..][..end - 2] == s[2..end];
      assert AllIn(w, DotOrNewline) by {
        forall i | 0 <= i < |w|
          ensures InClass(w[i], DotOrNewline)
        {
          if i >= 2 {
            assert w[i] == s[2..][..end - 2][i - 2];
          }
        }
      }
    }
  }

  /** `s.replace(pattern, …)` with a global pattern. Every pattern but the numbered item
      replaces a match by something shorter, so the text never grows under them. */
  function ReplaceAll(p: Pattern, s: string): (r: string)
    ensures p != NumberedBold ==> |r| <= |s|
    decreases |s|
  {
    if |s| == 0 then ""
    else match MatchAt(p, s)
      case Some(h) => h.replacement + ReplaceAll(p, s[h.len..])
      case None => [s[0]] + ReplaceAll(p, s[1..])
  }

  /** Text without marked characters is left as it is by every pattern. */
  lemma {:induction false} ReplaceAllKeepsUnmarked(p: Pattern, s: string)
    requires forall i :: 0 <= i < |s| ==> !Marked(s[i])
    ensures ReplaceAll(p, s) == s
    decreases |s|
  {
    if |s| > 0 {
      assert MatchAt(p, s).None?;
      ReplaceAllKeepsUnmarked(p, s[1..]);
    }
  }

  /** Text where the pattern matches at no position is left as it is. */
  lemma {:induction false} ReplaceAllNoMatch(p: Pattern, s: string)
    requires forall i :: 0 <= i < |s| ==> MatchAt(p, s[i..]).None?
    ensures ReplaceAll(p, s) == s
    decreases |s|
  {
    if |s| > 0 {
      assert MatchAt(p, s[0..]).None?;
      assert s[0..] == s;
      forall i | 0 <= i < |s[1..]|
        ensures MatchAt(p, s[1..][i..]).None?
      {
        assert s[1..][i..] == s[i + 1..];
      }
      ReplaceAllNoMatch(p, s[1..]);
    }
  }

  /** A head where no match starts is copied, and the replacement carries on after it. */
  lemma {:induction false} KeepsUnmatchedPrefix(p: Pattern, h: string, t: string)
    requires forall i :: 0 <= i < |h| ==> MatchAt(p, h[i..] + t).None?
    ensures ReplaceAll(p, h + t) == h + ReplaceAll(p, t)
    decreases |h|
  {
    if |h| > 0 {
      KeepsFirst(p, h, t);
      UnmatchedTail(p, h, t);
      KeepsUnmatchedPrefix(p, h[1..], t);
      HeadTail(h, ReplaceAll(p, t));
    } else {
      assert h + t == t;
    }
  }

  lemma KeepsFirst(p: Pattern, h: string, t: string)
    requires |h| > 0 && forall i :: 0 <= i < |h| ==> MatchAt(p, h[i..] + t).None?
    ensures ReplaceAll(p, h + t) == [h[0]] + ReplaceAll(p, h[1..] + t)
  {
    assert h[0..] == h;
    KeepsHead(p, h + t);
    assert (h + t)[1..] == h[1..] + t;
  }

  lemma HeadTail(h: string, r: string)
    requires |h| > 0
    ensures [h[0]] + (h[1..] + r) == h + r
  {
    ConsAppend(h[0], h[1..], r);
    assert [h[0]] + h[1..] == h;
  }

  lemma UnmatchedTail(p: Pattern, h: string, t: string)
    requires |h| > 0 && forall i :: 0 <= i < |h| ==> MatchAt(p, h[i..] + t).None?
    ensures forall i :: 0 <= i < |h[1..]| ==> MatchAt(p, h[1..][i..] + t).None?
  {
    forall i | 0 <= i < |h[1..]|
      ensures MatchAt(p, h[1..][i..] + t).None?
    {
      assert h[1..][i..] == h[i + 1..];
    }
  }

  /** A string the pattern does not match at its start begins its rewrite unchanged. */
  lemma KeepsHead(p: Pattern, s: string)
    requires |s| > 0 && MatchAt(p, s).None?
    ensures ReplaceAll(p, s) == [s[0]] + ReplaceAll(p, s[1..])
  {
  }

  lemma TakesHit(p: Pattern, s: string, h: Hit)
    requires |s| > 0 && MatchAt(p, s) == Some(h)
    ensures ReplaceAll(p, s) == h.replacement + ReplaceAll(p, s[h.len..])
  {
  }

  lemma ConsAppend(c: char, a: string, b: string)
    ensures [c] + (a + b) == ([c] + a) + b
  {
  }

  /** What a non-global `marker` followed by `cls*` and the end of input matches. */
  predicate CutsHere(s: string, marker: string, cls: CharClass) {
    marker <= s && AllIn(s[|marker|..], cls)
  }

  /** `s.replace(pattern, "")` with a non-global pattern made of `marker`, a greedy `cls*`
      and `$`: drops the rest of `s` from the leftmost position where that matches. */
  function CutAt(s: string, marker: string, cls: CharClass): (r: string)
    requires |marker| > 0
    ensures r <= s
    ensures r == s || CutsHere(s[|r|..], marker, cls)
    ensures forall i :: 0 <= i < |r| ==> !CutsHere(s[i..], marker, cls)
    decreases |s|
  {
    if CutsHere(s, marker, cls) then ""
    else if |s| == 0 then s
    else
      var r := [s[0]] + CutAt(s[1..], marker, cls);
      assert forall i :: 1 <= i <= |s| ==> s[i..] == s[1..][i - 1..];
      r
  }

  /** The cut falls exactly at the leftmost position where the pattern matches. */
  lemma CutAtFirst(s: string, marker: string, cls: CharClass, i: nat)
    requires |marker| > 0 && i <= |s| && CutsHere(s[i..], marker, cls)
    requires forall j :: 0 <= j < i ==> !CutsHere(s[j..], marker, cls)
    ensures CutAt(s, marker, cls) == s[..i]
  {
    var r := CutAt(s, marker, cls);
    assert |r| <= i;
    assert |r| < |s| || |s| < i + |marker|;
  }

  /** A string lacking one of the marker's characters does not start with the marker. */
  lemma NoMarkerAt(t: string, marker: string, k: nat)
    requires k < |marker| && marker[k] !in t
    ensures !(marker <= t)
  {
    if |marker| <= |t| {
      assert t[..|marker|][k] == t[k];
    }
  }

  /** Nothing is cut from a string lacking one of the marker's characters. */
  lemma CutAtKeeps(s: string, marker: string, cls: CharClass, k: nat)
    requires k < |marker| && marker[k] !in s
    ensures CutAt(s, marker, cls) == s
  {
    var r := CutAt(s, marker, cls);
    NoMarkerAt(s[|r|..], marker, k);
  }

  /** The non-global `^"|"$` with the global flag: one leading and one trailing quote go. */
  function StripEnclosingQuotes(s: string): (r: string)
    ensures |s| > 0 && s[0] == '"' ==> r <= s[1..]
    ensures !(|s| > 0 && s[0] == '"') ==> r <= s
    ensures |r| == |s| - (if |s| > 0 && s[0] == '"' then 1 else 0)
                       - (if |s| > 1 && s[|s| - 1] == '"' then 1 else 0)
  {
    var t := if |s| > 0 && s[0] == '"' then s[1..] else s;
    if |t| > 0 && t[|t| - 1] == '"' then t[..|t| - 1] else t
  }
}
