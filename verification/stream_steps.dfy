/** The rewriting stages of the stream sanitiser, grouping the fifteen replacements of
    `cleanStreamText` in their order, with what each stage guarantees. */
module StreamSteps {
  import opened Wrappers
  import opened Rewrites
  import Decimal

  /** Stage 1: every run of digits followed by a colon goes, so no digit is left directly
      before a colon and the text does not grow. */
  function DropPartPrefixes(s: string): (r: string)
    ensures NoAdjacent(r, Digit, ':')
    ensures |r| <= |s|
  {
    NoDigitBeforeColon(s);
    ReplaceAll(DigitsColon, s)
  }

  /** Stage 2: runs of quotes shrink to one quote; then one leading and one trailing quote go.
      No two quotes are left adjacent, and none is left at either end. */
  function NormaliseQuotes(s: string): (r: string)
    ensures NoAdjacent(r, Is('"'), '"')
    ensures |r| > 0 ==> r[0] != '"' && r[|r| - 1] != '"'
    ensures |r| <= |s|
  {
    QuotesNormalised(s);
    StripEnclosingQuotes(ReplaceAll(QuoteRun, s))
  }

  /** Stage 3: message id records go; the text does not grow. */
  function DropMessageIds(s: string): (r: string)
    ensures |r| <= |s|
  {
    ReplaceAll(MessageId, s)
  }

  /** Stage 4: escaped blank lines, then escaped line feeds, become real line feeds. The first
      pass is subsumed by the second, and no backslash is left directly before an `n`. */
  function UnescapeNewlines(s: string): (r: string)
    ensures r == ReplaceAll(EscapedNewline, s)
    ensures NoAdjacent(r, Is('\\'), 'n')
    ensures |r| <= |s|
  {
    BlankLinePassIsRedundant(s);
    NoEscapedNewlineLeft(s);
    ReplaceAll(EscapedNewline, ReplaceAll(EscapedBlankLine, s))
  }

  /** Stage 5: every numbered bold item starts a line of its own; text without a digit has no
      item and is left alone. */
  function LiftNumberedItems(s: string): (r: string)
    ensures (forall i :: 0 <= i < |s| ==> !Decimal.IsDigit(s[i])) ==> r == s
  {
    NumberedItemsNeedDigits(s);
    ReplaceAll(NumberedBold, s)
  }

  /** Stage 6: everything from the first `! e:` whose remainder has no CR, U+2028 or U+2029.
      What is kept is a prefix, and anything cut starts with the marker. */
  function DropFinishEvent(s: string): (r: string)
    ensures r <= s
    ensures r == s || "! e:" <= s[|r|..]
  {
    CutAt(s, "! e:", DotOrNewline)
  }

  /** Stage 7: the metadata objects and the continuation records, in the source's order; the
      text does not grow. */
  function DropMetadata(s: string): (r: string)
    ensures |r| <= |s|
  {
    var a := ReplaceAll(Metadata(FinishReason), s);
    var b := ReplaceAll(Metadata(Usage), a);
    var c := ReplaceAll(Metadata(PromptTokens), b);
    var d := ReplaceAll(ContinuedEnd, c);
    var e := ReplaceAll(Continuation, d);
    ReplaceAll(DanglingClose, e)
  }

  /** Stage 8: a ` ! e:` on the last line and the rest of that line. What is kept is a prefix,
      and anything cut starts with the marker. */
  function DropTrailingEvent(s: string): (r: string)
    ensures r <= s
    ensures r == s || " ! e:" <= s[|r|..]
  {
    CutAt(s, " ! e:", Dot)
  }

  /** Adjacent characters at `i`: one of class `cls`, then `c`. */
  predicate Adjacent(s: string, i: int, cls: CharClass, c: char) {
    0 <= i && i + 1 < |s| && InClass(s[i], cls) && s[i + 1] == c
  }

  predicate NoAdjacent(s: string, cls: CharClass, c: char) {
    forall i :: 0 <= i < |s| ==> !Adjacent(s, i, cls, c)
  }

  lemma NoAdjacentCons(c: char, t: string, cls: CharClass, d: char)
    requires NoAdjacent(t, cls, d)
    requires |t| > 0 && InClass(c, cls) ==> t[0] != d
    ensures NoAdjacent([c] + t, cls, d)
  {
    var s := [c] + t;
    forall i | 0 <= i < |s|
      ensures !Adjacent(s, i, cls, d)
    {
      if i > 0 {
        assert !Adjacent(t, i - 1, cls, d);
      }
    }
  }

  lemma NoAdjacentAppend(a: string, t: string, cls: CharClass, d: char)
    requires NoAdjacent(a, cls, d) && NoAdjacent(t, cls, d)
    requires |a| > 0 && |t| > 0 ==> !InClass(a[|a| - 1], cls) || t[0] != d
    ensures NoAdjacent(a + t, cls, d)
  {
    var s := a + t;
    forall i | 0 <= i < |s|
      ensures !Adjacent(s, i, cls, d)
    {
      if i + 1 < |a| {
        assert !Adjacent(a, i, cls, d);
      } else if i >= |a| {
        assert !Adjacent(t, i - |a|, cls, d);
      }
    }
  }


  /** Stage 5 puts a numbered bold item at the front on a line of its own and carries on after it. */
  lemma LiftsItem(number: string, gap: string, text: string, rest: string)
    requires IsNumberedItem(number, gap, text)
    ensures LiftNumberedItems(ItemSource(number, gap, text) + rest)
            == ItemLine(number, text) + LiftNumberedItems(rest)
  {
    var src := ItemSource(number, gap, text);
    NumberedBoldIsItsMatcher(src + rest);
    NumberedBoldMatchesItem(number, gap, text, rest);
    TakesHit(NumberedBold, src + rest, Hit(|src|, ItemLine(number, text)));
    assert (src + rest)[|src|..] == rest;
  }

  /** Stage 3 removes a message id record at the front and carries on after it. */
  lemma DropsMessageId(id: string, rest: string)
    requires '"' !in id
    ensures DropMessageIds(MessageIdRecord(id) + rest) == DropMessageIds(rest)
  {
    var record := MessageIdRecord(id);
    MessageIdMatchesRecord(id, rest);
    assert MatchAt(MessageId, record + rest) == MessageIdAt(record + rest);
    TakesHit(MessageId, record + rest, Hit(|record|, ""));
    assert (record + rest)[|record|..] == rest;
    assert "" + DropMessageIds(rest) == DropMessageIds(rest);
  }

  /** Each metadata rewrite of stage 7 removes an object with its key at the front and carries
      on after it. */
  lemma DropsMetaObject(key: MetaKey, body: string, rest: string)
    requires '}' !in body
    ensures ReplaceAll(Metadata(key), MetaObject(key, body) + rest) == ReplaceAll(Metadata(key), rest)
  {
    var obj := MetaObject(key, body);
    MetadataMatchesObject(key, body, rest);
    assert MatchAt(Metadata(key), obj + rest) == MetadataAt(key, obj + rest);
    TakesHit(Metadata(key), obj + rest, Hit(|obj|, ""));
    assert (obj + rest)[|obj|..] == rest;
    assert "" + ReplaceAll(Metadata(key), rest) == ReplaceAll(Metadata(key), rest);
  }

  /** The continuation rewrite of stage 7 removes the longest continuation block at the front
      and carries on after it. */
  lemma DropsContinuation(w: string, rest: string)
    requires IsContinuationBlock(w)
    requires forall n :: |w| < n <= |w + rest| ==> !IsContinuationBlock((w + rest)[..n])
    ensures ReplaceAll(Continuation, w + rest) == ReplaceAll(Continuation, rest)
  {
    var s := w + rest;
    assert s[..|w|] == w;
    BlockWithinMatch(s, |w|);
    ContinuationMatchesLongestBlock(s);
    var h := ContinuationAt(s).value;
    assert h.len == |w|;
    assert MatchAt(Continuation, s) == Some(h);
    TakesHit(Continuation, s, h);
    assert s[|w|..] == rest;
  }

  /** The two literal rewrites of stage 7, the closing `e:,"isContinued":false}d:}` and a
      dangling `d:}`, remove their text at the front and carry on after it. */
  lemma DropsLiteral(p: Pattern, lit: string, rest: string)
    requires (p == ContinuedEnd && lit == ContinuedEndText) || (p == DanglingClose && lit == "d:}")
    ensures ReplaceAll(p, lit + rest) == ReplaceAll(p, rest)
  {
    assert (lit + rest)[..|lit|] == lit;
    assert MatchAt(p, lit + rest) == Some(Hit(|lit|, ""));
    TakesHit(p, lit + rest, Hit(|lit|, ""));
    assert (lit + rest)[|lit|..] == rest;
  }

  /** Stage 6 cuts at the first `! e:` when no CR, U+2028 or U+2029 follows it. */
  lemma DropFinishEventAt(s: string, i: nat)
    requires i <= |s| && "! e:" <= s[i..]
    requires forall j :: 0 <= j < i ==> !("! e:" <= s[j..])
    requires forall k :: i <= k < |s| ==> s[k] == '\n' || !IsLineTerminator(s[k])
    ensures DropFinishEvent(s) == s[..i]
  {
    var marker := "! e:";
    assert AllIn(s[i..][|marker|..], DotOrNewline) by {
      forall k | 0 <= k < |s[i..][|marker|..]|
        ensures InClass(s[i..][|marker|..][k], DotOrNewline)
      {
        assert s[i..][|marker|..][k] == s[i + |marker| + k];
      }
    }
    CutAtFirst(s, marker, DotOrNewline, i);
  }

  /** Stage 8 cuts at the first ` ! e:` when no line terminator follows it. */
  lemma DropTrailingEventAt(s: string, i: nat)
    requires i <= |s| && " ! e:" <= s[i..]
    requires forall j :: 0 <= j < i ==> !(" ! e:" <= s[j..])
    requires forall k :: i <= k < |s| ==> !IsLineTerminator(s[k])
    ensures DropTrailingEvent(s) == s[..i]
  {
    var marker := " ! e:";
    assert AllIn(s[i..][|marker|..], Dot) by {
      forall k | 0 <= k < |s[i..][|marker|..]|
        ensures InClass(s[i..][|marker|..][k], Dot)
      {
        assert s[i..][|marker|..][k] == s[i + |marker| + k];
      }
    }
    CutAtFirst(s, marker, Dot, i);
  }

  /** After the digits-and-colon rewrite no digit is directly followed by a colon. */
  lemma {:induction false} NoDigitBeforeColon(s: string)
    ensures NoAdjacent(ReplaceAll(DigitsColon, s), Digit, ':')
    decreases |s|
  {
    if |s| > 0 {
      match MatchAt(DigitsColon, s)
      case Some(h) =>
        NoDigitBeforeColon(s[h.len..]);
        assert DigitsColonAt(s) == MatchAt(DigitsColon, s);
        assert h.replacement == "";
        assert ReplaceAll(DigitsColon, s) == "" + ReplaceAll(DigitsColon, s[h.len..]);
        assert ReplaceAll(DigitsColon, s) == ReplaceAll(DigitsColon, s[h.len..]);
      case None =>
        NoDigitBeforeColon(s[1..]);
        if Decimal.IsDigit(s[0]) && |s| > 1 {
          assert Span(s, Digit) == 1 + Span(s[1..], Digit);
          assert s[1] != ':' && MatchAt(DigitsColon, s[1..]).None?;
          KeepsHead(DigitsColon, s[1..]);
        }
        NoAdjacentCons(s[0], ReplaceAll(DigitsColon, s[1..]), Digit, ':');
    }
  }

  lemma NoAdjacentSlice(s: string, i: nat, j: nat, cls: CharClass, d: char)
    requires i <= j <= |s| && NoAdjacent(s, cls, d)
    ensures NoAdjacent(s[i..j], cls, d)
  {
    var t := s[i..j];
    forall k | 0 <= k < |t|
      ensures !Adjacent(t, k, cls, d)
    {
      assert !Adjacent(s, i + k, cls, d);
    }
  }

  /** After the first quote rewrite no two quotes are adjacent. */
  lemma {:induction false} QuoteRunsCollapsed(s: string)
    ensures NoAdjacent(ReplaceAll(QuoteRun, s), Is('"'), '"')
    decreases |s|
  {
    if |s| > 0 {
      match MatchAt(QuoteRun, s)
      case Some(h) =>
        var rest := s[h.len..];
        QuoteRunsCollapsed(rest);
        assert QuoteRunAt(s) == MatchAt(QuoteRun, s);
        if |rest| > 0 {
          assert rest[0] != '"';
          KeepsHead(QuoteRun, rest);
        }
        NoAdjacentCons('"', ReplaceAll(QuoteRun, rest), Is('"'), '"');
      case None =>
        QuoteRunsCollapsed(s[1..]);
        if s[0] == '"' && |s| > 1 {
          assert s[1] != '"';
          KeepsHead(QuoteRun, s[1..]);
        }
        NoAdjacentCons(s[0], ReplaceAll(QuoteRun, s[1..]), Is('"'), '"');
    }
  }

  /** After both quote rewrites no two quotes are adjacent, and the text neither starts nor
      ends with one. */
  lemma QuotesNormalised(s: string)
    ensures var r := StripEnclosingQuotes(ReplaceAll(QuoteRun, s));
            NoAdjacent(r, Is('"'), '"') && (|r| > 0 ==> r[0] != '"' && r[|r| - 1] != '"')
  {
    var x := ReplaceAll(QuoteRun, s);
    QuoteRunsCollapsed(s);
    StripKeepsQuotesApart(x);
    StripLeavesNoEndQuote(x);
  }

  /** Stripping the enclosing quotes keeps a slice, so quotes stay apart. */
  lemma StripKeepsQuotesApart(x: string)
    requires NoAdjacent(x, Is('"'), '"')
    ensures NoAdjacent(StripEnclosingQuotes(x), Is('"'), '"')
  {
    var i := if |x| > 0 && x[0] == '"' then 1 else 0;
    var t := x[i..];
    var j := if |t| > 0 && t[|t| - 1] == '"' then |x| - 1 else |x|;
    assert StripEnclosingQuotes(x) == x[i..j];
    NoAdjacentSlice(x, i, j, Is('"'), '"');
  }

  /** With quotes apart, the quote after a stripped leading one, and the one before a stripped
      trailing one, are not quotes. */
  lemma StripLeavesNoEndQuote(x: string)
    requires NoAdjacent(x, Is('"'), '"')
    ensures var r := StripEnclosingQuotes(x);
            |r| > 0 ==> r[0] != '"' && r[|r| - 1] != '"'
  {
    var i := if |x| > 0 && x[0] == '"' then 1 else 0;
    var t := x[i..];
    if |t| > 0 && i == 1 {
      assert !Adjacent(x, 0, Is('"'), '"');
    }
    var j := if |t| > 0 && t[|t| - 1] == '"' then |x| - 1 else |x|;
    if j == |x| - 1 && j - i > 0 {
      assert !Adjacent(x, j - 1, Is('"'), '"');
    }
    assert StripEnclosingQuotes(x) == x[i..j];
  }

  /** After the line feed rewrite no backslash is directly followed by `n`. */
  lemma {:induction false} NoEscapedNewlineLeft(s: string)
    ensures NoAdjacent(ReplaceAll(EscapedNewline, s), Is('\\'), 'n')
    decreases |s|
  {
    if |s| > 0 {
      match MatchAt(EscapedNewline, s)
      case Some(h) =>
        NoEscapedNewlineLeft(s[2..]);
        NoAdjacentCons('\n', ReplaceAll(EscapedNewline, s[2..]), Is('\\'), 'n');
      case None =>
        NoEscapedNewlineLeft(s[1..]);
        if s[0] == '\\' && |s| > 1 {
          assert s[1] != 'n';
          if MatchAt(EscapedNewline, s[1..]).None? {
            KeepsHead(EscapedNewline, s[1..]);
          }
        }
        NoAdjacentCons(s[0], ReplaceAll(EscapedNewline, s[1..]), Is('\\'), 'n');
    }
  }

  /** Every numbered item starts with a digit, so text without digits is left alone. */
  lemma {:induction false} NumberedItemsNeedDigits(s: string)
    ensures (forall i :: 0 <= i < |s| ==> !Decimal.IsDigit(s[i])) ==> ReplaceAll(NumberedBold, s) == s
    decreases |s|
  {
    if |s| > 0 && forall i :: 0 <= i < |s| ==> !Decimal.IsDigit(s[i]) {
      assert MatchAt(NumberedBold, s) == NumberedBoldAt(s);
      assert MatchAt(NumberedBold, s).None?;
      NumberedItemsNeedDigits(s[1..]);
      assert [s[0]] + s[1..] == s;
    }
  }

  /** A backslash and `n` start `s`. */
  predicate EscapeAt(s: string) {
    |s| >= 2 && s[0] == '\\' && s[1] == 'n'
  }

  predicate BlankEscapeAt(s: string) {
    EscapeAt(s) && EscapeAt(s[2..])
  }

  lemma BlankPassMisses(s: string)
    requires !BlankEscapeAt(s)
    ensures MatchAt(EscapedBlankLine, s).None?
  {
    assert LiteralAt(s, EscapedLineFeed + EscapedLineFeed, "\n\n").None?;
  }

  /** No escaped blank line starts where no escaped line feed does. */
  lemma NoBlankEscape(s: string)
    requires !EscapeAt(s)
    ensures !BlankEscapeAt(s)
  {
  }

  lemma BlankPassHead(s: string)
    requires |s| > 0 && !BlankEscapeAt(s)
    ensures ReplaceAll(EscapedBlankLine, s) == [s[0]] + ReplaceAll(EscapedBlankLine, s[1..])
  {
    BlankPassMisses(s);
    KeepsHead(EscapedBlankLine, s);
  }

  lemma BlankPassHits(s: string)
    requires BlankEscapeAt(s)
    ensures MatchAt(EscapedBlankLine, s) == Some(Hit(4, "\n\n"))
  {
    assert s[..4] == EscapedLineFeed + EscapedLineFeed;
  }

  lemma BlankPassTakes(s: string)
    requires BlankEscapeAt(s)
    ensures ReplaceAll(EscapedBlankLine, s) == "\n\n" + ReplaceAll(EscapedBlankLine, s[4..])
  {
    BlankPassHits(s);
  }

  lemma LineFeedPassMisses(s: string)
    requires !EscapeAt(s)
    ensures MatchAt(EscapedNewline, s).None?
  {
    assert LiteralAt(s, EscapedLineFeed, "\n").None?;
  }

  lemma LineFeedPassHead(s: string)
    requires |s| > 0 && !EscapeAt(s)
    ensures ReplaceAll(EscapedNewline, s) == [s[0]] + ReplaceAll(EscapedNewline, s[1..])
  {
    LineFeedPassMisses(s);
    KeepsHead(EscapedNewline, s);
  }

  lemma LineFeedPassHits(s: string)
    requires EscapeAt(s)
    ensures MatchAt(EscapedNewline, s) == Some(Hit(2, "\n"))
  {
    assert s[..2] == EscapedLineFeed;
  }

  lemma LineFeedPassTakes(s: string)
    requires EscapeAt(s)
    ensures ReplaceAll(EscapedNewline, s) == "\n" + ReplaceAll(EscapedNewline, s[2..])
  {
    LineFeedPassHits(s);
  }

  lemma LineFeedPassCons(c: char, rest: string)
    requires !EscapeAt([c] + rest)
    ensures ReplaceAll(EscapedNewline, [c] + rest) == [c] + ReplaceAll(EscapedNewline, rest)
  {
    LineFeedPassHead([c] + rest);
    assert ([c] + rest)[1..] == rest;
  }

  lemma BothPassesAtBlankLine(s: string)
    requires BlankEscapeAt(s)
    ensures ReplaceAll(EscapedNewline, ReplaceAll(EscapedBlankLine, s))
            == ['\n'] + (['\n'] + ReplaceAll(EscapedNewline, ReplaceAll(EscapedBlankLine, s[4..])))
  {
    var y := ReplaceAll(EscapedBlankLine, s[4..]);
    BlankPassTakes(s);
    assert ReplaceAll(EscapedBlankLine, s) == ['\n'] + (['\n'] + y);
    LineFeedPassCons('\n', ['\n'] + y);
    LineFeedPassCons('\n', y);
  }

  lemma LineFeedPassAtBlankLine(s: string)
    requires BlankEscapeAt(s)
    ensures ReplaceAll(EscapedNewline, s) == ['\n'] + (['\n'] + ReplaceAll(EscapedNewline, s[4..]))
  {
    LineFeedPassTakes(s);
    LineFeedPassTakes(s[2..]);
    assert s[2..][2..] == s[4..];
  }

  lemma RedundantAtBlankLine(s: string)
    requires BlankEscapeAt(s)
    requires ReplaceAll(EscapedNewline, ReplaceAll(EscapedBlankLine, s[4..])) == ReplaceAll(EscapedNewline, s[4..])
    ensures ReplaceAll(EscapedNewline, ReplaceAll(EscapedBlankLine, s)) == ReplaceAll(EscapedNewline, s)
  {
    BothPassesAtBlankLine(s);
    LineFeedPassAtBlankLine(s);
  }

  lemma BlankPassAtLineFeed(s: string)
    requires EscapeAt(s) && !BlankEscapeAt(s)
    ensures ReplaceAll(EscapedBlankLine, s) == ['\\', 'n'] + ReplaceAll(EscapedBlankLine, s[2..])
  {
    BlankPassHead(s);
    BlankPassHead(s[1..]);
    assert s[1..][1..] == s[2..];
  }

  lemma BothPassesAtLineFeed(s: string)
    requires EscapeAt(s) && !BlankEscapeAt(s)
    ensures ReplaceAll(EscapedNewline, ReplaceAll(EscapedBlankLine, s))
            == "\n" + ReplaceAll(EscapedNewline, ReplaceAll(EscapedBlankLine, s[2..]))
  {
    var u := ReplaceAll(EscapedBlankLine, s);
    BlankPassAtLineFeed(s);
    LineFeedPassTakes(u);
    assert u[2..] == ReplaceAll(EscapedBlankLine, s[2..]);
  }

  lemma RedundantAtLineFeed(s: string)
    requires EscapeAt(s) && !BlankEscapeAt(s)
    requires ReplaceAll(EscapedNewline, ReplaceAll(EscapedBlankLine, s[2..])) == ReplaceAll(EscapedNewline, s[2..])
    ensures ReplaceAll(EscapedNewline, ReplaceAll(EscapedBlankLine, s)) == ReplaceAll(EscapedNewline, s)
  {
    BothPassesAtLineFeed(s);
    LineFeedPassTakes(s);
  }

  /** The blank line rewrite starts with the first character, or with a line feed. */
  lemma BlankPassFirst(t: string)
    requires |t| > 0
    ensures |ReplaceAll(EscapedBlankLine, t)| > 0
    ensures ReplaceAll(EscapedBlankLine, t)[0] in {t[0], '\n'}
  {
    if BlankEscapeAt(t) {
      BlankPassTakes(t);
    } else {
      BlankPassHead(t);
    }
  }

  lemma HeadStaysUnescaped(s: string)
    requires |s| > 0 && !EscapeAt(s)
    ensures !EscapeAt([s[0]] + ReplaceAll(EscapedBlankLine, s[1..]))
  {
    if |s| > 1 {
      BlankPassFirst(s[1..]);
    }
  }

  lemma RedundantElsewhere(s: string)
    requires |s| > 0 && !EscapeAt(s)
    requires ReplaceAll(EscapedNewline, ReplaceAll(EscapedBlankLine, s[1..])) == ReplaceAll(EscapedNewline, s[1..])
    ensures ReplaceAll(EscapedNewline, ReplaceAll(EscapedBlankLine, s)) == ReplaceAll(EscapedNewline, s)
  {
    BothPassesElsewhere(s);
    LineFeedPassHead(s);
  }

  lemma BothPassesElsewhere(s: string)
    requires |s| > 0 && !EscapeAt(s)
    ensures ReplaceAll(EscapedNewline, ReplaceAll(EscapedBlankLine, s))
            == [s[0]] + ReplaceAll(EscapedNewline, ReplaceAll(EscapedBlankLine, s[1..]))
  {
    NoBlankEscape(s);
    BlankPassHead(s);
    HeadStaysUnescaped(s);
    LineFeedPassOf(ReplaceAll(EscapedBlankLine, s), s[0], ReplaceAll(EscapedBlankLine, s[1..]));
  }

  /** The line feed rewrite of a string equal to `[c] + rest`, when no escape starts at `c`. */
  lemma LineFeedPassOf(mid: string, c: char, rest: string)
    requires mid == [c] + rest && !EscapeAt([c] + rest)
    ensures ReplaceAll(EscapedNewline, mid) == [c] + ReplaceAll(EscapedNewline, rest)
  {
    LineFeedPassCons(c, rest);
  }

  /** The escaped blank line rewrite changes nothing the line feed rewrite would not: its
      replacement holds no backslash and no `n`. */
  lemma {:induction false} BlankLinePassIsRedundant(s: string)
    ensures ReplaceAll(EscapedNewline, ReplaceAll(EscapedBlankLine, s)) == ReplaceAll(EscapedNewline, s)
    decreases |s|
  {
    if |s| == 0 {
    } else if BlankEscapeAt(s) {
      BlankLinePassIsRedundant(s[4..]);
      RedundantAtBlankLine(s);
    } else if EscapeAt(s) {
      BlankLinePassIsRedundant(s[2..]);
      RedundantAtLineFeed(s);
    } else {
      BlankLinePassIsRedundant(s[1..]);
      RedundantElsewhere(s);
    }
  }

  /** Writes every line feed as a backslash and `n`, as the stream does. */
  function EscapeLineFeeds(t: string): (r: string)
    ensures '\n' !in r
    decreases |t|
  {
    if |t| == 0 then ""
    else (if t[0] == '\n' then EscapedLineFeed else [t[0]]) + EscapeLineFeeds(t[1..])
  }

  lemma {:induction false} LineFeedPassInvertsEscape(t: string)
    requires '\\' !in t
    ensures ReplaceAll(EscapedNewline, EscapeLineFeeds(t)) == t
    decreases |t|
  {
    if |t| > 0 {
      var rest := EscapeLineFeeds(t[1..]);
      LineFeedPassInvertsEscape(t[1..]);
      var e := EscapeLineFeeds(t);
      if t[0] == '\n' {
        assert e == EscapedLineFeed + rest && e[2..] == rest;
        LineFeedPassTakes(e);
      } else {
        assert e == [t[0]] + rest && e[1..] == rest;
        LineFeedPassHead(e);
      }
      assert t == [t[0]] + t[1..];
    }
  }

  /** Escaping works piece by piece. */
  lemma {:induction false} EscapeAppend(a: string, b: string)
    ensures EscapeLineFeeds(a + b) == EscapeLineFeeds(a) + EscapeLineFeeds(b)
    decreases |a|
  {
    if |a| > 0 {
      assert (a + b)[1..] == a[1..] + b;
      EscapeAppend(a[1..], b);
    } else {
      assert a + b == b;
    }
  }

  /** Text without line feeds is its own escape. */
  lemma {:induction false} EscapeWithoutBreaks(t: string)
    requires '\n' !in t
    ensures EscapeLineFeeds(t) == t
    decreases |t|
  {
    if |t| > 0 {
      EscapeWithoutBreaks(t[1..]);
      assert t == [t[0]] + t[1..];
    }
  }

  /** Every character of the escaped text is one of the text's own or one of an escape's. */
  lemma {:induction false} EscapedFrom(t: string)
    ensures |EscapeLineFeeds(t)| >= |t|
    ensures forall i :: 0 <= i < |EscapeLineFeeds(t)| ==>
              EscapeLineFeeds(t)[i] in t || EscapeLineFeeds(t)[i] in EscapedLineFeed
    decreases |t|
  {
    if |t| > 0 {
      EscapedFrom(t[1..]);
      var head := if t[0] == '\n' then EscapedLineFeed else [t[0]];
      var rest := EscapeLineFeeds(t[1..]);
      var e := EscapeLineFeeds(t);
      assert e == head + rest;
      forall i | 0 <= i < |e|
        ensures e[i] in t || e[i] in EscapedLineFeed
      {
        if i >= |head| {
          assert e[i] == rest[i - |head|];
          if e[i] in t[1..] {
            var k :| 0 <= k < |t[1..]| && t[1..][k] == e[i];
            assert t[k + 1] == e[i];
          }
        }
      }
    }
  }

  /** Escaping keeps out every marked character but the backslash it writes. */
  lemma EscapedUnmarked(t: string)
    requires forall i :: 0 <= i < |t| ==> !Marked(t[i])
    ensures |EscapeLineFeeds(t)| >= |t|
    ensures forall i :: 0 <= i < |EscapeLineFeeds(t)| ==> !Decimal.IsDigit(EscapeLineFeeds(t)[i])
    ensures '"' !in EscapeLineFeeds(t) && ':' !in EscapeLineFeeds(t)
  {
    var e := EscapeLineFeeds(t);
    EscapedFrom(t);
    forall i | 0 <= i < |e|
      ensures !Marked(e[i]) || e[i] == '\\'
    {
      if e[i] in t {
        var k :| 0 <= k < |t| && t[k] == e[i];
      }
    }
  }

  /** Stage 1 on a text part: its `0:` prefix goes and the quoted, digit-free body is kept. */
  lemma DropsTextPartPrefix(e: string)
    requires forall i :: 0 <= i < |e| ==> !Decimal.IsDigit(e[i])
    ensures DropPartPrefixes("0:\"" + e + "\"") == "\"" + e + "\""
  {
    var q := "\"" + e + "\"";
    assert "0:\"" + e + "\"" == "0:" + q;
    PartPrefixHit(q);
    TakesHit(DigitsColon, "0:" + q, Hit(2, ""));
    assert ("0:" + q)[2..] == q;
    QuotedHasNoDigit(e);
    NoDigitNoPartPrefix(q);
    ReplaceAllNoMatch(DigitsColon, q);
  }

  /** `0:` in front of any text is one part prefix of length two. */
  lemma PartPrefixHit(q: string)
    ensures MatchAt(DigitsColon, "0:" + q) == Some(Hit(2, ""))
  {
    var s := "0:" + q;
    assert s[..1] == "0" && s[1] == ':';
    SpanIs(s, 1, Digit);
  }

  lemma QuotedHasNoDigit(e: string)
    requires forall i :: 0 <= i < |e| ==> !Decimal.IsDigit(e[i])
    ensures var q := "\"" + e + "\"";
            forall i :: 0 <= i < |q| ==> !Decimal.IsDigit(q[i])
  {
    var q := "\"" + e + "\"";
    forall i | 0 <= i < |q|
      ensures !Decimal.IsDigit(q[i])
    {
      if 0 < i < |q| - 1 {
        assert q[i] == e[i - 1];
      }
    }
  }

  /** A part prefix starts with a digit, so a text without digits has none anywhere. */
  lemma NoDigitNoPartPrefix(q: string)
    requires forall i :: 0 <= i < |q| ==> !Decimal.IsDigit(q[i])
    ensures forall i :: 0 <= i < |q| ==> MatchAt(DigitsColon, q[i..]).None?
  {
    forall i | 0 <= i < |q|
      ensures MatchAt(DigitsColon, q[i..]).None?
    {
      assert q[i..][0] == q[i];
    }
  }

  /** Stage 2 on a JSON string: a non-empty body without quotes loses exactly its two quotes. */
  lemma UnquotesString(e: string)
    requires |e| > 0 && '"' !in e
    ensures NormaliseQuotes("\"" + e + "\"") == e
  {
    var q := "\"" + e + "\"";
    forall i | 0 <= i < |q|
      ensures MatchAt(QuoteRun, q[i..]).None?
    {
      if i + 1 < |q| {
        assert q[i..][0] == q[i] && q[i..][1] == q[i + 1];
        if i == 0 {
          assert q[1] == e[0];
        } else {
          assert q[i] == e[i - 1];
        }
      }
    }
    ReplaceAllNoMatch(QuoteRun, q);
    assert q[1..][..|q| - 2] == e;
  }

  /** Stage 3 keeps text without a colon: every record has one in second place. */
  lemma NoMessageIdWithoutColon(e: string)
    requires ':' !in e
    ensures DropMessageIds(e) == e
  {
    forall i | 0 <= i < |e|
      ensures MatchAt(MessageId, e[i..]).None?
    {
      if i + 1 < |e| {
        assert e[i..][1] == e[i + 1];
      }
    }
    ReplaceAllNoMatch(MessageId, e);
  }

  /** Stages 5 to 8 leave text alone that has no digit, colon, quote or backslash. */
  lemma LaterStagesKeepUnmarked(s: string)
    requires forall i :: 0 <= i < |s| ==> !Marked(s[i])
    ensures DropTrailingEvent(DropMetadata(DropFinishEvent(LiftNumberedItems(s)))) == s
  {
    ReplaceAllKeepsUnmarked(NumberedBold, s);
    CutAtKeeps(s, "! e:", DotOrNewline, 3);
    ReplaceAllKeepsUnmarked(Metadata(FinishReason), s);
    ReplaceAllKeepsUnmarked(Metadata(Usage), s);
    ReplaceAllKeepsUnmarked(Metadata(PromptTokens), s);
    ReplaceAllKeepsUnmarked(ContinuedEnd, s);
    ReplaceAllKeepsUnmarked(Continuation, s);
    ReplaceAllKeepsUnmarked(DanglingClose, s);
    CutAtKeeps(s, " ! e:", Dot, 4);
  }

  /** Stage 4 undoes the stream's escaping of line feeds in text that has no backslash. */
  lemma UnescapeInvertsEscape(t: string)
    requires '\\' !in t
    ensures UnescapeNewlines(EscapeLineFeeds(t)) == t
  {
    LineFeedPassInvertsEscape(t);
  }
}
