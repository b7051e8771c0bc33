/** The plan page's stream sanitiser: an ordered pipeline of rewrites that strips the
    streaming protocol's framing (part prefixes, message ids, metadata objects) from text and
    then trims every line. */
module CleanStream {
  import opened Rewrites
  import opened StreamSteps
  import Strings
  import Decimal

  function TrimEach(lines: seq<string>): (r: seq<string>)
    ensures |r| == |lines|
    ensures forall i :: 0 <= i < |r| ==> r[i] == Strings.Trim(lines[i])
  {
    seq(|lines|, i requires 0 <= i < |lines| => Strings.Trim(lines[i]))
  }

  /** Stage 9: split at line feeds, trim each line, join again. The lines of the result are
      the trimmed lines of the input, in order: none is added or lost. */
  function TrimLines(s: string): (r: string)
    ensures Strings.Split(r, '\n') == TrimEach(Strings.Split(s, '\n'))
    ensures forall i :: 0 <= i < |Strings.Split(r, '\n')| ==> Strings.IsTrimmed(Strings.Split(r, '\n')[i])
  {
    var lines := Strings.Split(s, '\n');
    TrimmedLinesRejoin(lines);
    Strings.Join(TrimEach(lines), '\n')
  }

  /** Trimming keeps lines free of line feeds, so joining and splitting again gives them back. */
  lemma TrimmedLinesRejoin(lines: seq<string>)
    requires |lines| >= 1
    requires forall i :: 0 <= i < |lines| ==> '\n' !in lines[i]
    ensures Strings.Split(Strings.Join(TrimEach(lines), '\n'), '\n') == TrimEach(lines)
    ensures forall i :: 0 <= i < |TrimEach(lines)| ==> Strings.IsTrimmed(TrimEach(lines)[i])
  {
    var trimmed := TrimEach(lines);
    forall i | 0 <= i < |trimmed|
      ensures '\n' !in trimmed[i]
    {
      Strings.IncludesNeeds(lines[i], trimmed[i]);
    }
    Strings.SplitJoin(trimmed, '\n');
  }

  /** The whole sanitiser, stage by stage in the source's order. */
  function CleanStreamText(text: string): (r: string)
    ensures forall i :: 0 <= i < |Strings.Split(r, '\n')| ==> Strings.IsTrimmed(Strings.Split(r, '\n')[i])
  {
    var s := DropTrailingEvent(DropMetadata(DropFinishEvent(LiftNumberedItems(
               UnescapeNewlines(DropMessageIds(NormaliseQuotes(DropPartPrefixes(text))))))));
    TrimLines(s)
  }

  /** Trimming changes nothing when every line is already trimmed. */
  lemma TrimLinesKeepsTrimmed(s: string)
    requires forall i :: 0 <= i < |Strings.Split(s, '\n')| ==> Strings.IsTrimmed(Strings.Split(s, '\n')[i])
    ensures TrimLines(s) == s
  {
    assert TrimEach(Strings.Split(s, '\n')) == Strings.Split(s, '\n');
    Strings.JoinSplit(s, '\n');
  }

  /** A single line loses only the white space at its two ends: the runs of white space inside
      it are kept as they are. */
  lemma TrimLinesKeepsInterior(pre: string, core: string, post: string)
    requires forall k :: 0 <= k < |pre| ==> Strings.IsSpace(pre[k]) && pre[k] != '\n'
    requires forall k :: 0 <= k < |post| ==> Strings.IsSpace(post[k]) && post[k] != '\n'
    requires '\n' !in core && Strings.IsTrimmed(core)
    ensures TrimLines(pre + core + post) == core
  {
    var line := pre + core + post;
    assert '\n' !in line by {
      forall k | 0 <= k < |line|
        ensures line[k] != '\n'
      {
        if k < |pre| {
          assert line[k] == pre[k];
        } else if k < |pre| + |core| {
          assert line[k] == core[k - |pre|];
        } else {
          assert line[k] == post[k - |pre| - |core|];
        }
      }
    }
    Strings.SplitJoin([line], '\n');
    assert Strings.Split(line, '\n') == [line];
    Strings.TrimPadded(pre, core, post);
    assert TrimEach([line]) == [core];
  }

  /** Every rewriting stage leaves text alone that has no digit, colon, quote or backslash. */
  lemma RewritesKeepUnmarked(s: string)
    requires forall i :: 0 <= i < |s| ==> !Marked(s[i])
    ensures DropTrailingEvent(DropMetadata(DropFinishEvent(LiftNumberedItems(
              UnescapeNewlines(DropMessageIds(NormaliseQuotes(DropPartPrefixes(s)))))))) == s
  {
    ReplaceAllKeepsUnmarked(DigitsColon, s);
    ReplaceAllKeepsUnmarked(QuoteRun, s);
    assert StripEnclosingQuotes(s) == s;
    ReplaceAllKeepsUnmarked(MessageId, s);
    ReplaceAllKeepsUnmarked(EscapedBlankLine, s);
    ReplaceAllKeepsUnmarked(EscapedNewline, s);
    LaterStagesKeepUnmarked(s);
  }

  /** A line of plain prose padded with white space comes out as the prose alone, its inner
      white space untouched. */
  lemma CleanPaddedProse(pre: string, core: string, post: string)
    requires forall k :: 0 <= k < |pre| ==> Strings.IsSpace(pre[k]) && pre[k] != '\n'
    requires forall k :: 0 <= k < |post| ==> Strings.IsSpace(post[k]) && post[k] != '\n'
    requires '\n' !in core && Strings.IsTrimmed(core)
    requires forall i :: 0 <= i < |core| ==> !Marked(core[i])
    ensures CleanStreamText(pre + core + post) == core
  {
    var line := pre + core + post;
    forall i | 0 <= i < |line|
      ensures !Marked(line[i])
    {
      if i < |pre| {
        assert line[i] == pre[i];
      } else if i < |pre| + |core| {
        assert line[i] == core[i - |pre|];
      } else {
        assert line[i] == post[i - |pre| - |core|];
      }
    }
    RewritesKeepUnmarked(line);
    TrimLinesKeepsInterior(pre, core, post);
  }

  /** Plain prose, with no digit, colon, quote or backslash and no white space at either end of
      a line, passes through the sanitiser unchanged. */
  lemma CleanProseUnchanged(s: string)
    requires forall i :: 0 <= i < |s| ==> !Marked(s[i])
    requires forall i :: 0 <= i < |Strings.Split(s, '\n')| ==> Strings.IsTrimmed(Strings.Split(s, '\n')[i])
    ensures CleanStreamText(s) == s
  {
    RewritesKeepUnmarked(s);
    TrimLinesKeepsTrimmed(s);
  }

  /** A text part of the stream, `0:` and a JSON string holding `u` with its line feeds
      escaped, is cleaned back to `u` itself, blank lines included, when `u` has no digit,
      colon, quote or backslash and its lines are trimmed. */
  lemma CleanTextPart(u: string)
    requires |u| > 0
    requires forall i :: 0 <= i < |u| ==> !Marked(u[i])
    requires forall i :: 0 <= i < |Strings.Split(u, '\n')| ==> Strings.IsTrimmed(Strings.Split(u, '\n')[i])
    ensures CleanStreamText("0:\"" + EscapeLineFeeds(u) + "\"") == u
  {
    var e := EscapeLineFeeds(u);
    EscapedUnmarked(u);
    DropsTextPartPrefix(e);
    UnquotesString(e);
    NoMessageIdWithoutColon(e);
    UnescapeInvertsEscape(u);
    LaterStagesKeepUnmarked(u);
    TrimLinesKeepsTrimmed(u);
  }

  /** The lines of two paragraphs with a blank line between: the first, an empty one, the second. */
  lemma TwoParagraphLines(a: string, b: string)
    requires '\n' !in a && '\n' !in b
    ensures Strings.Split(a + "\n\n" + b, '\n') == [a, "", b]
  {
    Strings.SplitJoin([a, "", b], '\n');
    JoinThree(a, "", b);
    assert a + "\n" + "" + "\n" + b == a + "\n\n" + b;
  }

  /** The stream writes that blank line as two escapes. */
  lemma TwoParagraphEscape(a: string, b: string)
    requires '\n' !in a && '\n' !in b
    ensures EscapeLineFeeds(a + "\n\n" + b) == a + "\\n\\n" + b
  {
    assert EscapeLineFeeds(a + "\n\n") == a + "\\n\\n" by {
      EscapeAppend(a, "\n\n");
      EscapeWithoutBreaks(a);
      EscapesBlankLine();
    }
    assert EscapeLineFeeds(b) == b by {
      EscapeWithoutBreaks(b);
    }
    EscapeAppend(a + "\n\n", b);
  }

  /** The two line feeds of a blank line become two escapes. */
  lemma EscapesBlankLine()
    ensures EscapeLineFeeds("\n\n") == "\\n\\n"
  {
    assert EscapeLineFeeds("\n") == "\\n";
  }

  lemma JoinThree(x: string, y: string, z: string)
    ensures Strings.Join([x, y, z], '\n') == x + "\n" + y + "\n" + z
  {
    assert [y, z][1..] == [z];
    assert Strings.Join([y, z], '\n') == y + "\n" + z;
    assert [x, y, z][1..] == [y, z];
    assert Strings.Join([x, y, z], '\n') == x + "\n" + (y + "\n" + z);
  }

  /** Two paragraphs of prose sent as one text part, their blank line escaped, come out as
      the two paragraphs with a real blank line between them. */
  lemma CleanTwoParagraphs(a: string, b: string)
    requires forall i :: 0 <= i < |a| ==> !Marked(a[i])
    requires forall i :: 0 <= i < |b| ==> !Marked(b[i])
    requires '\n' !in a && '\n' !in b && Strings.IsTrimmed(a) && Strings.IsTrimmed(b)
    ensures CleanStreamText("0:\"" + a + "\\n\\n" + b + "\"") == a + "\n\n" + b
  {
    var u := a + "\n\n" + b;
    forall i | 0 <= i < |u|
      ensures !Marked(u[i])
    {
      if i >= |a| + 2 {
        assert u[i] == b[i - |a| - 2];
      } else if i < |a| {
        assert u[i] == a[i];
      }
    }
    TwoParagraphLines(a, b);
    TwoParagraphEscape(a, b);
    CleanTextPart(u);
    Regroup("0:\"", a, "\\n\\n", b, "\"");
  }

  lemma Regroup(p: string, a: string, m: string, b: string, q: string)
    ensures p + (a + m + b) + q == p + a + m + b + q
  {
  }

  /** The stream chunk `0:"Hello\n\nWorld"`, written here in its parts, is cleaned to the two
      words with a blank line between. */
  lemma CleanWorkedExample()
    ensures CleanStreamText("0:\"" + "Hello" + "\\n\\n" + "World" + "\"") == "Hello" + "\n\n" + "World"
  {
    CleanTwoParagraphs("Hello", "World");
  }
}
