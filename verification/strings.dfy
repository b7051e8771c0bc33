/** The JavaScript string operations the model relies on: `includes`, `split`/`join` on a
    one-character separator, and `trim`. Strings are sequences of Unicode scalar values. */
module Strings {

  /** `s.includes(t)`: `t` occurs in `s` as a contiguous block. Every string includes "". */
  predicate Includes(s: string, t: string)
    decreases |s|
  {
    t <= s || (|s| > 0 && Includes(s[1..], t))
  }

  /** An occurrence at a known offset is found. */
  lemma {:induction false} IncludesAt(s: string, t: string, i: nat)
    requires i + |t| <= |s| && s[i..i + |t|] == t
    ensures Includes(s, t)
    decreases i
  {
    if i > 0 {
      assert s[1..][i - 1..i - 1 + |t|] == t;
      IncludesAt(s[1..], t, i - 1);
    }
  }

  /** Every occurrence found lies at some offset. */
  lemma {:induction false} IncludesOffset(s: string, t: string) returns (i: nat)
    requires Includes(s, t)
    ensures i + |t| <= |s| && s[i..i + |t|] == t
    decreases |s|
  {
    if t <= s {
      i := 0;
    } else {
      var j := IncludesOffset(s[1..], t);
      i := j + 1;
      assert s[i..i + |t|] == s[1..][j..j + |t|];
    }
  }

  /** A block of a concatenation is included in it. */
  lemma IncludesMiddle(a: string, b: string, c: string)
    ensures Includes(a + b + c, b)
  {
    assert (a + b + c)[|a|..|a| + |b|] == b;
    IncludesAt(a + b + c, b, |a|);
  }

  /** Inclusion survives extending the searched string at the end. */
  lemma IncludesExtend(s: string, more: string, t: string)
    requires Includes(s, t)
    ensures Includes(s + more, t)
  {
    var i := IncludesOffset(s, t);
    assert (s + more)[i..i + |t|] == s[i..i + |t|];
    IncludesAt(s + more, t, i);
  }

  /** What an inclusion needs: `t` is no longer than `s`, and each character of `t` occurs in `s`. */
  lemma IncludesNeeds(s: string, t: string)
    ensures Includes(s, t) ==> |t| <= |s| && forall k :: 0 <= k < |t| ==> t[k] in s
  {
    if Includes(s, t) {
      var i := IncludesOffset(s, t);
      forall k | 0 <= k < |t|
        ensures t[k] in s
      {
        assert s[i + k] == t[k];
      }
    }
  }

  /** `s.endsWith(t)`. */
  predicate EndsWith(s: string, t: string) {
    |t| <= |s| && s[|s| - |t|..] == t
  }

  lemma EndsWithAppend(s: string, t: string)
    ensures EndsWith(s + t, t)
  {
    assert (s + t)[|s|..] == t;
  }

  /** `s.split(sep)` for a one-character separator: the maximal separator-free pieces, in order;
      always at least one piece (`"".split(sep)` is `[""]`). */
  function Split(s: string, sep: char): (parts: seq<string>)
    ensures |parts| >= 1
    ensures forall i :: 0 <= i < |parts| ==> sep !in parts[i]
    decreases |s|
  {
    if |s| == 0 then [""]
    else
      var rest := Split(s[1..], sep);
      if s[0] == sep then [""] + rest else [[s[0]] + rest[0]] + rest[1..]
  }

  /** The total length of the pieces. */
  function TotalLength(parts: seq<string>): nat {
    if |parts| == 0 then 0 else |parts[0]| + TotalLength(parts[1..])
  }

  /** `parts.join(sep)`: the pieces in order with one `sep` between each two neighbours, so
      nothing but the pieces and `|parts| - 1` separators. */
  function Join(parts: seq<string>, sep: char): (r: string)
    ensures |parts| > 0 ==> |r| == TotalLength(parts) + |parts| - 1
  {
    if |parts| == 0 then ""
    else if |parts| == 1 then parts[0]
    else parts[0] + [sep] + Join(parts[1..], sep)
  }

  /** Joining the pieces restores the string. */
  lemma {:induction false} JoinSplit(s: string, sep: char)
    ensures Join(Split(s, sep), sep) == s
    decreases |s|
  {
    if |s| > 0 {
      JoinSplit(s[1..], sep);
      var rest := Split(s[1..], sep);
      if s[0] != sep && |rest| > 1 {
        assert rest == [rest[0]] + rest[1..];
      }
    }
  }

  /** Splitting a separator-free prefix in front of `x` glues it to the first piece of `x`. */
  lemma {:induction false} SplitPrefix(p: string, x: string, sep: char)
    requires sep !in p
    ensures Split(p + x, sep) == [p + Split(x, sep)[0]] + Split(x, sep)[1..]
    decreases |p|
  {
    if |p| > 0 {
      assert (p + x)[1..] == p[1..] + x;
      SplitPrefix(p[1..], x, sep);
      var rest := Split(p[1..] + x, sep);
      assert rest[0] == p[1..] + Split(x, sep)[0];
      assert [p[0]] + rest[0] == p + Split(x, sep)[0];
    } else {
      assert p + x == x;
      assert p + Split(x, sep)[0] == Split(x, sep)[0];
      assert Split(x, sep) == [Split(x, sep)[0]] + Split(x, sep)[1..];
    }
  }

  /** Splitting a join of separator-free pieces gives the pieces back. */
  lemma {:induction false} SplitJoin(parts: seq<string>, sep: char)
    requires |parts| >= 1
    requires forall i :: 0 <= i < |parts| ==> sep !in parts[i]
    ensures Split(Join(parts, sep), sep) == parts
    decreases |parts|
  {
    if |parts| == 1 {
      assert Join(parts, sep) == parts[0] + "";
      SplitPrefix(parts[0], "", sep);
      assert Split("", sep) == [""];
    } else {
      var tail := Join(parts[1..], sep);
      SplitJoin(parts[1..], sep);
      SplitPrefix(parts[0], [sep] + tail, sep);
      assert parts[0] + [sep] + tail == parts[0] + ([sep] + tail);
      assert ([sep] + tail)[1..] == tail;
      assert Split([sep] + tail, sep) == [""] + parts[1..];
      assert parts[0] + "" == parts[0];
      assert parts == [parts[0]] + parts[1..];
    }
  }

  /** Joining with one more piece appends a separator and that piece. */
  lemma {:induction false} JoinSnoc(parts: seq<string>, last: string, sep: char)
    requires |parts| >= 1
    ensures Join(parts + [last], sep) == Join(parts, sep) + [sep] + last
    decreases |parts|
  {
    if |parts| > 1 {
      assert (parts + [last])[1..] == parts[1..] + [last];
      JoinSnoc(parts[1..], last, sep);
    }
  }

  /** Joining with two more pieces appends each behind its own separator. */
  lemma JoinSnocTwo(parts: seq<string>, a: string, b: string, sep: char)
    requires |parts| >= 1
    ensures Join(parts + [a] + [b], sep) == (Join(parts, sep) + [sep]) + (a + [sep] + b)
  {
    JoinSnoc(parts, a, sep);
    JoinSnoc(parts + [a], b, sep);
  }

  /** Every piece appears in the joined string. */
  lemma {:induction false} JoinIncludesPart(parts: seq<string>, sep: char, i: nat)
    requires i < |parts|
    ensures Includes(Join(parts, sep), parts[i])
    decreases i
  {
    if |parts| == 1 {
      IncludesFront(parts[0], "");
    } else if i == 0 {
      IncludesFront(parts[0], [sep] + Join(parts[1..], sep));
    } else {
      JoinIncludesPart(parts[1..], sep, i - 1);
      IncludesPrepend(parts[0] + [sep], Join(parts[1..], sep), parts[i]);
    }
  }

  /** A string includes its front. */
  lemma IncludesFront(t: string, rest: string)
    ensures Includes(t + rest, t)
  {
    assert t <= t + rest;
  }

  /** Inclusion survives putting anything in front. */
  lemma IncludesPrepend(front: string, s: string, t: string)
    requires Includes(s, t)
    ensures Includes(front + s, t)
  {
    var j := IncludesOffset(s, t);
    assert (front + s)[|front| + j..|front| + j + |t|] == s[j..j + |t|];
    IncludesAt(front + s, t, |front| + j);
  }

  /** JavaScript white space and line terminators: what `trim` removes and `\s` matches. */
  predicate IsSpace(c: char) {
    || c == '\t' || c == '\n' || c == '\U{000B}' || c == '\U{000C}' || c == '\r' || c == ' '
    || c == '\U{00A0}' || c == '\U{1680}' || ('\U{2000}' <= c <= '\U{200A}')
    || c == '\U{2028}' || c == '\U{2029}' || c == '\U{202F}' || c == '\U{205F}'
    || c == '\U{3000}' || c == '\U{FEFF}'
  }

  /** No white space at either end. */
  predicate IsTrimmed(s: string) {
    |s| == 0 || (!IsSpace(s[0]) && !IsSpace(s[|s| - 1]))
  }

  /** `s.trimStart()`: drops exactly the leading white space. */
  function TrimStart(s: string): (r: string)
    ensures |r| <= |s| && r == s[|s| - |r|..]
    ensures forall i :: 0 <= i < |s| - |r| ==> IsSpace(s[i])
    ensures |r| > 0 ==> !IsSpace(r[0])
    decreases |s|
  {
    if |s| > 0 && IsSpace(s[0]) then TrimStart(s[1..]) else s
  }

  /** `s.trimEnd()`: drops exactly the trailing white space. */
  function TrimEnd(s: string): (r: string)
    ensures |r| <= |s| && r == s[..|r|]
    ensures forall i :: |r| <= i < |s| ==> IsSpace(s[i])
    ensures |r| > 0 ==> !IsSpace(r[|r| - 1])
    decreases |s|
  {
    if |s| > 0 && IsSpace(s[|s| - 1]) then TrimEnd(s[..|s| - 1]) else s
  }

  /** `s.trim()`: the block of `s` left after dropping white space at both ends. Only the
      white space before the block and after it goes; everything between is kept. */
  function Trim(s: string): (r: string)
    ensures IsTrimmed(r)
    ensures Includes(s, r)
    ensures IsTrimmed(s) ==> r == s
  {
    var a := TrimStart(s);
    var r := TrimEnd(a);
    assert |r| > 0 ==> r[0] == a[0];
    assert s[|s| - |a|..][..|r|] == r;
    IncludesAt(s, r, |s| - |a|);
    r
  }

  /** The trimmed text is one block of `s`, character for character, with white space only
      in front of it and after it: every character between its first and last is kept. */
  lemma TrimIsBlock(s: string)
    ensures |s| - |TrimStart(s)| + |Trim(s)| <= |s|
    ensures forall j :: 0 <= j < |Trim(s)| ==> Trim(s)[j] == s[|s| - |TrimStart(s)| + j]
    ensures forall k :: 0 <= k < |s| - |TrimStart(s)| ==> IsSpace(s[k])
    ensures forall k :: |s| - |TrimStart(s)| + |Trim(s)| <= k < |s| ==> IsSpace(s[k])
  {
    TrimKeepsBlock(s);
    TrimDropsTail(s);
  }

  lemma TrimKeepsBlock(s: string)
    ensures |s| - |TrimStart(s)| + |Trim(s)| <= |s|
    ensures forall j :: 0 <= j < |Trim(s)| ==> Trim(s)[j] == s[|s| - |TrimStart(s)| + j]
  {
    var a := TrimStart(s);
    assert Trim(s) == TrimEnd(a);
    PrefixOfSuffix(s, a, Trim(s));
  }

  /** A prefix `r` of a suffix `a` of `s`, read at its places in `s`. */
  lemma PrefixOfSuffix(s: string, a: string, r: string)
    requires |a| <= |s| && a == s[|s| - |a|..]
    requires |r| <= |a| && r == a[..|r|]
    ensures |s| - |a| + |r| <= |s|
    ensures forall j :: 0 <= j < |r| ==> r[j] == s[|s| - |a| + j]
  {
    SuffixAt(s, a);
    PrefixAt(a, r);
  }

  lemma TrimDropsTail(s: string)
    ensures forall k :: |s| - |TrimStart(s)| + |Trim(s)| <= k < |s| ==> IsSpace(s[k])
  {
    var a := TrimStart(s);
    assert Trim(s) == TrimEnd(a);
    BlockAt(s, a, Trim(s));
  }

  /** A prefix `r` of a suffix `a` of `s`, with white space after it, read as a block of `s`. */
  lemma BlockAt(s: string, a: string, r: string)
    requires |a| <= |s| && a == s[|s| - |a|..]
    requires |r| <= |a| && r == a[..|r|]
    requires forall i :: |r| <= i < |a| ==> IsSpace(a[i])
    ensures |s| - |a| + |r| <= |s|
    ensures forall j :: 0 <= j < |r| ==> r[j] == s[|s| - |a| + j]
    ensures forall k :: |s| - |a| + |r| <= k < |s| ==> IsSpace(s[k])
  {
    SuffixAt(s, a);
    PrefixAt(a, r);
    forall j | 0 <= j < |r|
      ensures r[j] == s[|s| - |a| + j]
    {
      assert r[j] == a[j];
    }
    TrailingSpace(s, a, r);
  }

  /** A suffix, character by character. */
  lemma SuffixAt(s: string, a: string)
    requires |a| <= |s| && a == s[|s| - |a|..]
    ensures forall j :: 0 <= j < |a| ==> a[j] == s[|s| - |a| + j]
  {
  }

  /** A prefix, character by character. */
  lemma PrefixAt(a: string, r: string)
    requires |r| <= |a| && r == a[..|r|]
    ensures forall j :: 0 <= j < |r| ==> r[j] == a[j]
  {
  }

  /** White space after a prefix of a suffix is white space at the end of the whole. */
  lemma TrailingSpace(s: string, a: string, r: string)
    requires |a| <= |s| && forall j :: 0 <= j < |a| ==> a[j] == s[|s| - |a| + j]
    requires |r| <= |a| && forall i :: |r| <= i < |a| ==> IsSpace(a[i])
    ensures forall k :: |s| - |a| + |r| <= k < |s| ==> IsSpace(s[k])
  {
    forall k | |s| - |a| + |r| <= k < |s|
      ensures IsSpace(s[k])
    {
      assert s[k] == a[k - (|s| - |a|)];
    }
  }

  /** Leading white space in front of a block that starts with a non-space goes. */
  lemma {:induction false} TrimStartPadded(pre: string, x: string)
    requires forall k :: 0 <= k < |pre| ==> IsSpace(pre[k])
    requires |x| > 0 ==> !IsSpace(x[0])
    ensures TrimStart(pre + x) == x
    decreases |pre|
  {
    if |pre| > 0 {
      assert (pre + x)[1..] == pre[1..] + x;
      TrimStartPadded(pre[1..], x);
    } else {
      assert pre + x == x;
    }
  }

  /** Trailing white space behind a block that ends with a non-space goes. */
  lemma {:induction false} TrimEndPadded(x: string, post: string)
    requires forall k :: 0 <= k < |post| ==> IsSpace(post[k])
    requires |x| > 0 ==> !IsSpace(x[|x| - 1])
    ensures TrimEnd(x + post) == x
    decreases |post|
  {
    if |post| > 0 {
      assert (x + post)[..|x + post| - 1] == x + post[..|post| - 1];
      TrimEndPadded(x, post[..|post| - 1]);
    } else {
      assert x + post == x;
    }
  }

  /** Trimming a trimmed block padded with white space gives the block back, white space
      inside it included. */
  lemma TrimPadded(pre: string, core: string, post: string)
    requires forall k :: 0 <= k < |pre| ==> IsSpace(pre[k])
    requires forall k :: 0 <= k < |post| ==> IsSpace(post[k])
    requires IsTrimmed(core)
    ensures Trim(pre + core + post) == core
  {
    assert pre + core + post == pre + (core + post);
    if |core| > 0 {
      TrimStartPadded(pre, core + post);
      TrimEndPadded(core, post);
    } else {
      assert core + post == post;
      assert |TrimStart(pre + post)| == 0;
    }
  }
}
