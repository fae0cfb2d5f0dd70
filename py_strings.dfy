/** The Python string operations the extractor relies on (str.lstrip,
    str.partition, str.split, str.join, str.lower, str.startswith, re.sub on
    a character class, str.replace and slicing), modelled on seq<char>. */
module PyStrings {

  /** str.isspace() of one character: the characters Python's str.lstrip()
      removes when called without arguments. */
  predicate IsSpace(c: char) {
    || ('\t' <= c <= '\r')
    || ('\U{1c}' <= c <= '\U{1f}')
    || c == ' '
    || c == '\U{85}'
    || c == '\U{a0}'
    || c == '\U{1680}'
    || ('\U{2000}' <= c <= '\U{200a}')
    || c == '\U{2028}'
    || c == '\U{2029}'
    || c == '\U{202f}'
    || c == '\U{205f}'
    || c == '\U{3000}'
  }

  /** str.startswith(prefix). */
  predicate StartsWith(s: string, prefix: string) {
    |prefix| <= |s| && s[..|prefix|] == prefix
  }

  /** str.lstrip(): drops the leading whitespace, and only that. */
  function LStrip(s: string): (r: string)
    ensures |r| <= |s|
    ensures r == [] || !IsSpace(r[0])
  {
    if s != [] && IsSpace(s[0]) then LStrip(s[1..]) else s
  }

  /** What str.lstrip() removes is a run of whitespace, and what it keeps is
      the rest of the text. */
  lemma {:induction false} LStripDropsOnlySpace(s: string)
    ensures LStrip(s) == s[|s| - |LStrip(s)|..]
    ensures forall i :: 0 <= i < |s| - |LStrip(s)| ==> IsSpace(s[i])
  {
    if s != [] && IsSpace(s[0]) {
      LStripDropsOnlySpace(s[1..]);
    }
  }

  /** str.partition(sep) for a one-character separator: the text before the
      first separator and the text after it, or the whole text and "" when
      the separator does not occur. */
  function Partition(s: string, sep: char): (r: (string, string))
    ensures sep in s ==> s == r.0 + [sep] + r.1 && sep !in r.0
    ensures sep !in s ==> r == (s, [])
  {
    if s == [] then ([], [])
    else if s[0] == sep then ([], s[1..])
    else
      assert s == [s[0]] + s[1..];
      var (before, after) := Partition(s[1..], sep);
      ([s[0]] + before, after)
  }

  /** str.split(sep) for a one-character separator: every occurrence splits,
      so two adjacent separators give an empty piece, and there is always at
      least one piece. */
  function Split(s: string, sep: char): (r: seq<string>)
    ensures |r| >= 1
    ensures StartsWith(s, r[0])
    ensures forall i :: 0 <= i < |r| ==> sep !in r[i]
    decreases |s|
  {
    if sep in s then
      var (before, after) := Partition(s, sep);
      [before] + Split(after, sep)
    else
      [s]
  }

  /** sep.join(parts). */
  function Join(parts: seq<string>, sep: string): string {
    if |parts| == 0 then []
    else if |parts| == 1 then parts[0]
    else parts[0] + sep + Join(parts[1..], sep)
  }

  /** str.lower() restricted to ASCII letters. */
  function LowerChar(c: char): char {
    if 'A' <= c <= 'Z' then (c as int + 32) as char else c
  }

  function Lower(s: string): (r: string)
    ensures |r| == |s|
  {
    seq(|s|, i requires 0 <= i < |s| => LowerChar(s[i]))
  }

  /** Python slicing s[start:], where a negative start counts from the end
      and an out-of-range start is clamped. */
  function SliceFrom<T>(s: seq<T>, start: int): (r: seq<T>)
    ensures start < 0 && -start <= |s| ==> r == s[|s| + start..]
    ensures 0 <= start <= |s| ==> r == s[start..]
  {
    if start < 0 then
      (if -start <= |s| then s[|s| + start..] else s)
    else if start <= |s| then s[start..]
    else []
  }

  /** Drops the leading characters that belong to `chars`. */
  function DropRun(s: string, chars: set<char>): (r: string)
    ensures |r| <= |s|
    ensures r == [] || r[0] !in chars
  {
    if s != [] && s[0] in chars then DropRun(s[1..], chars) else s
  }

  /** re.sub('[...]+', ' ', s): every maximal run of characters of `chars`
      becomes one space. */
  function CollapseRuns(s: string, chars: set<char>): (r: string)
    requires ' ' !in chars
    ensures forall i :: 0 <= i < |r| ==> r[i] !in chars
    ensures |r| <= |s|
    decreases |s|
  {
    if s == [] then []
    else
      var head, rest := if s[0] in chars then ' ' else s[0], if s[0] in chars then DropRun(s[1..], chars) else s[1..];
      var tail := CollapseRuns(rest, chars);
      assert forall i :: 1 <= i < |tail| + 1 ==> ([head] + tail)[i] == tail[i - 1];
      [head] + tail
  }

  /** str.replace("'", "\\'"): every single quote gets a backslash before it. */
  function EscapeQuotes(s: string): (r: string)
    ensures forall i :: 0 <= i < |r| && r[i] == '\'' ==> 0 < i && r[i - 1] == '\\'
    ensures |r| >= |s|
  {
    if s == [] then []
    else if s[0] == '\'' then "\\'" + EscapeQuotes(s[1..])
    else [s[0]] + EscapeQuotes(s[1..])
  }

  /** Reading back an escaped text: every backslash-quote pair is one quote. */
  function UnescapeQuotes(s: string): string {
    if s == [] then []
    else if |s| >= 2 && s[0] == '\\' && s[1] == '\'' then "'" + UnescapeQuotes(s[2..])
    else [s[0]] + UnescapeQuotes(s[1..])
  }

  /** The escaping loses nothing: reading the escaped text back gives the
      original. */
  lemma {:induction false} UnescapeEscapeQuotes(s: string)
    ensures UnescapeQuotes(EscapeQuotes(s)) == s
  {
    if s != [] {
      UnescapeEscapeQuotes(s[1..]);
      if s[0] == '\'' {
        assert EscapeQuotes(s) == "\\'" + EscapeQuotes(s[1..]);
      } else {
        assert EscapeQuotes(s) == [s[0]] + EscapeQuotes(s[1..]);
        if s[0] == '\\' && EscapeQuotes(s[1..]) != [] {
          // The character after an original backslash is never a bare quote.
          assert EscapeQuotes(s[1..])[0] != '\'';
        }
      }
    }
  }

  /** Partitioning a text at the first separator gives the two sides back. */
  lemma {:induction false} PartitionAt(before: string, sep: char, after: string)
    requires sep !in before
    ensures Partition(before + [sep] + after, sep) == (before, after)
  {
    if before == [] {
      assert before + [sep] + after == [sep] + after;
    } else {
      assert (before + [sep] + after)[1..] == before[1..] + [sep] + after;
      PartitionAt(before[1..], sep, after);
      assert before == [before[0]] + before[1..];
    }
  }

  /** Splitting a text joined with a separator gives the pieces back, as long
      as no piece holds the separator. */
  lemma {:induction false} SplitJoin(parts: seq<string>, sep: char)
    requires |parts| >= 1
    requires forall i :: 0 <= i < |parts| ==> sep !in parts[i]
    ensures Split(Join(parts, [sep]), sep) == parts
  {
    if |parts| == 1 {
      assert Join(parts, [sep]) == parts[0];
    } else {
      var rest := Join(parts[1..], [sep]);
      assert Join(parts, [sep]) == parts[0] + [sep] + rest;
      PartitionAt(parts[0], sep, rest);
      var s := parts[0] + [sep] + rest;
      assert sep in s by { assert s[|parts[0]|] == sep; }
      SplitJoin(parts[1..], sep);
      assert Split(s, sep) == [parts[0]] + Split(rest, sep);
    }
  }

  /** A character in no part and not in the separator is not in the join. */
  lemma {:induction false} JoinAvoids(parts: seq<string>, sep: string, c: char)
    requires c !in sep
    requires forall i :: 0 <= i < |parts| ==> c !in parts[i]
    ensures c !in Join(parts, sep)
  {
    if |parts| > 1 {
      JoinAvoids(parts[1..], sep, c);
    }
  }

  /** Joining the pieces of a split gives the text back. */
  lemma {:induction false} JoinSplit(s: string, sep: char)
    ensures Join(Split(s, sep), [sep]) == s
    decreases |s|
  {
    if sep in s {
      var (before, after) := Partition(s, sep);
      JoinSplit(after, sep);
      var pieces := Split(after, sep);
      assert Split(s, sep) == [before] + pieces;
      assert ([before] + pieces)[1..] == pieces;
    }
  }

  /** A prefix without run characters survives the collapsing untouched. */
  lemma {:induction false} CollapseRunsPrefix(prefix: string, s: string, chars: set<char>)
    requires ' ' !in chars
    requires forall i :: 0 <= i < |prefix| ==> prefix[i] !in chars
    ensures CollapseRuns(prefix + s, chars) == prefix + CollapseRuns(s, chars)
  {
    if prefix != [] {
      assert (prefix + s)[0] == prefix[0] && prefix[0] !in chars;
      assert (prefix + s)[1..] == prefix[1..] + s;
      CollapseRunsPrefix(prefix[1..], s, chars);
      assert CollapseRuns(prefix + s, chars) == [prefix[0]] + CollapseRuns(prefix[1..] + s, chars);
      assert prefix == [prefix[0]] + prefix[1..];
    } else {
      assert prefix + s == s;
    }
  }

  /** A text without run characters is left as it is. */
  lemma CollapseRunsIdentity(s: string, chars: set<char>)
    requires ' ' !in chars
    requires forall i :: 0 <= i < |s| ==> s[i] !in chars
    ensures CollapseRuns(s, chars) == s
  {
    CollapseRunsPrefix(s, [], chars);
    assert s + [] == s;
  }

  /** A prefix without the separator stays in front of the first part. */
  lemma PartitionAfter(prefix: string, s: string, sep: char)
    requires sep !in prefix
    ensures Partition(prefix + s, sep) == (prefix + Partition(s, sep).0, Partition(s, sep).1)
  {
    if sep in s {
      var (before, after) := Partition(s, sep);
      assert prefix + s == (prefix + before) + [sep] + after;
      PartitionAt(prefix + before, sep, after);
    } else {
      assert sep !in prefix + s;
    }
  }

  /** Splitting a text whose first separator follows `before` gives
      `before` and then the split of the rest. */
  lemma SplitAt(before: string, sep: char, rest: string)
    requires sep !in before
    ensures Split(before + [sep] + rest, sep) == [before] + Split(rest, sep)
  {
    var s := before + [sep] + rest;
    assert sep in s by { assert s[|before|] == sep; }
    PartitionAt(before, sep, rest);
  }

  /** Splitting at a separator placed between two texts splits each of them
      on its own. */
  lemma {:induction false} SplitAppend(a: string, sep: char, b: string)
    ensures Split(a + [sep] + b, sep) == Split(a, sep) + Split(b, sep)
    decreases |a|, 1
  {
    if sep in a {
      var (before, after) := Partition(a, sep);
      SplitAppendAfterFirst(before, after, sep, b);
    } else {
      SplitAt(a, sep, b);
    }
  }

  /** SplitAppend for a text `before + [sep] + after` whose first separator
      follows `before`. */
  lemma {:induction false} SplitAppendAfterFirst(before: string, after: string, sep: char, b: string)
    requires sep !in before
    ensures Split(before + [sep] + after + [sep] + b, sep) == Split(before + [sep] + after, sep) + Split(b, sep)
    decreases |before| + 1 + |after|, 0
  {
    SplitAtRegrouped(before, after, sep, b);
    SplitAppend(after, sep, b);
    SplitAt(before, sep, after);
    PrependAppend(before, Split(after, sep), Split(b, sep));
  }

  lemma SplitAtRegrouped(before: string, after: string, sep: char, b: string)
    requires sep !in before
    ensures Split(before + [sep] + after + [sep] + b, sep) == [before] + Split(after + [sep] + b, sep)
  {
    assert before + [sep] + after + [sep] + b == before + [sep] + (after + [sep] + b);
    SplitAt(before, sep, after + [sep] + b);
  }

  lemma PrependAppend<T>(x: T, p: seq<T>, q: seq<T>)
    ensures [x] + (p + q) == ([x] + p) + q
  {
  }
}
