/** The JavaScript string operations the new-bill controller relies on:
    `String.prototype.split` with a one-character separator, taking the last piece
    (`parts[parts.length - 1]` or `parts.pop()`), and `toLowerCase` on ASCII letters. */
module JsStrings {

  /** `s.split(sep)`: the pieces between occurrences of `sep`, in order. JavaScript never
      returns an empty array here: `"".split(".")` is `[""]`. */
  function Split(s: string, sep: char): (parts: seq<string>)
    ensures |parts| >= 1
    ensures forall i :: 0 <= i < |parts| ==> sep !in parts[i]
    decreases |s|
  {
    if s == [] then [[]]
    else
      var rest := Split(s[1..], sep);
      if s[0] == sep then [[]] + rest
      else [[s[0]] + rest[0]] + rest[1..]
  }

  /** `parts.join(sep)`, the inverse of `Split`. */
  function Join(parts: seq<string>, sep: char): (s: string)
    requires |parts| >= 1
  {
    if |parts| == 1 then parts[0] else parts[0] + [sep] + Join(parts[1..], sep)
  }

  /** Joining the pieces of a split gives back the original string. */
  lemma {:induction false} SplitThenJoin(s: string, sep: char)
    ensures Join(Split(s, sep), sep) == s
    decreases |s|
  {
    if s != [] {
      var rest := Split(s[1..], sep);
      SplitThenJoin(s[1..], sep);
      if s[0] == sep {
        assert Split(s, sep)[1..] == rest;
      } else if |rest| == 1 {
        assert Split(s, sep) == [[s[0]] + rest[0]];
        assert [s[0]] + s[1..] == s;
      } else {
        var parts := Split(s, sep);
        assert parts[1..] == rest[1..];
        assert Join(rest, sep) == rest[0] + [sep] + Join(rest[1..], sep);
        assert [s[0]] + s[1..] == s;
      }
    }
  }

  /** Splitting a separator-free prefix `x` in front of `t` glues `x` onto the first piece of `t`. */
  lemma {:induction false} SplitPrefix(x: string, t: string, sep: char)
    requires sep !in x
    ensures Split(x + t, sep) == [x + Split(t, sep)[0]] + Split(t, sep)[1..]
    decreases |x|
  {
    if x != [] {
      SplitPrefix(x[1..], t, sep);
      assert (x + t)[1..] == x[1..] + t;
      assert [x[0]] + (x[1..] + Split(t, sep)[0]) == x + Split(t, sep)[0];
    } else {
      var parts := Split(t, sep);
      assert x + t == t && x + parts[0] == parts[0];
      assert parts == [parts[0]] + parts[1..];
    }
  }

  /** Splitting joined separator-free pieces gives back the pieces. */
  lemma {:induction false} JoinThenSplit(parts: seq<string>, sep: char)
    requires |parts| >= 1
    requires forall i :: 0 <= i < |parts| ==> sep !in parts[i]
    ensures Split(Join(parts, sep), sep) == parts
    decreases |parts|
  {
    if |parts| == 1 {
      SplitPrefix(parts[0], [], sep);
      assert parts[0] + [] == parts[0];
    } else {
      var t := Join(parts[1..], sep);
      JoinThenSplit(parts[1..], sep);
      assert parts[0] + [sep] + t == parts[0] + ([sep] + t);
      SplitPrefix(parts[0], [sep] + t, sep);
      assert ([sep] + t)[1..] == t;
      assert Split([sep] + t, sep) == [[]] + parts[1..];
      assert parts[0] + [] == parts[0];
    }
  }

  /** The last piece of `s.split(sep)` is the longest suffix of `s` free of `sep`. */
  lemma {:induction false} LastPieceOfSplit(s: string, sep: char)
    ensures var parts := Split(s, sep);
            var r := parts[|parts| - 1];
            |r| <= |s| && r == s[|s| - |r|..] &&
            (|parts| == 1 <==> |r| == |s|) &&
            (|r| == |s| || s[|s| - |r| - 1] == sep)
    decreases |s|
  {
    if s != [] {
      var rest := Split(s[1..], sep);
      LastPieceOfSplit(s[1..], sep);
      var parts := Split(s, sep);
      if s[0] == sep {
        assert parts[|parts| - 1] == rest[|rest| - 1];
      } else if |rest| == 1 {
        SplitThenJoin(s[1..], sep);
        assert parts[|parts| - 1] == [s[0]] + s[1..] == s;
      } else {
        assert parts[|parts| - 1] == rest[|rest| - 1];
      }
    }
  }

  /** `s.split(sep).pop()`. */
  function LastSegment(s: string, sep: char): (r: string)
  {
    var parts := Split(s, sep);
    parts[|parts| - 1]
  }

  /** The last segment is the text after the last `sep`, or all of `s` when it has none. */
  lemma LastSegmentSpec(s: string, sep: char)
    ensures var r := LastSegment(s, sep);
            sep !in r && |r| <= |s| && r == s[|s| - |r|..] &&
            (|r| == |s| || s[|s| - |r| - 1] == sep)
  {
    LastPieceOfSplit(s, sep);
  }

  /** The three properties of `LastSegment` determine it: any separator-free suffix that
      reaches back to a separator or to the start is the last segment. */
  lemma LastSegmentUnique(s: string, sep: char, r: string)
    requires sep !in r
    requires |r| <= |s| && r == s[|s| - |r|..]
    requires |r| == |s| || s[|s| - |r| - 1] == sep
    ensures r == LastSegment(s, sep)
  {
    LastSegmentSpec(s, sep);
  }

  /** `c.toLowerCase()` on one character, ASCII letters only. */
  function LowerChar(c: char): char
  {
    if 'A' <= c <= 'Z' then (c as int - 'A' as int + 'a' as int) as char else c
  }

  /** `s.toLowerCase()` restricted to ASCII: every character is lowered in place. */
  function ToLowerAscii(s: string): (r: string)
    ensures |r| == |s|
    ensures forall i :: 0 <= i < |s| ==> r[i] == LowerChar(s[i])
    ensures forall i :: 0 <= i < |r| ==> !('A' <= r[i] <= 'Z')
  {
    if s == [] then [] else [LowerChar(s[0])] + ToLowerAscii(s[1..])
  }
}
