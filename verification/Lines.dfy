/** Splitting a stream into newline-terminated lines and the unterminated rest. */
module Lines {

  datatype Split<T> = Split(lines: seq<seq<T>>, rest: seq<T>)

  function SplitLines<T(==)>(stream: seq<T>, newline: T): Split<T>
  {
    if stream == [] then Split([], [])
    else Extend(SplitLines(stream[..|stream| - 1], newline), stream[|stream| - 1], newline)
  }

  /** One more element of the stream. */
  function Extend<T(==)>(split: Split<T>, x: T, newline: T): Split<T>
  {
    if x == newline then Split(split.lines + [split.rest], []) else Split(split.lines, split.rest + [x])
  }

  ghost function Joined<T>(lines: seq<seq<T>>, newline: T): seq<T>
  {
    if lines == [] then [] else Joined(lines[..|lines| - 1], newline) + lines[|lines| - 1] + [newline]
  }

  ghost predicate IsSplit<T>(stream: seq<T>, newline: T, split: Split<T>)
  {
    && stream == Joined(split.lines, newline) + split.rest
    && newline !in split.rest
    && forall i :: 0 <= i < |split.lines| ==> newline !in split.lines[i]
  }

  lemma {:induction false} SplitExtends<T>(stream: seq<T>, x: T, newline: T)
    ensures SplitLines(stream + [x], newline) == Extend(SplitLines(stream, newline), x, newline)
  {
    assert (stream + [x])[..|stream|] == stream;
  }

  /** The split loses nothing, and no line contains the newline. */
  lemma {:induction false} SplitIsSplit<T>(stream: seq<T>, newline: T)
    ensures IsSplit(stream, newline, SplitLines(stream, newline))
  {
    if stream != [] {
      var n := |stream| - 1;
      SplitIsSplit(stream[..n], newline);
      var before, x := SplitLines(stream[..n], newline), stream[n];
      assert stream == stream[..n] + [x];
      if x == newline {
        assert (before.lines + [before.rest])[..|before.lines|] == before.lines;
      }
    }
  }

  /** There is only one such split. */
  lemma {:induction false} SplitIsUnique<T>(stream: seq<T>, newline: T, split: Split<T>)
    requires IsSplit(stream, newline, split)
    ensures split == SplitLines(stream, newline)
  {
    if split.rest != [] {
      var n := |split.rest| - 1;
      var shorter := Split(split.lines, split.rest[..n]);
      assert stream == Joined(split.lines, newline) + split.rest[..n] + [split.rest[n]];
      assert stream[..|stream| - 1] == Joined(split.lines, newline) + split.rest[..n];
      SplitIsUnique(stream[..|stream| - 1], newline, shorter);
      assert split.rest == split.rest[..n] + [split.rest[n]];
    } else if split.lines != [] {
      var n := |split.lines| - 1;
      var shorter := Split(split.lines[..n], split.lines[n]);
      assert stream == Joined(split.lines[..n], newline) + split.lines[n] + [newline];
      assert stream[..|stream| - 1] == Joined(split.lines[..n], newline) + split.lines[n];
      SplitIsUnique(stream[..|stream| - 1], newline, shorter);
      assert split.lines == split.lines[..n] + [split.lines[n]];
    }
  }
}
