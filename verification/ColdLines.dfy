/**
  Reading the lines of a session file through a buffer of any size.  LineAt does not
  mention the buffer: what ReadLine returns depends on the file only, which is what
  lets an index made with one chunk size serve reads with another.
 */
module ColdLines {
  import opened Wrappers

  /** The first line feed at or after a position, or the end of the data. */
  function FirstLf(data: seq<byte>, pos: nat): (e: nat)
    requires pos <= |data|
    ensures pos <= e <= |data| && (e < |data| ==> data[e] == LF)
    ensures forall i :: pos <= i < e ==> data[i] != LF
    decreases |data| - pos
  {
    if pos == |data| || data[pos] == LF then pos else FirstLf(data, pos + 1)
  }

  lemma FirstLfUnique(data: seq<byte>, pos: nat, e: nat)
    requires pos <= e <= |data| && (e < |data| ==> data[e] == LF) && forall i :: pos <= i < e ==> data[i] != LF
    ensures FirstLf(data, pos) == e
  {}

  /** A line without its line feed, whether it had one, and how many bytes it took. */
  datatype Line = Line(content: seq<byte>, terminated: bool, consumed: nat) | TooLong

  function LineAt(data: seq<byte>, pos: nat, max: nat): (l: Line)
    requires pos <= |data|
    ensures l.Line? ==> |l.content| <= max && l.consumed <= |data| - pos && (l.consumed == 0 <==> pos == |data|)
    ensures l.Line? && !l.terminated ==> pos + l.consumed == |data|
  {
    var e := FirstLf(data, pos);
    if e - pos > max then TooLong
    else Line(data[pos..e], e < |data|, if e < |data| then e - pos + 1 else e - pos)
  }

  lemma Append(data: seq<byte>, i: nat, j: nat, k: nat)
    requires i <= j <= k <= |data|
    ensures data[i..j] + data[j..k] == data[i..k]
  {}

  datatype Slice = Delimited | BufferFull | EndOfFile

  class BufferedReader {
    const data: seq<byte>
    const size: nat
    var pos: nat

    ghost predicate Valid()
      reads this
    {
      0 < size && pos <= |data|
    }

    constructor (data: seq<byte>, size: nat)
      requires 0 < size
      ensures Valid() && this.data == data && this.size == size && pos == 0
    {
      this.data, this.size, pos := data, size, 0;
    }

    /** The bytes up to and including a line feed, or a full buffer, or what is left. */
    method ReadSlice() returns (fragment: seq<byte>, status: Slice)
      requires Valid()
      modifies this
      ensures Valid() && pos == old(pos) + |fragment| && fragment == data[old(pos)..pos]
      ensures status == Delimited <==> FirstLf(data, old(pos)) < |data| && FirstLf(data, old(pos)) - old(pos) < size
      ensures status == Delimited ==> pos == FirstLf(data, old(pos)) + 1
      ensures status == BufferFull ==> pos == old(pos) + size <= FirstLf(data, old(pos))
      ensures status == EndOfFile ==> pos == FirstLf(data, old(pos)) == |data|
    {
      var n := 0;
      while n < size && pos + n < |data|
        invariant n <= size && pos + n <= |data|
        invariant FirstLf(data, pos) == FirstLf(data, pos + n)
        decreases size - n
      {
        if data[pos + n] == LF {
          fragment, status := data[pos..pos + n + 1], Delimited;
          pos := pos + n + 1;
          return;
        }
        n := n + 1;
      }
      fragment, status := data[pos..pos + n], if n == size then BufferFull else EndOfFile;
      pos := pos + n;
    }

    /** Chunk by chunk, but with a result that does not depend on the chunks. */
    method ReadLine(max: nat) returns (line: Line)
      requires Valid()
      modifies this
      ensures Valid() && line == LineAt(data, old(pos), max)
      ensures line.Line? ==> pos == old(pos) + line.consumed
      ensures line.TooLong? <==> FirstLf(data, old(pos)) - old(pos) > max
      ensures line.Line? ==> var e := FirstLf(data, old(pos));
                && line.content == data[old(pos)..e] && (line.terminated <==> e < |data|)
                && line.consumed == |line.content| + if line.terminated then 1 else 0
    {
      hide FirstLf;
      var start := pos;
      var content: seq<byte> := [];
      while true
        invariant Valid() && start <= pos && content == data[start..pos] && |content| <= max
        invariant FirstLf(data, start) == FirstLf(data, pos) && pos <= FirstLf(data, pos)
        decreases |data| - pos
      {
        ghost var before := pos;
        var fragment, status := ReadSlice();
        var terminated := |fragment| > 0 && fragment[|fragment| - 1] == LF;
        assert terminated <==> status == Delimited;
        var piece := if terminated then fragment[..|fragment| - 1] else fragment;
        if |piece| > max - |content| {
          return TooLong;
        }
        Append(data, start, before, before + |piece|);
        content := content + piece;
        if status == BufferFull {
          FirstLfUnique(data, pos, FirstLf(data, before));
          continue;
        }
        ghost var e := FirstLf(data, start);
        assert before + |piece| == e && content == data[start..e];
        assert terminated <==> e < |data|;
        assert pos == if terminated then e + 1 else e;
        return Line(content, terminated, pos - start);
      }
    }
  }
}
