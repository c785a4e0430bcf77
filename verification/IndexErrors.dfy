/**
  Which error the index pass reports, in terms of the file: the first faulty line behind a
  clean beginning decides, with its own number and offset.
 */
module IndexErrors {
  import opened Wrappers
  import opened ColdLines
  import opened ColdBranch
  import opened ColdIndex

  /** How many lines end in the data. */
  function LineFeeds(data: seq<byte>): nat
  {
    if data == [] then 0 else LineFeeds(data[..|data| - 1]) + if data[|data| - 1] == LF then 1 else 0
  }

  /** A beginning of a file in which the pass has nothing to refuse: blank lines, or a header and its entries. */
  ghost predicate Clean(begin: seq<byte>, header: Option<Header>, refs: seq<Ref>, max: nat, limit: nat, c: Codec)
  {
    && (begin == [] || begin[|begin| - 1] == LF)
    && if header.None? then LinesFit(begin, 0, max) && Records(begin, 0, 0, c) == [] && refs == []
       else Accepted(begin, header.value, refs, max, limit, c)
  }

  lemma {:induction false} LineFeedsBetween(data: seq<byte>, i: nat, j: nat)
    requires i <= j <= |data| && forall k :: i <= k < j ==> data[k] != LF
    ensures LineFeeds(data[..j]) == LineFeeds(data[..i])
    decreases j - i
  {
    if i < j {
      LineFeedsBetween(data, i, j - 1);
      assert data[..j][..j - 1] == data[..j - 1];
    }
  }

  lemma LineFeedsStep(data: seq<byte>, i: nat)
    requires i <= |data| && FirstLf(data, i) < |data|
    ensures LineFeeds(data[..FirstLf(data, i) + 1]) == LineFeeds(data[..i]) + 1
  {
    var e := FirstLf(data, i);
    LineFeedsBetween(data, i, e);
    assert data[..e + 1][..e] == data[..e];
  }

  /** The pass over a file goes on behind a beginning as the pass over the beginning left it. */
  lemma {:induction false} ScanBehind(data: seq<byte>, pos: nat, i: nat, p: Pass, q: Pass, max: nat, limit: nat, c: Codec)
    requires i <= pos <= |data| && (pos == 0 || data[pos - 1] == LF)
    requires Scan(data[..pos], i, LineFeeds(data[..i]), p, max, limit, c) == Ok(q)
    ensures Scan(data, i, LineFeeds(data[..i]), p, max, limit, c) == Scan(data, pos, LineFeeds(data[..pos]), q, max, limit, c)
    decreases pos - i
  {
    hide Take, Scan, LineFeeds;
    var begin := data[..pos];
    ScanStep(begin, i, LineFeeds(data[..i]), p, max, limit, c);
    ScanStep(data, i, LineFeeds(data[..i]), p, max, limit, c);
    if i < pos {
      var e := FirstLf(begin, i);
      assert e < pos;
      FirstLfUnique(data, i, e);
      LineFeedsStep(data, i);
      assert begin[i..e] == data[i..e];
      var t := Take(p, data[i..e], true, i, e + 1 - i, LineFeeds(data[..i]) + 1, limit, c);
      ScanBehind(data, pos, e + 1, t.value, q, max, limit, c);
    }
  }

  lemma CleanScan(begin: seq<byte>, header: Option<Header>, refs: seq<Ref>, max: nat, limit: nat, c: Codec)
    requires Clean(begin, header, refs, max, limit, c)
    ensures Scan(begin, 0, 0, Fresh, max, limit, c) == Ok(Pass(header, refs, Cost(refs)))
  {
    hide Scan, Records, LinesFit, EntriesOf;
    var q := Pass(header, refs, Cost(refs));
    assert refs[0..] == refs;
    ScanExact(begin, 0, 0, q, max, limit, c);
  }

  lemma AtFault(data: seq<byte>, pos: nat, header: Option<Header>, refs: seq<Ref>, max: nat, limit: nat, c: Codec)
    requires pos <= |data| && Clean(data[..pos], header, refs, max, limit, c)
    ensures Scan(data, 0, 0, Fresh, max, limit, c) ==
            Scan(data, pos, LineFeeds(data[..pos]), Pass(header, refs, Cost(refs)), max, limit, c)
  {
    hide Scan, Accepted;
    CleanScan(data[..pos], header, refs, max, limit, c);
    assert data[..0] == [];
    assert pos > 0 ==> data[..pos][pos - 1] == data[pos - 1];
    ScanBehind(data, pos, 0, Fresh, Pass(header, refs, Cost(refs)), max, limit, c);
  }

  /**
    A line behind a clean beginning is refused for the first of these reasons that applies:
    it is too long; it is to be the header and is none; it is a whole line and no entry; its
    id is taken; its cost, 240 bytes and both ids, is over what is left of the budget.
   */
  lemma FirstFault(data: seq<byte>, pos: nat, header: Option<Header>, refs: seq<Ref>, max: nat, limit: nat, c: Codec)
    requires pos < |data| && Clean(data[..pos], header, refs, max, limit, c)
    ensures var e := FirstLf(data, pos);
            var raw := c.trim(data[pos..e]);
            var number := LineFeeds(data[..pos]) + 1;
            var r := IndexFile(data, max, limit, c);
            && (e - pos > max ==> r == Err(LineTooLong))
            && (e - pos <= max && raw != [] && header.None? && c.header(raw).None? ==> r == Err(InvalidHeader(number, pos)))
            && (e - pos <= max && raw != [] && header.Some? && c.entry(raw).None? && e < |data| ==> r == Err(CorruptLine(number, pos)))
            && (e - pos <= max && raw != [] && header.Some? && c.entry(raw).Some? ==>
                  var entry := c.entry(raw).value;
                  var used := Cost(refs);
                  var required := used + 240 + |entry.id| + |entry.parent|;
                  && ((exists i :: 0 <= i < |refs| && refs[i].id == entry.id) ==> r == Err(DuplicateId(number, pos)))
                  && ((forall i :: 0 <= i < |refs| ==> refs[i].id != entry.id) && required > limit ==>
                        r == Err(OverBudget(number, pos, used, required))))
  {
    hide Scan, Accepted, Records, LinesFit, Find;
    AtFault(data, pos, header, refs, max, limit, c);
    ScanStep(data, pos, LineFeeds(data[..pos]), Pass(header, refs, Cost(refs)), max, limit, c);
  }

  /** A file without records has no header to read. */
  lemma EmptyExact(data: seq<byte>, max: nat, limit: nat, c: Codec)
    ensures IndexFile(data, max, limit, c) == Err(Empty) <==> LinesFit(data, 0, max) && Records(data, 0, 0, c) == []
  {
    hide Scan, Records, LinesFit, EntriesOf, Branch;
    var r := Scan(data, 0, 0, Fresh, max, limit, c);
    if r.Ok? { ScanExact(data, 0, 0, r.value, max, limit, c); }
    if LinesFit(data, 0, max) && Records(data, 0, 0, c) == [] { ScanExact(data, 0, 0, Fresh, max, limit, c); }
    if r.Err? { ScanNeverEmpty(data, 0, 0, Fresh, max, limit, c); }
  }

  lemma {:induction false} ScanNeverEmpty(data: seq<byte>, pos: nat, number: nat, p: Pass, max: nat, limit: nat, c: Codec)
    requires pos <= |data|
    ensures Scan(data, pos, number, p, max, limit, c) != Err(Empty)
    decreases |data| - pos
  {
    hide Take, Scan;
    ScanStep(data, pos, number, p, max, limit, c);
    var l := LineAt(data, pos, max);
    if l.Line? && l.consumed > 0 {
      TakeNeverEmpty(p, l.content, l.terminated, pos, l.consumed, number + 1, limit, c);
      var t := Take(p, l.content, l.terminated, pos, l.consumed, number + 1, limit, c);
      if t.Ok? { ScanNeverEmpty(data, pos + l.consumed, number + 1, t.value, max, limit, c); }
    }
  }

  lemma TakeNeverEmpty(p: Pass, content: seq<byte>, terminated: bool, start: nat, length: nat, number: nat, limit: nat, c: Codec)
    ensures Take(p, content, terminated, start, length, number, limit, c) != Err(Empty)
  {}
}
