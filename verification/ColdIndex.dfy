/**
  The index pass over a session file: header, entries, memory budget, active branch.
  IndexFile is chunk-free; IndexExact says when it succeeds and with what; the method
  Index is the source's loop and walk over a buffered reader.
 */
module ColdIndex {
  import opened Wrappers
  import opened ColdLines
  import opened ColdBranch
  import opened Sequences

  datatype Header = Header(raw: seq<byte>, id: Id)
  datatype EntryIds = EntryIds(id: Id, parent: Id)

  /** Trimming and JSON decoding of one line, which the model leaves open. */
  datatype Codec = Codec(
    trim: seq<byte> -> seq<byte>,
    header: seq<byte> -> Option<Header>,
    entry: seq<byte> -> Option<EntryIds>,
    wellFormed: seq<byte> -> bool)

  /** What the reader relies on: trimming removes whitespace, an entry is JSON and has an id. */
  ghost predicate Lawful(c: Codec)
  {
    && (forall s :: |c.trim(s)| <= |s|)
    && (forall s :: c.trim(s + [LF]) == c.trim(s))
    && (forall s :: c.entry(s).Some? ==> c.wellFormed(s) && c.entry(s).value.id != "")
  }

  datatype IndexError =
    | Empty
    | InvalidHeader(line: nat, start: nat)
    | CorruptLine(line: nat, start: nat)
    | LineTooLong
    | DuplicateId(line: nat, start: nat)
    | OverBudget(line: nat, start: nat, used: nat, required: nat)
    | BrokenBranch
    | BranchCycle

  datatype Metadata = Metadata(header: Header, leaf: Id, total: nat)
  datatype Index = Index(metadata: Metadata, branch: seq<Ref>)

  /** Three entry records of 56 bytes and three map slots of 24, on a 64-bit machine. */
  const EntryFixed: nat := 3 * 56 + 3 * 24

  function EntryCost(r: Ref): nat
  {
    EntryFixed + |r.id| + |r.parent|
  }

  function Cost(refs: seq<Ref>): nat
  {
    if refs == [] then 0 else Cost(refs[..|refs| - 1]) + (240 + |refs[|refs| - 1].id| + |refs[|refs| - 1].parent|)
  }

  // The pass, one line at a time

  datatype Pass = Pass(header: Option<Header>, refs: seq<Ref>, used: nat)
  const Fresh: Pass := Pass(None, [], 0)

  /** The pass after one more entry. */
  function Added(p: Pass, ref: Ref): Pass
  {
    Pass(p.header, p.refs + [ref], p.used + EntryCost(ref))
  }

  /** What one line does to the pass; start, length and number are the line's coordinates. */
  function Take(p: Pass, content: seq<byte>, terminated: bool, start: nat, length: nat, number: nat,
                limit: nat, c: Codec): Result<Pass, IndexError>
  {
    var raw := c.trim(content);
    if raw == [] then Ok(p)
    else if p.header.None? then
      match c.header(raw)
      case None => Err(InvalidHeader(number, start))
      case Some(h) => Ok(p.(header := Some(h)))
    else
      match c.entry(raw)
      case None => if terminated then Err(CorruptLine(number, start)) else Ok(p)
      case Some(e) =>
        var ref := Ref(e.id, e.parent, start, length, number);
        if Find(p.refs, e.id).Some? then Err(DuplicateId(number, start))
        else if EntryCost(ref) > limit - p.used then Err(OverBudget(number, start, p.used, p.used + EntryCost(ref)))
        else Ok(Added(p, ref))
  }

  function Scan(data: seq<byte>, pos: nat, number: nat, p: Pass, max: nat, limit: nat, c: Codec)
    : Result<Pass, IndexError>
    requires pos <= |data|
    decreases |data| - pos
  {
    match LineAt(data, pos, max)
    case TooLong => Err(LineTooLong)
    case Line(content, terminated, consumed) =>
      if consumed == 0 then Ok(p)
      else match Take(p, content, terminated, pos, consumed, number + 1, limit, c)
        case Err(e) => Err(e)
        case Ok(q) => Scan(data, pos + consumed, number + 1, q, max, limit, c)
  }

  function Select(p: Pass): Result<Index, IndexError>
  {
    match p.header
    case None => Err(Empty)
    case Some(h) =>
      if p.refs == [] then Ok(Index(Metadata(h, "", 0), []))
      else match Branch(p.refs)
        case Err(e) => Err(if e == Cycle then BranchCycle else BrokenBranch)
        case Ok(b) => Ok(Index(Metadata(h, p.refs[|p.refs| - 1].id, |b|), b))
  }

  function IndexFile(data: seq<byte>, max: nat, limit: nat, c: Codec): Result<Index, IndexError>
  {
    match Scan(data, 0, 0, Fresh, max, limit, c)
    case Err(e) => Err(e)
    case Ok(p) => Select(p)
  }

  // What a file says, without the pass

  predicate NoLf(data: seq<byte>, i: nat, j: nat)
    requires i <= j <= |data|
  {
    forall k :: i <= k < j ==> data[k] != LF
  }

  /** No stretch without a line feed is longer than max. */
  predicate LinesFit(data: seq<byte>, pos: nat, max: nat)
    requires pos <= |data|
  {
    forall i, j :: pos <= i <= j <= |data| && NoLf(data, i, j) ==> j - i <= max
  }

  datatype Record = Record(raw: seq<byte>, terminated: bool, offset: nat, length: nat, number: nat)

  /** The non-blank lines from a position on. */
  function Records(data: seq<byte>, pos: nat, number: nat, c: Codec): seq<Record>
    requires pos <= |data|
    decreases |data| - pos
  {
    if pos == |data| then []
    else
      var e := FirstLf(data, pos);
      var next := if e < |data| then e + 1 else e;
      var raw := c.trim(data[pos..e]);
      (if raw == [] then [] else [Record(raw, e < |data|, pos, next - pos, number + 1)])
      + Records(data, next, number + 1, c)
  }

  predicate Parses(r: Record, ref: Ref, c: Codec)
  {
    c.entry(r.raw) == Some(EntryIds(ref.id, ref.parent)) && ref.offset == r.offset && ref.length == r.length
    && ref.line == r.number
  }

  /** Every record is an entry, save perhaps a torn last one, which is no entry at all. */
  predicate EntriesOf(recs: seq<Record>, refs: seq<Ref>, c: Codec)
  {
    && |refs| <= |recs|
    && (forall k :: 0 <= k < |refs| ==> Parses(recs[k], refs[k], c))
    && (forall k :: |refs| <= k < |recs| ==> !recs[k].terminated && c.entry(recs[k].raw) == None)
  }

  ghost predicate Accepted(data: seq<byte>, h: Header, refs: seq<Ref>, max: nat, limit: nat, c: Codec)
  {
    var recs := Records(data, 0, 0, c);
    && LinesFit(data, 0, max) && recs != [] && c.header(recs[0].raw) == Some(h)
    && EntriesOf(recs[1..], refs, c) && DistinctIds(refs) && Cost(refs) <= limit
  }

  // The pass finds exactly that

  lemma LinesFitStep(data: seq<byte>, pos: nat, max: nat)
    requires pos < |data|
    ensures var e := FirstLf(data, pos);
            LinesFit(data, pos, max) <==> e - pos <= max && LinesFit(data, if e < |data| then e + 1 else e, max)
  {
    var e := FirstLf(data, pos);
    assert NoLf(data, pos, e);
    var next := if e < |data| then e + 1 else e;
    if e - pos <= max && LinesFit(data, next, max) {
      forall i, j | pos <= i <= j <= |data| && NoLf(data, i, j) ensures j - i <= max {
        assert !(i <= e < j);
      }
    }
  }

  lemma DistinctSnoc(refs: seq<Ref>, r: Ref)
    requires DistinctIds(refs)
    ensures DistinctIds(refs + [r]) <==> Find(refs, r.id).None?
  {
    var s := refs + [r];
    if Find(refs, r.id).Some? {
      var i := Find(refs, r.id).value;
      assert s[i].id == s[|refs|].id;
    }
  }

  lemma CostSnoc(refs: seq<Ref>, r: Ref)
    ensures Cost(refs + [r]) == Cost(refs) + EntryCost(r)
  {
    assert (refs + [r])[..|refs|] == refs;
  }

  lemma {:induction false} PrefixFits(refs: seq<Ref>, n: nat)
    requires n <= |refs|
    ensures Cost(refs[..n]) <= Cost(refs) && (DistinctIds(refs) ==> DistinctIds(refs[..n]))
    decreases |refs|
  {
    if n < |refs| {
      PrefixFits(refs[..|refs| - 1], n);
      assert refs[..|refs| - 1][..n] == refs[..n];
    } else {
      assert refs[..n] == refs;
    }
  }

  predicate GoodPass(p: Pass, limit: nat)
  {
    DistinctIds(p.refs) && p.used == Cost(p.refs) <= limit
  }

  /** q extends p by the entries of some records. */
  predicate Extends(p: Pass, q: Pass, recs: seq<Record>, limit: nat, c: Codec)
  {
    q.header == p.header && p.refs <= q.refs && EntriesOf(recs, q.refs[|p.refs|..], c) && GoodPass(q, limit)
  }

  lemma TakeKeeps(p: Pass, content: seq<byte>, terminated: bool, start: nat, length: nat, number: nat, limit: nat, c: Codec)
    requires GoodPass(p, limit)
    ensures var r := Take(p, content, terminated, start, length, number, limit, c); r.Ok? ==> GoodPass(r.value, limit)
  {
    var e := c.entry(c.trim(content));
    if p.header.Some? && e.Some? {
      var ref := Ref(e.value.id, e.value.parent, start, length, number);
      DistinctSnoc(p.refs, ref);
      CostSnoc(p.refs, ref);
    }
  }

  /** One parsed record in front: the pass can take it if some extension holds it, ... */
  lemma ExtendsHead(p: Pass, q: Pass, r: Record, recs: seq<Record>, ref: Ref, limit: nat, c: Codec)
    requires GoodPass(p, limit) && Parses(r, ref, c) && Extends(p, q, [r] + recs, limit, c)
    ensures Find(p.refs, ref.id).None? && EntryCost(ref) <= limit - p.used && Extends(Added(p, ref), q, recs, limit, c)
  {
    hide EntriesOf, Parses, DistinctIds, Cost;
    DistinctSnoc(p.refs, ref);
    CostSnoc(p.refs, ref);
    var n := |p.refs|;
    var more := q.refs[n..];
    FirstEntry(r, recs, more, ref, c);
    assert q.refs[..n + 1] == p.refs + [ref];
    PrefixFits(q.refs, n + 1);
    assert q.refs[n + 1..] == more[1..];
  }

  lemma FirstEntry(r: Record, recs: seq<Record>, more: seq<Ref>, ref: Ref, c: Codec)
    requires Parses(r, ref, c) && EntriesOf([r] + recs, more, c)
    ensures more != [] && more[0] == ref && EntriesOf(recs, more[1..], c)
  {
    assert ([r] + recs)[0] == r;
    assert |more| > 0;
    assert Parses(([r] + recs)[0], more[0], c);
    EntriesTail(r, recs, more, c);
  }

  /** ... and only if. */
  lemma ExtendsBack(p: Pass, q: Pass, r: Record, recs: seq<Record>, ref: Ref, limit: nat, c: Codec)
    requires Parses(r, ref, c) && Extends(Added(p, ref), q, recs, limit, c)
    ensures Extends(p, q, [r] + recs, limit, c)
  {
    var n := |p.refs|;
    assert q.refs[..n + 1] == p.refs + [ref];
    var more := q.refs[n..];
    assert more == [ref] + q.refs[n + 1..];
    EntriesTail(r, recs, more, c);
  }

  lemma EntriesTail(r: Record, recs: seq<Record>, more: seq<Ref>, c: Codec)
    requires more != [] && Parses(r, more[0], c)
    ensures EntriesOf([r] + recs, more, c) <==> EntriesOf(recs, more[1..], c)
  {
    var all := [r] + recs;
    assert forall k :: 0 <= k < |recs| ==> all[k + 1] == recs[k];
    if EntriesOf(all, more, c) {
      forall k | 0 <= k < |more[1..]| ensures Parses(recs[k], more[1..][k], c) { assert Parses(all[k + 1], more[k + 1], c); }
      forall k | |more[1..]| <= k < |recs| ensures !recs[k].terminated && c.entry(recs[k].raw) == None {
        assert !all[k + 1].terminated;
      }
    }
    if EntriesOf(recs, more[1..], c) {
      forall k | 0 <= k < |more| ensures Parses(all[k], more[k], c) {
        if k > 0 { assert Parses(recs[k - 1], more[1..][k - 1], c); }
      }
    }
  }

  lemma RecordsStep(data: seq<byte>, pos: nat, number: nat, c: Codec)
    requires pos <= |data|
    ensures pos == |data| ==> Records(data, pos, number, c) == []
    ensures pos < |data| ==>
              var e := FirstLf(data, pos);
              var next := if e < |data| then e + 1 else e;
              var raw := c.trim(data[pos..e]);
              Records(data, pos, number, c) ==
              (if raw == [] then [] else [Record(raw, e < |data|, pos, next - pos, number + 1)]) + Records(data, next, number + 1, c)
  {}

  /** From the header on, the pass succeeds with q exactly when q holds the remaining entries. */
  lemma {:induction false} BodyExact(data: seq<byte>, pos: nat, number: nat, p: Pass, q: Pass, max: nat, limit: nat, c: Codec)
    requires pos <= |data| && GoodPass(p, limit) && p.header.Some?
    ensures Scan(data, pos, number, p, max, limit, c) == Ok(q) <==>
            LinesFit(data, pos, max) && Extends(p, q, Records(data, pos, number, c), limit, c)
    decreases |data| - pos
  {
    hide Take, Extends, GoodPass, LinesFit, Scan, Records;
    ScanStep(data, pos, number, p, max, limit, c);
    RecordsStep(data, pos, number, c);
    if pos == |data| {
      NothingMore(data, p, q, max, limit, c);
    } else {
      LinesFitStep(data, pos, max);
      var e := FirstLf(data, pos);
      var next := if e < |data| then e + 1 else e;
      var content := data[pos..e];
      if e - pos <= max {
        var t := Take(p, content, e < |data|, pos, next - pos, number + 1, limit, c);
        TakeKeeps(p, content, e < |data|, pos, next - pos, number + 1, limit, c);
        if t.Ok? {
          TakeHeader(p, content, e < |data|, pos, next - pos, number + 1, limit, c);
          BodyExact(data, next, number + 1, t.value, q, max, limit, c);
          ScanStep(data, next, number + 1, t.value, max, limit, c);
        }
        RecordsStep(data, next, number + 1, c);
        StepExact(p, q, content, e < |data|, pos, next - pos, number + 1, Records(data, next, number + 1, c), limit, c);
      }
    }
  }

  lemma TakeHeader(p: Pass, content: seq<byte>, terminated: bool, start: nat, length: nat, number: nat, limit: nat, c: Codec)
    requires p.header.Some?
    ensures var t := Take(p, content, terminated, start, length, number, limit, c); t.Ok? ==> t.value.header == p.header
  {}

  lemma NothingMore(data: seq<byte>, p: Pass, q: Pass, max: nat, limit: nat, c: Codec)
    requires GoodPass(p, limit)
    ensures LinesFit(data, |data|, max)
    ensures Extends(p, q, [], limit, c) <==> p == q
  {
    if Extends(p, q, [], limit, c) { assert q.refs[..|p.refs|] == p.refs && q.refs[|p.refs|..] == []; assert q.refs == p.refs; }
  }

  lemma StepExact(p: Pass, q: Pass, content: seq<byte>, terminated: bool, start: nat, length: nat, number: nat,
                  recs: seq<Record>, limit: nat, c: Codec)
    requires GoodPass(p, limit) && p.header.Some? && (!terminated ==> recs == [])
    ensures var raw := c.trim(content);
            var all := (if raw == [] then [] else [Record(raw, terminated, start, length, number)]) + recs;
            var t := Take(p, content, terminated, start, length, number, limit, c);
            Extends(p, q, all, limit, c) <==> t.Ok? && Extends(t.value, q, recs, limit, c)
  {
    hide Extends;
    var raw := c.trim(content);
    var r := Record(raw, terminated, start, length, number);
    if raw == [] {
      assert [] + recs == recs;
    } else if c.entry(raw).Some? {
      var e := c.entry(raw).value;
      var ref := Ref(e.id, e.parent, start, length, number);
      if Extends(p, q, [r] + recs, limit, c) { ExtendsHead(p, q, r, recs, ref, limit, c); }
      if Extends(Added(p, ref), q, recs, limit, c) { ExtendsBack(p, q, r, recs, ref, limit, c); }
    } else {
      NoEntry(p, q, r, recs, limit, c);
    }
  }

  lemma NoEntry(p: Pass, q: Pass, r: Record, recs: seq<Record>, limit: nat, c: Codec)
    requires GoodPass(p, limit) && c.entry(r.raw) == None && (!r.terminated ==> recs == [])
    ensures Extends(p, q, [r] + recs, limit, c) <==> !r.terminated && Extends(p, q, recs, limit, c)
  {
    var all := [r] + recs;
    assert all[0] == r;
    if Extends(p, q, all, limit, c) {
      var more := q.refs[|p.refs|..];
      assert more == [];
    }
  }

  /** Before the header. */
  lemma {:induction false} ScanExact(data: seq<byte>, pos: nat, number: nat, q: Pass, max: nat, limit: nat, c: Codec)
    requires pos <= |data|
    ensures var recs := Records(data, pos, number, c);
            Scan(data, pos, number, Fresh, max, limit, c) == Ok(q) <==>
            (&& LinesFit(data, pos, max)
             && if recs == [] then q == Fresh
                else c.header(recs[0].raw).Some? && Extends(Pass(c.header(recs[0].raw), [], 0), q, recs[1..], limit, c))
    decreases |data| - pos
  {
    hide Extends, GoodPass, LinesFit, Scan, Records;
    ScanStep(data, pos, number, Fresh, max, limit, c);
    RecordsStep(data, pos, number, c);
    if pos == |data| {
      assert LinesFit(data, |data|, max) by { EmptyFits(data, max); }
    } else {
      LinesFitStep(data, pos, max);
      var e := FirstLf(data, pos);
      var next := if e < |data| then e + 1 else e;
      var raw := c.trim(data[pos..e]);
      var rest := Records(data, next, number + 1, c);
      if e - pos <= max {
        if raw == [] {
          ScanExact(data, next, number + 1, q, max, limit, c);
          ScanStep(data, next, number + 1, Fresh, max, limit, c);
          assert [] + rest == rest;
        } else {
          var r := Record(raw, e < |data|, pos, next - pos, number + 1);
          assert ([r] + rest)[1..] == rest;
          if c.header(raw).Some? {
            var p := Pass(c.header(raw), [], 0);
            assert GoodPass(p, limit) by { StartsGood(p, limit); }
            BodyExact(data, next, number + 1, p, q, max, limit, c);
            ScanStep(data, next, number + 1, p, max, limit, c);
          }
        }
      }
    }
  }

  lemma StartsGood(p: Pass, limit: nat)
    requires p.refs == [] && p.used == 0
    ensures GoodPass(p, limit)
  {}

  lemma EmptyFits(data: seq<byte>, max: nat)
    ensures LinesFit(data, |data|, max)
  {}

  /**
    An index exists exactly for the files whose lines fit, whose first record is a header,
    whose other records are distinct entries within the budget (a torn last one aside), and
    whose last entry has a root-to-leaf parent chain; that chain is the branch.
   */
  lemma IndexExact(data: seq<byte>, max: nat, limit: nat, c: Codec, ix: Index)
    ensures IndexFile(data, max, limit, c) == Ok(ix) <==>
            exists refs :: Accepted(data, ix.metadata.header, refs, max, limit, c) && Selects(refs, ix)
  {
    hide Scan, Branch, Records, LinesFit, EntriesOf, IsChain, DistinctIds;
    var recs := Records(data, 0, 0, c);
    if IndexFile(data, max, limit, c) == Ok(ix) {
      var q := Scan(data, 0, 0, Fresh, max, limit, c).value;
      ScanExact(data, 0, 0, q, max, limit, c);
      assert q.refs[0..] == q.refs;
      if q.refs != [] { BranchIsChain(q.refs, ix.branch); }
      assert Accepted(data, ix.metadata.header, q.refs, max, limit, c) && Selects(q.refs, ix);
    }
    if refs :| Accepted(data, ix.metadata.header, refs, max, limit, c) && Selects(refs, ix) {
      var q := Pass(Some(ix.metadata.header), refs, Cost(refs));
      assert refs[0..] == refs;
      ScanExact(data, 0, 0, q, max, limit, c);
      if refs != [] { BranchIsChain(refs, ix.branch); }
    }
  }

  /** The branch of an index is the parent chain of the last entry. */
  predicate Selects(refs: seq<Ref>, ix: Index)
  {
    if refs == [] then ix.branch == [] && ix.metadata.leaf == "" && ix.metadata.total == 0
    else IsChain(refs, ix.branch) && ix.metadata.leaf == refs[|refs| - 1].id && ix.metadata.total == |ix.branch|
  }

  /** On a file that parses, the walk's errors are exactly the two ways a chain can fail. */
  lemma FailureExact(data: seq<byte>, h: Header, refs: seq<Ref>, max: nat, limit: nat, c: Codec)
    requires Accepted(data, h, refs, max, limit, c) && refs != []
    ensures IndexFile(data, max, limit, c) == Err(BranchCycle) <==> Repeats(refs)
    ensures IndexFile(data, max, limit, c) == Err(BrokenBranch) <==> ReachesMissing(refs)
  {
    hide Scan, Branch, Records, LinesFit, EntriesOf, DistinctIds, Repeats, ReachesMissing;
    var q := Pass(Some(h), refs, Cost(refs));
    assert refs[0..] == refs;
    ScanExact(data, 0, 0, q, max, limit, c);
    CycleExactly(refs);
    BrokenExactly(refs);
  }

  // The second pass reads what the first one indexed

  function RecordAt(data: seq<byte>, ref: Ref, c: Codec): Option<seq<byte>>
  {
    if ref.length != 0 && ref.offset + ref.length > |data| then None
    else
      var raw := c.trim(if ref.length == 0 then [] else data[ref.offset..ref.offset + ref.length]);
      if c.wellFormed(raw) then Some(raw) else None
  }

  /** Trimming takes a line's own line feed away. */
  lemma TrimLine(data: seq<byte>, pos: nat, e: nat, c: Codec)
    requires Lawful(c) && pos <= e <= |data| && (e < |data| ==> data[e] == LF)
    ensures c.trim(data[pos..if e < |data| then e + 1 else e]) == c.trim(data[pos..e]) && |c.trim(data[pos..e])| <= e - pos
  {
    assert e < |data| ==> data[pos..e + 1] == data[pos..e] + [LF];
  }

  /** A record is a trimmed stretch of the file, no longer than a line may be. */
  predicate Placed(data: seq<byte>, r: Record, max: nat, c: Codec)
  {
    && 0 < r.length && r.offset + r.length <= |data| && |r.raw| <= max
    && r.raw == c.trim(data[r.offset..r.offset + r.length])
  }

  lemma {:induction false} RecordsPlaced(data: seq<byte>, pos: nat, number: nat, max: nat, c: Codec, k: nat)
    requires pos <= |data| && LinesFit(data, pos, max) && Lawful(c) && k < |Records(data, pos, number, c)|
    ensures Placed(data, Records(data, pos, number, c)[k], max, c)
    decreases |data| - pos
  {
    hide Lawful, LinesFit, FirstLf, Placed;
    LinesFitStep(data, pos, max);
    var e := FirstLf(data, pos);
    var next := if e < |data| then e + 1 else e;
    var raw := c.trim(data[pos..e]);
    if k == 0 && raw != [] {
      LinePlaced(data, pos, e, number + 1, max, c);
    } else {
      RecordsPlaced(data, next, number + 1, max, c, if raw == [] then k else k - 1);
    }
  }

  lemma LinePlaced(data: seq<byte>, pos: nat, e: nat, number: nat, max: nat, c: Codec)
    requires pos < |data| && pos <= e <= |data| && (e < |data| ==> data[e] == LF) && e - pos <= max && Lawful(c)
    ensures var next := if e < |data| then e + 1 else e;
            Placed(data, Record(c.trim(data[pos..e]), e < |data|, pos, next - pos, number), max, c)
  {
    TrimLine(data, pos, e, c);
  }

  /** Every entry of the branch can be read back, is the entry that was indexed, and fits a line. */
  lemma BranchReadsBack(data: seq<byte>, max: nat, limit: nat, c: Codec, ix: Index, i: nat)
    requires Lawful(c) && IndexFile(data, max, limit, c) == Ok(ix) && i < |ix.branch|
    ensures var ref := ix.branch[i];
            && RecordAt(data, ref, c).Some? && |RecordAt(data, ref, c).value| <= max
            && c.entry(RecordAt(data, ref, c).value) == Some(EntryIds(ref.id, ref.parent))
  {
    hide IndexFile, LinesFit, DistinctIds, Records, Lawful, Parses, Placed, RecordAt;
    IndexExact(data, max, limit, c, ix);
    var refs :| Accepted(data, ix.metadata.header, refs, max, limit, c) && Selects(refs, ix);
    assert ix.branch[i] in refs;
    var k :| 0 <= k < |refs| && refs[k] == ix.branch[i];
    var recs := Records(data, 0, 0, c);
    assert Parses(recs[1..][k], refs[k], c);
    RecordsPlaced(data, 0, 0, max, c, k + 1);
    PlacedReadsBack(data, recs[k + 1], refs[k], max, c);
  }

  lemma PlacedReadsBack(data: seq<byte>, r: Record, ref: Ref, max: nat, c: Codec)
    requires Lawful(c) && Parses(r, ref, c) && Placed(data, r, max, c)
    ensures RecordAt(data, ref, c) == Some(r.raw) && |r.raw| <= max
    ensures c.entry(r.raw) == Some(EntryIds(ref.id, ref.parent))
  {
    hide Lawful;
    EntryWellFormed(c, r.raw);
  }

  lemma EntryWellFormed(c: Codec, raw: seq<byte>)
    requires Lawful(c) && c.entry(raw).Some?
    ensures c.wellFormed(raw)
  {}

  /** An entry is on the branch once. */
  lemma BranchDistinct(data: seq<byte>, max: nat, limit: nat, c: Codec, ix: Index)
    requires IndexFile(data, max, limit, c) == Ok(ix)
    ensures DistinctIds(ix.branch)
  {
    hide IndexFile, LinesFit, Records, EntriesOf;
    IndexExact(data, max, limit, c, ix);
    var refs :| Accepted(data, ix.metadata.header, refs, max, limit, c) && Selects(refs, ix);
    if refs != [] { ChainDistinct(refs, ix.branch); }
  }

  /** Chunk by chunk, up to the recorded length. */
  method ReadRecord(data: seq<byte>, ref: Ref, chunk: nat, c: Codec) returns (r: Option<seq<byte>>)
    requires 0 < chunk
    ensures r == RecordAt(data, ref, c)
    ensures ref.offset + ref.length > |data| && ref.length > 0 ==> r == None
    ensures ref.offset + ref.length <= |data| ==>
              var raw := c.trim(data[ref.offset..ref.offset + ref.length]);
              r == if c.wellFormed(raw) then Some(raw) else None
  {
    var pos, remaining, raw := ref.offset, ref.length, [];
    while remaining > 0
      invariant 0 <= remaining && pos + remaining == ref.offset + ref.length && ref.offset <= pos
      invariant pos == ref.offset || pos <= |data|
      invariant raw == if pos == ref.offset then [] else data[ref.offset..pos]
    {
      var want := if chunk <= remaining then chunk else remaining;
      if pos + want > |data| {
        return None;
      }
      raw := raw + data[pos..pos + want];
      pos, remaining := pos + want, remaining - want;
    }
    raw := c.trim(raw);
    r := if c.wellFormed(raw) then Some(raw) else None;
  }

  // The pass and the walk as the source runs them

  /** The map from ids to positions. */
  ghost predicate Indexes(byId: map<Id, nat>, refs: seq<Ref>)
  {
    && (forall id :: id in byId <==> Find(refs, id).Some?)
    && (forall id :: id in byId ==> Find(refs, id) == Some(byId[id]))
  }

  lemma Looked(byId: map<Id, nat>, refs: seq<Ref>, id: Id)
    requires Indexes(byId, refs)
    ensures Find(refs, id) == if id in byId then Some(byId[id]) else None
  {}

  lemma IndexesSnoc(byId: map<Id, nat>, refs: seq<Ref>, r: Ref)
    requires Indexes(byId, refs)
    ensures Indexes(byId[r.id := |refs|], refs + [r])
  {
    assert (refs + [r])[..|refs|] == refs;
  }

  /** The walk's result once the entries already visited, leaf first, are put below it. */
  function Below(r: Result<seq<Ref>, BranchError>, visited: seq<Ref>): Result<seq<Ref>, BranchError>
  {
    match r case Err(e) => Err(e) case Ok(b) => Ok(b + Reversed(visited))
  }

  lemma BelowNothing(r: Result<seq<Ref>, BranchError>)
    ensures Below(r, []) == r
  {
    if r.Ok? { assert r.value + [] == r.value; }
  }

  lemma {:induction false} BelowStep(refs: seq<Ref>, i: nat, visited: seq<Ref>)
    requires i < |refs| && |visited| < |refs| && refs[i].parent != "" && Find(refs, refs[i].parent).Some?
    ensures var j := Find(refs, refs[i].parent).value;
            Below(Climb(refs, i, |visited|), visited) == Below(Climb(refs, j, |visited| + 1), visited + [refs[i]])
  {
    hide Reversed;
    ReversedSnoc(visited, refs[i]);
    var up := Climb(refs, Find(refs, refs[i].parent).value, |visited| + 1);
    if up.Ok? {
      assert up.value + [refs[i]] + Reversed(visited) == up.value + ([refs[i]] + Reversed(visited));
    }
  }

  /** The parent walk from the leaf, then the reversal in place. */
  method WalkBranch(refs: seq<Ref>, byId: map<Id, nat>) returns (r: Result<seq<Ref>, BranchError>)
    requires refs != [] && Indexes(byId, refs)
    ensures r == Branch(refs)
  {
    hide Indexes, Reversed;
    var i: nat := |refs| - 1;
    var branch := [];
    BelowNothing(Branch(refs));
    while true
      invariant i < |refs| && |branch| <= |refs|
      invariant Branch(refs) == Below(Climb(refs, i, |branch|), branch)
      decreases |refs| - |branch|
    {
      if |branch| >= |refs| {
        return Err(Cycle);
      }
      var current := refs[i];
      Looked(byId, refs, current.parent);
      ReversedSnoc(branch, current);
      if current.parent == "" {
        branch := branch + [current];
        break;
      }
      if current.parent !in byId {
        return Err(Broken);
      }
      BelowStep(refs, i, branch);
      branch := branch + [current];
      i := byId[current.parent];
    }
    assert Branch(refs) == Ok(Reversed(branch));
    var a := new Ref[|branch|](k requires 0 <= k < |branch| => branch[k]);
    assert a[..] == branch;
    ReverseBranch(a);
    r := Ok(a[..]);
  }

  /** Swapping from both ends inwards. */
  method ReverseBranch(a: array<Ref>)
    modifies a
    ensures a[..] == Reversed(old(a[..]))
  {
    hide Reversed;
    ghost var was := a[..];
    var left, right := 0, a.Length - 1;
    while left < right
      invariant 0 <= left <= right + 1 && left + right == a.Length - 1
      invariant forall k :: left <= k <= right ==> a[k] == was[k]
      invariant forall k :: 0 <= k < left ==> a[k] == was[a.Length - 1 - k]
      invariant forall k :: right < k < a.Length ==> a[k] == was[a.Length - 1 - k]
    {
      a[left], a[right] := a[right], a[left];
      left, right := left + 1, right - 1;
    }
    ReversedIs(was, a[..]);
  }

  lemma NothingIndexed()
    ensures Indexes(map[], [])
  {}

  /** One turn of the pass, and that it is over at the end of the data. */
  lemma ScanStep(data: seq<byte>, pos: nat, number: nat, p: Pass, max: nat, limit: nat, c: Codec)
    requires pos <= |data|
    ensures var l := LineAt(data, pos, max);
            Scan(data, pos, number, p, max, limit, c) ==
            if l.TooLong? then Err(LineTooLong)
            else if l.consumed == 0 then Ok(p)
            else
              var t := Take(p, l.content, l.terminated, pos, l.consumed, number + 1, limit, c);
              if t.Err? then Err(t.error)
              else if !l.terminated then t
              else Scan(data, pos + l.consumed, number + 1, t.value, max, limit, c)
  {}

  /** The whole index pass.  The result does not depend on the reader's buffer size. */
  method BuildIndex(reader: BufferedReader, max: nat, limit: nat, c: Codec) returns (r: Result<Index, IndexError>)
    requires reader.Valid() && reader.pos == 0
    modifies reader
    ensures r == IndexFile(reader.data, max, limit, c)
  {
    hide Indexes, Scan, LineAt, Branch;
    var p, number := Fresh, 0;
    var byId: map<Id, nat> := map[];
    assert Indexes(byId, []) by { NothingIndexed(); }
    while true
      invariant reader.Valid() && Indexes(byId, p.refs)
      invariant Scan(reader.data, 0, 0, Fresh, max, limit, c) == Scan(reader.data, reader.pos, number, p, max, limit, c)
      decreases |reader.data| - reader.pos
    {
      ScanStep(reader.data, reader.pos, number, p, max, limit, c);
      var start := reader.pos;
      var line := reader.ReadLine(max);
      if line.TooLong? {
        return Err(LineTooLong);
      }
      if line.consumed == 0 {
        break;
      }
      number := number + 1;
      var raw := c.trim(line.content);
      if raw != [] {
        if p.header.None? {
          var h := c.header(raw);
          if h.None? {
            return Err(InvalidHeader(number, start));
          }
          p := p.(header := h);
        } else {
          var e := c.entry(raw);
          if e.None? {
            if !line.terminated {
              break;
            }
            return Err(CorruptLine(number, start));
          }
          Looked(byId, p.refs, e.value.id);
          if e.value.id in byId {
            return Err(DuplicateId(number, start));
          }
          var ref := Ref(e.value.id, e.value.parent, start, line.consumed, number);
          if EntryCost(ref) > limit - p.used {
            return Err(OverBudget(number, start, p.used, p.used + EntryCost(ref)));
          }
          IndexesSnoc(byId, p.refs, ref);
          byId := byId[ref.id := |p.refs|];
          p := Added(p, ref);
        }
      }
      if !line.terminated {
        break;
      }
    }
    assert Scan(reader.data, 0, 0, Fresh, max, limit, c) == Ok(p);
    if p.header.None? {
      return Err(Empty);
    }
    if p.refs == [] {
      return Ok(Index(Metadata(p.header.value, "", 0), []));
    }
    var walked := WalkBranch(p.refs, byId);
    match walked
    case Err(e) => r := Err(if e == Cycle then BranchCycle else BrokenBranch);
    case Ok(b) => r := Ok(Index(Metadata(p.header.value, p.refs[|p.refs| - 1].id, |b|), b));
  }
}
