/**
  What the strict pass, the resident suffix and the selection say, in terms of the file:
  when a pass succeeds and with which matches, which check refuses first, and that every
  emitted record is the entry it stands for.
 */
module FileOrderExact {
  import opened Wrappers
  import opened ColdLines
  import opened ColdBranch
  import opened ColdIndex
  import opened ColdPaging
  import opened IndexErrors
  import opened FileOrder

  /** The matches of the entries behind the header, from their trimmed lines. */
  predicate MatchesOf(recs: seq<Record>, refs: seq<Ref>, matches: seq<bool>, match_: Raw -> bool)
  {
    |matches| == |refs| == |recs| && forall k :: 0 <= k < |recs| ==> matches[k] == match_(recs[k].raw)
  }

  predicate EndsLine(data: seq<byte>)
  {
    data != [] && data[|data| - 1] == LF
  }

  lemma MatchesCons(r: Record, recs: seq<Record>, ref: Ref, refs: seq<Ref>, m: bool, matches: seq<bool>, match_: Raw -> bool)
    requires MatchesOf(recs, refs, matches, match_) && m == match_(r.raw)
    ensures MatchesOf([r] + recs, [ref] + refs, [m] + matches, match_)
  {}

  /** A line that is not the last piece of the file ends in a line feed. */
  lemma LineEnds(data: seq<byte>, pos: nat)
    requires pos < |data| && EndsLine(data)
    ensures FirstLf(data, pos) < |data|
  {}

  lemma RecordsUnfold(data: seq<byte>, pos: nat, number: nat, c: Codec)
    requires pos < |data|
    ensures var e := FirstLf(data, pos);
            var raw := c.trim(data[pos..e]);
            var next := if e < |data| then e + 1 else e;
            Records(data, pos, number, c) ==
            (if raw == [] then [] else [Record(raw, e < |data|, pos, next - pos, number + 1)]) + Records(data, next, number + 1, c)
  {}

  /** One turn of the strict pass. */
  lemma InspectStep(data: seq<byte>, pos: nat, number: nat, p: Inspected, max: nat, limit: nat, c: Codec, match_: Raw -> bool)
    requires pos <= |data|
    ensures var r := InspectFrom(data, pos, number, p, max, limit, c, match_);
            var e := FirstLf(data, pos);
            if pos == |data| then r == Ok(p)
            else if e - pos > max then r == Err(TooLongLine)
            else if e == |data| then r == Err(Corrupt)
            else
              var t := TakeStrict(p, data[pos..e], true, pos, e + 1 - pos, number + 1, limit, c, match_);
              r == if t.Err? then Err(t.error) else InspectFrom(data, e + 1, number + 1, t.value, max, limit, c, match_)
  {}

  /** The lines are all terminated where the strict pass succeeds, and the flags are those of the lines. */
  lemma {:induction false} StrictMatches(data: seq<byte>, pos: nat, number: nat, p: Inspected, max: nat, limit: nat, c: Codec, match_: Raw -> bool)
    requires pos <= |data| && p.header.Some? && |p.order.matches| == |p.order.refs|
    requires InspectFrom(data, pos, number, p, max, limit, c, match_).Ok?
    ensures var q := InspectFrom(data, pos, number, p, max, limit, c, match_).value;
            var n := |p.order.refs|;
            && p.order.refs <= q.order.refs && p.order.matches <= q.order.matches && q.header == p.header
            && MatchesOf(Records(data, pos, number, c), q.order.refs[n..], q.order.matches[n..], match_)
            && (pos < |data| ==> EndsLine(data))
    decreases |data| - pos
  {
    hide FirstLf, AddError, Records, EndsLine, InspectFrom;
    var q := InspectFrom(data, pos, number, p, max, limit, c, match_).value;
    var n := |p.order.refs|;
    InspectStep(data, pos, number, p, max, limit, c, match_);
    if pos == |data| {
      NoRecords(data, number, c);
    } else {
      var e := FirstLf(data, pos);
      var p1 := TakeStrict(p, data[pos..e], true, pos, e + 1 - pos, number + 1, limit, c, match_).value;
      StrictMatches(data, e + 1, number + 1, p1, max, limit, c, match_);
      RecordsUnfold(data, pos, number, c);
      LastLine(data, e);
      var rest := Records(data, e + 1, number + 1, c);
      var raw := c.trim(data[pos..e]);
      if raw == [] {
        assert [] + rest == rest;
      } else {
        MatchesCons(Record(raw, true, pos, e + 1 - pos, number + 1), rest, q.order.refs[n], q.order.refs[n + 1..],
                    q.order.matches[n], q.order.matches[n + 1..], match_);
        assert q.order.refs[n..] == [q.order.refs[n]] + q.order.refs[n + 1..];
        assert q.order.matches[n..] == [q.order.matches[n]] + q.order.matches[n + 1..];
      }
    }
  }

  lemma NoRecords(data: seq<byte>, number: nat, c: Codec)
    ensures Records(data, |data|, number, c) == []
  {}

  lemma LastLine(data: seq<byte>, e: nat)
    requires e < |data| && data[e] == LF && (e + 1 < |data| ==> EndsLine(data))
    ensures EndsLine(data)
  {}

  /** From the header on, the same for the whole file. */
  lemma {:induction false} StrictBegins(data: seq<byte>, pos: nat, number: nat, max: nat, limit: nat, c: Codec, match_: Raw -> bool)
    requires pos <= |data| && InspectFrom(data, pos, number, Inspected(None, Order([], [], 0)), max, limit, c, match_).Ok?
    ensures var q := InspectFrom(data, pos, number, Inspected(None, Order([], [], 0)), max, limit, c, match_).value;
            q.header.Some? ==>
              && Records(data, pos, number, c) != []
              && MatchesOf(Records(data, pos, number, c)[1..], q.order.refs, q.order.matches, match_)
              && EndsLine(data)
    decreases |data| - pos
  {
    hide FirstLf, AddError, Records, EndsLine, MatchesOf, InspectFrom;
    InspectStep(data, pos, number, Inspected(None, Order([], [], 0)), max, limit, c, match_);
    if pos < |data| {
      var e := FirstLf(data, pos);
      var p1 := TakeStrict(Inspected(None, Order([], [], 0)), data[pos..e], true, pos, e + 1 - pos, number + 1, limit, c, match_).value;
      RecordsUnfold(data, pos, number, c);
      var rest := Records(data, e + 1, number + 1, c);
      if c.trim(data[pos..e]) == [] {
        assert [] + rest == rest;
        StrictBegins(data, e + 1, number + 1, max, limit, c, match_);
      } else {
        StrictMatches(data, e + 1, number + 1, p1, max, limit, c, match_);
        LastLine(data, e);
        var q := InspectFrom(data, pos, number, Inspected(None, Order([], [], 0)), max, limit, c, match_).value;
        assert q.order.refs[0..] == q.order.refs && q.order.matches[0..] == q.order.matches;
        assert ([Record(c.trim(data[pos..e]), true, pos, e + 1 - pos, number + 1)] + rest)[1..] == rest;
      }
    }
  }

  lemma {:induction false} RootedPrefix(refs: seq<Ref>, n: nat)
    requires Rooted(refs) && n <= |refs|
    ensures Rooted(refs[..n])
  {
    hide Find;
    forall i | 0 <= i < n ensures refs[..n][i].id != "" && (refs[..n][i].parent == "" || Find(refs[..n][..i], refs[..n][i].parent).Some?) {
      assert refs[..n][..i] == refs[..i] && refs[..n][i] == refs[i];
    }
  }

  /** One line of the index pass is one of the strict pass when the result is rooted. */
  lemma LineStrict(p: Inspected, content: Raw, start: nat, length: nat, number: nat, limit: nat, c: Codec, match_: Raw -> bool)
    requires Sound(p.order, limit) && Lawful(c)
    requires Take(AsPass(p), content, true, start, length, number, limit, c).Ok?
    requires Rooted(Take(AsPass(p), content, true, start, length, number, limit, c).value.refs)
    ensures var r := TakeStrict(p, content, true, start, length, number, limit, c, match_);
            && r.Ok? && Sound(r.value.order, limit)
            && AsPass(r.value) == Take(AsPass(p), content, true, start, length, number, limit, c).value
  {
    hide Lawful, Rooted, Cost;
    var raw := c.trim(content);
    if raw != [] && p.header.Some? {
      var e := c.entry(raw).value;
      var ref := Ref(e.id, e.parent, start, length, number);
      EntryHasId(c, raw);
      CostSnoc(p.order.refs, ref);
      AddExact(p.order, ref, match_(raw), limit);
    }
  }

  /** Where the index pass finds rooted entries in whole lines, the strict pass succeeds. */
  lemma {:induction false} StrictFrom(data: seq<byte>, pos: nat, number: nat, p: Inspected, max: nat, limit: nat, c: Codec, match_: Raw -> bool)
    requires pos <= |data| && Sound(p.order, limit) && Lawful(c) && (pos < |data| ==> EndsLine(data))
    requires Scan(data, pos, number, AsPass(p), max, limit, c).Ok?
    requires Rooted(Scan(data, pos, number, AsPass(p), max, limit, c).value.refs)
    ensures InspectFrom(data, pos, number, p, max, limit, c, match_).Ok?
    decreases |data| - pos
  {
    hide Lawful, Rooted, Sound, Take, TakeStrict, FirstLf, Scan;
    ScanStep(data, pos, number, AsPass(p), max, limit, c);
    if pos < |data| {
      LineEnds(data, pos);
      var l := LineAt(data, pos, max);
      var t := Take(AsPass(p), l.content, true, pos, l.consumed, number + 1, limit, c).value;
      var q := Scan(data, pos, number, AsPass(p), max, limit, c).value;
      ScanGrows(data, pos + l.consumed, number + 1, t, max, limit, c);
      RootedPrefix(q.refs, |t.refs|);
      assert q.refs[..|t.refs|] == t.refs;
      LineStrict(p, l.content, pos, l.consumed, number + 1, limit, c, match_);
      var p1 := TakeStrict(p, l.content, true, pos, l.consumed, number + 1, limit, c, match_).value;
      StrictFrom(data, pos + l.consumed, number + 1, p1, max, limit, c, match_);
    }
  }

  lemma {:induction false} ScanGrows(data: seq<byte>, pos: nat, number: nat, p: Pass, max: nat, limit: nat, c: Codec)
    requires pos <= |data| && Scan(data, pos, number, p, max, limit, c).Ok?
    ensures p.refs <= Scan(data, pos, number, p, max, limit, c).value.refs
    decreases |data| - pos
  {
    hide Take, FirstLf;
    var l := LineAt(data, pos, max);
    if l.consumed > 0 {
      TakeGrows(p, l.content, l.terminated, pos, l.consumed, number + 1, limit, c);
      ScanGrows(data, pos + l.consumed, number + 1, Take(p, l.content, l.terminated, pos, l.consumed, number + 1, limit, c).value, max, limit, c);
    }
  }

  lemma TakeGrows(p: Pass, content: seq<byte>, terminated: bool, start: nat, length: nat, number: nat, limit: nat, c: Codec)
    requires Take(p, content, terminated, start, length, number, limit, c).Ok?
    ensures p.refs <= Take(p, content, terminated, start, length, number, limit, c).value.refs
  {}

  /**
    The strict pass succeeds exactly on a file of whole lines that is indexable and whose
    every entry has its parent earlier; its entries are those of the file, and its flags
    are what the matcher says of each trimmed line.
   */
  lemma InspectExact(data: seq<byte>, max: nat, limit: nat, c: Codec, match_: Raw -> bool, h: Header)
    requires Lawful(c)
    ensures (InspectFile(data, max, limit, c, match_).Ok? && InspectFile(data, max, limit, c, match_).value.header == Some(h)) <==>
            exists refs :: Accepted(data, h, refs, max, limit, c) && Rooted(refs) && EndsLine(data)
    ensures InspectFile(data, max, limit, c, match_).Ok? ==>
              var q := InspectFile(data, max, limit, c, match_).value;
              && q.header.Some? && Accepted(data, q.header.value, q.order.refs, max, limit, c)
              && Rooted(q.order.refs) && EndsLine(data) && q.order.used == Cost(q.order.refs)
              && MatchesOf(Records(data, 0, 0, c)[1..], q.order.refs, q.order.matches, match_)
  {
    hide Lawful, Rooted, Scan, InspectFrom, Records, LinesFit, EntriesOf, EndsLine, MatchesOf;
    var p := Inspected(None, Order([], [], 0));
    assert Sound(p.order, limit) by { EmptySound(limit); }
    var r := InspectFrom(data, 0, 0, p, max, limit, c, match_);
    if r.Ok? && r.value.header.Some? {
      StrictIsIndex(data, 0, 0, p, max, limit, c, match_);
      StrictBegins(data, 0, 0, max, limit, c, match_);
      ScanExact(data, 0, 0, AsPass(r.value), max, limit, c);
      assert r.value.order.refs[0..] == r.value.order.refs;
      assert Accepted(data, r.value.header.value, r.value.order.refs, max, limit, c);
    }
    if refs :| Accepted(data, h, refs, max, limit, c) && Rooted(refs) && EndsLine(data) {
      var q := Pass(Some(h), refs, Cost(refs));
      assert refs[0..] == refs;
      ScanExact(data, 0, 0, q, max, limit, c);
      StrictFrom(data, 0, 0, p, max, limit, c, match_);
      StrictIsIndex(data, 0, 0, p, max, limit, c, match_);
    }
  }

  // Which check refuses first

  /** The reasons to refuse an entry, in the order in which they are looked at. */
  lemma AddErrorExact(o: Order, ref: Ref, limit: nat)
    ensures AddError(o, ref, limit) ==
            if exists i :: 0 <= i < |o.refs| && o.refs[i].id == ref.id then Some(Duplicate)
            else if ref.parent != "" && forall i :: 0 <= i < |o.refs| ==> o.refs[i].id != ref.parent then Some(MissingParent)
            else if o.used + (240 + |ref.id| + |ref.parent|) > limit then Some(NoBudget)
            else None
  {
    hide Find;
  }

  /** The strict pass over a file goes on behind a beginning as the pass over the beginning left it. */
  lemma {:induction false} InspectBehind(data: seq<byte>, pos: nat, i: nat, p: Inspected, q: Inspected, max: nat, limit: nat, c: Codec, match_: Raw -> bool)
    requires i <= pos <= |data| && (pos == 0 || data[pos - 1] == LF)
    requires InspectFrom(data[..pos], i, LineFeeds(data[..i]), p, max, limit, c, match_) == Ok(q)
    ensures InspectFrom(data, i, LineFeeds(data[..i]), p, max, limit, c, match_) ==
            InspectFrom(data, pos, LineFeeds(data[..pos]), q, max, limit, c, match_)
    decreases pos - i
  {
    hide TakeStrict, LineFeeds, FirstLf, InspectFrom;
    var begin := data[..pos];
    InspectStep(begin, i, LineFeeds(data[..i]), p, max, limit, c, match_);
    InspectStep(data, i, LineFeeds(data[..i]), p, max, limit, c, match_);
    if i < pos {
      var e := FirstLf(begin, i);
      assert begin[pos - 1] == LF;
      assert e < pos;
      FirstLfUnique(data, i, e);
      LineFeedsStep(data, i);
      assert begin[i..e] == data[i..e];
      var t := TakeStrict(p, data[i..e], true, i, e + 1 - i, LineFeeds(data[..i]) + 1, limit, c, match_);
      InspectBehind(data, pos, e + 1, t.value, q, max, limit, c, match_);
    }
  }

  /**
    A line behind a clean beginning is refused for the first of these reasons that applies:
    it is too long; it has no line feed; it is to be the header and is none; it is no entry;
    its id is taken; its parent is not there yet; its cost is over what is left of the budget.
   */
  lemma StrictFault(data: seq<byte>, pos: nat, q: Inspected, max: nat, limit: nat, c: Codec, match_: Raw -> bool)
    requires pos < |data| && (pos == 0 || data[pos - 1] == LF)
    requires InspectFrom(data[..pos], 0, 0, Inspected(None, Order([], [], 0)), max, limit, c, match_) == Ok(q)
    ensures var e := FirstLf(data, pos);
            var raw := c.trim(data[pos..e]);
            var o := q.order;
            var r := InspectFile(data, max, limit, c, match_);
            if e - pos > max then r == Err(TooLongLine)
            else if e == |data| then r == Err(Corrupt)
            else raw != [] ==>
              if q.header.None? then c.header(raw).None? ==> r == Err(BadHeader)
              else if c.entry(raw).None? then r == Err(Corrupt)
              else
                var entry := c.entry(raw).value;
                if exists i :: 0 <= i < |o.refs| && o.refs[i].id == entry.id then r == Err(Duplicate)
                else if entry.parent != "" && forall i :: 0 <= i < |o.refs| ==> o.refs[i].id != entry.parent then r == Err(MissingParent)
                else o.used + (240 + |entry.id| + |entry.parent|) > limit ==> r == Err(NoBudget)
  {
    hide AddError, FirstLf, LineFeeds, InspectFrom;
    assert data[..0] == [];
    assert LineFeeds(data[..0]) == 0 by { NoLineFeeds(); }
    InspectBehind(data, pos, 0, Inspected(None, Order([], [], 0)), q, max, limit, c, match_);
    InspectStep(data, pos, LineFeeds(data[..pos]), q, max, limit, c, match_);
    var e := FirstLf(data, pos);
    var raw := c.trim(data[pos..e]);
    if e - pos <= max && e < |data| && raw != [] && q.header.Some? && c.entry(raw).Some? {
      var entry := c.entry(raw).value;
      AddErrorExact(q.order, Ref(entry.id, entry.parent, pos, e + 1 - pos, LineFeeds(data[..pos]) + 1), limit);
    }
  }

  lemma NoLineFeeds()
    ensures LineFeeds([]) == 0
  {}

  /** Adding a suffix goes on behind a part of it as the part left it. */
  lemma {:induction false} TailBehind(o: Order, raws: seq<Raw>, i: nat, k: nat, q: Order, c: Codec, match_: Raw -> bool, limit: nat)
    requires i <= k <= |raws| && WithTail(o, raws[..k], i, c, match_, limit) == Ok(q)
    ensures WithTail(o, raws, i, c, match_, limit) == WithTail(q, raws, k, c, match_, limit)
    decreases k - i
  {
    hide AddError;
    if i < k {
      assert raws[..k][i] == raws[i];
      var e := c.entry(raws[i]).value;
      TailBehind(Plus(o, Ref(e.id, e.parent, 0, |raws[i]|, i), match_(raws[i])), raws, i + 1, k, q, c, match_, limit);
    }
  }

  /** The first entry of a suffix that cannot be added decides: it does not parse, or the reasons of AddErrorExact. */
  lemma TailFault(o: Order, raws: seq<Raw>, k: nat, q: Order, c: Codec, match_: Raw -> bool, limit: nat)
    requires k < |raws| && WithTail(o, raws[..k], 0, c, match_, limit) == Ok(q)
    ensures var r := WithTail(o, raws, 0, c, match_, limit);
            if c.entry(raws[k]).None? then r == Err(Corrupt)
            else
              var e := c.entry(raws[k]).value;
              if exists i :: 0 <= i < |q.refs| && q.refs[i].id == e.id then r == Err(Duplicate)
              else if e.parent != "" && forall i :: 0 <= i < |q.refs| ==> q.refs[i].id != e.parent then r == Err(MissingParent)
              else q.used + (240 + |e.id| + |e.parent|) > limit ==> r == Err(NoBudget)
  {
    hide AddError;
    TailBehind(o, raws, 0, k, q, c, match_, limit);
    if c.entry(raws[k]).Some? {
      var e := c.entry(raws[k]).value;
      AddErrorExact(q, Ref(e.id, e.parent, 0, |raws[k]|, k), limit);
    }
  }

  // The selection

  predicate HasId(refs: seq<Ref>, id: Id)
  {
    exists i :: 0 <= i < |refs| && refs[i].id == id
  }

  /** The checks of a selection, in their order. */
  lemma ResolveExact(q: Inspected, max: nat, limit: nat, pageBytes: nat, c: Codec, session: Id, required: Id,
                     resolve: Option<Id -> Option<Tail>>)
    requires q.header.Some?
    ensures var r := Resolve(q, max, limit, pageBytes, c, session, required, resolve);
            var end := if q.order.refs == [] then "" else q.order.refs[|q.order.refs| - 1].id;
            if session != "" && q.header.value.id != session then r == Err(OtherSession)
            else if required != "" && !HasId(q.order.refs, required) then r == Err(NotPersisted)
            else if resolve.None? then r == Ok(Resolved(q.order, [], end))
            else if resolve.value(end).None? then r == Err(Unresolved)
            else
              var tail := resolve.value(end).value;
              var added := WithTail(q.order, tail.entries, 0, c, NoMatch, limit);
              if (exists k :: 0 <= k < |tail.entries| && |tail.entries[k]| > max) || Bytes(tail.entries) > pageBytes
              then r == Err(TooLongLine)
              else if added.Err? then r == Err(added.error)
              else if !HasId(added.value.refs, tail.leaf) && (tail.leaf != "" || added.value.refs != []) then r == Err(NotRetained)
              else r == Ok(Resolved(added.value, tail.entries, tail.leaf))
  {
    hide Find, WithTail, Bytes;
  }

  lemma AcceptedLinesFit(data: seq<byte>, h: Header, refs: seq<Ref>, max: nat, limit: nat, c: Codec)
    requires Accepted(data, h, refs, max, limit, c)
    ensures LinesFit(data, 0, max) && |refs| < |Records(data, 0, 0, c)|
    ensures forall k :: 0 <= k < |refs| ==> Parses(Records(data, 0, 0, c)[1..][k], refs[k], c)
  {
    hide Records, LinesFit;
  }

  /** Every entry of a file, on any branch, reads back as itself. */
  lemma EntryReadsBack(data: seq<byte>, h: Header, refs: seq<Ref>, max: nat, limit: nat, c: Codec, k: nat)
    requires Lawful(c) && Accepted(data, h, refs, max, limit, c) && k < |refs|
    ensures RecordAt(data, refs[k], c).Some?
    ensures c.entry(RecordAt(data, refs[k], c).value) == Some(EntryIds(refs[k].id, refs[k].parent))
  {
    hide Accepted, Records, LinesFit, Lawful, Parses, Placed, RecordAt;
    AcceptedLinesFit(data, h, refs, max, limit, c);
    var recs := Records(data, 0, 0, c);
    assert Parses(recs[1..][k], refs[k], c);
    RecordsPlaced(data, 0, 0, max, c, k + 1);
    PlacedReadsBack(data, recs[k + 1], refs[k], max, c);
  }

  /** A resolved selection has the file's entries, then the suffix's, which parse to theirs. */
  lemma ResolvedEntries(q: Inspected, max: nat, limit: nat, pageBytes: nat, c: Codec, session: Id, required: Id,
                        resolve: Option<Id -> Option<Tail>>, i: nat)
    requires Sound(q.order, limit) && q.header.Some? && Lawful(c)
    requires Resolve(q, max, limit, pageBytes, c, session, required, resolve).Ok?
    ensures var z := Resolve(q, max, limit, pageBytes, c, session, required, resolve).value;
            && q.order.refs <= z.order.refs && |z.order.refs| == |q.order.refs| + |z.tail|
            && (|q.order.refs| <= i < |z.order.refs| ==>
                  c.entry(z.tail[i - |q.order.refs|]) == Some(EntryIds(z.order.refs[i].id, z.order.refs[i].parent)))
  {
    hide Sound, Lawful, Find, WithTail, TailOk;
    if resolve.Some? {
      var raws := resolve.value(EndId(q.order)).value.entries;
      TailExtends(q.order, raws, 0, c, NoMatch, limit);
      if |q.order.refs| <= i < |q.order.refs| + |raws| {
        var k := i - |q.order.refs|;
        assert c.entry(raws[k]) == Some(EntryIds(WithTail(q.order, raws, 0, c, NoMatch, limit).value.refs[|q.order.refs| + k - 0].id,
                                                WithTail(q.order, raws, 0, c, NoMatch, limit).value.refs[|q.order.refs| + k - 0].parent));
      }
    }
  }

  /** Every record that a selection can emit is readable and is the entry it stands for, on disk or in the suffix. */
  lemma SelectedRecords(data: seq<byte>, q: Inspected, max: nat, limit: nat, pageBytes: nat, c: Codec, session: Id, required: Id,
                        resolve: Option<Id -> Option<Tail>>, i: nat)
    requires Lawful(c) && InspectFile(data, max, limit, c, NoMatch) == Ok(q) && q.header.Some?
    requires var r := Resolve(q, max, limit, pageBytes, c, session, required, resolve); r.Ok? && i < |r.value.order.refs|
    ensures var z := Resolve(q, max, limit, pageBytes, c, session, required, resolve).value;
            && |z.order.refs| <= |q.order.refs| + |z.tail|
            && var raw := RawAt(data, z.order.refs, |q.order.refs|, z.tail, c, i);
               raw.Some? && c.entry(raw.value) == Some(EntryIds(z.order.refs[i].id, z.order.refs[i].parent))
  {
    hide Lawful, Accepted, Rooted, InspectFile, Resolve, RecordAt, Records, EndsLine, MatchesOf, Cost;
    InspectExact(data, max, limit, c, NoMatch, q.header.value);
    SelectedIsActive(data, max, limit, c, NoMatch, q);
    ResolvedEntries(q, max, limit, pageBytes, c, session, required, resolve, i);
    if i < |q.order.refs| {
      EntryReadsBack(data, q.header.value, q.order.refs, max, limit, c, i);
    }
  }

  /** So the second pass over an unchanged file never finds a record unreadable. */
  lemma SelectionReadable(data: seq<byte>, q: Inspected, max: nat, limit: nat, pageBytes: nat, c: Codec, session: Id, required: Id,
                          resolve: Option<Id -> Option<Tail>>)
    requires Lawful(c) && InspectFile(data, max, limit, c, NoMatch) == Ok(q) && q.header.Some?
    requires Resolve(q, max, limit, pageBytes, c, session, required, resolve).Ok?
    ensures var z := Resolve(q, max, limit, pageBytes, c, session, required, resolve).value;
            && Rooted(z.order.refs) && |z.order.refs| <= |q.order.refs| + |z.tail|
            && !LineUnreadable(data, |q.order.refs|, z, c)
  {
    hide Lawful, Rooted, InspectFile, Resolve, RawAt, SelectedLine, Cost;
    SelectedIsActive(data, max, limit, c, NoMatch, q);
    ResolvedOk(q, max, limit, pageBytes, c, session, required, resolve);
    var z := Resolve(q, max, limit, pageBytes, c, session, required, resolve).value;
    forall i: nat | i < |z.order.refs| ensures RawAt(data, z.order.refs, |q.order.refs|, z.tail, c, i).Some? {
      SelectedRecords(data, q, max, limit, pageBytes, c, session, required, resolve, i);
    }
  }
}
