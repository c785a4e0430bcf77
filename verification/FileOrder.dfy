/**
  The file order of a session: every entry, on any branch, with its parent earlier in the
  file.  MatchAfter decides whether a queued message may be sent again; ReadSelected emits
  the ancestry of a selected entry.
 */
module FileOrder {
  import opened Wrappers
  import opened ColdLines
  import opened ColdBranch
  import opened ColdIndex
  import opened ColdPaging

  datatype OrderError =
    | NoEntries | BadHeader | Corrupt | TooLongLine | Duplicate | MissingParent | NoBudget
    | OtherSession | NotPersisted | NotRetained | OffAncestry | Unresolved | UnreadableRecord

  /** Distinct non-empty ids, and every parent earlier in the file. */
  predicate Rooted(refs: seq<Ref>)
  {
    && DistinctIds(refs)
    && (forall i :: 0 <= i < |refs| ==> refs[i].id != "" && (refs[i].parent == "" || Find(refs[..i], refs[i].parent).Some?))
  }

  lemma FindKept(refs: seq<Ref>, n: nat, id: Id)
    requires DistinctIds(refs) && n <= |refs| && Find(refs[..n], id).Some?
    ensures Find(refs, id) == Find(refs[..n], id)
  {
    var i := Find(refs[..n], id).value;
    assert refs[i].id == id;
  }

  lemma ParentEarlier(refs: seq<Ref>, i: nat)
    requires Rooted(refs) && i < |refs| && refs[i].parent != ""
    ensures Find(refs, refs[i].parent).Some? && Find(refs, refs[i].parent).value < i
  {
    FindKept(refs, i, refs[i].parent);
  }

  /** The ancestry of an entry, root first; it exists because parents come earlier. */
  function Ancestry(refs: seq<Ref>, i: nat): seq<Ref>
    requires Rooted(refs) && i < |refs|
    decreases i
  {
    if refs[i].parent == "" then [refs[i]]
    else
      ParentEarlier(refs, i);
      Ancestry(refs, Find(refs, refs[i].parent).value) + [refs[i]]
  }

  /** In file order the bounded walk never meets its bound: it is the ancestry of the last entry. */
  lemma {:induction false} ClimbIsAncestry(refs: seq<Ref>, i: nat, steps: nat)
    requires Rooted(refs) && i < |refs| && steps + i < |refs|
    ensures Climb(refs, i, steps) == Ok(Ancestry(refs, i))
    decreases i
  {
    hide Rooted;
    if refs[i].parent != "" {
      ParentEarlier(refs, i);
      ClimbIsAncestry(refs, Find(refs, refs[i].parent).value, steps + 1);
    }
  }

  // Adding entries

  datatype Order = Order(refs: seq<Ref>, matches: seq<bool>, used: nat)

  predicate Sound(o: Order, limit: nat)
  {
    Rooted(o.refs) && |o.matches| == |o.refs| && o.used == Cost(o.refs) <= limit
  }

  function AddError(o: Order, ref: Ref, limit: nat): Option<OrderError>
  {
    if Find(o.refs, ref.id).Some? then Some(Duplicate)
    else if ref.parent != "" && Find(o.refs, ref.parent).None? then Some(MissingParent)
    else if EntryCost(ref) > limit - o.used then Some(NoBudget)
    else None
  }

  function Plus(o: Order, ref: Ref, matched: bool): Order
  {
    Order(o.refs + [ref], o.matches + [matched], o.used + EntryCost(ref))
  }

  /** An entry can be added exactly when the longer order is sound too. */
  lemma AddExact(o: Order, ref: Ref, matched: bool, limit: nat)
    requires Sound(o, limit) && ref.id != ""
    ensures AddError(o, ref, limit).None? <==> Sound(Plus(o, ref, matched), limit)
  {
    hide DistinctIds, Cost;
    var refs := o.refs + [ref];
    assert refs[..|o.refs|] == o.refs;
    DistinctSnoc(o.refs, ref);
    CostSnoc(o.refs, ref);
    assert forall i :: 0 <= i < |o.refs| ==> refs[i] == o.refs[i] && refs[..i] == o.refs[..i];
    if Sound(Plus(o, ref, matched), limit) {
      assert refs[|o.refs|] == ref;
    }
  }

  // Matching after a cursor

  predicate Retained(o: Order, id: Id)
  {
    id == "" || Find(o.refs, id).Some?
  }

  /** The first position after the cursor; the empty cursor is before everything. */
  function After(o: Order, cursor: Id): (n: nat)
    requires Retained(o, cursor)
    ensures n <= |o.refs|
  {
    if cursor == "" then 0 else Find(o.refs, cursor).value + 1
  }

  ghost predicate MatchedAfter(o: Order, cursor: Id)
  {
    Retained(o, cursor) && exists i :: After(o, cursor) <= i < |o.matches| && o.matches[i]
  }

  /** The cursor is an entry of the active branch, or the start. */
  predicate OnActiveBranch(o: Order, cursor: Id)
  {
    cursor == "" || (o.refs != [] && Branch(o.refs).Ok? && exists r :: r in Branch(o.refs).value && r.id == cursor)
  }

  function EndId(o: Order): Id
  {
    if o.refs == [] then "" else o.refs[|o.refs| - 1].id
  }

  /** Permission to send again: nothing matches after a cursor on the ancestry of a current leaf. */
  ghost predicate Unmatched(o: Order, cursor: Id, leaf: Id)
  {
    Retained(o, cursor) && !MatchedAfter(o, cursor) && leaf == EndId(o) && OnActiveBranch(o, cursor)
  }

  /** A match after the cursor is one behind the entry that the cursor names. */
  lemma MatchedMeans(o: Order, cursor: Id, limit: nat)
    requires Sound(o, limit)
    ensures Retained(o, cursor) <==> cursor == "" || exists k :: 0 <= k < |o.refs| && o.refs[k].id == cursor
    ensures MatchedAfter(o, cursor) <==>
            exists i :: 0 <= i < |o.matches| && o.matches[i] && (cursor == "" || exists k :: 0 <= k < i && k < |o.refs| && o.refs[k].id == cursor)
  {
    hide Find, Cost;
    if MatchedAfter(o, cursor) {
      var i :| After(o, cursor) <= i < |o.matches| && o.matches[i];
      assert cursor != "" ==> o.refs[Find(o.refs, cursor).value].id == cursor;
    }
    if i :| 0 <= i < |o.matches| && o.matches[i] && (cursor == "" || exists k :: 0 <= k < i && k < |o.refs| && o.refs[k].id == cursor) {
      assert After(o, cursor) <= i;
    }
  }

  /** Whatever is appended, a match after the cursor stays one ... */
  lemma MatchStays(o: Order, more: Order, cursor: Id, limit: nat)
    requires Sound(o, limit) && Sound(more, limit) && o.refs <= more.refs && o.matches <= more.matches
    ensures MatchedAfter(o, cursor) ==> MatchedAfter(more, cursor)
  {
    if MatchedAfter(o, cursor) {
      assert more.refs[..|o.refs|] == o.refs;
      if cursor != "" { FindKept(more.refs, |o.refs|, cursor); }
      var i :| After(o, cursor) <= i < |o.matches| && o.matches[i];
      assert more.matches[i];
    }
  }

  /** ... and a match that is appended after a retained cursor is found, whatever the leaf. */
  lemma LaterMatchFound(o: Order, more: Order, cursor: Id, limit: nat, i: nat)
    requires Sound(o, limit) && Sound(more, limit) && o.refs <= more.refs && o.matches <= more.matches && Retained(o, cursor)
    requires |o.refs| <= i < |more.refs| && more.matches[i]
    ensures MatchedAfter(more, cursor)
  {
    assert more.refs[..|o.refs|] == o.refs;
    if cursor != "" { FindKept(more.refs, |o.refs|, cursor); }
  }

  /** Membership in the ancestry, one generation at a time. */
  lemma AncestryStep(refs: seq<Ref>, i: nat, id: Id)
    requires Rooted(refs) && i < |refs|
    ensures (exists r :: r in Ancestry(refs, i) && r.id == id) <==>
            (refs[i].id == id || (refs[i].parent != "" && Find(refs, refs[i].parent).Some? &&
              exists r :: r in Ancestry(refs, Find(refs, refs[i].parent).value) && r.id == id))
  {
    hide Rooted;
    if refs[i].parent == "" {
      assert refs[i] in Ancestry(refs, i);
    } else {
      ParentEarlier(refs, i);
      var up := Ancestry(refs, Find(refs, refs[i].parent).value);
      assert Ancestry(refs, i) == up + [refs[i]];
      assert refs[i] in Ancestry(refs, i);
    }
  }

  // The resident tail and the strict pass

  /** The order with a suffix of raw entries added, from the i-th on. */
  function WithTail(o: Order, raws: seq<Raw>, i: nat, c: Codec, match_: Raw -> bool, limit: nat): Result<Order, OrderError>
    requires i <= |raws|
    decreases |raws| - i
  {
    if i == |raws| then Ok(o)
    else match c.entry(raws[i])
      case None => Err(Corrupt)
      case Some(e) =>
        var ref := Ref(e.id, e.parent, 0, |raws[i]|, i);
        match AddError(o, ref, limit)
        case Some(e) => Err(e)
        case None => WithTail(Plus(o, ref, match_(raws[i])), raws, i + 1, c, match_, limit)
  }

  /** It keeps what was there and has the suffix's entries behind it. */
  lemma {:induction false} TailExtends(o: Order, raws: seq<Raw>, i: nat, c: Codec, match_: Raw -> bool, limit: nat)
    requires i <= |raws| && Sound(o, limit) && Lawful(c) && WithTail(o, raws, i, c, match_, limit).Ok?
    ensures var q := WithTail(o, raws, i, c, match_, limit).value;
            && Sound(q, limit) && o.refs <= q.refs && o.matches <= q.matches && |q.refs| == |o.refs| + |raws| - i
            && (forall k :: i <= k < |raws| ==>
                  && q.matches[|o.refs| + k - i] == match_(raws[k])
                  && c.entry(raws[k]) == Some(EntryIds(q.refs[|o.refs| + k - i].id, q.refs[|o.refs| + k - i].parent)))
    decreases |raws| - i
  {
    hide Sound, AddError, Lawful;
    assert |o.matches| == |o.refs| by { SoundLengths(o, limit); }
    if i < |raws| {
      var e := c.entry(raws[i]).value;
      var ref := Ref(e.id, e.parent, 0, |raws[i]|, i);
      EntryHasId(c, raws[i]);
      AddExact(o, ref, match_(raws[i]), limit);
      TailExtends(Plus(o, ref, match_(raws[i])), raws, i + 1, c, match_, limit);
    }
  }

  lemma SoundLengths(o: Order, limit: nat)
    requires Sound(o, limit)
    ensures |o.matches| == |o.refs|
  {}

  lemma EntryHasId(c: Codec, raw: Raw)
    requires Lawful(c) && c.entry(raw).Some?
    ensures c.entry(raw).value.id != ""
  {}

  datatype Inspected = Inspected(header: Option<Header>, order: Order)

  /** One line of the strict pass: unlike the index pass it refuses torn lines and missing parents. */
  function TakeStrict(p: Inspected, content: Raw, terminated: bool, start: nat, length: nat, number: nat,
                      limit: nat, c: Codec, match_: Raw -> bool): Result<Inspected, OrderError>
  {
    var raw := c.trim(content);
    if !terminated then Err(Corrupt)
    else if raw == [] then Ok(p)
    else if p.header.None? then
      match c.header(raw) case None => Err(BadHeader) case Some(h) => Ok(p.(header := Some(h)))
    else match c.entry(raw)
      case None => Err(Corrupt)
      case Some(e) =>
        var ref := Ref(e.id, e.parent, start, length, number);
        match AddError(p.order, ref, limit)
        case Some(e) => Err(e)
        case None => Ok(Inspected(p.header, Plus(p.order, ref, match_(raw))))
  }

  function InspectFrom(data: seq<byte>, pos: nat, number: nat, p: Inspected, max: nat, limit: nat, c: Codec, match_: Raw -> bool)
    : Result<Inspected, OrderError>
    requires pos <= |data|
    decreases |data| - pos
  {
    match LineAt(data, pos, max)
    case TooLong => Err(TooLongLine)
    case Line(content, terminated, consumed) =>
      if consumed == 0 then Ok(p)
      else match TakeStrict(p, content, terminated, pos, consumed, number + 1, limit, c, match_)
        case Err(e) => Err(e)
        case Ok(q) => InspectFrom(data, pos + consumed, number + 1, q, max, limit, c, match_)
  }

  function InspectFile(data: seq<byte>, max: nat, limit: nat, c: Codec, match_: Raw -> bool): Result<Inspected, OrderError>
  {
    match InspectFrom(data, 0, 0, Inspected(None, Order([], [], 0)), max, limit, c, match_)
    case Err(e) => Err(e)
    case Ok(p) => if p.header.None? then Err(NoEntries) else Ok(p)
  }

  function AsPass(p: Inspected): Pass
  {
    Pass(p.header, p.order.refs, p.order.used)
  }

  lemma StrictLine(p: Inspected, content: Raw, terminated: bool, start: nat, length: nat, number: nat,
                   limit: nat, c: Codec, match_: Raw -> bool)
    requires Sound(p.order, limit) && Lawful(c) && TakeStrict(p, content, terminated, start, length, number, limit, c, match_).Ok?
    ensures var q := TakeStrict(p, content, terminated, start, length, number, limit, c, match_).value;
            Sound(q.order, limit) && Take(AsPass(p), content, terminated, start, length, number, limit, c) == Ok(AsPass(q))
  {
    hide Sound, Lawful;
    var raw := c.trim(content);
    if raw != [] && p.header.Some? {
      var e := c.entry(raw).value;
      EntryHasId(c, raw);
      AddExact(p.order, Ref(e.id, e.parent, start, length, number), match_(raw), limit);
    }
  }

  /** Where the strict pass succeeds, the index pass finds the same entries. */
  lemma {:induction false} StrictIsIndex(data: seq<byte>, pos: nat, number: nat, p: Inspected, max: nat, limit: nat, c: Codec, match_: Raw -> bool)
    requires pos <= |data| && Sound(p.order, limit) && Lawful(c)
    requires InspectFrom(data, pos, number, p, max, limit, c, match_).Ok?
    ensures var q := InspectFrom(data, pos, number, p, max, limit, c, match_).value;
            Sound(q.order, limit) && Scan(data, pos, number, AsPass(p), max, limit, c) == Ok(AsPass(q))
    decreases |data| - pos
  {
    hide Sound, Lawful, TakeStrict, Take, FirstLf;
    var l := LineAt(data, pos, max);
    if l.consumed != 0 {
      StrictLine(p, l.content, l.terminated, pos, l.consumed, number + 1, limit, c, match_);
      var q := TakeStrict(p, l.content, l.terminated, pos, l.consumed, number + 1, limit, c, match_).value;
      StrictIsIndex(data, pos + l.consumed, number + 1, q, max, limit, c, match_);
    }
  }

  /** The indices from an entry up to its root. */
  function Lineage(refs: seq<Ref>, i: nat): (l: seq<nat>)
    requires Rooted(refs) && i < |refs|
    ensures forall k :: 0 <= k < |l| ==> l[k] < |refs|
    decreases i
  {
    if refs[i].parent == "" then [i]
    else
      ParentEarlier(refs, i);
      [i] + Lineage(refs, Find(refs, refs[i].parent).value)
  }

  /** The entries at indices l, the other way round. */
  predicate Mirrors(refs: seq<Ref>, l: seq<nat>, a: seq<Ref>)
  {
    |l| == |a| && forall k :: 0 <= k < |l| ==> l[k] < |refs| && a[|l| - 1 - k] == refs[l[k]]
  }

  lemma MirrorsSnoc(refs: seq<Ref>, i: nat, l: seq<nat>, a: seq<Ref>)
    requires Mirrors(refs, l, a) && i < |refs|
    ensures Mirrors(refs, [i] + l, a + [refs[i]])
  {}

  lemma {:induction false} LineageIsAncestry(refs: seq<Ref>, i: nat)
    requires Rooted(refs) && i < |refs|
    ensures Mirrors(refs, Lineage(refs, i), Ancestry(refs, i))
    decreases i
  {
    hide Rooted, Mirrors;
    MirrorsNone(refs);
    if refs[i].parent == "" {
      MirrorsSnoc(refs, i, [], []);
      assert [i] + [] == [i] && [] + [refs[i]] == [refs[i]];
    } else {
      ParentEarlier(refs, i);
      var j := Find(refs, refs[i].parent).value;
      LineageIsAncestry(refs, j);
      MirrorsSnoc(refs, i, Lineage(refs, j), Ancestry(refs, j));
    }
  }

  lemma MirrorsNone(refs: seq<Ref>)
    ensures Mirrors(refs, [], [])
  {}

  /** What the index pass makes of an inspected file: the ancestry of its last entry. */
  lemma SelectedIsActive(data: seq<byte>, max: nat, limit: nat, c: Codec, match_: Raw -> bool, q: Inspected)
    requires Lawful(c) && InspectFile(data, max, limit, c, match_) == Ok(q)
    ensures Sound(q.order, limit) && q.header.Some?
    ensures var refs := q.order.refs;
            var b := if refs == [] then [] else Ancestry(refs, |refs| - 1);
            IndexFile(data, max, limit, c) == Ok(Index(Metadata(q.header.value, EndId(q.order), |b|), b))
  {
    hide Lawful, Rooted, Scan, InspectFrom;
    var p := Inspected(None, Order([], [], 0));
    assert Sound(p.order, limit) by { EmptySound(limit); }
    StrictIsIndex(data, 0, 0, p, max, limit, c, match_);
    var refs := q.order.refs;
    if refs != [] { ClimbIsAncestry(refs, |refs| - 1, 0); }
  }

  lemma EmptySound(limit: nat)
    ensures Sound(Order([], [], 0), limit)
  {}

  class Inspection {
    var header: Option<Header>
    var endId: Id
    var refs: seq<Ref>
    var byId: map<Id, nat>
    var matches: seq<bool>
    var used: nat
    const limit: nat

    ghost predicate Valid()
      reads this
    {
      Sound(View(), limit) && Indexes(byId, refs) && endId == EndId(View())
    }

    ghost function View(): Order
      reads this
    {
      Order(refs, matches, used)
    }

    constructor (limit: nat)
      ensures Valid() && View() == Order([], [], 0) && header == None && this.limit == limit
    {
      header, endId, refs, byId, matches, used := None, "", [], map[], [], 0;
      this.limit := limit;
    }

    method Add(ref: Ref, matched: bool) returns (e: Option<OrderError>)
      requires Valid() && ref.id != ""
      modifies this
      ensures Valid() && header == old(header) && e == AddError(old(View()), ref, limit)
      ensures View() == if e.None? then Plus(old(View()), ref, matched) else old(View())
      ensures e.None? ==> refs == old(refs) + [ref] && matches == old(matches) + [matched] && used == old(used) + 240 + |ref.id| + |ref.parent|
    {
      hide Indexes, Sound, Find;
      Looked(byId, refs, ref.id);
      Looked(byId, refs, ref.parent);
      AddExact(View(), ref, matched, limit);
      if ref.id in byId {
        return Some(Duplicate);
      }
      if ref.parent != "" && ref.parent !in byId {
        return Some(MissingParent);
      }
      if EntryCost(ref) > limit - used {
        return Some(NoBudget);
      }
      used := used + EntryCost(ref);
      IndexesSnoc(byId, refs, ref);
      byId := byId[ref.id := |refs|];
      refs, matches, endId := refs + [ref], matches + [matched], ref.id;
      e := None;
    }

    /** A file-order suffix; after an error the order is to be discarded. */
    method AddTail(raws: seq<Raw>, leaf: Id, c: Codec, match_: Raw -> bool) returns (e: Option<OrderError>)
      requires Valid() && Lawful(c)
      modifies this
      ensures Valid() && header == old(header)
      ensures var q := WithTail(old(View()), raws, 0, c, match_, limit);
              e == if q.Err? then Some(q.error)
                   else if leaf == "" && q.value.refs == [] then None
                   else if Find(q.value.refs, leaf).None? then Some(NotRetained) else None
      ensures e.None? ==> Ok(View()) == WithTail(old(View()), raws, 0, c, match_, limit)
    {
      hide Lawful, Sound, Indexes, AddError, Find;
      var i := 0;
      while i < |raws|
        invariant i <= |raws| && Valid() && header == old(header)
        invariant WithTail(old(View()), raws, 0, c, match_, limit) == WithTail(View(), raws, i, c, match_, limit)
      {
        var ids := c.entry(raws[i]);
        if ids.None? {
          return Some(Corrupt);
        }
        EntryHasId(c, raws[i]);
        e := Add(Ref(ids.value.id, ids.value.parent, 0, |raws[i]|, i), match_(raws[i]));
        if e.Some? {
          return;
        }
        i := i + 1;
      }
      if leaf == "" && refs == [] {
        return None;
      }
      Looked(byId, refs, leaf);
      e := if leaf !in byId then Some(NotRetained) else None;
    }

    method Checkpoint(leaf: Id) returns (r: Option<Id>)
      requires Valid()
      ensures r == if leaf == EndId(View()) then Some(leaf) else None
      ensures r.Some? <==> if refs == [] then leaf == "" else leaf == refs[|refs| - 1].id
    {
      r := if leaf == endId then Some(leaf) else None;
    }

    method MatchAfter(cursor: Id, leaf: Id) returns (r: Result<bool, OrderError>)
      requires Valid()
      ensures r == Ok(true) <==> MatchedAfter(View(), cursor)
      ensures r == Ok(false) <==> Unmatched(View(), cursor, leaf)
      ensures r == Err(NotRetained) <==> !Retained(View(), cursor)
      ensures r == Err(NotRetained) <==> cursor != "" && forall k :: 0 <= k < |refs| ==> refs[k].id != cursor
      ensures r == Ok(true) <==>
                exists i :: 0 <= i < |matches| && matches[i] && (cursor == "" || exists k :: 0 <= k < i && k < |refs| && refs[k].id == cursor)
      ensures r == Ok(false) ==> leaf == if refs == [] then "" else refs[|refs| - 1].id
    {
      hide Indexes, Rooted, Find, OnActiveBranch;
      Looked(byId, refs, cursor);
      ghost var o := View();
      MatchedMeans(o, cursor, limit);
      var start := 0;
      if cursor != "" {
        if cursor !in byId {
          return Err(NotRetained);
        }
        start := byId[cursor] + 1;
      }
      var i := start;
      while i < |matches|
        invariant start <= i && forall k :: start <= k < i && k < |matches| ==> !matches[k]
      {
        if matches[i] {
          return Ok(true);
        }
        i := i + 1;
      }
      assert !MatchedAfter(o, cursor);
      var current := Checkpoint(leaf);
      if current.None? {
        return Err(OffAncestry);
      }
      if cursor == "" {
        assert OnActiveBranch(o, cursor) by { StartIsOn(o); }
        return Ok(false);
      }
      var on := Climbs(leaf, cursor);
      r := if on then Ok(false) else Err(OffAncestry);
    }

    /** From the end up its ancestry until the cursor or the root. */
    method Climbs(leaf: Id, cursor: Id) returns (on: bool)
      requires Valid() && leaf == endId && cursor != ""
      ensures on <==> OnActiveBranch(View(), cursor)
    {
      hide Indexes, Rooted, Find, OnActiveBranch;
      LeafStart(View(), byId, cursor, limit);
      var id := leaf;
      while id != ""
        invariant id != "" ==> id in byId && byId[id] < |refs| && refs[byId[id]].id == id
        invariant OnActiveBranch(View(), cursor) <==>
                  id != "" && exists r :: r in Ancestry(refs, byId[id]) && r.id == cursor
        decreases if id != "" && id in byId then byId[id] + 1 else 0
      {
        var index := byId[id];
        AncestryStep(refs, index, cursor);
        if id == cursor {
          return true;
        }
        var parent := refs[index].parent;
        Looked(byId, refs, parent);
        if parent != "" { ParentEarlier(refs, index); }
        id := parent;
      }
      on := false;
    }
  }

  lemma StartIsOn(o: Order)
    ensures OnActiveBranch(o, "")
  {}

  lemma LeafStart(o: Order, byId: map<Id, nat>, cursor: Id, limit: nat)
    requires Sound(o, limit) && Indexes(byId, o.refs) && cursor != ""
    ensures var id := EndId(o);
            if id == "" then !OnActiveBranch(o, cursor)
            else id in byId && byId[id] < |o.refs| && o.refs[byId[id]].id == id &&
                 (OnActiveBranch(o, cursor) <==> exists r :: r in Ancestry(o.refs, byId[id]) && r.id == cursor)
  {
    if o.refs != [] {
      var n := |o.refs| - 1;
      Looked(byId, o.refs, o.refs[n].id);
      ClimbIsAncestry(o.refs, n, 0);
    }
  }

  /** The strict pass over a buffered reader, of any buffer size. */
  method InspectFileOrder(reader: BufferedReader, max: nat, limit: nat, c: Codec, match_: Raw -> bool)
    returns (order: Inspection, e: Option<OrderError>)
    requires reader.Valid() && reader.pos == 0 && Lawful(c)
    modifies reader
    ensures fresh(order) && order.Valid() && order.limit == limit
    ensures match InspectFile(reader.data, max, limit, c, match_)
            case Err(x) => e == Some(x)
            case Ok(q) => e == None && q == Inspected(order.header, order.View())
  {
    hide Lawful, Sound, Indexes, AddError, LineAt;
    order := new Inspection(limit);
    var number := 0;
    while true
      invariant reader.Valid() && fresh(order) && order.Valid() && order.limit == limit
      invariant InspectFrom(reader.data, 0, 0, Inspected(None, Order([], [], 0)), max, limit, c, match_) ==
                InspectFrom(reader.data, reader.pos, number, Inspected(order.header, order.View()), max, limit, c, match_)
      decreases |reader.data| - reader.pos
    {
      var start := reader.pos;
      var line := reader.ReadLine(max);
      if line.TooLong? {
        return order, Some(TooLongLine);
      }
      if line.consumed == 0 {
        break;
      }
      if !line.terminated {
        return order, Some(Corrupt);
      }
      number := number + 1;
      var raw := c.trim(line.content);
      if raw != [] {
        if order.header.None? {
          var h := c.header(raw);
          if h.None? {
            return order, Some(BadHeader);
          }
          order.header := h;
        } else {
          var ids := c.entry(raw);
          if ids.None? {
            return order, Some(Corrupt);
          }
          EntryHasId(c, raw);
          e := order.Add(Ref(ids.value.id, ids.value.parent, start, line.consumed, number), match_(raw));
          if e.Some? {
            return;
          }
        }
      }
    }
    e := if order.header.None? then Some(NoEntries) else None;
  }

  // The selected branch

  datatype Tail = Tail(entries: seq<Raw>, leaf: Id)

  /** A record of the order: on disk below diskCount, resident from there on. */
  function RawAt(data: seq<byte>, refs: seq<Ref>, diskCount: nat, tail: seq<Raw>, c: Codec, i: nat): Option<Raw>
    requires i < |refs| && |refs| <= diskCount + |tail|
  {
    if i < diskCount then RecordAt(data, refs[i], c) else Some(tail[i - diskCount])
  }

  /** One page for each record, and an empty one for no record. */
  function SinglePages(recs: seq<Raw>): seq<Page>
  {
    if recs == [] then [Page([], 0, true, false)]
    else seq(|recs|, k requires 0 <= k < |recs| => Page([recs[k]], k, k == |recs| - 1, false))
  }

  lemma {:induction false} SinglesAscend(recs: seq<Raw>, n: nat)
    requires n <= |recs| && recs != []
    ensures Ascending(SinglePages(recs)[..n], 0, n)
  {
    if n > 0 {
      SinglesAscend(recs, n - 1);
      assert SinglePages(recs)[..n][..n - 1] == SinglePages(recs)[..n - 1];
    }
  }

  /** They rebuild the records, the last one is final, and each holds one entry. */
  lemma SinglesReceived(recs: seq<Raw>, o: Bounds)
    requires 0 < o.pageEntries
    ensures var pages := SinglePages(recs);
            AllGood(pages, recs, o) && LastFinal(pages) && ReceiveAll(Nothing, pages) == Held(0, recs)
  {
    hide Ascending, ReceiveAll, Bytes;
    var pages := SinglePages(recs);
    assert recs[0..|recs|] == recs;
    if recs == [] {
      OnePage(pages[0]);
      assert pages == [pages[0]];
    } else {
      SinglesAscend(recs, |recs|);
      assert pages[..|recs|] == pages;
      AscendingFirst(pages, recs, o, 0, |recs|);
    }
  }

  lemma OnePage(p: Page)
    ensures ReceiveAll(Nothing, [p]) == Receive(Nothing, p)
  {
    assert [p][..0] == [];
  }

  /** The records along a lineage, root first. */
  ghost predicate RecordsAlong(data: seq<byte>, refs: seq<Ref>, diskCount: nat, tail: seq<Raw>, c: Codec, line: seq<nat>, recs: seq<Raw>)
  {
    && |refs| <= diskCount + |tail| && |recs| == |line|
    && (forall k :: 0 <= k < |line| ==>
          line[k] < |refs| && RawAt(data, refs, diskCount, tail, c, line[k]) == Some(recs[|line| - 1 - k]))
  }

  method EmitLineage(data: seq<byte>, refs: seq<Ref>, diskCount: nat, tail: seq<Raw>, c: Codec, chunk: nat, line: seq<nat>)
    returns (pages: seq<Page>, ok: bool, ghost recs: seq<Raw>)
    requires 0 < chunk && |refs| <= diskCount + |tail| && forall k :: 0 <= k < |line| ==> line[k] < |refs|
    ensures ok ==> RecordsAlong(data, refs, diskCount, tail, c, line, recs) && pages == SinglePages(recs)
    ensures !ok ==> exists k :: 0 <= k < |line| && RawAt(data, refs, diskCount, tail, c, line[k]).None?
    ensures ok ==> forall k :: 0 <= k < |line| ==>
              recs[|line| - 1 - k] == if line[k] < diskCount then RecordAt(data, refs[line[k]], c).value else tail[line[k] - diskCount]
    ensures ok ==> |pages| == (if line == [] then 1 else |line|) && forall k :: 0 <= k < |pages| ==>
              pages[k] == Page(if line == [] then [] else [recs[k]], k, k == |pages| - 1, false)
  {
    hide RecordAt;
    recs := [];
    if |line| == 0 {
      return [Page([], 0, true, false)], true, [];
    }
    pages := [];
    var n := |line|;
    while n > 0
      invariant 0 <= n <= |line| && |recs| == |line| - n
      invariant forall k :: n <= k < |line| ==> RawAt(data, refs, diskCount, tail, c, line[k]) == Some(recs[|line| - 1 - k])
      invariant pages == seq(|recs|, k requires 0 <= k < |recs| => Page([recs[k]], k, k == |line| - 1, false))
    {
      n := n - 1;
      var i := line[n];
      var raw: Option<Raw>;
      if i < diskCount {
        raw := ReadRecord(data, refs[i], chunk, c);
      } else {
        raw := Some(tail[i - diskCount]);
      }
      if raw.None? {
        return pages, false, recs;
      }
      pages := pages + [Page([raw.value], |line| - 1 - n, n == 0, false)];
      recs := recs + [raw.value];
    }
    ok := true;
  }

  method TailFits(raws: seq<Raw>, max: nat, pageBytes: nat) returns (fits: bool)
    ensures fits <==> TailOk(raws, max, pageBytes)
    ensures fits <==> (forall k :: 0 <= k < |raws| ==> |raws[k]| <= max) && Bytes(raws) <= pageBytes
  {
    var size := 0;
    for i := 0 to |raws|
      invariant size == Bytes(raws[..i]) <= pageBytes
      invariant forall k :: 0 <= k < i ==> |raws[k]| <= max
    {
      assert raws[..i + 1] == raws[..i] + [raws[i]];
      BytesSnoc(raws[..i], raws[i]);
      if |raws[i]| > max || |raws[i]| > pageBytes - size {
        BytesGrow(raws, i + 1);
        return false;
      }
      size := size + |raws[i]|;
    }
    assert raws[..|raws|] == raws;
    fits := true;
  }

  lemma {:induction false} BytesGrow(s: seq<Raw>, n: nat)
    requires n <= |s|
    ensures Bytes(s[..n]) <= Bytes(s)
  {
    if n < |s| {
      BytesGrow(s[..|s| - 1], n);
      assert s[..|s| - 1][..n] == s[..n];
    } else {
      assert s[..n] == s;
    }
  }

  /** The lineage of a selected leaf; no leaf has none. */
  ghost predicate SelectedLine(refs: seq<Ref>, leaf: Id, line: seq<nat>)
    requires Rooted(refs)
  {
    if leaf == "" then line == [] else Find(refs, leaf).Some? && line == Lineage(refs, Find(refs, leaf).value)
  }

  method SelectLine(order: Inspection, leaf: Id) returns (line: seq<nat>, ok: bool)
    requires order.Valid()
    ensures ok <==> leaf == "" || Find(order.refs, leaf).Some?
    ensures ok ==> SelectedLine(order.refs, leaf, line)
  {
    hide Rooted, Indexes, Find;
    line := [];
    Looked(order.byId, order.refs, leaf);
    if leaf != "" && leaf !in order.byId {
      return [], false;
    }
    if leaf == "" {
      return [], true;
    }
    var i: nat := order.byId[leaf];
    ghost var all := Lineage(order.refs, i);
    while true
      invariant i < |order.refs| && line + Lineage(order.refs, i) == all
      decreases i
    {
      var parent := order.refs[i].parent;
      if parent == "" {
        break;
      }
      ParentEarlier(order.refs, i);
      Looked(order.byId, order.refs, parent);
      assert line + Lineage(order.refs, i) == (line + [i]) + Lineage(order.refs, order.byId[parent]);
      line := line + [i];
      i := order.byId[parent];
    }
    line, ok := line + [i], true;
  }

  datatype Selection = Selection(header: Header, leaf: Id, total: nat, endId: Id, pages: seq<Page>)

  /** Pages of the records along the lineage of leaf, over the file's entries and the resident ones. */
  ghost predicate Selects(data: seq<byte>, q: Inspected, o: Order, tail: seq<Raw>, c: Codec, x: Selection, recs: seq<Raw>)
    requires Rooted(o.refs)
  {
    && q.header == Some(x.header) && x.endId == EndId(o) && x.total == |recs| && x.pages == SinglePages(recs)
    && exists line :: SelectedLine(o.refs, x.leaf, line) && RecordsAlong(data, o.refs, |q.order.refs|, tail, c, line, recs)
  }

  function NoMatch(raw: Raw): bool
  {
    false
  }

  /** What is to be emitted: the order, its resident suffix, and the selected leaf. */
  datatype Resolved = Resolved(order: Order, tail: seq<Raw>, leaf: Id)

  predicate TailOk(raws: seq<Raw>, max: nat, pageBytes: nat)
  {
    (forall k :: 0 <= k < |raws| ==> |raws[k]| <= max) && Bytes(raws) <= pageBytes
  }

  /** The selection made in an inspected file, or the first check that refuses it. */
  function Resolve(q: Inspected, max: nat, limit: nat, pageBytes: nat, c: Codec, session: Id, required: Id,
                   resolve: Option<Id -> Option<Tail>>): Result<Resolved, OrderError>
    requires q.header.Some?
  {
    if session != "" && q.header.value.id != session then Err(OtherSession)
    else if required != "" && Find(q.order.refs, required).None? then Err(NotPersisted)
    else match resolve
      case None => Ok(Resolved(q.order, [], EndId(q.order)))
      case Some(ask) =>
        match ask(EndId(q.order))
        case None => Err(Unresolved)
        case Some(tail) =>
          if !TailOk(tail.entries, max, pageBytes) then Err(TooLongLine)
          else match WithTail(q.order, tail.entries, 0, c, NoMatch, limit)
            case Err(e) => Err(e)
            case Ok(o) =>
              if (tail.leaf != "" || o.refs != []) && Find(o.refs, tail.leaf).None? then Err(NotRetained)
              else Ok(Resolved(o, tail.entries, tail.leaf))
  }

  /** Some record along the lineage of the leaf cannot be read. */
  ghost predicate LineUnreadable(data: seq<byte>, diskCount: nat, z: Resolved, c: Codec)
    requires Rooted(z.order.refs) && |z.order.refs| <= diskCount + |z.tail|
  {
    exists line, k :: SelectedLine(z.order.refs, z.leaf, line) && 0 <= k < |line| && line[k] < |z.order.refs|
                      && RawAt(data, z.order.refs, diskCount, z.tail, c, line[k]).None?
  }

  /** A resolved selection is well formed: its leaf has a lineage, and its suffix makes up its length. */
  lemma ResolvedOk(q: Inspected, max: nat, limit: nat, pageBytes: nat, c: Codec, session: Id, required: Id,
                   resolve: Option<Id -> Option<Tail>>)
    requires Sound(q.order, limit) && q.header.Some? && Lawful(c)
    requires Resolve(q, max, limit, pageBytes, c, session, required, resolve).Ok?
    ensures var z := Resolve(q, max, limit, pageBytes, c, session, required, resolve).value;
            && Sound(z.order, limit) && |z.order.refs| == |q.order.refs| + |z.tail|
            && (z.leaf == "" || Find(z.order.refs, z.leaf).Some?)
  {
    hide Lawful, Rooted, Find, WithTail, TailOk, Cost;
    if resolve.Some? {
      TailExtends(q.order, resolve.value(EndId(q.order)).value.entries, 0, c, NoMatch, limit);
    } else if q.order.refs != [] {
      LastFound(q.order.refs);
    }
  }

  method ReadSelected(reader: BufferedReader, max: nat, limit: nat, pageBytes: nat, chunk: nat, c: Codec,
                      session: Id, required: Id, resolve: Option<Id -> Option<Tail>>)
    returns (r: Result<Selection, OrderError>, ghost recs: seq<Raw>)
    requires reader.Valid() && reader.pos == 0 && Lawful(c) && 0 < chunk
    modifies reader
    ensures match InspectFile(reader.data, max, limit, c, NoMatch)
            case Err(e) => r == Err(e)
            case Ok(q) =>
              && q.header.Some? && Sound(q.order, limit)
              && match Resolve(q, max, limit, pageBytes, c, session, required, resolve)
                 case Err(e) => r == Err(e)
                 case Ok(z) =>
                   && Rooted(z.order.refs) && |z.order.refs| == |q.order.refs| + |z.tail|
                   && if r.Ok? then r.value.leaf == z.leaf && Selects(reader.data, q, z.order, z.tail, c, r.value, recs)
                      else r == Err(UnreadableRecord) && LineUnreadable(reader.data, |q.order.refs|, z, c)
  {
    hide Lawful, Rooted, Indexes, Find, InspectFile, WithTail, RecordsAlong, SinglePages, SelectedLine, Cost, TailOk, AddError;
    recs := [];
    var order, e := InspectFileOrder(reader, max, limit, c, NoMatch);
    if e.Some? {
      return Err(e.value), recs;
    }
    ghost var q := Inspected(order.header, order.View());
    Headed(reader.data, max, limit, c, NoMatch, q);
    var h := order.header.value;
    if session != "" && h.id != session {
      return Err(OtherSession), recs;
    }
    Looked(order.byId, order.refs, required);
    if required != "" && required !in order.byId {
      return Err(NotPersisted), recs;
    }
    var diskCount, leaf := |order.refs|, order.endId;
    var tail := Tail([], "");
    if resolve.Some? {
      var resolved := resolve.value(order.endId);
      if resolved.None? {
        return Err(Unresolved), recs;
      }
      tail := resolved.value;
      var fits := TailFits(tail.entries, max, pageBytes);
      if !fits {
        return Err(TooLongLine), recs;
      }
      e := order.AddTail(tail.entries, tail.leaf, c, NoMatch);
      if e.Some? {
        return Err(e.value), recs;
      }
      leaf := tail.leaf;
    }
    ghost var z := Resolved(order.View(), tail.entries, leaf);
    assert Resolve(q, max, limit, pageBytes, c, session, required, resolve) == Ok(z);
    ResolvedOk(q, max, limit, pageBytes, c, session, required, resolve);
    r, recs := EmitSelected(reader.data, order, diskCount, tail.entries, leaf, c, chunk, h, q, z);
  }

  /** The walk from the leaf and the emission root first. */
  method EmitSelected(data: seq<byte>, order: Inspection, diskCount: nat, tail: seq<Raw>, leaf: Id, c: Codec, chunk: nat,
                      h: Header, ghost q: Inspected, ghost z: Resolved)
    returns (r: Result<Selection, OrderError>, ghost recs: seq<Raw>)
    requires order.Valid() && 0 < chunk && z == Resolved(order.View(), tail, leaf) && q.header == Some(h)
    requires diskCount == |q.order.refs| && |order.refs| == diskCount + |tail| && (leaf == "" || Find(order.refs, leaf).Some?)
    ensures if r.Ok? then r.value.leaf == leaf && Selects(data, q, z.order, tail, c, r.value, recs)
            else r == Err(UnreadableRecord) && LineUnreadable(data, diskCount, z, c)
  {
    hide Rooted, Indexes, Find, RecordsAlong, SinglePages, SelectedLine, Cost, RecordAt;
    var line, ok := SelectLine(order, leaf);
    LineInside(order.refs, leaf, line);
    var pages;
    pages, ok, recs := EmitLineage(data, order.refs, diskCount, tail, c, chunk, line);
    if !ok {
      return Err(UnreadableRecord), recs;
    }
    AlongLength(data, order.refs, diskCount, tail, c, line, recs);
    r := Ok(Selection(h, leaf, |line|, order.endId, pages));
  }

  lemma Headed(data: seq<byte>, max: nat, limit: nat, c: Codec, match_: Raw -> bool, q: Inspected)
    requires InspectFile(data, max, limit, c, match_) == Ok(q)
    ensures q.header.Some?
  {}

  lemma LineInside(refs: seq<Ref>, leaf: Id, line: seq<nat>)
    requires Rooted(refs) && SelectedLine(refs, leaf, line)
    ensures forall k :: 0 <= k < |line| ==> line[k] < |refs|
  {}

  lemma AlongLength(data: seq<byte>, refs: seq<Ref>, diskCount: nat, tail: seq<Raw>, c: Codec, line: seq<nat>, recs: seq<Raw>)
    requires RecordsAlong(data, refs, diskCount, tail, c, line, recs)
    ensures |recs| == |line|
  {}

  /** Without a tail the selection is the active branch, record by record. */
  lemma SelectionIsBranch(data: seq<byte>, max: nat, limit: nat, c: Codec, q: Inspected, x: Selection, recs: seq<Raw>, f: File)
    requires Lawful(c) && InspectFile(data, max, limit, c, NoMatch) == Ok(q) && Rooted(q.order.refs)
    requires Selects(data, q, q.order, [], c, x, recs) && x.leaf == EndId(q.order) && f.data == data && f.codec == c
    requires var ix := IndexFile(data, max, limit, c); ix.Ok? ==> f.branch == ix.value.branch
    ensures IndexFile(data, max, limit, c) == Ok(Index(Metadata(x.header, x.leaf, x.total), f.branch))
    ensures recs == Recs(f) && Readable(f, 0, |f.branch|)
    ensures ReceiveAll(Nothing, x.pages) == Held(0, Recs(f))
  {
    hide Lawful, Rooted, InspectFile, IndexFile, SelectedLine, RecordsAlong, SinglePages, Recs, Readable, Ancestry, ReceiveAll;
    SelectedIsActive(data, max, limit, c, NoMatch, q);
    var line :| SelectedLine(q.order.refs, x.leaf, line) && RecordsAlong(data, q.order.refs, |q.order.refs|, [], c, line, recs);
    LineRecords(data, c, q.order, line, recs, f.branch);
    assert recs == Recs(f) && Readable(f, 0, |f.branch|) by { RecordsAreRecs(f, recs); }
    SinglesReceived(recs, Bounds(0, 1, 0, false));
  }

  lemma RecordsAreRecs(f: File, recs: seq<Raw>)
    requires |recs| == |f.branch| && forall k :: 0 <= k < |recs| ==> RecordAt(f.data, f.branch[k], f.codec) == Some(recs[k])
    ensures recs == Recs(f) && Readable(f, 0, |f.branch|)
  {
    hide RecordAt;
  }

  /** The records along the lineage of the last entry are those of its ancestry. */
  lemma LineRecords(data: seq<byte>, c: Codec, o: Order, line: seq<nat>, recs: seq<Raw>, b: seq<Ref>)
    requires Rooted(o.refs) && SelectedLine(o.refs, EndId(o), line) && RecordsAlong(data, o.refs, |o.refs|, [], c, line, recs)
    requires b == if o.refs == [] then [] else Ancestry(o.refs, |o.refs| - 1)
    ensures |recs| == |b| && forall k :: 0 <= k < |recs| ==> RecordAt(data, b[k], c) == Some(recs[k])
  {
    hide Rooted, RecordAt, Find, Lineage, Ancestry;
    if o.refs != [] {
      LastFound(o.refs);
      LineageIsAncestry(o.refs, |o.refs| - 1);
    }
    forall k | 0 <= k < |recs| ensures RecordAt(data, b[k], c) == Some(recs[k]) {
      assert RawAt(data, o.refs, |o.refs|, [], c, line[|line| - 1 - k]) == Some(recs[k]);
    }
  }

  lemma LastFound(refs: seq<Ref>)
    requires Rooted(refs) && refs != []
    ensures Find(refs, refs[|refs| - 1].id) == Some(|refs| - 1) && refs[|refs| - 1].id != ""
  {}
}
