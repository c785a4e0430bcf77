/**
  The identity-fenced LRU in front of the index pass.  The specification works on the
  list of cached entries, most recent first; CacheIsTransparent says that no history of
  opens can tell the cache from a fresh pass, CacheIsPrefix that it holds the most
  recently used files.
 */
module IndexCache {
  import opened Wrappers
  import opened ColdBranch
  import opened ColdIndex
  import ColdLines

  type Path = string
  /** Device, inode, size, times and digest: equal identities mean equal contents. */
  type Identity = string

  datatype Cached = Cached(path: Path, identity: Identity, index: Index, max: nat, limit: nat)

  predicate DistinctPaths(v: seq<Cached>)
  {
    forall i, j :: 0 <= i < j < |v| ==> v[i].path != v[j].path
  }

  function Locate(v: seq<Cached>, path: Path): (r: Option<nat>)
    ensures r.Some? ==> r.value < |v| && v[r.value].path == path
    ensures r.None? ==> forall i :: 0 <= i < |v| ==> v[i].path != path
  {
    if v == [] then None
    else if v[|v| - 1].path == path then Some(|v| - 1)
    else Locate(v[..|v| - 1], path)
  }

  function Without(v: seq<Cached>, i: nat): seq<Cached>
    requires i < |v|
  {
    v[..i] + v[i + 1..]
  }

  predicate Fits(e: Cached, identity: Identity, max: nat, limit: nat)
  {
    e.identity == identity && e.max == max && e.limit == limit
  }

  /** A lookup: a fitting entry moves to the front, any other entry of the path is dropped. */
  function Touched(v: seq<Cached>, path: Path, identity: Identity, max: nat, limit: nat): seq<Cached>
  {
    match Locate(v, path)
    case None => v
    case Some(i) => (if Fits(v[i], identity, max, limit) then [v[i]] else []) + Without(v, i)
  }

  function Found(v: seq<Cached>, path: Path, identity: Identity, max: nat, limit: nat): Option<Index>
  {
    match Locate(v, path)
    case None => None
    case Some(i) => if Fits(v[i], identity, max, limit) then Some(v[i].index) else None
  }

  function Clip(v: seq<Cached>, capacity: nat): seq<Cached>
  {
    if |v| <= capacity then v else v[..capacity]
  }

  /** A store: in front, in place of an entry of the same path, else evicting from the back. */
  function Stored(v: seq<Cached>, e: Cached, capacity: nat): seq<Cached>
  {
    match Locate(v, e.path)
    case Some(i) => [e] + Without(v, i)
    case None => Clip([e] + v, capacity)
  }

  // Opening a file through the cache

  /** One open: the path, what the file is at that moment, and the fencing options. */
  datatype Open = Open(path: Path, identity: Identity, max: nat, limit: nat, noCache: bool)

  /** The bytes behind each identity, and the codec. */
  datatype World = World(content: Identity -> seq<byte>, codec: Codec)

  function Uncached(w: World, o: Open): Result<Index, IndexError>
  {
    IndexFile(w.content(o.identity), o.max, o.limit, w.codec)
  }

  function Serve(w: World, v: seq<Cached>, o: Open): Result<Index, IndexError>
  {
    if o.noCache then Uncached(w, o)
    else match Found(v, o.path, o.identity, o.max, o.limit)
      case Some(ix) => Ok(ix)
      case None => Uncached(w, o)
  }

  function Entry(o: Open, ix: Index): Cached
  {
    Cached(o.path, o.identity, ix, o.max, o.limit)
  }

  function After(w: World, v: seq<Cached>, o: Open, capacity: nat): seq<Cached>
  {
    if o.noCache then v
    else
      var t := Touched(v, o.path, o.identity, o.max, o.limit);
      if Found(v, o.path, o.identity, o.max, o.limit).Some? then t
      else match Uncached(w, o)
        case Err(_) => t
        case Ok(ix) => Stored(t, Entry(o, ix), capacity)
  }

  /** The cache after a history of opens. */
  function Run(w: World, opens: seq<Open>, capacity: nat): seq<Cached>
  {
    if opens == [] then []
    else After(w, Run(w, opens[..|opens| - 1], capacity), opens[|opens| - 1], capacity)
  }

  /** Every entry is what a fresh pass would produce. */
  ghost predicate Truthful(w: World, v: seq<Cached>)
  {
    forall i :: 0 <= i < |v| ==> IndexFile(w.content(v[i].identity), v[i].max, v[i].limit, w.codec) == Ok(v[i].index)
  }

  ghost predicate Good(w: World, v: seq<Cached>, capacity: nat)
  {
    DistinctPaths(v) && Truthful(w, v) && |v| <= capacity
  }

  lemma WithoutGood(w: World, v: seq<Cached>, i: nat, capacity: nat)
    requires Good(w, v, capacity) && i < |v|
    ensures var u := Without(v, i);
            && Good(w, u, capacity) && |u| == |v| - 1 && (forall k :: 0 <= k < |u| ==> u[k].path != v[i].path)
  {}

  lemma FrontGood(w: World, v: seq<Cached>, e: Cached, capacity: nat)
    requires Good(w, v, capacity) && Truthful(w, [e]) && (forall k :: 0 <= k < |v| ==> v[k].path != e.path)
    ensures Good(w, Clip([e] + v, capacity), capacity)
    ensures |v| < capacity ==> Clip([e] + v, capacity) == [e] + v
  {
    assert [e][0] == e;
  }

  lemma TouchedGood(w: World, v: seq<Cached>, o: Open, capacity: nat)
    requires Good(w, v, capacity)
    ensures Good(w, Touched(v, o.path, o.identity, o.max, o.limit), capacity)
  {
    hide Good, Without;
    if i :| Locate(v, o.path) == Some(i) {
      WithoutGood(w, v, i, capacity);
      var u := Without(v, i);
      assert [] + u == u;
      if Fits(v[i], o.identity, o.max, o.limit) {
        GoodEntry(w, v, i, capacity);
        FrontGood(w, u, v[i], capacity);
      }
    }
  }

  lemma GoodEntry(w: World, v: seq<Cached>, i: nat, capacity: nat)
    requires Good(w, v, capacity) && i < |v|
    ensures Truthful(w, [v[i]]) && |v| <= capacity
  {}

  lemma StoredGood(w: World, v: seq<Cached>, e: Cached, capacity: nat)
    requires Good(w, v, capacity) && Truthful(w, [e])
    ensures Good(w, Stored(v, e, capacity), capacity)
  {
    hide Good, Without, Truthful;
    match Locate(v, e.path)
    case None => FrontGood(w, v, e, capacity);
    case Some(i) =>
      WithoutGood(w, v, i, capacity);
      GoodEntry(w, v, i, capacity);
      FrontGood(w, Without(v, i), e, capacity);
  }

  lemma AfterGood(w: World, v: seq<Cached>, o: Open, capacity: nat)
    requires Good(w, v, capacity)
    ensures Good(w, After(w, v, o, capacity), capacity)
  {
    hide Good, Touched, Found, Stored, IndexFile;
    TouchedGood(w, v, o, capacity);
    if Uncached(w, o).Ok? {
      var e := Entry(o, Uncached(w, o).value);
      assert Truthful(w, [e]);
      StoredGood(w, Touched(v, o.path, o.identity, o.max, o.limit), e, capacity);
    }
  }

  lemma {:induction false} RunGood(w: World, opens: seq<Open>, capacity: nat)
    ensures Good(w, Run(w, opens, capacity), capacity)
  {
    if opens != [] {
      RunGood(w, opens[..|opens| - 1], capacity);
      AfterGood(w, Run(w, opens[..|opens| - 1], capacity), opens[|opens| - 1], capacity);
    }
  }

  /** After any history, any open is served as if there were no cache. */
  lemma CacheIsTransparent(w: World, opens: seq<Open>, o: Open, capacity: nat)
    ensures Serve(w, Run(w, opens, capacity), o) == Uncached(w, o)
  {
    RunGood(w, opens, capacity);
  }

  lemma ServedTruly(w: World, v: seq<Cached>, o: Open, capacity: nat)
    requires Good(w, v, capacity)
    ensures Found(v, o.path, o.identity, o.max, o.limit).Some? ==>
              Uncached(w, o) == Ok(Found(v, o.path, o.identity, o.max, o.limit).value)
  {}

  /**
    A lookup finds exactly an entry of the path with the same identity and the same limits,
    and brings it to the front; failing that, no entry of the path stays.
   */
  lemma FoundExact(v: seq<Cached>, path: Path, identity: Identity, max: nat, limit: nat)
    requires DistinctPaths(v)
    ensures var found, t := Found(v, path, identity, max, limit), Touched(v, path, identity, max, limit);
            && (forall ix :: found == Some(ix) <==> Cached(path, identity, ix, max, limit) in v)
            && (found.Some? ==> t != [] && t[0] == Cached(path, identity, found.value, max, limit) && |t| == |v|)
            && (found.None? ==> forall e :: e in t <==> e in v && e.path != path)
  {
    if Locate(v, path).Some? {
      var i := Locate(v, path).value;
      var u := Without(v, i);
      assert [] + u == u;
      WithoutPath(v, i);
    }
  }

  lemma WithoutPath(v: seq<Cached>, i: nat)
    requires DistinctPaths(v) && i < |v|
    ensures forall e :: e in Without(v, i) <==> e in v && e.path != v[i].path
  {
    var u := Without(v, i);
    forall e | e in v && e.path != v[i].path ensures e in u {
      var k :| 0 <= k < |v| && v[k] == e;
      assert u[if k < i then k else k - 1] == e;
    }
    forall e | e in u ensures e in v && e.path != v[i].path {
      var k :| 0 <= k < |u| && u[k] == e;
      assert v[if k < i then k else k + 1] == e;
    }
  }

  /** A file that was indexed is found again when it is opened unchanged, without another pass. */
  lemma ReopenedIsFound(w: World, opens: seq<Open>, o: Open, capacity: nat)
    requires !o.noCache && Uncached(w, o).Ok? && capacity > 0
    ensures Found(Run(w, opens + [o], capacity), o.path, o.identity, o.max, o.limit) == Some(Uncached(w, o).value)
  {
    hide IndexFile, Found, Good, After;
    assert (opens + [o])[..|opens|] == opens;
    RunGood(w, opens, capacity);
    RunGood(w, opens + [o], capacity);
    var v := Run(w, opens + [o], capacity);
    OpenedIsFront(w, Run(w, opens, capacity), o, capacity);
    assert v[0] == Entry(o, Uncached(w, o).value);
    GoodPaths(w, v, capacity);
    FoundExact(v, o.path, o.identity, o.max, o.limit);
  }

  lemma GoodPaths(w: World, v: seq<Cached>, capacity: nat)
    requires Good(w, v, capacity)
    ensures DistinctPaths(v)
  {}

  // Opens that overlap: lookup and store are separate critical sections

  datatype CacheStep = Lookup(t: nat, o: Open) | Fill(t: nat)

  /** The cache, the opens whose index pass is under way, and what every finished open was given. */
  datatype Shared = Shared(v: seq<Cached>, pending: map<nat, Open>, served: seq<(Open, Result<Index, IndexError>)>)

  function NextShared(w: World, s: Shared, a: CacheStep, capacity: nat): Shared
  {
    match a
    case Lookup(t, o) =>
      if t in s.pending then s
      else if o.noCache then s.(served := s.served + [(o, Uncached(w, o))])
      else
        var v := Touched(s.v, o.path, o.identity, o.max, o.limit);
        (match Found(s.v, o.path, o.identity, o.max, o.limit)
         case Some(ix) => s.(v := v, served := s.served + [(o, Ok(ix))])
         case None => s.(v := v, pending := s.pending[t := o]))
    case Fill(t) =>
      if t !in s.pending then s
      else
        var o := s.pending[t];
        var r := Uncached(w, o);
        Shared(if r.Ok? then Stored(s.v, Entry(o, r.value), capacity) else s.v, s.pending - {t}, s.served + [(o, r)])
  }

  function RunShared(w: World, steps: seq<CacheStep>, capacity: nat): Shared
  {
    if steps == [] then Shared([], map[], [])
    else NextShared(w, RunShared(w, steps[..|steps| - 1], capacity), steps[|steps| - 1], capacity)
  }

  ghost predicate ServedTruth(w: World, served: seq<(Open, Result<Index, IndexError>)>)
  {
    forall i :: 0 <= i < |served| ==> served[i].1 == Uncached(w, served[i].0)
  }

  lemma NextSharedKeeps(w: World, s: Shared, a: CacheStep, capacity: nat)
    requires Good(w, s.v, capacity) && ServedTruth(w, s.served)
    ensures var n := NextShared(w, s, a, capacity); Good(w, n.v, capacity) && ServedTruth(w, n.served)
  {
    hide Good, Touched, Stored, Found, IndexFile;
    match a {
      case Lookup(t, o) =>
        TouchedGood(w, s.v, o, capacity);
        ServedTruly(w, s.v, o, capacity);
      case Fill(t) =>
        if t in s.pending && Uncached(w, s.pending[t]).Ok? {
          var e := Entry(s.pending[t], Uncached(w, s.pending[t]).value);
          assert Truthful(w, [e]);
          StoredGood(w, s.v, e, capacity);
        }
    }
  }

  /**
    However opens overlap, including stores for a path that another open stored meanwhile,
    each is given what an uncached pass would give it; paths stay distinct, entries true,
    and the capacity holds.
   */
  lemma {:induction false} OverlappingOpens(w: World, steps: seq<CacheStep>, capacity: nat)
    ensures var s := RunShared(w, steps, capacity);
            Good(w, s.v, capacity) && forall i :: 0 <= i < |s.served| ==> s.served[i].1 == Uncached(w, s.served[i].0)
  {
    hide NextShared, IndexFile;
    if steps != [] {
      OverlappingOpens(w, steps[..|steps| - 1], capacity);
      NextSharedKeeps(w, RunShared(w, steps[..|steps| - 1], capacity), steps[|steps| - 1], capacity);
    }
  }

  /** An open whose two sections are not interrupted is the atomic one. */
  lemma UninterruptedOpen(w: World, s: Shared, t: nat, o: Open, capacity: nat)
    requires t !in s.pending
    ensures NextShared(w, NextShared(w, s, Lookup(t, o), capacity), Fill(t), capacity) ==
            Shared(After(w, s.v, o, capacity), s.pending, s.served + [(o, Serve(w, s.v, o))])
  {
    hide Touched, Stored, Found, IndexFile;
    assert (s.pending[t := o]) - {t} == s.pending;
  }

  // Least recently used is evicted first

  lemma LocatePrefix(v: seq<Cached>, u: seq<Cached>, path: Path)
    requires DistinctPaths(u) && v <= u
    ensures Locate(v, path).Some? ==> Locate(u, path) == Locate(v, path)
    ensures Locate(v, path).None? && Locate(u, path).Some? ==> Locate(u, path).value >= |v|
  {
    assert forall k :: 0 <= k < |v| ==> v[k] == u[k];
  }

  /** Without an entry of the path. */
  function Dropped(v: seq<Cached>, path: Path): seq<Cached>
  {
    match Locate(v, path) case None => v case Some(i) => Without(v, i)
  }

  lemma DroppedPrefix(v: seq<Cached>, u: seq<Cached>, path: Path)
    requires DistinctPaths(u) && v <= u
    ensures Dropped(v, path) <= Dropped(u, path)
  {
    LocatePrefix(v, u, path);
    var a, b := Dropped(v, path), Dropped(u, path);
    assert |a| <= |b| && forall k :: 0 <= k < |a| ==> a[k] == b[k];
  }

  /** What a successful open leaves, whether it hit or missed. */
  lemma OpenedIsFront(w: World, v: seq<Cached>, o: Open, capacity: nat)
    requires Good(w, v, capacity) && !o.noCache
    ensures After(w, v, o, capacity) ==
            if Uncached(w, o).Ok? then Clip([Entry(o, Uncached(w, o).value)] + Dropped(v, o.path), capacity)
            else Dropped(v, o.path)
  {
    hide IndexFile;
    match Locate(v, o.path) {
      case None =>
      case Some(i) =>
        WithoutGood(w, v, i, capacity);
        var u := Without(v, i);
        assert Dropped(v, o.path) == u && [] + u == u;
        assert Uncached(w, o).Ok? ==> Clip([Entry(o, Uncached(w, o).value)] + u, capacity) == [Entry(o, Uncached(w, o).value)] + u;
        if !Fits(v[i], o.identity, o.max, o.limit) {
          assert Locate(u, o.path) == None;
        }
    }
  }

  lemma ClipPrefix(v: seq<Cached>, u: seq<Cached>, e: Cached, capacity: nat)
    requires v <= u
    ensures Clip([e] + v, capacity) <= [e] + u
  {
    var a, b := Clip([e] + v, capacity), [e] + u;
    assert forall k :: 0 <= k < |a| ==> a[k] == b[k];
  }

  /** With room for every file ever opened, nothing is evicted. */
  lemma NoEviction(w: World, v: seq<Cached>, o: Open, capacity: nat)
    requires Good(w, v, capacity) && |v| < capacity && !o.noCache && Uncached(w, o).Ok?
    ensures After(w, v, o, capacity) == [Entry(o, Uncached(w, o).value)] + Dropped(v, o.path)
  {
    OpenedIsFront(w, v, o, capacity);
  }

  lemma {:induction false} RunSize(w: World, opens: seq<Open>, capacity: nat)
    ensures |Run(w, opens, capacity)| <= |opens|
  {
    hide After;
    if opens != [] {
      var before := Run(w, opens[..|opens| - 1], capacity);
      var o := opens[|opens| - 1];
      RunSize(w, opens[..|opens| - 1], capacity);
      RunGood(w, opens[..|opens| - 1], capacity);
      AfterSize(w, before, o, capacity);
    }
  }

  lemma AfterSize(w: World, v: seq<Cached>, o: Open, capacity: nat)
    requires Good(w, v, capacity)
    ensures |After(w, v, o, capacity)| <= |v| + 1
  {
    hide IndexFile;
    if !o.noCache { OpenedIsFront(w, v, o, capacity); }
  }

  /**
    The inclusion property of LRU: at every moment the cache is an initial part of what a
    cache too large to evict would hold, which is the opened files, most recent first.
   */
  lemma {:induction false} CacheIsPrefix(w: World, opens: seq<Open>, capacity: nat, large: nat)
    requires |opens| <= large
    ensures Run(w, opens, capacity) <= Run(w, opens, large)
  {
    hide After, Clip, Dropped, Uncached;
    if opens != [] {
      var past, o := opens[..|opens| - 1], opens[|opens| - 1];
      var v, u := Run(w, past, capacity), Run(w, past, large);
      CacheIsPrefix(w, past, capacity, large);
      RunGood(w, past, capacity);
      RunGood(w, past, large);
      RunSize(w, past, large);
      AfterPrefix(w, v, u, o, capacity, large);
    }
  }

  lemma AfterPrefix(w: World, v: seq<Cached>, u: seq<Cached>, o: Open, capacity: nat, large: nat)
    requires Good(w, v, capacity) && Good(w, u, large) && v <= u && |u| < large
    ensures After(w, v, o, capacity) <= After(w, u, o, large)
  {
    hide Clip, Dropped, Uncached;
    if o.noCache {
      assert After(w, v, o, capacity) == v && After(w, u, o, large) == u;
    } else {
      OpenedIsFront(w, v, o, capacity);
      OpenedIsFront(w, u, o, large);
      DroppedPrefix(v, u, o.path);
      if Uncached(w, o).Ok? {
        NoEviction(w, u, o, large);
        ClipPrefix(Dropped(v, o.path), Dropped(u, o.path), Entry(o, Uncached(w, o).value), capacity);
      }
    }
  }

  lemma AfterFull(w: World, v: seq<Cached>, u: seq<Cached>, o: Open, capacity: nat, large: nat)
    requires Good(w, v, capacity) && Good(w, u, large) && v == Clip(u, capacity) && |u| < large
    requires o.noCache || Uncached(w, o).Ok?
    ensures After(w, v, o, capacity) == Clip(After(w, u, o, large), capacity)
  {
    hide IndexFile;
    if !o.noCache {
      AfterPrefix(w, v, u, o, capacity, large);
      OpenedIsFront(w, v, o, capacity);
      NoEviction(w, u, o, large);
      LocatePrefix(v, u, o.path);
    }
  }

  /** As long as no open fails, the cache is exactly that list cut to the capacity. */
  lemma {:induction false} CacheIsFull(w: World, opens: seq<Open>, capacity: nat, large: nat)
    requires |opens| <= large
    requires forall k :: 0 <= k < |opens| ==> opens[k].noCache || Uncached(w, opens[k]).Ok?
    ensures Run(w, opens, capacity) == Clip(Run(w, opens, large), capacity)
  {
    hide After, Uncached;
    if opens != [] {
      var past, o := opens[..|opens| - 1], opens[|opens| - 1];
      CacheIsFull(w, past, capacity, large);
      RunGood(w, past, capacity);
      RunGood(w, past, large);
      RunSize(w, past, large);
      AfterFull(w, Run(w, past, capacity), Run(w, past, large), o, capacity, large);
    }
  }

  /** When a path was last opened through the cache; 0 is never. */
  function LastOpen(opens: seq<Open>, path: Path): (t: nat)
    ensures t <= |opens|
  {
    if opens == [] then 0
    else if opens[|opens| - 1].path == path && !opens[|opens| - 1].noCache then |opens|
    else LastOpen(opens[..|opens| - 1], path)
  }

  ghost predicate RecentFirst(opens: seq<Open>, v: seq<Cached>)
  {
    forall i, j :: 0 <= i < j < |v| ==> LastOpen(opens, v[i].path) > LastOpen(opens, v[j].path)
  }

  lemma {:induction false} RunOrdered(w: World, opens: seq<Open>, capacity: nat)
    ensures RecentFirst(opens, Run(w, opens, capacity))
  {
    hide After, Uncached, Good;
    if opens != [] {
      var past, o := opens[..|opens| - 1], opens[|opens| - 1];
      RunOrdered(w, past, capacity);
      RunGood(w, past, capacity);
      AfterOrdered(w, opens, Run(w, past, capacity), capacity);
    }
  }

  lemma DroppedOrdered(opens: seq<Open>, v: seq<Cached>, path: Path)
    requires RecentFirst(opens, v) && DistinctPaths(v)
    ensures var d := Dropped(v, path);
            RecentFirst(opens, d) && forall k :: 0 <= k < |d| ==> d[k].path != path
  {
    hide LastOpen;
  }

  lemma AfterOrdered(w: World, opens: seq<Open>, v: seq<Cached>, capacity: nat)
    requires opens != [] && Good(w, v, capacity) && RecentFirst(opens[..|opens| - 1], v)
    ensures RecentFirst(opens, After(w, v, opens[|opens| - 1], capacity))
  {
    hide After, Uncached, Dropped, Truthful;
    var past, o := opens[..|opens| - 1], opens[|opens| - 1];
    if o.noCache {
      NoCacheKeeps(w, v, o, capacity);
    } else {
      DroppedOrdered(past, v, o.path);
      OpenedIsFront(w, v, o, capacity);
    }
  }

  lemma NoCacheKeeps(w: World, v: seq<Cached>, o: Open, capacity: nat)
    requires o.noCache
    ensures After(w, v, o, capacity) == v
  {}

  /** An entry that was evicted was opened before every entry that is still there. */
  lemma EvictsLeastRecent(w: World, opens: seq<Open>, capacity: nat, large: nat, i: nat, j: nat)
    requires |opens| <= large && i < |Run(w, opens, capacity)| <= j < |Run(w, opens, large)|
    ensures LastOpen(opens, Run(w, opens, large)[j].path) < LastOpen(opens, Run(w, opens, capacity)[i].path)
  {
    CacheIsPrefix(w, opens, capacity, large);
    RunOrdered(w, opens, large);
  }

  // The cache itself

  class Element {
    var value: Cached

    constructor (value: Cached)
      ensures this.value == value
    {
      this.value := value;
    }
  }

  ghost function Values(s: seq<Element>): (v: seq<Cached>)
    reads s
    ensures |v| == |s| && forall i :: 0 <= i < |s| ==> v[i] == s[i].value
  {
    seq(|s|, i requires 0 <= i < |s| reads s => s[i].value)
  }

  function Remove(s: seq<Element>, e: Element): (r: seq<Element>)
    ensures forall x :: x in r ==> x in s
  {
    if s == [] then []
    else if s[0] == e then s[1..]
    else [s[0]] + Remove(s[1..], e)
  }

  predicate Unique(s: seq<Element>)
  {
    forall i, j :: 0 <= i < j < |s| ==> s[i] != s[j]
  }

  lemma {:induction false} RemoveAt(s: seq<Element>, i: nat)
    requires Unique(s) && i < |s|
    ensures Remove(s, s[i]) == s[..i] + s[i + 1..]
  {
    if i > 0 {
      assert Unique(s[1..]);
      RemoveAt(s[1..], i - 1);
      assert [s[0]] + s[1..][..i - 1] == s[..i];
    }
  }

  /** List and map are in bijection: v are the values of the list's elements. */
  ghost predicate Linked(order: seq<Element>, v: seq<Cached>, byPath: map<Path, Element>)
  {
    && |order| == |v| && Unique(order)
    && (forall i :: 0 <= i < |v| ==> v[i].path in byPath && byPath[v[i].path] == order[i])
    && (forall p :: p in byPath ==> Locate(v, p).Some?)
  }

  /** The map finds the element that the specification looks for in the list. */
  lemma Finds(order: seq<Element>, v: seq<Cached>, byPath: map<Path, Element>, path: Path)
    requires Linked(order, v, byPath)
    ensures |order| == |v| && Unique(order) && DistinctPaths(v)
    ensures path in byPath <==> Locate(v, path).Some?
    ensures path in byPath ==> order[Locate(v, path).value] == byPath[path]
  {}

  /** The elements but one, and the values but one, still correspond. */
  lemma WithoutCorresponds(order: seq<Element>, v: seq<Cached>, byPath: map<Path, Element>, i: nat, k: nat)
    requires Linked(order, v, byPath) && i < |v| && k < |v| - 1
    ensures var u, rest, m := Without(v, i), order[..i] + order[i + 1..], byPath - {v[i].path};
            u[k].path in m && m[u[k].path] == rest[k]
  {
    hide Locate;
    Finds(order, v, byPath, v[i].path);
    assert Without(v, i)[k] == v[if k < i then k else k + 1];
  }

  lemma WithoutFinds(v: seq<Cached>, i: nat, p: Path)
    requires i < |v| && Locate(v, p).Some? && p != v[i].path
    ensures Locate(Without(v, i), p).Some?
  {
    hide Locate;
    var k := Locate(v, p).value;
    assert Without(v, i)[if k < i then k else k - 1] == v[k];
  }

  lemma LinkedWithout(order: seq<Element>, v: seq<Cached>, byPath: map<Path, Element>, i: nat)
    requires Linked(order, v, byPath) && i < |v|
    ensures Linked(Remove(order, order[i]), Without(v, i), byPath - {v[i].path})
  {
    hide Locate, Remove;
    var u, rest, m := Without(v, i), order[..i] + order[i + 1..], byPath - {v[i].path};
    RemoveAt(order, i);
    assert Unique(rest);
    forall k | 0 <= k < |u| ensures u[k].path in m && m[u[k].path] == rest[k] {
      WithoutCorresponds(order, v, byPath, i, k);
    }
    forall p | p in m ensures Locate(u, p).Some? {
      WithoutFinds(v, i, p);
    }
  }

  lemma LinkedFront(order: seq<Element>, v: seq<Cached>, byPath: map<Path, Element>, e: Cached, x: Element)
    requires Linked(order, v, byPath) && e.path !in byPath && x !in order
    ensures Linked([x] + order, [e] + v, byPath[e.path := x])
  {
    hide Locate;
    var u := [e] + v;
    forall p | p in byPath || p == e.path ensures Locate(u, p).Some? {
      if p == e.path { assert u[0].path == p; } else { assert u[Locate(v, p).value + 1].path == p; }
    }
  }

  lemma LinkedMoved(order: seq<Element>, v: seq<Cached>, byPath: map<Path, Element>, i: nat)
    requires Linked(order, v, byPath) && i < |v|
    ensures Remove(order, order[i]) == order[..i] + order[i + 1..]
    ensures Linked([order[i]] + Remove(order, order[i]), [v[i]] + Without(v, i), byPath)
  {
    hide Locate, Remove;
    var m := byPath - {v[i].path};
    LinkedWithout(order, v, byPath, i);
    RemoveAt(order, i);
    LinkedFront(Remove(order, order[i]), Without(v, i), m, v[i], order[i]);
    assert m[v[i].path := order[i]] == byPath;
  }

  lemma ValuesWithout(s: seq<Element>, i: nat)
    requires i < |s|
    ensures Values(s[..i] + s[i + 1..]) == Without(Values(s), i)
  {}

  lemma ValuesMoved(s: seq<Element>, i: nat)
    requires i < |s|
    ensures Values([s[i]] + (s[..i] + s[i + 1..])) == [Values(s)[i]] + Without(Values(s), i)
  {
    ValuesWithout(s, i);
  }

  class Cache {
    const capacity: nat
    var order: seq<Element>
    var byPath: map<Path, Element>
    var hits: nat

    ghost predicate Valid()
      reads this, order
    {
      Linked(order, View(), byPath) && |order| <= capacity
    }

    ghost function View(): seq<Cached>
      reads this`order, order
    {
      Values(order)
    }

    constructor (capacity: nat)
      ensures Valid() && View() == [] && this.capacity == capacity && hits == 0
    {
      this.capacity, order, byPath, hits := capacity, [], map[], 0;
    }

    method Evict(e: Element, ghost i: nat)
      requires Linked(order, View(), byPath) && i < |order| && order[i] == e
      modifies this`order, this`byPath
      ensures order == Remove(old(order), e) && |order| == |old(order)| - 1
      ensures View() == Without(old(View()), i) && Linked(order, View(), byPath)
      ensures e.value.path !in byPath && forall p :: p in byPath ==> p in old(byPath)
    {
      hide Linked, Remove;
      LinkedWithout(order, View(), byPath, i);
      Finds(order, View(), byPath, e.value.path);
      RemoveAt(order, i);
      ValuesWithout(order, i);
      order := Remove(order, e);
      byPath := byPath - {e.value.path};
    }

    method Get(path: Path, identity: Identity, max: nat, limit: nat) returns (r: Option<Index>)
      requires Valid()
      modifies this`order, this`byPath, this`hits
      ensures Valid() && r == Found(old(View()), path, identity, max, limit)
      ensures forall ix :: r == Some(ix) <==> Cached(path, identity, ix, max, limit) in old(View())
      ensures r.Some? ==> |View()| == |old(View())| > 0 && View()[0] == Cached(path, identity, r.value, max, limit)
      ensures r.None? ==> forall e :: e in View() <==> e in old(View()) && e.path != path
      ensures View() == Touched(old(View()), path, identity, max, limit)
      ensures hits == old(hits) + (if r.Some? then 1 else 0)
      ensures forall e :: e in order ==> e in old(order)
    {
      hide Linked, Remove, Locate, Without;
      Finds(order, View(), byPath, path);
      FoundExact(View(), path, identity, max, limit);
      if path !in byPath {
        return None;
      }
      var e := byPath[path];
      ghost var i := Locate(View(), path).value;
      if e.value.identity != identity || e.value.max != max || e.value.limit != limit {
        Evict(e, i);
        assert [] + View() == View();
        return None;
      }
      hits := hits + 1;
      MoveToFront(e, i);
      r := Some(e.value.index);
    }

    /** Within the list only; the map keeps pointing at the element. */
    method MoveToFront(e: Element, ghost i: nat)
      requires Linked(order, View(), byPath) && i < |order| && order[i] == e
      modifies this`order
      ensures order == [e] + Remove(old(order), e) && |order| == |old(order)|
      ensures View() == [old(View())[i]] + Without(old(View()), i) && Linked(order, View(), byPath)
    {
      hide Linked, Remove, Unique;
      ghost var v := View();
      LinkedMoved(order, v, byPath, i);
      ValuesMoved(order, i);
      order := [e] + Remove(order, e);
    }

    method Put(entry: Cached)
      requires Valid()
      modifies this`order, this`byPath, order
      ensures Valid() && View() == Stored(old(View()), entry, capacity)
      ensures forall e :: e in order ==> e in old(order) || fresh(e)
    {
      hide Linked, Remove, Locate, Unique, Without;
      ghost var v := View();
      Finds(order, v, byPath, entry.path);
      if entry.path in byPath {
        Replace(byPath[entry.path], Locate(v, entry.path).value, entry);
      } else {
        PushFront(entry);
        EvictOldest([entry] + v);
      }
    }

    method Replace(e: Element, ghost i: nat, entry: Cached)
      requires Linked(order, View(), byPath) && i < |order| && order[i] == e && e.value.path == entry.path
      modifies this`order, e
      ensures Linked(order, View(), byPath) && View() == [entry] + Without(old(View()), i) && |order| == |old(order)|
      ensures forall x :: x in order ==> x in old(order)
    {
      hide Linked, Remove, Unique, Without, Values;
      MoveToFront(e, i);
      assert View()[1..] == Without(old(View()), i);
      WriteFirst(e, entry);
    }

    method WriteFirst(e: Element, entry: Cached)
      requires Linked(order, View(), byPath) && order != [] && order[0] == e && View()[0].path == entry.path
      modifies e
      ensures Linked(order, View(), byPath) && View() == [entry] + old(View())[1..]
    {
      hide Linked, Values;
      LinkedReplaced(order, View(), byPath, entry);
      FirstUnique(order, View(), byPath);
      label before:
      e.value := entry;
      FirstWritten@before(order);
    }

    method PushFront(entry: Cached)
      requires Linked(order, View(), byPath) && entry.path !in byPath
      modifies this`order, this`byPath
      ensures Linked(order, View(), byPath) && View() == [entry] + old(View())
      ensures forall x :: x in order ==> x in old(order) || fresh(x)
    {
      hide Linked;
      ghost var v := View();
      var e := new Element(entry);
      LinkedFront(order, v, byPath, entry, e);
      order := [e] + order;
      byPath := byPath[entry.path := e];
      assert View() == [entry] + v;
    }

    /** From the back, until the list is within the capacity. */
    method EvictOldest(ghost all: seq<Cached>)
      requires Linked(order, View(), byPath) && View() == all
      modifies this`order, this`byPath
      ensures Valid() && View() == Clip(all, capacity)
      ensures forall e :: e in order ==> e in old(order)
    {
      hide Linked, Remove;
      while |order| > capacity
        invariant Linked(order, View(), byPath) && |order| <= |all| && View() == all[..|order|]
        invariant |order| >= capacity || View() == all
        invariant forall e :: e in order ==> e in old(order)
      {
        ghost var before := View();
        Evict(order[|order| - 1], |order| - 1);
        assert before[..|before| - 1] + before[|before|..] == all[..|before| - 1];
      }
    }

    /** Reading a session file's index: served from the cache, or made and stored. */
    method ReadThrough(o: Open, reader: ColdLines.BufferedReader, codec: Codec, ghost w: World)
      returns (r: Result<Index, IndexError>)
      requires Valid() && Good(w, View(), capacity)
      requires reader.Valid() && reader.pos == 0 && reader.data == w.content(o.identity) && codec == w.codec
      modifies this, order, reader
      ensures r == Uncached(w, o)
      ensures Valid() && View() == After(w, old(View()), o, capacity) && Good(w, View(), capacity)
    {
      hide Linked, Stored, Touched, Found, Good, IndexFile;
      ghost var v := View();
      AfterGood(w, v, o, capacity);
      if !o.noCache {
        ServedTruly(w, v, o, capacity);
        var found := Get(o.path, o.identity, o.max, o.limit);
        if found.Some? {
          return Ok(found.value);
        }
      }
      r := BuildIndex(reader, o.max, o.limit, codec);
      if !o.noCache && r.Ok? {
        assert forall i :: 0 <= i < |order| ==> order[i] in old(order);
        Put(Entry(o, r.value));
      }
    }
  }

  lemma LocateSamePaths(v: seq<Cached>, u: seq<Cached>, p: Path)
    requires |v| == |u| && (forall k :: 0 <= k < |v| ==> u[k].path == v[k].path) && Locate(v, p).Some?
    ensures Locate(u, p).Some?
  {
    hide Locate;
    assert u[Locate(v, p).value].path == p;
  }

  /** Another value under the same path keeps list and map together. */
  lemma LinkedReplaced(order: seq<Element>, v: seq<Cached>, byPath: map<Path, Element>, e: Cached)
    requires Linked(order, v, byPath) && v != [] && v[0].path == e.path
    ensures Linked(order, [e] + v[1..], byPath)
  {
    hide Locate, Unique;
    var u := [e] + v[1..];
    assert forall k :: 0 <= k < |v| ==> u[k].path == v[k].path;
    forall p | p in byPath ensures Locate(u, p).Some? { LocateSamePaths(v, u, p); }
  }

  lemma FirstUnique(order: seq<Element>, v: seq<Cached>, byPath: map<Path, Element>)
    requires Linked(order, v, byPath)
    ensures forall k :: 0 < k < |order| ==> order[k] != order[0]
  {}

  /** What a write to the first element does to the values. */
  twostate lemma FirstWritten(s: seq<Element>)
    requires s != [] && forall k :: 0 < k < |s| ==> s[k].value == old(s[k].value)
    ensures Values(s) == [s[0].value] + old(Values(s))[1..]
  {}
}
