/**
  The active branch in pages: forward, tail first with warm ranges newest first, and
  backwards from a cursor.  Every method is specified by what a consumer holds after the
  pages it received; Receive is that consumer, and it notices any gap or overlap.
 */
module ColdPaging {
  import opened Wrappers
  import opened ColdBranch
  import opened ColdIndex
  import opened Sequences

  type Raw = seq<byte>

  datatype Page = Page(entries: seq<Raw>, start: nat, final: bool, head: bool)

  datatype Bounds = Bounds(pageBytes: nat, pageEntries: nat, tailBytes: nat, skipWarm: bool)

  /** An indexed file whose records are read when they are emitted. */
  datatype File = File(data: seq<byte>, branch: seq<Ref>, codec: Codec, chunk: nat)

  predicate Readable(f: File, lo: nat, hi: nat)
    requires lo <= hi <= |f.branch|
  {
    forall i :: lo <= i < hi ==> RecordAt(f.data, f.branch[i], f.codec).Some?
  }

  /** The branch's records; one that cannot be read back counts as empty. */
  function Recs(f: File): (r: seq<Raw>)
    ensures |r| == |f.branch|
    ensures forall i :: 0 <= i < |r| && RecordAt(f.data, f.branch[i], f.codec).Some? ==>
              r[i] == RecordAt(f.data, f.branch[i], f.codec).value
  {
    seq(|f.branch|, i requires 0 <= i < |f.branch| =>
      match RecordAt(f.data, f.branch[i], f.codec) case Some(raw) => raw case None => [])
  }

  function Bytes(s: seq<Raw>): nat
  {
    if s == [] then 0 else Bytes(s[..|s| - 1]) + |s[|s| - 1]|
  }

  lemma BytesSnoc(s: seq<Raw>, x: Raw)
    ensures Bytes(s + [x]) == Bytes(s) + |x|
  {
    assert (s + [x])[..|s|] == s;
  }

  lemma {:induction false} BytesCons(x: Raw, s: seq<Raw>)
    ensures Bytes([x] + s) == |x| + Bytes(s)
  {
    if s == [] {
      assert [x] + s == [] + [x];
      BytesSnoc([], x);
    } else {
      var t := s[..|s| - 1];
      BytesCons(x, t);
      assert [x] + s == ([x] + t) + [s[|s| - 1]];
      BytesSnoc([x] + t, s[|s| - 1]);
    }
  }

  // A consumer

  datatype Held = Nothing | Held(start: nat, entries: seq<Raw>) | Gap

  /** A Head page is put in front, any other page behind; a page that does not fit leaves a gap. */
  function Receive(h: Held, p: Page): Held
  {
    match h
    case Gap => Gap
    case Nothing => if p.head then Gap else Held(p.start, p.entries)
    case Held(start, entries) =>
      if p.head then
        if p.start + |p.entries| == start then Held(p.start, p.entries + entries) else Gap
      else if p.start == start + |entries| then Held(start, entries + p.entries) else Gap
  }

  function ReceiveAll(h: Held, pages: seq<Page>): Held
  {
    if pages == [] then h else Receive(ReceiveAll(h, pages[..|pages| - 1]), pages[|pages| - 1])
  }

  lemma {:induction false} ReceiveConcat(h: Held, a: seq<Page>, b: seq<Page>)
    ensures ReceiveAll(h, a + b) == ReceiveAll(ReceiveAll(h, a), b)
  {
    if b == [] {
      assert a + b == a;
    } else {
      ReceiveConcat(h, a, b[..|b| - 1]);
      assert (a + b)[..|a + b| - 1] == a + b[..|b| - 1];
    }
  }

  // Pages of a range

  /** At the place it claims, at most pageEntries entries, over pageBytes only if it is a single entry. */
  predicate GoodPage(p: Page, recs: seq<Raw>, o: Bounds)
  {
    && p.start + |p.entries| <= |recs| && p.entries == recs[p.start..p.start + |p.entries|]
    && |p.entries| <= o.pageEntries && (|p.entries| <= 1 || Bytes(p.entries) <= o.pageBytes)
  }

  /** Neither bound admits the next record in the page's direction. */
  predicate FullPage(p: Page, recs: seq<Raw>, o: Bounds)
  {
    || |p.entries| >= o.pageEntries
    || (p.head && 0 < p.start <= |recs| && Bytes(p.entries) + |recs[p.start - 1]| > o.pageBytes)
    || (!p.head && p.start + |p.entries| < |recs| && Bytes(p.entries) + |recs[p.start + |p.entries|]| > o.pageBytes)
  }

  predicate AllGood(pages: seq<Page>, recs: seq<Raw>, o: Bounds)
  {
    forall k :: 0 <= k < |pages| ==> GoodPage(pages[k], recs, o)
  }

  predicate AllFull(pages: seq<Page>, recs: seq<Raw>, o: Bounds)
  {
    forall k :: 0 <= k < |pages| ==> FullPage(pages[k], recs, o)
  }

  predicate NoneEmpty(pages: seq<Page>)
  {
    forall k :: 0 <= k < |pages| ==> pages[k].entries != []
  }

  predicate NoneFinal(pages: seq<Page>)
  {
    forall k :: 0 <= k < |pages| ==> !pages[k].final
  }

  predicate LastFinal(pages: seq<Page>)
  {
    pages != [] && pages[|pages| - 1].final && NoneFinal(pages[..|pages| - 1])
  }

  /** Non-Head pages that continue each other from lo to hi. */
  predicate Ascending(pages: seq<Page>, lo: nat, hi: nat)
  {
    if pages == [] then lo == hi
    else
      var p := pages[|pages| - 1];
      !p.head && lo <= p.start && p.start + |p.entries| == hi && Ascending(pages[..|pages| - 1], lo, p.start)
  }

  /** Head pages that continue each other from hi down to lo. */
  predicate Descending(pages: seq<Page>, lo: nat, hi: nat)
  {
    if pages == [] then lo == hi
    else
      var p := pages[|pages| - 1];
      p.head && p.start == lo && Descending(pages[..|pages| - 1], p.start + |p.entries|, hi)
  }

  lemma AscendingSnoc(pages: seq<Page>, p: Page, lo: nat)
    requires Ascending(pages, lo, p.start) && !p.head && lo <= p.start
    ensures Ascending(pages + [p], lo, p.start + |p.entries|)
  {
    assert (pages + [p])[..|pages|] == pages;
  }

  lemma DescendingSnoc(pages: seq<Page>, p: Page, hi: nat)
    requires Descending(pages, p.start + |p.entries|, hi) && p.head
    ensures Descending(pages + [p], p.start, hi)
  {
    assert (pages + [p])[..|pages|] == pages;
  }

  lemma {:induction false} DescendingConcat(a: seq<Page>, b: seq<Page>, lo: nat, mid: nat, hi: nat)
    requires Descending(a, mid, hi) && Descending(b, lo, mid)
    ensures Descending(a + b, lo, hi)
  {
    if b == [] {
      assert a + b == a;
    } else {
      var p := b[|b| - 1];
      DescendingConcat(a, b[..|b| - 1], p.start + |p.entries|, mid, hi);
      assert (a + b)[..|a + b| - 1] == a + b[..|b| - 1];
    }
  }

  /** The consumer that holds s..lo ends with s..hi. */
  lemma {:induction false} AscendingReceived(pages: seq<Page>, recs: seq<Raw>, o: Bounds, s: nat, lo: nat, hi: nat)
    requires AllGood(pages, recs, o) && Ascending(pages, lo, hi) && s <= lo <= |recs|
    ensures lo <= hi <= |recs| && ReceiveAll(Held(s, recs[s..lo]), pages) == Held(s, recs[s..hi])
  {
    if pages != [] {
      var p, rest := pages[|pages| - 1], pages[..|pages| - 1];
      AscendingReceived(rest, recs, o, s, lo, p.start);
      assert GoodPage(p, recs, o);
      assert recs[s..p.start] + p.entries == recs[s..hi];
    }
  }

  lemma {:induction false} DescendingReceived(pages: seq<Page>, recs: seq<Raw>, o: Bounds, lo: nat, hi: nat, e: nat)
    requires AllGood(pages, recs, o) && Descending(pages, lo, hi) && hi <= e <= |recs|
    ensures lo <= hi && ReceiveAll(Held(hi, recs[hi..e]), pages) == Held(lo, recs[lo..e])
  {
    if pages != [] {
      var p, rest := pages[|pages| - 1], pages[..|pages| - 1];
      var mid := p.start + |p.entries|;
      DescendingReceived(rest, recs, o, mid, hi, e);
      assert GoodPage(p, recs, o);
      assert p.entries + recs[mid..e] == recs[lo..e];
    }
  }

  /** A consumer without entries gets its position from the first page. */
  lemma AscendingFirst(pages: seq<Page>, recs: seq<Raw>, o: Bounds, lo: nat, hi: nat)
    requires AllGood(pages, recs, o) && Ascending(pages, lo, hi) && pages != [] && lo <= |recs|
    ensures lo <= hi <= |recs| && ReceiveAll(Nothing, pages) == Held(lo, recs[lo..hi])
    ensures pages[0].start == lo
  {
    AscendingReceived(pages, recs, o, lo, lo, hi);
    FirstStart(pages, lo, hi);
    var p, rest := pages[0], pages[1..];
    assert pages == [p] + rest && [p][..0] == [];
    ReceiveConcat(Nothing, [p], rest);
    ReceiveConcat(Held(lo, []), [p], rest);
    assert [] + p.entries == p.entries;
    assert ReceiveAll(Nothing, [p]) == Receive(Nothing, p) && ReceiveAll(Held(lo, []), [p]) == Receive(Held(lo, []), p);
    assert recs[lo..lo] == [];
  }

  lemma {:induction false} FirstStart(pages: seq<Page>, lo: nat, hi: nat)
    requires Ascending(pages, lo, hi) && pages != []
    ensures pages[0].start == lo && !pages[0].head
  {
    if |pages| > 1 { FirstStart(pages[..|pages| - 1], lo, pages[|pages| - 1].start); }
  }

  lemma FinalConcat(a: seq<Page>, b: seq<Page>)
    requires NoneFinal(a)
    ensures LastFinal(b) ==> LastFinal(a + b)
    ensures NoneFinal(b) ==> NoneFinal(a + b)
  {
    if b != [] { assert (a + b)[..|a + b| - 1] == a + b[..|b| - 1]; }
  }

  lemma GoodConcat(a: seq<Page>, b: seq<Page>, recs: seq<Raw>, o: Bounds)
    requires AllGood(a, recs, o) && AllGood(b, recs, o)
    ensures AllGood(a + b, recs, o)
  {}

  // Emitting a range

  /** What one range must look like; only its last page may carry the final mark or be short. */
  predicate Emitted(pages: seq<Page>, recs: seq<Raw>, o: Bounds, lo: nat, hi: nat, head: bool, complete: bool)
  {
    && AllGood(pages, recs, o)
    && (if head then Descending(pages, lo, hi) else Ascending(pages, lo, hi))
    && (if complete then LastFinal(pages) else NoneFinal(pages))
    && (pages != [] ==> AllFull(pages[..|pages| - 1], recs, o))
    && (lo < hi ==> NoneEmpty(pages))
  }

  /** The state of an emitting loop: full pages so far, none final. */
  predicate Flushed(pages: seq<Page>, recs: seq<Raw>, o: Bounds, lo: nat, hi: nat, head: bool)
  {
    && AllGood(pages, recs, o) && AllFull(pages, recs, o) && NoneFinal(pages) && NoneEmpty(pages)
    && (if head then Descending(pages, lo, hi) else Ascending(pages, lo, hi))
  }

  lemma FlushFull(pages: seq<Page>, p: Page, recs: seq<Raw>, o: Bounds, lo: nat, hi: nat, head: bool)
    requires GoodPage(p, recs, o) && FullPage(p, recs, o) && !p.final && p.head == head && p.entries != []
    requires if head then p.start == lo && Flushed(pages, recs, o, p.start + |p.entries|, hi, true)
             else p.start + |p.entries| == hi && lo <= p.start && Flushed(pages, recs, o, lo, p.start, false)
    ensures Flushed(pages + [p], recs, o, lo, hi, head)
  {
    hide GoodPage, FullPage, Ascending, Descending;
    if head { DescendingSnoc(pages, p, hi); } else { AscendingSnoc(pages, p, lo); }
  }

  lemma FlushLast(pages: seq<Page>, p: Page, recs: seq<Raw>, o: Bounds, lo: nat, hi: nat, head: bool)
    requires GoodPage(p, recs, o) && p.head == head && (lo < hi ==> p.entries != [])
    requires if head then p.start == lo && Flushed(pages, recs, o, p.start + |p.entries|, hi, true)
             else p.start + |p.entries| == hi && lo <= p.start && Flushed(pages, recs, o, lo, p.start, false)
    ensures Emitted(pages + [p], recs, o, lo, hi, head, p.final)
  {
    hide GoodPage, FullPage, Ascending, Descending;
    assert (pages + [p])[..|pages|] == pages;
    if head { DescendingSnoc(pages, p, hi); } else { AscendingSnoc(pages, p, lo); }
  }

  /** A page under construction, from pageStart up to i. */
  predicate Filling(pages: seq<Page>, page: seq<Raw>, pageStart: nat, i: nat, recs: seq<Raw>, o: Bounds, lo: nat)
  {
    && lo <= pageStart <= i <= |recs| && page == recs[pageStart..i] && (i > lo ==> |page| > 0)
    && |page| <= o.pageEntries && (|page| <= 1 || Bytes(page) <= o.pageBytes)
    && Flushed(pages, recs, o, lo, pageStart, false)
  }

  predicate MustFlush(page: seq<Raw>, pageBytes: nat, raw: Raw, o: Bounds)
  {
    |page| > 0 && (|page| >= o.pageEntries || pageBytes + |raw| > o.pageBytes)
  }

  lemma FillNew(pages: seq<Page>, page: seq<Raw>, pageStart: nat, i: nat, recs: seq<Raw>, o: Bounds, lo: nat)
    requires Filling(pages, page, pageStart, i, recs, o, lo) && i < |recs| && 0 < o.pageEntries
    requires MustFlush(page, Bytes(page), recs[i], o)
    ensures Filling(pages + [Page(page, pageStart, false, false)], [recs[i]], i, i + 1, recs, o, lo)
  {
    hide Flushed, Bytes;
    FlushFull(pages, Page(page, pageStart, false, false), recs, o, lo, i, false);
  }

  lemma FillMore(pages: seq<Page>, page: seq<Raw>, pageStart: nat, i: nat, recs: seq<Raw>, o: Bounds, lo: nat)
    requires Filling(pages, page, pageStart, i, recs, o, lo) && i < |recs| && 0 < o.pageEntries
    requires !MustFlush(page, Bytes(page), recs[i], o)
    ensures Filling(pages, page + [recs[i]], pageStart, i + 1, recs, o, lo)
  {
    hide Flushed;
    BytesSnoc(page, recs[i]);
    assert recs[pageStart..i] + [recs[i]] == recs[pageStart..i + 1];
  }

  lemma FillDone(pages: seq<Page>, page: seq<Raw>, pageStart: nat, hi: nat, recs: seq<Raw>, o: Bounds, lo: nat, complete: bool)
    requires Filling(pages, page, pageStart, hi, recs, o, lo)
    ensures Emitted(pages + [Page(page, pageStart, complete, false)], recs, o, lo, hi, false, complete)
  {
    hide Flushed, Emitted;
    FlushLast(pages, Page(page, pageStart, complete, false), recs, o, lo, hi, false);
  }

  /** Forward, flushing before the record that does not fit. */
  method EmitForward(f: File, o: Bounds, lo: nat, hi: nat, complete: bool) returns (pages: seq<Page>, ok: bool)
    requires lo < hi <= |f.branch| && 0 < o.pageEntries && 0 < f.chunk
    ensures ok <==> Readable(f, lo, hi)
    ensures ok ==> Emitted(pages, Recs(f), o, lo, hi, false, complete)
  {
    hide RecordAt, Filling, Emitted, Recs;
    pages := [];
    var page: seq<Raw>, pageBytes, pageStart: nat, i: nat := [], 0, lo, lo;
    assert Filling(pages, page, pageStart, i, Recs(f), o, lo) by { NothingFilled(Recs(f), o, lo); }
    while i < hi
      invariant i <= hi && Readable(f, lo, i) && pageBytes == Bytes(page)
      invariant Filling(pages, page, pageStart, i, Recs(f), o, lo)
    {
      var read := ReadRecord(f.data, f.branch[i], f.chunk, f.codec);
      if read.None? {
        return pages, false;
      }
      var raw := read.value;
      if MustFlush(page, pageBytes, raw, o) {
        FillNew(pages, page, pageStart, i, Recs(f), o, lo);
        pages := pages + [Page(page, pageStart, false, false)];
        BytesSnoc([], raw);
        assert [] + [raw] == [raw];
        page, pageBytes, pageStart := [raw], |raw|, i;
      } else {
        FillMore(pages, page, pageStart, i, Recs(f), o, lo);
        BytesSnoc(page, raw);
        page, pageBytes := page + [raw], pageBytes + |raw|;
      }
      i := i + 1;
    }
    FillDone(pages, page, pageStart, hi, Recs(f), o, lo, complete);
    pages, ok := pages + [Page(page, pageStart, complete, false)], true;
  }

  lemma NothingFilled(recs: seq<Raw>, o: Bounds, lo: nat)
    requires lo <= |recs|
    ensures Filling([], [], lo, lo, recs, o, lo)
  {
    NothingFlushed(recs, o, lo, false);
  }

  lemma NothingFlushed(recs: seq<Raw>, o: Bounds, at: nat, head: bool)
    ensures Flushed([], recs, o, at, at, head)
  {}

  lemma ReversedSlice(page: seq<Raw>, recs: seq<Raw>, lo: nat, hi: nat)
    requires lo < hi <= |recs| && Reversed(page) == recs[lo + 1..hi]
    ensures Reversed(page + [recs[lo]]) == recs[lo..hi]
  {
    ReversedSnoc(page, recs[lo]);
    assert [recs[lo]] + recs[lo + 1..hi] == recs[lo..hi];
  }

  /** A page collected newest first, in branch order. */
  method InBranchOrder(page: seq<Raw>) returns (entries: seq<Raw>)
    ensures entries == Reversed(page)
  {
    var buffer := new Raw[|page|];
    var i := 0;
    while i < |page|
      invariant 0 <= i <= |page|
      invariant forall k :: 0 <= k < i ==> buffer[|page| - 1 - k] == page[k]
    {
      buffer[|page| - 1 - i] := page[i];
      i := i + 1;
    }
    entries := buffer[..];
    assert forall k :: 0 <= k < |page| ==> entries[k] == page[|page| - 1 - k] by {
      forall k | 0 <= k < |page| ensures entries[k] == page[|page| - 1 - k] {
        assert buffer[|page| - 1 - (|page| - 1 - k)] == page[|page| - 1 - k];
      }
    }
  }

  /** A page collected newest first, from pageEnd down to i. */
  predicate Collecting(pages: seq<Page>, page: seq<Raw>, pageEnd: nat, i: nat, recs: seq<Raw>, o: Bounds, hi: nat)
  {
    && i <= pageEnd <= hi <= |recs| && Reversed(page) == recs[i..pageEnd] && (i < hi ==> |page| > 0)
    && |page| <= o.pageEntries && (|page| <= 1 || Bytes(Reversed(page)) <= o.pageBytes)
    && Flushed(pages, recs, o, pageEnd, hi, true)
  }

  lemma CollectNew(pages: seq<Page>, page: seq<Raw>, pageEnd: nat, i: nat, recs: seq<Raw>, o: Bounds, hi: nat)
    requires Collecting(pages, page, pageEnd, i + 1, recs, o, hi) && 0 < o.pageEntries && i < |recs|
    requires MustFlush(page, Bytes(Reversed(page)), recs[i], o)
    ensures Collecting(pages + [Page(Reversed(page), i + 1, false, true)], [recs[i]], i + 1, i, recs, o, hi)
  {
    hide Flushed, Bytes;
    FlushFull(pages, Page(Reversed(page), i + 1, false, true), recs, o, i + 1, hi, true);
  }

  lemma CollectMore(pages: seq<Page>, page: seq<Raw>, pageEnd: nat, i: nat, recs: seq<Raw>, o: Bounds, hi: nat)
    requires Collecting(pages, page, pageEnd, i + 1, recs, o, hi) && 0 < o.pageEntries && i < |recs|
    requires !MustFlush(page, Bytes(Reversed(page)), recs[i], o)
    ensures Collecting(pages, page + [recs[i]], pageEnd, i, recs, o, hi)
    ensures Bytes(Reversed(page + [recs[i]])) == Bytes(Reversed(page)) + |recs[i]|
  {
    hide Flushed, Reversed;
    ReversedSlice(page, recs, i, pageEnd);
    BytesCons(recs[i], Reversed(page));
    assert [recs[i]] + recs[i + 1..pageEnd] == recs[i..pageEnd];
  }

  lemma CollectDone(pages: seq<Page>, page: seq<Raw>, pageEnd: nat, lo: nat, recs: seq<Raw>, o: Bounds, hi: nat, complete: bool)
    requires Collecting(pages, page, pageEnd, lo, recs, o, hi)
    ensures Emitted(pages + [Page(Reversed(page), lo, complete, true)], recs, o, lo, hi, true, complete)
  {
    hide Flushed, Emitted;
    FlushLast(pages, Page(Reversed(page), lo, complete, true), recs, o, lo, hi, true);
  }

  lemma NothingCollected(recs: seq<Raw>, o: Bounds, hi: nat)
    requires hi <= |recs|
    ensures Collecting([], [], hi, hi, recs, o, hi)
  {
    NothingFlushed(recs, o, hi, true);
  }

  lemma OneRaw(raw: Raw)
    ensures Reversed([raw]) == [raw] && Bytes([raw]) == |raw|
  {
    BytesSnoc([], raw);
    assert [] + [raw] == [raw];
  }

  /** Backward: each page is collected newest first and flushed in branch order. */
  method EmitHeadRange(f: File, o: Bounds, lo: nat, hi: nat, complete: bool) returns (pages: seq<Page>, ok: bool)
    requires lo < hi <= |f.branch| && 0 < o.pageEntries && 0 < f.chunk
    ensures ok <==> Readable(f, lo, hi)
    ensures ok ==> Emitted(pages, Recs(f), o, lo, hi, true, complete)
  {
    hide RecordAt, Collecting, Emitted, Recs, Reversed, Bytes;
    pages := [];
    var page: seq<Raw>, pageBytes, pageEnd: nat, i: nat := [], 0, hi, hi;
    assert Collecting(pages, page, pageEnd, i, Recs(f), o, hi) by { NothingCollected(Recs(f), o, hi); }
    assert pageBytes == Bytes(Reversed(page)) by { NoBytes(); }
    while i > lo
      invariant lo <= i <= hi && Readable(f, i, hi) && pageBytes == Bytes(Reversed(page))
      invariant Collecting(pages, page, pageEnd, i, Recs(f), o, hi)
    {
      i := i - 1;
      var read := ReadRecord(f.data, f.branch[i], f.chunk, f.codec);
      if read.None? {
        return pages, false;
      }
      var raw := read.value;
      if MustFlush(page, pageBytes, raw, o) {
        CollectNew(pages, page, pageEnd, i, Recs(f), o, hi);
        var entries := InBranchOrder(page);
        pages := pages + [Page(entries, i + 1, false, true)];
        OneRaw(raw);
        page, pageBytes, pageEnd := [raw], |raw|, i + 1;
      } else {
        CollectMore(pages, page, pageEnd, i, Recs(f), o, hi);
        page, pageBytes := page + [raw], pageBytes + |raw|;
      }
    }
    CollectDone(pages, page, pageEnd, lo, Recs(f), o, hi, complete);
    var entries := InBranchOrder(page);
    pages, ok := pages + [Page(entries, lo, complete, true)], true;
  }

  lemma NoBytes()
    ensures Bytes(Reversed([])) == 0
  {}

  method EmitRange(f: File, o: Bounds, lo: nat, hi: nat, head: bool, complete: bool) returns (pages: seq<Page>, ok: bool)
    requires lo <= hi <= |f.branch| && 0 < o.pageEntries && 0 < f.chunk
    ensures ok <==> Readable(f, lo, hi)
    ensures ok ==> Emitted(pages, Recs(f), o, lo, hi, head, complete)
  {
    if lo == hi {
      pages, ok := if complete then [Page([], lo, true, head)] else [], true;
    } else if head {
      pages, ok := EmitHeadRange(f, o, lo, hi, complete);
    } else {
      pages, ok := EmitForward(f, o, lo, hi, complete);
    }
  }

  // Warm ranges and the tail

  predicate PagesAtMost(pages: seq<Page>, n: nat)
  {
    forall k :: 0 <= k < |pages| ==> |pages[k].entries| <= n
  }

  lemma {:induction false} DescendingSmall(pages: seq<Page>, lo: nat, hi: nat)
    requires Descending(pages, lo, hi)
    ensures lo <= hi && PagesAtMost(pages, hi - lo)
  {
    if pages != [] {
      var p := pages[|pages| - 1];
      DescendingSmall(pages[..|pages| - 1], p.start + |p.entries|, hi);
    }
  }

  /** From pos down to at in chunks of warm entries, each a range of its own; the oldest may be shorter. */
  ghost predicate WarmChunks(pages: seq<Page>, recs: seq<Raw>, o: Bounds, at: nat, pos: nat, warm: nat)
    decreases if at < pos then pos - at else 0, 1
  {
    if at >= pos then at == pos && pages == []
    else exists n: nat, prev: nat :: n <= |pages| && at < prev <= pos && WarmChunk(pages, recs, o, at, pos, warm, n, prev)
  }

  /** The last chunk, from prev down to at, begins at page n. */
  ghost predicate WarmChunk(pages: seq<Page>, recs: seq<Raw>, o: Bounds, at: nat, pos: nat, warm: nat, n: nat, prev: nat)
    requires n <= |pages| && at < prev <= pos
    decreases pos - at, 0
  {
    && at == (if prev < warm then 0 else prev - warm)
    && WarmChunks(pages[..n], recs, o, prev, pos, warm) && Emitted(pages[n..], recs, o, at, prev, true, at == 0)
  }

  /** Everything before pos, in Head pages newest first, the last of them final. */
  ghost predicate Warmed(pages: seq<Page>, recs: seq<Raw>, o: Bounds, pos: nat, warm: nat)
  {
    && AllGood(pages, recs, o) && Descending(pages, 0, pos) && PagesAtMost(pages, warm)
    && (if pos == 0 then pages == [] else LastFinal(pages)) && WarmChunks(pages, recs, o, 0, pos, warm)
  }

  ghost predicate Warming(pages: seq<Page>, recs: seq<Raw>, o: Bounds, at: nat, pos: nat, warm: nat)
  {
    && at <= pos && AllGood(pages, recs, o) && Descending(pages, at, pos) && PagesAtMost(pages, warm)
    && (at == pos ==> pages == [])
    && (if at > 0 || pos == 0 then NoneFinal(pages) else LastFinal(pages)) && WarmChunks(pages, recs, o, at, pos, warm)
  }

  lemma WarmStep(pages: seq<Page>, more: seq<Page>, recs: seq<Raw>, o: Bounds, start: nat, at: nat, pos: nat, warm: nat)
    requires Warming(pages, recs, o, at, pos, warm) && 0 < at && 0 < warm && start == if at < warm then 0 else at - warm
    requires Emitted(more, recs, o, start, at, true, start == 0)
    ensures Warming(pages + more, recs, o, start, pos, warm)
  {
    hide AllGood, Descending, LastFinal, NoneFinal, AllFull;
    GoodConcat(pages, more, recs, o);
    assert (pages + more)[..|pages|] == pages && (pages + more)[|pages|..] == more;
    assert WarmChunk(pages + more, recs, o, start, pos, warm, |pages|, at);
    DescendingConcat(pages, more, start, at, pos);
    DescendingSmall(more, start, at);
    FinalConcat(pages, more);
  }

  method EmitWarmRanges(f: File, o: Bounds, pos: nat, warm: nat) returns (pages: seq<Page>, ok: bool)
    requires pos <= |f.branch| && 0 < warm && 0 < o.pageEntries && 0 < f.chunk
    ensures ok <==> Readable(f, 0, pos)
    ensures ok ==> Warmed(pages, Recs(f), o, pos, warm)
  {
    hide RecordAt, Emitted, Recs, Warming;
    pages := [];
    var at: nat := pos;
    assert Warming(pages, Recs(f), o, at, pos, warm) by { NothingWarmed(Recs(f), o, pos, warm); }
    while at > 0
      invariant at <= pos && Readable(f, at, pos) && Warming(pages, Recs(f), o, at, pos, warm)
    {
      var start := if at < warm then 0 else at - warm;
      var more, read := EmitRange(f, o, start, at, true, start == 0);
      if !read {
        return pages, false;
      }
      WarmStep(pages, more, Recs(f), o, start, at, pos, warm);
      pages, at := pages + more, start;
    }
    ok := true;
    assert Warmed(pages, Recs(f), o, pos, warm) by { WarmDone(pages, Recs(f), o, pos, warm); }
  }

  lemma NothingWarmed(recs: seq<Raw>, o: Bounds, pos: nat, warm: nat)
    ensures Warming([], recs, o, pos, pos, warm)
  {}

  lemma WarmDone(pages: seq<Page>, recs: seq<Raw>, o: Bounds, pos: nat, warm: nat)
    requires Warming(pages, recs, o, 0, pos, warm)
    ensures Warmed(pages, recs, o, pos, warm)
  {}

  /**
    Where the tail begins: at most count entries and bytes bytes (0 means any number), but
    never less than the newest entry, and no shorter than those bounds demand.
   */
  predicate IsTail(recs: seq<Raw>, count: nat, bytes: nat, t: nat)
  {
    && t <= |recs| && |recs| - t <= count && (recs != [] ==> t < |recs|)
    && (bytes > 0 && t + 1 < |recs| ==> Bytes(recs[t..]) <= bytes)
    && (t == 0 || |recs| - t == count || (bytes > 0 && Bytes(recs[t - 1..]) > bytes))
  }

  /** Reading backwards from b within a number of bytes comes to the unreadable record i. */
  predicate BreaksAt(f: File, i: nat, b: nat, bytes: nat)
  {
    && i < b <= |f.branch| && !Readable(f, i, i + 1) && Readable(f, i + 1, b)
    && (b - i <= 2 || Bytes(Recs(f)[i + 1..b]) <= bytes)
  }

  method TailStart(f: File, o: Bounds, count: nat) returns (t: nat, ok: bool)
    requires 0 < count && 0 < f.chunk
    ensures ok ==> IsTail(Recs(f), count, o.tailBytes, t)
    ensures !ok ==> o.tailBytes > 0 && exists i: nat :: |f.branch| - count <= i < |f.branch| && BreaksAt(f, i, |f.branch|, o.tailBytes)
  {
    hide RecordAt, Recs, Bytes;
    var n := |f.branch|;
    t := if n < count then 0 else n - count;
    if o.tailBytes > 0 {
      var used, i := 0, n;
      assert Bytes(Recs(f)[n..]) == 0 by { assert Recs(f)[n..] == []; BytesNone(); }
      while i > t
        invariant t <= i <= n && used == Bytes(Recs(f)[i..]) && (i < n - 1 ==> used <= o.tailBytes) && Readable(f, i, n)
      {
        var read := ReadRecord(f.data, f.branch[i - 1], f.chunk, f.codec);
        if read.None? {
          assert Recs(f)[i..n] == Recs(f)[i..];
          assert BreaksAt(f, i - 1, n, o.tailBytes);
          return t, false;
        }
        assert Recs(f)[i - 1..] == [Recs(f)[i - 1]] + Recs(f)[i..];
        BytesCons(read.value, Recs(f)[i..]);
        if i < n && used + |read.value| > o.tailBytes {
          t := i;
          return t, true;
        }
        used, i := used + |read.value|, i - 1;
      }
    }
    ok := true;
  }

  lemma BytesNone()
    ensures Bytes([]) == 0
  {}

  /** First the branch from a position, forward; then, unless warming is skipped, what is before, in warm chunks. */
  ghost predicate ForwardThenWarm(pages: seq<Page>, recs: seq<Raw>, o: Bounds, at: nat, pos: nat, warm: nat)
  {
    exists n: nat :: n <= |pages| && Emitted(pages[..n], recs, o, at, |recs|, false, pos == 0 || o.skipWarm)
      && if o.skipWarm then n == |pages| else WarmChunks(pages[n..], recs, o, 0, pos, warm)
  }

  lemma Parts(a: seq<Page>, b: seq<Page>, recs: seq<Raw>, o: Bounds, at: nat, pos: nat, warm: nat)
    requires Emitted(a, recs, o, at, |recs|, false, pos == 0 || o.skipWarm)
    requires if o.skipWarm then b == [] else Warmed(b, recs, o, pos, warm)
    ensures ForwardThenWarm(a + b, recs, o, at, pos, warm)
  {
    hide Emitted, WarmChunks;
    assert (a + b)[..|a|] == a && (a + b)[|a|..] == b;
  }

  /** What a tail-first read leaves a consumer that held nothing. */
  ghost predicate TailRead(pages: seq<Page>, recs: seq<Raw>, o: Bounds, t: nat, warm: nat)
  {
    && ForwardThenWarm(pages, recs, o, t, t, warm)
    && AllGood(pages, recs, o) && LastFinal(pages) && pages[0].start == t && t <= |recs|
    && ReceiveAll(Nothing, pages) == if o.skipWarm then Held(t, recs[t..]) else Held(0, recs)
  }

  lemma TailThenWarm(a: seq<Page>, b: seq<Page>, recs: seq<Raw>, o: Bounds, t: nat, warm: nat)
    requires Emitted(a, recs, o, t, |recs|, false, t == 0 || o.skipWarm) && t <= |recs| && (recs != [] ==> t < |recs|)
    requires if o.skipWarm then b == [] else Warmed(b, recs, o, t, warm)
    ensures TailRead(a + b, recs, o, t, warm)
  {
    hide LastFinal, NoneFinal, AllGood, ForwardThenWarm, WarmChunks, AllFull;
    Parts(a, b, recs, o, t, t, warm);
    assert a != [] by { TailNotEmpty(a, recs, o, t); }
    AscendingFirst(a, recs, o, t, |recs|);
    if b == [] {
      assert a + b == a && recs[0..] == recs;
    } else {
      ReceiveConcat(Nothing, a, b);
      DescendingReceived(b, recs, o, 0, t, |recs|);
      GoodConcat(a, b, recs, o);
      FinalConcat(a, b);
      assert recs[0..|recs|] == recs;
    }
  }

  lemma TailNotEmpty(a: seq<Page>, recs: seq<Raw>, o: Bounds, t: nat)
    requires Emitted(a, recs, o, t, |recs|, false, t == 0 || o.skipWarm) && (recs != [] ==> t < |recs|)
    ensures a != []
  {}

  method EmitTailFirst(f: File, o: Bounds, count: nat, warm: nat) returns (pages: seq<Page>, t: nat, ok: bool)
    requires 0 < count && 0 < warm && 0 < o.pageEntries && 0 < f.chunk
    ensures ok ==> IsTail(Recs(f), count, o.tailBytes, t) && TailRead(pages, Recs(f), o, t, warm)
    ensures ok ==> t <= |f.branch| && Readable(f, if o.skipWarm then t else 0, |f.branch|)
    ensures !ok ==> !Readable(f, if o.skipWarm && count < |f.branch| then |f.branch| - count else 0, |f.branch|)
  {
    hide RecordAt, Recs, Emitted, Warmed, Bytes;
    pages := [];
    t, ok := TailStart(f, o, count);
    if ok {
      pages, ok := EmitRange(f, o, t, |f.branch|, false, t == 0 || o.skipWarm);
      if ok {
        var more: seq<Page> := [];
        if !o.skipWarm {
          more, ok := EmitWarmRanges(f, o, t, warm);
        }
        if ok { TailThenWarm(pages, more, Recs(f), o, t, warm); }
        pages := pages + more;
      }
    }
  }

  // Resuming

  datatype Cursor = Cursor(session: Id, first: Id, last: Id, complete: bool)
  datatype Range = Range(first: nat, last: nat)

  /** The range a cursor names, if it is a range of this branch. */
  function AcceptedRange(branch: seq<Ref>, session: Id, cursor: Option<Cursor>): (r: Option<Range>)
    ensures r.Some? ==> r.value.first <= r.value.last < |branch|
  {
    if cursor.None? || cursor.value.session != session then None
    else match (Find(branch, cursor.value.first), Find(branch, cursor.value.last))
      case (Some(a), Some(b)) => if a <= b && (!cursor.value.complete || a == 0) then Some(Range(a, b)) else None
      case _ => None
  }

  /** On a branch of distinct ids the range begins and ends with the cursor's entries. */
  lemma RangeIsNamed(branch: seq<Ref>, session: Id, cursor: Cursor, r: Range)
    requires DistinctIds(branch)
    ensures AcceptedRange(branch, session, Some(cursor)) == Some(r) <==>
            (&& cursor.session == session && r.first <= r.last < |branch| && (cursor.complete ==> r.first == 0)
             && branch[r.first].id == cursor.first && branch[r.last].id == cursor.last)
  {}

  /** The loop over the branch that looks for both ends at once. */
  method FindRange(branch: seq<Ref>, first: Id, last: Id) returns (a: int, b: int)
    ensures a == (match Find(branch, first) case None => -1 case Some(i) => i)
    ensures b == (match Find(branch, last) case None => -1 case Some(i) => i)
  {
    a, b := -1, -1;
    for i := 0 to |branch|
      invariant a == (match Find(branch[..i], first) case None => -1 case Some(k) => k)
      invariant b == (match Find(branch[..i], last) case None => -1 case Some(k) => k)
    {
      assert branch[..i + 1][..i] == branch[..i];
      if branch[i].id == first { a := i; }
      if branch[i].id == last { b := i; }
    }
    assert branch[..|branch|] == branch;
  }

  ghost predicate ResumeRead(pages: seq<Page>, recs: seq<Raw>, o: Bounds, r: Range, warm: nat)
    requires r.first <= r.last < |recs|
  {
    && ForwardThenWarm(pages, recs, o, r.last + 1, r.first, warm)
    && AllGood(pages, recs, o) && LastFinal(pages)
    && ReceiveAll(Held(r.first, recs[r.first..r.last + 1]), pages) ==
       if o.skipWarm then Held(r.first, recs[r.first..]) else Held(0, recs)
  }

  lemma ResumeThenWarm(a: seq<Page>, b: seq<Page>, recs: seq<Raw>, o: Bounds, r: Range, warm: nat)
    requires r.first <= r.last < |recs|
    requires Emitted(a, recs, o, r.last + 1, |recs|, false, o.skipWarm || r.first == 0)
    requires if o.skipWarm then b == [] else Warmed(b, recs, o, r.first, warm)
    ensures ResumeRead(a + b, recs, o, r, warm)
  {
    hide LastFinal, NoneFinal, AllGood, ForwardThenWarm, WarmChunks, AllFull;
    Parts(a, b, recs, o, r.last + 1, r.first, warm);
    var h := Held(r.first, recs[r.first..r.last + 1]);
    AscendingReceived(a, recs, o, r.first, r.last + 1, |recs|);
    assert recs[r.first..|recs|] == recs[r.first..] && recs[0..|recs|] == recs;
    if b == [] {
      assert a + b == a;
    } else {
      ReceiveConcat(h, a, b);
      DescendingReceived(b, recs, o, 0, r.first, |recs|);
      GoodConcat(a, b, recs, o);
      FinalConcat(a, b);
    }
  }

  /** The rest of the branch after a resumed range: an empty page where there is none. */
  method EmitAfter(f: File, o: Bounds, last: nat, final: bool) returns (pages: seq<Page>, ok: bool)
    requires last < |f.branch| && 0 < o.pageEntries && 0 < f.chunk
    ensures ok <==> Readable(f, last + 1, |f.branch|)
    ensures ok ==> pages != [] && Emitted(pages, Recs(f), o, last + 1, |f.branch|, false, final)
  {
    if last + 1 == |f.branch| {
      pages, ok := [Page([], last + 1, final, false)], true;
    } else {
      pages, ok := EmitRange(f, o, last + 1, |f.branch|, false, final);
    }
  }

  /**
    A tail-first read, resumed or fresh.  A consumer that holds the cursor's range, or
    nothing, ends with the whole branch, or with its exact suffix when warming is skipped.
   */
  method TailFirst(f: File, o: Bounds, session: Id, cursor: Option<Cursor>, count: nat, warm: nat)
    returns (pages: seq<Page>, t: nat, ok: bool)
    requires 0 < count && 0 < warm && 0 < o.pageEntries && 0 < f.chunk
    ensures ok ==> match AcceptedRange(f.branch, session, cursor)
                   case Some(r) => t == r.first && ResumeRead(pages, Recs(f), o, r, warm)
                   case None => IsTail(Recs(f), count, o.tailBytes, t) && TailRead(pages, Recs(f), o, t, warm)
    ensures match AcceptedRange(f.branch, session, cursor)
            case Some(r) => ok <==> Readable(f, r.last + 1, |f.branch|) && (o.skipWarm || Readable(f, 0, r.first))
            case None => && (ok ==> t <= |f.branch| && Readable(f, if o.skipWarm then t else 0, |f.branch|))
                         && (!ok ==> !Readable(f, if o.skipWarm && count < |f.branch| then |f.branch| - count else 0, |f.branch|))
  {
    hide RecordAt, Recs, Emitted, Warmed, IsTail, TailRead, ResumeRead, Find;
    if cursor.Some? && cursor.value.session == session {
      var first, last := FindRange(f.branch, cursor.value.first, cursor.value.last);
      if first >= 0 && last >= first && (!cursor.value.complete || first == 0) {
        t := first;
        pages, ok := EmitAfter(f, o, last, o.skipWarm || first == 0);
        if ok {
          var more: seq<Page> := [];
          if !o.skipWarm {
            more, ok := EmitWarmRanges(f, o, first, warm);
          }
          if ok { ResumeThenWarm(pages, more, Recs(f), o, Range(first, last), warm); }
          pages := pages + more;
        }
        return;
      }
    }
    pages, t, ok := EmitTailFirst(f, o, count, warm);
  }

  // Reversed from a cursor

  datatype BeforePage = BeforePage(entries: seq<Raw>, start: nat, complete: bool)
  datatype BeforeError = NotOnBranch | Unreadable | BadLimit

  const DefaultPageEntries := 100

  predicate FirstAt(branch: seq<Ref>, id: Id, b: nat)
  {
    b < |branch| && branch[b].id == id && forall k :: 0 <= k < b ==> branch[k].id != id
  }

  /** The newest entries before b that fit the bounds, at least one if there is any. */
  predicate IsBefore(recs: seq<Raw>, b: nat, limit: nat, bytes: nat, p: BeforePage)
  {
    && p.start <= b <= |recs| && p.entries == recs[p.start..b] && (b > 0 ==> p.start < b)
    && |p.entries| <= limit && (|p.entries| <= 1 || Bytes(p.entries) <= bytes)
    && (p.start == 0 || |p.entries| == limit || Bytes(recs[p.start - 1..b]) > bytes)
    && (p.complete <==> p.start == 0)
  }

  function Limit(limit: nat): nat
  {
    if limit == 0 then 100 else limit
  }

  ghost predicate Answers(f: File, o: Bounds, id: Id, limit: nat, p: BeforePage)
  {
    exists b: nat :: && FirstAt(f.branch, id, b) && IsBefore(Recs(f), b, Limit(limit), o.pageBytes, p)
                     && p.start <= b <= |f.branch| && Readable(f, p.start, b)
  }

  method FindFirst(branch: seq<Ref>, id: Id) returns (b: int)
    ensures b < 0 ==> forall k :: 0 <= k < |branch| ==> branch[k].id != id
    ensures b >= 0 ==> FirstAt(branch, id, b)
  {
    for i := 0 to |branch|
      invariant forall k :: 0 <= k < i ==> branch[k].id != id
    {
      if branch[i].id == id { return i; }
    }
    b := -1;
  }

  method StreamBefore(f: File, o: Bounds, beforeId: Id, limit: int) returns (r: Result<BeforePage, BeforeError>)
    requires 0 < f.chunk
    ensures r == Err(BadLimit) <==> limit < 0
    ensures r == Err(NotOnBranch) <==> limit >= 0 && forall k :: 0 <= k < |f.branch| ==> f.branch[k].id != beforeId
    ensures r == Err(Unreadable) ==> limit >= 0 && exists b: nat, i: nat ::
              && b <= |f.branch| && FirstAt(f.branch, beforeId, b) && b - i <= Limit(limit) && BreaksAt(f, i, b, o.pageBytes)
    ensures r.Ok? ==> |r.value.entries| <= (if limit == 0 then 100 else limit)
    ensures r.Ok? && r.value.start > 0 && |r.value.entries| < (if limit == 0 then 100 else limit) ==>
              r.value.start <= |f.branch| && Bytes([Recs(f)[r.value.start - 1]] + r.value.entries) > o.pageBytes
    ensures r.Ok? ==> limit >= 0 && Answers(f, o, beforeId, limit, r.value)
  {
    hide RecordAt, Recs, Gathered, IsBefore, FirstAt;
    if limit < 0 {
      return Err(BadLimit);
    }
    var most := if limit == 0 then DefaultPageEntries else limit;
    var b := FindFirst(f.branch, beforeId);
    if b < 0 {
      return Err(NotOnBranch);
    }
    FoundThere(f.branch, beforeId, b);
    var page: seq<Raw>, bytes: nat, i: nat := [], 0, b;
    assert Gathered(Recs(f), b, most, o.pageBytes, page, bytes, i) by { NothingGathered(Recs(f), b, most, o.pageBytes); }
    while i > 0 && |page| < most
      invariant i <= b && Gathered(Recs(f), b, most, o.pageBytes, page, bytes, i) && Readable(f, i, b)
    {
      var read := ReadRecord(f.data, f.branch[i - 1], f.chunk, f.codec);
      if read.None? {
        GatheredSize(Recs(f), b, most, o.pageBytes, page, bytes, i);
        assert BreaksAt(f, i - 1, b, o.pageBytes);
        return Err(Unreadable);
      }
      var raw := read.value;
      if |page| > 0 && bytes + |raw| > o.pageBytes {
        break;
      }
      GatherOne(Recs(f), b, most, o.pageBytes, page, bytes, i);
      page, bytes, i := page + [raw], bytes + |raw|, i - 1;
    }
    var entries := InBranchOrder(page);
    GatherDone(Recs(f), b, most, o.pageBytes, page, bytes, i);
    var start := b - |entries|;
    r := Ok(BeforePage(entries, start, start == 0));
    BeforeMeans(Recs(f), b, most, o.pageBytes, r.value);
  }

  lemma BeforeMeans(recs: seq<Raw>, b: nat, limit: nat, bytes: nat, p: BeforePage)
    requires IsBefore(recs, b, limit, bytes, p)
    ensures |p.entries| <= limit && p.start <= |recs|
    ensures p.start > 0 && |p.entries| < limit ==> Bytes([recs[p.start - 1]] + p.entries) > bytes
  {
    hide Bytes;
    if p.start > 0 { assert [recs[p.start - 1]] + p.entries == recs[p.start - 1..b]; }
  }

  lemma FoundThere(branch: seq<Ref>, id: Id, b: nat)
    requires FirstAt(branch, id, b)
    ensures b < |branch| && branch[b].id == id
  {}

  /** A page collected newest first from b down to i, and its size. */
  predicate Gathered(recs: seq<Raw>, b: nat, most: nat, limit: nat, page: seq<Raw>, bytes: nat, i: nat)
  {
    && i <= b <= |recs| && Reversed(page) == recs[i..b] && bytes == Bytes(recs[i..b]) && |page| == b - i
    && |page| <= most && (|page| <= 1 || bytes <= limit)
  }

  lemma GatheredSize(recs: seq<Raw>, b: nat, most: nat, limit: nat, page: seq<Raw>, bytes: nat, i: nat)
    requires Gathered(recs, b, most, limit, page, bytes, i)
    ensures i <= b <= |recs| && |page| == b - i && (b - i <= 1 || Bytes(recs[i..b]) <= limit)
  {}

  lemma NothingGathered(recs: seq<Raw>, b: nat, most: nat, limit: nat)
    requires b <= |recs|
    ensures Gathered(recs, b, most, limit, [], 0, b)
  {
    assert recs[b..b] == [];
  }

  lemma GatherOne(recs: seq<Raw>, b: nat, most: nat, limit: nat, page: seq<Raw>, bytes: nat, i: nat)
    requires Gathered(recs, b, most, limit, page, bytes, i) && 0 < i && |page| < most
    requires |page| == 0 || bytes + |recs[i - 1]| <= limit
    ensures Gathered(recs, b, most, limit, page + [recs[i - 1]], bytes + |recs[i - 1]|, i - 1)
  {
    hide Reversed, Bytes;
    ReversedSlice(page, recs, i - 1, b);
    BytesCons(recs[i - 1], recs[i..b]);
    assert [recs[i - 1]] + recs[i..b] == recs[i - 1..b];
  }

  lemma GatherDone(recs: seq<Raw>, b: nat, most: nat, limit: nat, page: seq<Raw>, bytes: nat, i: nat)
    requires Gathered(recs, b, most, limit, page, bytes, i) && 0 < most
    requires i == 0 || |page| >= most || (|page| > 0 && bytes + |recs[i - 1]| > limit)
    ensures IsBefore(recs, b, most, limit, BeforePage(Reversed(page), i, i == 0)) && b - |Reversed(page)| == i
  {
    hide Reversed, Bytes;
    if i > 0 {
      BytesCons(recs[i - 1], recs[i..b]);
      assert [recs[i - 1]] + recs[i..b] == recs[i - 1..b];
    }
  }

  /** The answer as a page that a consumer puts in front. */
  function AsPage(p: BeforePage): Page
  {
    Page(p.entries, p.start, p.complete, true)
  }

  lemma CursorFinds(branch: seq<Ref>, s: nat, b: nat)
    requires DistinctIds(branch) && s < |branch| && FirstAt(branch, branch[s].id, b)
    ensures b == s
  {}

  function AsPages(answers: seq<BeforePage>): (pages: seq<Page>)
    ensures |pages| == |answers| && forall k :: 0 <= k < |answers| ==> pages[k] == AsPage(answers[k])
  {
    if answers == [] then [] else AsPages(answers[..|answers| - 1]) + [AsPage(answers[|answers| - 1])]
  }

  function Reached(t: nat, answers: seq<BeforePage>): nat
  {
    if answers == [] then t else answers[|answers| - 1].start
  }

  /** Each answer is to the oldest entry held after the answers before it. */
  ghost predicate WalksBack(f: File, o: Bounds, limit: nat, t: nat, answers: seq<BeforePage>)
  {
    answers == [] ||
    var past := answers[..|answers| - 1];
    var oldest := Reached(t, past);
    && WalksBack(f, o, limit, t, past) && oldest < |f.branch|
    && Answers(f, o, f.branch[oldest].id, limit, answers[|answers| - 1])
  }

  /** One step back: strictly older unless at the root, and complete exactly at the root. */
  lemma AnswerStep(f: File, o: Bounds, limit: nat, oldest: nat, p: BeforePage)
    requires DistinctIds(f.branch) && oldest < |f.branch| && Answers(f, o, f.branch[oldest].id, limit, p)
    ensures p.start <= oldest && (oldest > 0 ==> p.start < oldest) && (p.complete <==> p.start == 0)
    ensures Receive(Held(oldest, Recs(f)[oldest..]), AsPage(p)) == Held(p.start, Recs(f)[p.start..])
  {
    hide Recs, Bytes, FirstAt, DistinctIds, IsBefore;
    var b: nat :| FirstAt(f.branch, f.branch[oldest].id, b) && IsBefore(Recs(f), b, Limit(limit), o.pageBytes, p);
    CursorFinds(f.branch, oldest, b);
    BeforeReceived(Recs(f), b, Limit(limit), o.pageBytes, p);
  }

  lemma BeforeReceived(recs: seq<Raw>, b: nat, limit: nat, bytes: nat, p: BeforePage)
    requires IsBefore(recs, b, limit, bytes, p)
    ensures p.start <= b <= |recs| && (b > 0 ==> p.start < b) && (p.complete <==> p.start == 0)
    ensures Receive(Held(b, recs[b..]), AsPage(p)) == Held(p.start, recs[p.start..])
  {
    hide Bytes;
    assert recs[p.start..b] + recs[b..] == recs[p.start..];
  }

  /**
    After a tail from t, asking again and again for what precedes the oldest entry rebuilds
    the branch without gap or overlap, strictly backwards, and says so exactly at the root.
   */
  lemma {:induction false} BackwardRebuilds(f: File, o: Bounds, limit: nat, t: nat, answers: seq<BeforePage>)
    requires DistinctIds(f.branch) && t < |f.branch| && WalksBack(f, o, limit, t, answers)
    ensures var s := Reached(t, answers);
            && s <= t && ReceiveAll(Held(t, Recs(f)[t..]), AsPages(answers)) == Held(s, Recs(f)[s..])
            && (answers != [] ==> (answers[|answers| - 1].complete <==> s == 0))
            && (s > 0 ==> s + |answers| <= t)
  {
    hide Answers, Recs, Receive, DistinctIds, AsPages, ReceiveAll;
    if answers == [] {
      NothingReceived(Held(t, Recs(f)[t..]));
    } else {
      var n := |answers| - 1;
      BackwardRebuilds(f, o, limit, t, answers[..n]);
      AnswerStep(f, o, limit, Reached(t, answers[..n]), answers[n]);
      ReceivedLast(Held(t, Recs(f)[t..]), answers);
    }
  }

  lemma NothingReceived(h: Held)
    ensures ReceiveAll(h, AsPages([])) == h
  {}

  lemma ReceivedLast(h: Held, answers: seq<BeforePage>)
    requires answers != []
    ensures var n := |answers| - 1;
            ReceiveAll(h, AsPages(answers)) == Receive(ReceiveAll(h, AsPages(answers[..n])), AsPage(answers[n]))
  {
    hide Receive;
    assert AsPages(answers)[..|answers| - 1] == AsPages(answers[..|answers| - 1]);
  }

  /** A tail without warming, then answers until one is complete: the consumer holds the branch. */
  lemma TailAndBackwards(f: File, o: Bounds, limit: nat, warm: nat, t: nat, pages: seq<Page>, answers: seq<BeforePage>)
    requires DistinctIds(f.branch) && f.branch != [] && o.skipWarm && TailRead(pages, Recs(f), o, t, warm) && t < |f.branch|
    requires WalksBack(f, o, limit, t, answers) && answers != [] && answers[|answers| - 1].complete
    ensures ReceiveAll(Nothing, pages + AsPages(answers)) == Held(0, Recs(f))
  {
    hide Recs;
    BackwardRebuilds(f, o, limit, t, answers);
    ReceiveConcat(Nothing, pages, AsPages(answers));
    assert Recs(f)[0..] == Recs(f);
  }

  // The whole branch, and the bounds of an indexed file

  method EmitBranch(f: File, o: Bounds) returns (pages: seq<Page>, ok: bool)
    requires 0 < o.pageEntries && 0 < f.chunk
    ensures ok <==> Readable(f, 0, |f.branch|)
    ensures ok ==> AllGood(pages, Recs(f), o) && LastFinal(pages) && ReceiveAll(Nothing, pages) == Held(0, Recs(f))
    ensures ok ==> Emitted(pages, Recs(f), o, 0, |f.branch|, false, true)
    ensures ok ==> forall k :: 0 <= k < |pages| ==> !pages[k].head
  {
    hide RecordAt, Recs, AllGood, FullPage;
    pages, ok := EmitRange(f, o, 0, |f.branch|, false, true);
    if ok {
      AscendingFirst(pages, Recs(f), o, 0, |f.branch|);
      NoHeads(pages, 0, |f.branch|);
      assert Recs(f)[0..|f.branch|] == Recs(f);
    }
  }

  lemma {:induction false} NoHeads(pages: seq<Page>, lo: nat, hi: nat)
    requires Ascending(pages, lo, hi)
    ensures forall k :: 0 <= k < |pages| ==> !pages[k].head
  {
    if pages != [] { NoHeads(pages[..|pages| - 1], lo, pages[|pages| - 1].start); }
  }

  datatype Options = Options(chunk: int, maxLine: int, pageBytes: int, pageEntries: int, tailBytes: int, indexBytes: int)

  function OrDefault(x: int, d: int): int
  {
    if x == 0 then d else x
  }

  /** Zero selects a default; the result keeps every record within a page. */
  function Normalize(x: Options): (r: Option<Options>)
    ensures r.None? <==>
              || x.chunk < 0 || x.maxLine < 0 || x.pageBytes < 0 || x.pageEntries < 0 || x.indexBytes < 0 || x.tailBytes < 0
              || (if x.maxLine == 0 then 4194304 else x.maxLine) > (if x.pageBytes == 0 then 4194304 else x.pageBytes)
    ensures r.Some? ==> var y := r.value;
              && 1 <= y.chunk && 1 <= y.maxLine <= y.pageBytes && 1 <= y.pageEntries && 0 <= y.tailBytes && 1 <= y.indexBytes
              && (x.chunk in {0, y.chunk} && x.maxLine in {0, y.maxLine} && x.pageBytes in {0, y.pageBytes})
              && (x.pageEntries in {0, y.pageEntries} && x.tailBytes == y.tailBytes && x.indexBytes in {0, y.indexBytes})
              && (x.chunk == 0 ==> y.chunk == 65536) && (x.maxLine == 0 ==> y.maxLine == 4194304)
              && (x.pageBytes == 0 ==> y.pageBytes == 4194304) && (x.pageEntries == 0 ==> y.pageEntries == 100)
              && (x.indexBytes == 0 ==> y.indexBytes == 67108864)
  {
    var y := Options(OrDefault(x.chunk, 0x1_0000), OrDefault(x.maxLine, 0x40_0000), OrDefault(x.pageBytes, 0x40_0000),
                     OrDefault(x.pageEntries, DefaultPageEntries), x.tailBytes, OrDefault(x.indexBytes, 0x400_0000));
    if y.chunk < 1 || y.maxLine < 1 || y.pageBytes < 1 || y.pageEntries < 1 || y.indexBytes < 1 then None
    else if y.tailBytes < 0 || y.maxLine > y.pageBytes then None
    else Some(y)
  }

  /**
    For an indexed file under normalized options nothing is unreadable, the ids are distinct,
    and every good page respects both bounds.
   */
  lemma IndexedPages(x: Options, data: seq<byte>, c: Codec, ix: Index, o: Bounds, p: Page)
    requires Lawful(c) && Normalize(x).Some?
    requires var y := Normalize(x).value;
             IndexFile(data, y.maxLine, y.indexBytes, c) == Ok(ix) && o.pageBytes == y.pageBytes && o.pageEntries == y.pageEntries
    ensures var f := File(data, ix.branch, c, Normalize(x).value.chunk);
            && Readable(f, 0, |f.branch|) && DistinctIds(f.branch)
            && (GoodPage(p, Recs(f), o) ==> |p.entries| <= o.pageEntries && Bytes(p.entries) <= o.pageBytes)
  {
    hide IndexFile, RecordAt, Recs, Normalize, GoodPage, DistinctIds, Lawful;
    var y := Normalize(x).value;
    var f := File(data, ix.branch, c, y.chunk);
    forall i | 0 <= i < |ix.branch|
      ensures RecordAt(data, ix.branch[i], c).Some? && |RecordAt(data, ix.branch[i], c).value| <= y.maxLine
    {
      BranchReadsBack(data, y.maxLine, y.indexBytes, c, ix, i);
    }
    BranchDistinct(data, y.maxLine, y.indexBytes, c, ix);
    GoodWithin(p, Recs(f), o, y.maxLine);
  }

  /** Where no record is larger than a page may be, neither is a page of one record. */
  lemma GoodWithin(p: Page, recs: seq<Raw>, o: Bounds, max: nat)
    requires max <= o.pageBytes && forall i :: 0 <= i < |recs| ==> |recs[i]| <= max
    ensures GoodPage(p, recs, o) ==> |p.entries| <= o.pageEntries && Bytes(p.entries) <= o.pageBytes
  {
    if GoodPage(p, recs, o) && |p.entries| == 1 {
      assert p.entries[0] == recs[p.start];
      BytesSnoc([], p.entries[0]);
      assert [] + [p.entries[0]] == p.entries;
    }
  }
}
