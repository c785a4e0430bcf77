/**
  Keyset pages over the catalog of DAG runs.  The catalog is read afresh for every page and
  may have changed in between; WalkReturns and WalkNeverRepeats say what a client that
  follows the cursors gets nevertheless.
 */
module Catalog {
  import opened Wrappers
  import opened Strings

  datatype Entry = Entry(runId: string, updatedAt: string, token: string)
  datatype Cursor = Cursor(updatedAt: string, runId: string)

  /** Parsing of a timestamp to an instant, left open but for the empty string. */
  type Clock = string -> Option<int>

  /** The instant of the zero time, which a clock that does not parse stands for. */
  const ZeroInstant := 0

  function Instant(parse: Clock, updatedAt: string): int
  {
    match parse(updatedAt) case Some(t) => t case None => ZeroInstant
  }

  /** Newest first, then by run id downwards. */
  predicate Less(parse: Clock, a: Entry, b: Entry)
  {
    var s, t := Instant(parse, a.updatedAt), Instant(parse, b.updatedAt);
    if s != t then s > t else Before(b.runId, a.runId)
  }

  lemma LessIrreflexive(parse: Clock, a: Entry)
    ensures !Less(parse, a, a)
  {
    BeforeIrreflexive(a.runId);
  }

  lemma LessTransitive(parse: Clock, a: Entry, b: Entry, c: Entry)
    requires Less(parse, a, b) && Less(parse, b, c)
    ensures Less(parse, a, c)
  {
    hide Before;
    if Instant(parse, a.updatedAt) == Instant(parse, c.updatedAt) {
      BeforeTransitive(c.runId, b.runId, a.runId);
    }
  }

  lemma LessTotal(parse: Clock, a: Entry, b: Entry)
    ensures Less(parse, a, b) || Less(parse, b, a) ||
            (a.runId == b.runId && Instant(parse, a.updatedAt) == Instant(parse, b.updatedAt))
  {
    BeforeTotal(a.runId, b.runId);
  }

  /** The documented order: a clock that does not parse sorts last, after every clock that does. */
  ghost predicate UnparsedLast(parse: Clock, c: seq<Entry>, b: Entry)
  {
    forall i :: 0 <= i < |c| && parse(c[i].updatedAt).Some? ==> Less(parse, c[i], b) || TiesAtZero(parse, c[i], b)
  }

  /** Equal instants, so that only the run ids decide. */
  predicate TiesAtZero(parse: Clock, a: Entry, b: Entry)
  {
    parse(a.updatedAt) == Some(ZeroInstant) && parse(b.updatedAt).None?
  }

  /**
    That order holds for an entry whose clock does not parse if and only if no clock of the
    catalog is before the zero instant; at the zero instant itself the run ids decide.
   */
  lemma UnparsedLastExactly(parse: Clock, c: seq<Entry>, b: Entry)
    requires parse(b.updatedAt).None?
    ensures UnparsedLast(parse, c, b) <==>
            forall i :: 0 <= i < |c| && parse(c[i].updatedAt).Some? ==> parse(c[i].updatedAt).value >= ZeroInstant
  {
    hide Before;
    forall i | 0 <= i < |c| && parse(c[i].updatedAt).Some?
      ensures (Less(parse, c[i], b) || TiesAtZero(parse, c[i], b)) <==> parse(c[i].updatedAt).value >= ZeroInstant
    {
      UnparsedAgainst(parse, c[i], b);
    }
  }

  /** One entry with a clock against one without. */
  lemma UnparsedAgainst(parse: Clock, a: Entry, b: Entry)
    requires parse(a.updatedAt).Some? && parse(b.updatedAt).None?
    ensures (Less(parse, a, b) || TiesAtZero(parse, a, b)) <==> parse(a.updatedAt).value >= ZeroInstant
    ensures parse(a.updatedAt) == Some(ZeroInstant) ==> (Less(parse, a, b) <==> Before(b.runId, a.runId))
  {}

  /** A clock that reads the first moment of year 0, one leap year before the zero instant, in seconds. */
  const YearZero := "0000-01-01T00:00:00Z"

  function YearZeroClock(s: string): Option<int>
  {
    if s == YearZero then Some(ZeroInstant - 366 * 86400) else None
  }

  /** It fails there: a run without a clock sorts before a run of year 0. */
  lemma UnparsedBeforeYearZero()
    ensures var a, b := Entry("a", YearZero, ""), Entry("b", "", "");
            && YearZeroClock("") == None && YearZeroClock(b.updatedAt).None? && YearZeroClock(a.updatedAt).Some?
            && Less(YearZeroClock, b, a) && !UnparsedLast(YearZeroClock, [a], b)
  {
    var a, b := Entry("a", YearZero, ""), Entry("b", "", "");
    assert |YearZero| == 20;
    UnparsedLastExactly(YearZeroClock, [a], b);
    assert [a][0] == a;
  }

  function CursorClock(parse: Clock, updatedAt: string): string
  {
    if parse(updatedAt).None? then "" else updatedAt
  }

  function Key(c: Cursor): Entry
  {
    Entry(c.runId, c.updatedAt, "")
  }

  function CursorAt(parse: Clock, e: Entry): Cursor
  {
    Cursor(CursorClock(parse, e.updatedAt), e.runId)
  }

  predicate ValidClock(parse: Clock, updatedAt: string)
  {
    updatedAt == "" || parse(updatedAt).Some?
  }

  predicate ValidRunId(id: string)
  {
    id != "" && id != "." && id != ".." && forall i :: 0 <= i < |id| ==> id[i] != '/' && id[i] != '\\' && id[i] != '\0'
  }

  /** A valid run id is no path: not empty, no dot name, without separators or zero characters. */
  lemma RunIdCharacters(id: string)
    ensures ValidRunId(id) <==> id !in {"", ".", ".."} && forall ch :: ch in id ==> ch !in "/\\\0"
  {
    var bad := "/\\\0";
    assert bad[0] == '/' && bad[1] == '\\' && bad[2] == '\0';
    assert forall ch :: ch in bad <==> ch == '/' || ch == '\\' || ch == '\0';
    assert forall i :: 0 <= i < |id| ==> id[i] in id;
    forall ch | ch in id && ValidRunId(id) ensures ch !in bad {
      var i :| 0 <= i < |id| && id[i] == ch;
    }
  }

  predicate CursorAccepted(parse: Clock, c: Cursor)
  {
    ValidRunId(c.runId) && ValidClock(parse, c.updatedAt)
  }

  lemma CursorIsValid(parse: Clock, e: Entry)
    ensures CursorAccepted(parse, CursorAt(parse, e)) <==> ValidRunId(e.runId)
  {
    hide ValidRunId;
  }

  /** The cursor made at an entry compares like the entry and is accepted if the run id is valid. */
  lemma CursorStandsForEntry(parse: Clock, e: Entry, x: Entry)
    requires parse("") == None
    ensures var k := Key(CursorAt(parse, e));
            (Less(parse, k, x) <==> Less(parse, e, x)) && (Less(parse, x, k) <==> Less(parse, x, e))
    ensures CursorAccepted(parse, CursorAt(parse, e)) <==> ValidRunId(e.runId)
  {}

  /** A catalog as a request reads it. */
  ghost predicate Sorted(parse: Clock, c: seq<Entry>)
  {
    forall i, j :: 0 <= i < j < |c| ==> Less(parse, c[i], c[j])
  }

  /** A sort by the comparator is strict when the run ids are distinct. */
  lemma SortIsStrict(parse: Clock, c: seq<Entry>)
    requires forall i, j :: 0 <= i < j < |c| ==> !Less(parse, c[j], c[i]) && c[i].runId != c[j].runId
    ensures Sorted(parse, c)
  {
    hide Less;
    forall i, j | 0 <= i < j < |c| ensures Less(parse, c[i], c[j]) {
      assert !Less(parse, c[j], c[i]) && c[i].runId != c[j].runId;
      LessTotal(parse, c[i], c[j]);
    }
  }

  // One page

  datatype Page = Page(runs: seq<Entry>, next: Option<Cursor>)

  /** What a page must be: the first entries after the cursor, and a cursor iff more follow. */
  ghost predicate IsPage(parse: Clock, c: seq<Entry>, after: Option<Cursor>, limit: nat, p: Page)
  {
    exists start: nat, end: nat :: start <= end <= |c| && PageAt(parse, c, after, limit, p, start, end)
  }

  /** The entry comes after the cursor, if there is one. */
  predicate Behind(parse: Clock, after: Option<Cursor>, x: Entry)
  {
    after.Some? ==> Less(parse, Key(after.value), x)
  }

  ghost predicate PageAt(parse: Clock, c: seq<Entry>, after: Option<Cursor>, limit: nat, p: Page, start: nat, end: nat)
    requires start <= end <= |c|
  {
    && (forall i :: 0 <= i < |c| ==> (i >= start <==> Behind(parse, after, c[i])))
    && p.runs == c[start..end] && |p.runs| <= limit && (end < |c| ==> |p.runs| == limit)
    && p.next == if end < |c| && end > 0 then Some(CursorAt(parse, c[end - 1])) else None
  }

  /** The first entry after the key; the catalog's order makes the test monotone. */
  method Search(parse: Clock, c: seq<Entry>, key: Entry) returns (start: nat)
    requires Sorted(parse, c)
    ensures start <= |c| && forall i :: 0 <= i < |c| ==> (i >= start <==> Less(parse, key, c[i]))
  {
    hide Less;
    var i, j := 0, |c|;
    while i < j
      invariant 0 <= i <= j <= |c|
      invariant forall k :: 0 <= k < i ==> !Less(parse, key, c[k])
      invariant forall k :: j <= k < |c| ==> Less(parse, key, c[k])
    {
      var h := (i + j) / 2;
      if !Less(parse, key, c[h]) {
        forall k | 0 <= k < h ensures !Less(parse, key, c[k]) {
          if Less(parse, key, c[k]) { LessTransitive(parse, key, c[k], c[h]); }
        }
        i := h + 1;
      } else {
        forall k | h < k < |c| ensures Less(parse, key, c[k]) { LessTransitive(parse, key, c[h], c[k]); }
        j := h;
      }
    }
    start := i;
  }

  /** What a page holds: only entries after the cursor, all of them on the last page, and elsewhere as many as asked for. */
  lemma PageMeans(parse: Clock, c: seq<Entry>, after: Option<Cursor>, limit: nat, p: Page, start: nat, end: nat)
    requires start <= end <= |c| && 0 < limit && PageAt(parse, c, after, limit, p, start, end)
    ensures p.next.Some? ==>
              && |p.runs| == limit && p.next.value.runId == p.runs[limit - 1].runId
              && p.next.value.updatedAt == if parse(p.runs[limit - 1].updatedAt).Some? then p.runs[limit - 1].updatedAt else ""
    ensures forall x :: x in p.runs ==> x in c && Behind(parse, after, x)
    ensures p.next.None? ==> forall x :: x in c && Behind(parse, after, x) ==> x in p.runs
  {
    hide Behind;
    assert |c[start..end]| == end - start;
    if p.next.Some? {
      assert end < |c| && end > 0 && end - start == limit;
      assert c[start..end][limit - 1] == c[end - 1];
    }
    forall x | x in p.runs ensures x in c && Behind(parse, after, x) {
      var i :| 0 <= i < |p.runs| && p.runs[i] == x;
      assert c[start + i] == x;
    }
    forall x | p.next.None? && x in c && Behind(parse, after, x) ensures x in p.runs {
      var i :| 0 <= i < |c| && c[i] == x;
      assert i >= start && p.runs[i - start] == x;
    }
  }

  lemma MadePage(parse: Clock, c: seq<Entry>, after: Option<Cursor>, limit: nat, p: Page, start: nat, end: nat)
    requires start <= |c| && 0 < limit && end == (if start + limit < |c| then start + limit else |c|)
    requires forall i :: 0 <= i < |c| ==> (i >= start <==> Behind(parse, after, c[i]))
    requires p == Page(c[start..end], if end < |c| then Some(CursorAt(parse, c[end - 1])) else None)
    ensures PageAt(parse, c, after, limit, p, start, end)
    ensures end < |c| ==> p.runs != [] && p.runs[|p.runs| - 1] == c[end - 1]
  {
    hide Behind;
    assert |c[start..end]| == end - start;
    if end < |c| { assert c[start..end][limit - 1] == c[end - 1]; }
  }

  /** A request: none is served for a cursor or limit that is not valid. */
  method ListRuns(parse: Clock, c: seq<Entry>, after: Option<Cursor>, limit: int) returns (r: Option<Page>)
    requires Sorted(parse, c)
    ensures r.Some? <==> 1 <= limit <= 100 && (after.Some? ==> CursorAccepted(parse, after.value))
    ensures r.Some? ==> IsPage(parse, c, after, limit, r.value)
    ensures r.Some? && r.value.next.Some? ==>
              r.value.runs != [] &&
              (CursorAccepted(parse, r.value.next.value) <==> ValidRunId(r.value.runs[|r.value.runs| - 1].runId))
    // The same without the predicates that walks are stated with
    ensures r.Some? <==>
              && 1 <= limit <= 100
              && (after.Some? ==>
                    && after.value.runId !in {"", ".", ".."} && (forall ch :: ch in after.value.runId ==> ch !in "/\\\0")
                    && (after.value.updatedAt == "" || parse(after.value.updatedAt).Some?))
    ensures r.Some? && r.value.next.Some? ==>
              var last := r.value.runs[|r.value.runs| - 1];
              && |r.value.runs| == limit && r.value.next.value.runId == last.runId
              && r.value.next.value.updatedAt == if parse(last.updatedAt).Some? then last.updatedAt else ""
    ensures r.Some? ==> forall x :: x in r.value.runs ==> x in c && (after.Some? ==> Less(parse, Key(after.value), x))
    ensures r.Some? && r.value.next.None? ==>
              forall x :: x in c && (after.Some? ==> Less(parse, Key(after.value), x)) ==> x in r.value.runs
  {
    hide Less, Sorted, ValidRunId, PageAt;
    RunIdCharacters(if after.Some? then after.value.runId else "");
    if limit < 1 || limit > 100 || (after.Some? && !CursorAccepted(parse, after.value)) {
      return None;
    }
    var start := 0;
    if after.Some? {
      start := Search(parse, c, Key(after.value));
    }
    var end := if start + limit < |c| then start + limit else |c|;
    var next := None;
    if end < |c| {
      next := Some(CursorAt(parse, c[end - 1]));
    }
    var p := Page(c[start..end], next);
    MadePage(parse, c, after, limit, p, start, end);
    if end < |c| {
      CursorIsValid(parse, c[end - 1]);
    }
    PageMeans(parse, c, after, limit, p, start, end);
    r := Some(p);
  }

  // A walk over catalogs that change between the requests

  datatype Request = Request(catalog: seq<Entry>, limit: nat, page: Page)

  /** The cursor a request resumes from: the one the page before it gave. */
  function Resumes(w: seq<Request>, k: nat): Option<Cursor>
    requires k < |w|
  {
    if k == 0 then None else w[k - 1].page.next
  }

  ghost predicate Continues(parse: Clock, w: seq<Request>, k: nat)
    requires k < |w|
  {
    && Sorted(parse, w[k].catalog) && 1 <= w[k].limit && (k > 0 ==> Resumes(w, k).Some?)
    && IsPage(parse, w[k].catalog, Resumes(w, k), w[k].limit, w[k].page)
  }

  /** Every page continues the one before it. */
  ghost predicate IsWalk(parse: Clock, w: seq<Request>)
  {
    forall k :: 0 <= k < |w| ==> Continues(parse, w, k)
  }

  /** Everything a page does not return yet is after its cursor, and everything it returns is not. */
  lemma PageSplits(parse: Clock, c: seq<Entry>, after: Option<Cursor>, limit: nat, p: Page, x: Entry)
    requires parse("") == None && Sorted(parse, c) && limit >= 1 && IsPage(parse, c, after, limit, p)
    requires x in c && (after.Some? ==> Less(parse, Key(after.value), x))
    ensures p.next.None? ==> x in p.runs
    ensures p.next.Some? ==> (x in p.runs || Less(parse, Key(p.next.value), x))
  {
    hide Less;
    var start: nat, end: nat :| start <= end <= |c| && PageAt(parse, c, after, limit, p, start, end);
    var i :| 0 <= i < |c| && c[i] == x;
    assert i >= start;
    if i < end {
      assert x == p.runs[i - start];
    } else if end < |c| {
      assert |c[start..end]| == limit;
      CursorStandsForEntry(parse, c[end - 1], x);
    }
  }

  /** What a page returns lies after the cursor before it and not after its own. */
  lemma PageBetween(parse: Clock, c: seq<Entry>, after: Option<Cursor>, limit: nat, p: Page, x: Entry)
    requires parse("") == None && Sorted(parse, c) && limit >= 1 && IsPage(parse, c, after, limit, p) && x in p.runs
    ensures after.Some? ==> Less(parse, Key(after.value), x)
    ensures p.next.Some? ==> !Less(parse, Key(p.next.value), x)
  {
    hide Less;
    var start: nat, end: nat :| start <= end <= |c| && PageAt(parse, c, after, limit, p, start, end);
    var i :| 0 <= i < |p.runs| && p.runs[i] == x;
    assert c[start + i] == x && start + i >= start;
    if p.next.Some? {
      CursorStandsForEntry(parse, c[end - 1], x);
      if start + i < end - 1 {
        if Less(parse, c[end - 1], x) { LessTransitive(parse, x, c[end - 1], x); }
      }
      LessIrreflexive(parse, x);
    }
  }

  predicate SameKey(parse: Clock, a: Entry, b: Entry)
  {
    a.runId == b.runId && Instant(parse, a.updatedAt) == Instant(parse, b.updatedAt)
  }

  lemma LessByKey(parse: Clock, k: Entry, a: Entry, b: Entry)
    requires SameKey(parse, a, b)
    ensures Less(parse, k, a) <==> Less(parse, k, b)
  {}

  /** The run is in the list under the key of x; its other fields may differ. */
  ghost predicate Has(parse: Clock, c: seq<Entry>, x: Entry)
  {
    exists i :: 0 <= i < |c| && SameKey(parse, c[i], x)
  }

  lemma {:induction false} Returned(parse: Clock, w: seq<Request>, x: Entry, n: nat)
    requires parse("") == None && IsWalk(parse, w) && n < |w| && forall k :: 0 <= k < |w| ==> Has(parse, w[k].catalog, x)
    ensures (exists k :: 0 <= k <= n && Has(parse, w[k].page.runs, x)) ||
            (w[n].page.next.Some? && Less(parse, Key(w[n].page.next.value), x))
  {
    hide Less, IsPage, Sorted, SameKey;
    assert Has(parse, w[n].catalog, x) && Continues(parse, w, n);
    var i :| 0 <= i < |w[n].catalog| && SameKey(parse, w[n].catalog[i], x);
    var y, after := w[n].catalog[i], Resumes(w, n);
    if n > 0 { Returned(parse, w, x, n - 1); }
    if n == 0 || !(exists k :: 0 <= k <= n - 1 && Has(parse, w[k].page.runs, x)) {
      if n > 0 { LessByKey(parse, Key(after.value), y, x); }
      PageSplits(parse, w[n].catalog, after, w[n].limit, w[n].page, y);
      if y in w[n].page.runs {
        assert Has(parse, w[n].page.runs, x);
      } else {
        LessByKey(parse, Key(w[n].page.next.value), y, x);
      }
    }
  }

  /** A run that every request finds under one key is returned before the walk ends. */
  lemma WalkReturns(parse: Clock, w: seq<Request>, x: Entry)
    requires parse("") == None && IsWalk(parse, w) && w != [] && w[|w| - 1].page.next == None
    requires forall k :: 0 <= k < |w| ==> Has(parse, w[k].catalog, x)
    ensures exists k :: 0 <= k < |w| && Has(parse, w[k].page.runs, x)
  {
    Returned(parse, w, x, |w| - 1);
  }

  /** The cursors move strictly down the order, whatever the catalogs do. */
  lemma {:induction false} CursorsAdvance(parse: Clock, w: seq<Request>, j: nat, k: nat, x: Entry)
    requires parse("") == None && IsWalk(parse, w) && j < k < |w| && x in w[k].page.runs
    ensures w[j].page.next.Some? && Less(parse, Key(w[j].page.next.value), x)
    decreases k - j
  {
    hide Less, IsPage, Sorted;
    assert Continues(parse, w, k) && Continues(parse, w, k - 1);
    PageBetween(parse, w[k].catalog, w[k - 1].page.next, w[k].limit, w[k].page, x);
    if j < k - 1 {
      var last := LastOf(parse, w, k - 1);
      CursorsAdvance(parse, w, j, k - 1, last);
      CursorStandsForEntry(parse, last, x);
      LessTransitive(parse, Key(w[j].page.next.value), last, x);
    }
  }

  /** A walk over valid run ids is never refused: every cursor that a page gives is accepted. */
  lemma WalkNeverRefused(parse: Clock, w: seq<Request>, k: nat)
    requires IsWalk(parse, w) && k < |w| && w[k].page.next.Some?
    requires forall x :: x in w[k].page.runs ==> ValidRunId(x.runId)
    ensures CursorAccepted(parse, w[k].page.next.value)
  {
    hide IsWalk, ValidRunId;
    var last := LastOf(parse, w, k);
    CursorIsValid(parse, last);
  }

  /** A catalog of two runs without clocks, the newer of which has a slash in its id. */
  function SlashCatalog(): seq<Entry>
  {
    [Entry("b/b", "", ""), Entry("a", "", "")]
  }

  function NoClock(s: string): Option<int>
  {
    None
  }

  /** Its first page ends at the slash, and the cursor it gives is refused. */
  lemma SlashCursorRefused()
    ensures Sorted(NoClock, SlashCatalog())
    ensures var p := Page([SlashCatalog()[0]], Some(CursorAt(NoClock, SlashCatalog()[0])));
            IsPage(NoClock, SlashCatalog(), None, 1, p) && !CursorAccepted(NoClock, p.next.value)
  {
    var c := SlashCatalog();
    var p := Page([c[0]], Some(CursorAt(NoClock, c[0])));
    assert Before("a", "b/b");
    assert PageAt(NoClock, c, None, 1, p, 0, 1);
    var id := "b/b";
    assert id[1] == '/' && !ValidRunId(id);
  }

  /** A page with a cursor is not empty, and the cursor is that of its last entry. */
  lemma PageLast(parse: Clock, c: seq<Entry>, after: Option<Cursor>, limit: nat, p: Page) returns (last: Entry)
    requires limit >= 1 && IsPage(parse, c, after, limit, p) && p.next.Some?
    ensures last in p.runs && p.next.value == CursorAt(parse, last)
  {
    hide Less, CursorAt;
    var start: nat, end: nat :| start <= end <= |c| && PageAt(parse, c, after, limit, p, start, end);
    assert |c[start..end]| == limit;
    last := c[end - 1];
    assert last == p.runs[|p.runs| - 1];
  }

  lemma LastOf(parse: Clock, w: seq<Request>, k: nat) returns (last: Entry)
    requires IsWalk(parse, w) && k < |w| && w[k].page.next.Some?
    ensures last in w[k].page.runs && w[k].page.next.value == CursorAt(parse, last)
  {
    hide Less, Sorted, IsPage, CursorAt;
    assert Continues(parse, w, k);
    last := PageLast(parse, w[k].catalog, Resumes(w, k), w[k].limit, w[k].page);
  }

  /** No entry is returned by two pages, and a later page is strictly older: nothing repeats. */
  lemma WalkNeverRepeats(parse: Clock, w: seq<Request>, j: nat, k: nat, x: Entry, y: Entry)
    requires parse("") == None && IsWalk(parse, w) && j < k < |w| && x in w[j].page.runs && y in w[k].page.runs
    ensures Less(parse, x, y) && !SameKey(parse, x, y)
  {
    hide Less, IsPage, Sorted;
    assert Continues(parse, w, j);
    CursorsAdvance(parse, w, j, k, y);
    var last := LastOf(parse, w, j);
    CursorStandsForEntry(parse, last, y);
    UpToLast(parse, w, j, x, last);
    if x != last { LessTransitive(parse, x, last, y); }
    LessIrreflexive(parse, y);
    if SameKey(parse, x, y) { LessByKey(parse, x, x, y); LessIrreflexive(parse, x); }
  }

  /** Newest first over the whole walk; runs of one instant by their ids, downwards. */
  lemma WalkNewestFirst(parse: Clock, w: seq<Request>, j: nat, k: nat, x: Entry, y: Entry)
    requires parse("") == None && IsWalk(parse, w) && j < k < |w| && x in w[j].page.runs && y in w[k].page.runs
    requires parse(x.updatedAt).Some? && parse(y.updatedAt).Some?
    ensures parse(x.updatedAt).value >= parse(y.updatedAt).value
    ensures parse(x.updatedAt) == parse(y.updatedAt) ==> Before(y.runId, x.runId)
  {
    hide Before, IsWalk;
    WalkNeverRepeats(parse, w, j, k, x, y);
  }

  lemma UpToLast(parse: Clock, w: seq<Request>, j: nat, x: Entry, last: Entry)
    requires parse("") == None && IsWalk(parse, w) && j < |w| && x in w[j].page.runs && w[j].page.next.Some?
    requires last in w[j].page.runs && w[j].page.next.value == CursorAt(parse, last)
    ensures x == last || Less(parse, x, last)
  {
    hide Less, IsPage, Sorted;
    assert Continues(parse, w, j);
    PageBetween(parse, w[j].catalog, Resumes(w, j), w[j].limit, w[j].page, x);
    CursorStandsForEntry(parse, last, x);
    RunsFromCatalog(parse, w[j].catalog, Resumes(w, j), w[j].limit, w[j].page);
    InOrder(parse, w[j].catalog, x, last);
  }

  lemma RunsFromCatalog(parse: Clock, c: seq<Entry>, after: Option<Cursor>, limit: nat, p: Page)
    requires IsPage(parse, c, after, limit, p)
    ensures forall x :: x in p.runs ==> x in c
  {
    hide Less;
  }

  lemma InOrder(parse: Clock, c: seq<Entry>, x: Entry, y: Entry)
    requires Sorted(parse, c) && x in c && y in c
    ensures x == y || Less(parse, x, y) || Less(parse, y, x)
  {
    hide Less;
  }

  /** Within a page nothing repeats either. */
  lemma PageNeverRepeats(parse: Clock, w: seq<Request>, k: nat, i: nat, j: nat)
    requires IsWalk(parse, w) && k < |w| && i < j < |w[k].page.runs|
    ensures Less(parse, w[k].page.runs[i], w[k].page.runs[j])
    ensures var s, t := parse(w[k].page.runs[i].updatedAt), parse(w[k].page.runs[j].updatedAt);
            s.Some? && t.Some? ==> s.value > t.value || (s == t && Before(w[k].page.runs[j].runId, w[k].page.runs[i].runId))
  {
    hide Less;
    var q := w[k];
    var after := Resumes(w, k);
    assert Continues(parse, w, k);
    var start: nat, end: nat :| start <= end <= |q.catalog| && PageAt(parse, q.catalog, after, q.limit, q.page, start, end);
    assert q.page.runs[i] == q.catalog[start + i] && q.page.runs[j] == q.catalog[start + j];
    LessMeans(parse, q.page.runs[i], q.page.runs[j]);
  }

  lemma LessMeans(parse: Clock, a: Entry, b: Entry)
    requires Less(parse, a, b)
    ensures var s, t := parse(a.updatedAt), parse(b.updatedAt);
            s.Some? && t.Some? ==> s.value > t.value || (s == t && Before(b.runId, a.runId))
  {
    hide Before;
  }
}
