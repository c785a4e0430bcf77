/**
  The active branch of a session file: the parent chain of its last entry.  Climb is
  the source's walk with its length test; BranchExact says that the test detects
  exactly the chains that repeat.
 */
module ColdBranch {
  import opened Wrappers

  type Id = string

  /** The graph coordinates of one entry.  The parent of a root is the empty id. */
  datatype Ref = Ref(id: Id, parent: Id, offset: nat, length: nat, line: nat)

  datatype BranchError = Broken | Cycle

  predicate DistinctIds(refs: seq<Ref>)
  {
    forall i, j :: 0 <= i < j < |refs| ==> refs[i].id != refs[j].id
  }

  /** The entry with an id; a walk looks it up in a map. */
  function Find(refs: seq<Ref>, id: Id): (r: Option<nat>)
    ensures r.Some? ==> r.value < |refs| && refs[r.value].id == id
    ensures r.None? ==> forall i :: 0 <= i < |refs| ==> refs[i].id != id
  {
    if refs == [] then None
    else if refs[|refs| - 1].id == id then Some(|refs| - 1)
    else Find(refs[..|refs| - 1], id)
  }

  /** From an entry that is steps above the leaf to the root, root first. */
  function Climb(refs: seq<Ref>, i: nat, steps: nat): (r: Result<seq<Ref>, BranchError>)
    requires i < |refs|
    decreases |refs| - steps
  {
    if steps >= |refs| then Err(Cycle)
    else if refs[i].parent == "" then Ok([refs[i]])
    else match Find(refs, refs[i].parent)
      case None => Err(Broken)
      case Some(j) =>
        match Climb(refs, j, steps + 1)
        case Err(e) => Err(e)
        case Ok(b) => Ok(b + [refs[i]])
  }

  function Branch(refs: seq<Ref>): Result<seq<Ref>, BranchError>
  {
    if refs == [] then Ok([]) else Climb(refs, |refs| - 1, 0)
  }

  // What the walk should find, without a bound on its length

  /** Where the n-th step up from the leaf arrives. */
  datatype Place = At(i: nat) | AboveRoot | NoParent

  function Up(refs: seq<Ref>, p: Place): (q: Place)
    ensures q.At? ==> q.i < |refs|
  {
    if !p.At? || p.i >= |refs| then (if p.At? then NoParent else p)
    else if refs[p.i].parent == "" then AboveRoot
    else match Find(refs, refs[p.i].parent) case None => NoParent case Some(j) => At(j)
  }

  function Ancestor(refs: seq<Ref>, n: nat): (p: Place)
    requires refs != []
    ensures p.At? ==> p.i < |refs|
  {
    if n == 0 then At(|refs| - 1) else Up(refs, Ancestor(refs, n - 1))
  }

  /** The chain visits an entry twice. */
  ghost predicate Repeats(refs: seq<Ref>)
    requires refs != []
  {
    exists m, n :: 0 <= m < n && Ancestor(refs, m).At? && Ancestor(refs, m) == Ancestor(refs, n)
  }

  ghost predicate ReachesMissing(refs: seq<Ref>)
    requires refs != []
  {
    exists n: nat :: Ancestor(refs, n).NoParent?
  }

  /** A root-to-leaf parent chain of the last entry. */
  predicate IsChain(refs: seq<Ref>, b: seq<Ref>)
  {
    && b != [] && refs != [] && b[|b| - 1] == refs[|refs| - 1] && b[0].parent == ""
    && (forall k :: 0 <= k < |b| ==> b[k] in refs)
    && (forall k :: 0 < k < |b| ==> b[k].parent == b[k - 1].id && b[k].parent != "")
  }

  // Termination is exactly absence of repetition

  lemma {:induction false} Settled(refs: seq<Ref>, m: nat, n: nat)
    requires refs != [] && m <= n && !Ancestor(refs, m).At?
    ensures Ancestor(refs, n) == Ancestor(refs, m)
  {
    if m < n { Settled(refs, m, n - 1); }
  }

  lemma {:induction false} Periodic(refs: seq<Ref>, m: nat, n: nat, k: nat)
    requires refs != [] && Ancestor(refs, m) == Ancestor(refs, n)
    ensures Ancestor(refs, m + k) == Ancestor(refs, n + k)
  {
    if k > 0 { Periodic(refs, m, n, k - 1); }
  }

  lemma {:induction false} RepeatsForever(refs: seq<Ref>, m: nat, n: nat, k: nat)
    requires refs != [] && m < n && Ancestor(refs, m).At? && Ancestor(refs, m) == Ancestor(refs, n)
    ensures Ancestor(refs, k).At?
    decreases k
  {
    if !Ancestor(refs, k).At? {
      if k <= m {
        Settled(refs, k, m);
      } else if k <= n {
        Settled(refs, k, n);
      } else {
        RepeatsForever(refs, m, n, k - (n - m));
        Periodic(refs, m, n, k - n);
      }
    }
  }

  /** A sequence longer than the number of values it can take has a repeated value. */
  lemma {:induction false} Pigeonhole(s: seq<nat>, m: nat) returns (i: nat, j: nat)
    requires |s| > m && forall k :: 0 <= k < |s| ==> s[k] < m
    ensures i < j < |s| && s[i] == s[j]
    decreases m
  {
    var last := |s| - 1;
    if k :| 0 <= k < last && s[k] == s[last] {
      i, j := k, last;
    } else {
      // Renumber so that only values below m - 1 occur before the last position.
      var t := seq(last, k requires 0 <= k < last => if s[k] == m - 1 then s[last] else s[k]);
      i, j := Pigeonhole(t, m - 1);
    }
  }

  lemma LongChainRepeats(refs: seq<Ref>)
    requires refs != [] && forall k :: 0 <= k <= |refs| ==> Ancestor(refs, k).At?
    ensures Repeats(refs)
  {
    var s := seq(|refs| + 1, k requires 0 <= k <= |refs| => Ancestor(refs, k).i);
    var i, j := Pigeonhole(s, |refs|);
    assert Ancestor(refs, i) == At(s[i]) && Ancestor(refs, j) == At(s[j]);
  }

  // The walk agrees with the unbounded chain

  lemma {:induction false} ClimbFollows(refs: seq<Ref>, i: nat, steps: nat)
    requires i < |refs| && steps <= |refs| && Ancestor(refs, steps) == At(i)
    ensures var r := Climb(refs, i, steps);
            && (r == Err(Cycle) ==> Ancestor(refs, |refs|).At?)
            && (r == Err(Broken) ==> exists n: nat :: Ancestor(refs, n).NoParent?)
            && (r.Ok? ==> exists n: nat :: Ancestor(refs, n).AboveRoot?)
    decreases |refs| - steps
  {
    if steps < |refs| && refs[i].parent != "" && Find(refs, refs[i].parent).Some? {
      ClimbFollows(refs, Find(refs, refs[i].parent).value, steps + 1);
    } else if steps < |refs| {
      assert Ancestor(refs, steps + 1) == Up(refs, At(i));
    }
  }

  lemma {:induction false} ClimbChain(refs: seq<Ref>, i: nat, steps: nat)
    requires i < |refs| && Climb(refs, i, steps).Ok?
    ensures var b := Climb(refs, i, steps).value;
            && b != [] && b[|b| - 1] == refs[i] && b[0].parent == "" && |b| + steps <= |refs|
            && (forall k :: 0 <= k < |b| ==> b[k] in refs)
            && (forall k :: 0 < k < |b| ==> b[k].parent == b[k - 1].id && b[k].parent != "")
    decreases |refs| - steps
  {
    if refs[i].parent != "" {
      ClimbChain(refs, Find(refs, refs[i].parent).value, steps + 1);
    }
  }

  lemma AllAtBelow(refs: seq<Ref>, n: nat)
    requires refs != [] && Ancestor(refs, n).At?
    ensures forall k :: 0 <= k <= n ==> Ancestor(refs, k).At?
  {
    forall k | 0 <= k <= n ensures Ancestor(refs, k).At? {
      if !Ancestor(refs, k).At? { Settled(refs, k, n); }
    }
  }

  lemma ThreeResults(refs: seq<Ref>)
    ensures Branch(refs).Ok? || Branch(refs) == Err(Cycle) || Branch(refs) == Err(Broken)
  {
    match Branch(refs) case Ok(_) => case Err(e) => match e case Broken => case Cycle =>
  }

  lemma OneFate(refs: seq<Ref>, m: nat, n: nat)
    requires refs != [] && Ancestor(refs, m).NoParent?
    ensures !Ancestor(refs, n).AboveRoot?
  {
    if m <= n { Settled(refs, m, n); } else if !Ancestor(refs, n).At? { Settled(refs, n, m); }
  }

  /** The length test reports a cycle exactly when the unbounded chain repeats. */
  lemma CycleExactly(refs: seq<Ref>)
    requires refs != []
    ensures Branch(refs) == Err(Cycle) <==> Repeats(refs)
  {
    ThreeResults(refs);
    ClimbFollows(refs, |refs| - 1, 0);
    if Branch(refs) == Err(Cycle) {
      AllAtBelow(refs, |refs|);
      LongChainRepeats(refs);
    } else if Repeats(refs) {
      var m, n :| 0 <= m < n && Ancestor(refs, m).At? && Ancestor(refs, m) == Ancestor(refs, n);
      var k: nat :| !Ancestor(refs, k).At?;
      RepeatsForever(refs, m, n, k);
    }
  }

  /** A missing parent is reported exactly when the unbounded chain reaches one. */
  lemma BrokenExactly(refs: seq<Ref>)
    requires refs != []
    ensures Branch(refs) == Err(Broken) <==> ReachesMissing(refs)
  {
    ThreeResults(refs);
    ClimbFollows(refs, |refs| - 1, 0);
    if ReachesMissing(refs) {
      var m: nat :| Ancestor(refs, m).NoParent?;
      CycleExactly(refs);
      if Repeats(refs) {
        var a, b :| 0 <= a < b && Ancestor(refs, a).At? && Ancestor(refs, a) == Ancestor(refs, b);
        RepeatsForever(refs, a, b, m);
      }
      if Branch(refs).Ok? {
        var n: nat :| Ancestor(refs, n).AboveRoot?;
        OneFate(refs, m, n);
      }
    }
  }

  lemma {:induction false} ChainSuffix(refs: seq<Ref>, a: seq<Ref>, b: seq<Ref>, n: nat)
    requires DistinctIds(refs) && IsChain(refs, a) && IsChain(refs, b) && n <= |a| && n <= |b|
    ensures a[|a| - n..] == b[|b| - n..]
  {
    if n == 1 {
      assert a[|a| - 1..] == [a[|a| - 1]] && b[|b| - 1..] == [b[|b| - 1]];
    } else if n > 1 {
      ChainSuffix(refs, a, b, n - 1);
      var p, q := |a| - n, |b| - n;
      assert a[p + 1] == a[p + 1..][0] == b[q + 1..][0] == b[q + 1];
      SameId(refs, a[p], b[q]);
      assert a[p..] == [a[p]] + a[p + 1..] && b[q..] == [b[q]] + b[q + 1..];
    }
  }

  lemma SameId(refs: seq<Ref>, x: Ref, y: Ref)
    requires DistinctIds(refs) && x in refs && y in refs && x.id == y.id
    ensures x == y
  {}

  /** With distinct ids there is at most one root-to-leaf chain. */
  lemma ChainUnique(refs: seq<Ref>, a: seq<Ref>, b: seq<Ref>)
    requires DistinctIds(refs) && IsChain(refs, a) && IsChain(refs, b)
    ensures a == b
  {
    var n := if |a| <= |b| then |a| else |b|;
    ChainSuffix(refs, a, b, n);
    assert a[|a| - n] == a[|a| - n..][0] == b[|b| - n..][0] == b[|b| - n];
    assert |a| == |b|;
    assert a == a[|a| - n..] && b == b[|b| - n..];
  }

  /** A successful walk returns the chain, and there is a chain only if it succeeds. */
  lemma BranchIsChain(refs: seq<Ref>, b: seq<Ref>)
    requires refs != [] && DistinctIds(refs)
    ensures Branch(refs) == Ok(b) <==> IsChain(refs, b)
  {
    if Branch(refs).Ok? {
      ClimbChain(refs, |refs| - 1, 0);
      if IsChain(refs, b) { ChainUnique(refs, b, Branch(refs).value); }
    } else if IsChain(refs, b) {
      ThreeResults(refs);
      forall k: nat | k < |b| ensures Ancestor(refs, k).At? && refs[Ancestor(refs, k).i] == b[|b| - 1 - k] {
        ChainClimbs(refs, b, k);
      }
      assert Ancestor(refs, |b|) == Up(refs, Ancestor(refs, |b| - 1));
      BrokenExactly(refs);
      CycleExactly(refs);
      if Branch(refs) == Err(Cycle) {
        var m, n :| 0 <= m < n && Ancestor(refs, m).At? && Ancestor(refs, m) == Ancestor(refs, n);
        RepeatsForever(refs, m, n, |b|);
      } else {
        var m: nat :| Ancestor(refs, m).NoParent?;
        OneFate(refs, m, |b|);
      }
    }
  }

  lemma {:induction false} ChainClimbs(refs: seq<Ref>, b: seq<Ref>, k: nat)
    requires refs != [] && DistinctIds(refs) && IsChain(refs, b) && k < |b|
    ensures Ancestor(refs, k).At? && refs[Ancestor(refs, k).i] == b[|b| - 1 - k]
  {
    if k > 0 {
      ChainClimbs(refs, b, k - 1);
      var x := b[|b| - 1 - k];
      var i :| 0 <= i < |refs| && refs[i] == x;
      assert b[|b| - k].parent == x.id;
      SameId(refs, refs[Find(refs, x.id).value], x);
    }
  }

  /** A chain that visited an entry twice would never end. */
  lemma ChainVisitsOnce(refs: seq<Ref>, b: seq<Ref>, i: nat, j: nat)
    requires refs != [] && DistinctIds(refs) && IsChain(refs, b) && i < j < |b|
    ensures b[i].id != b[j].id
  {
    hide IsChain, Ancestor;
    var m, n, end := |b| - 1 - j, |b| - 1 - i, |b|;
    ChainClimbs(refs, b, m);
    ChainClimbs(refs, b, n);
    ChainEnds(refs, b);
    if b[i].id == b[j].id {
      SamePlace(refs, Ancestor(refs, m), Ancestor(refs, n));
      RepeatsForever(refs, m, n, end);
    }
  }

  lemma SamePlace(refs: seq<Ref>, p: Place, q: Place)
    requires DistinctIds(refs) && p.At? && q.At? && p.i < |refs| && q.i < |refs| && refs[p.i].id == refs[q.i].id
    ensures p == q
  {}

  lemma ChainEnds(refs: seq<Ref>, b: seq<Ref>)
    requires DistinctIds(refs) && IsChain(refs, b)
    ensures Ancestor(refs, |b|) == AboveRoot
  {
    ChainClimbs(refs, b, |b| - 1);
    assert Ancestor(refs, |b|) == Up(refs, Ancestor(refs, |b| - 1));
  }

  lemma ChainDistinct(refs: seq<Ref>, b: seq<Ref>)
    requires DistinctIds(refs) && IsChain(refs, b)
    ensures DistinctIds(b)
  {
    forall i, j | 0 <= i < j < |b| ensures b[i].id != b[j].id { ChainVisitsOnce(refs, b, i, j); }
  }
}
