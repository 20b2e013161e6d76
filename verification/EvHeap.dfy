/** A libev watcher, with the fields the event loop itself reads and writes. */
module EvWatcher {
  /** Number of priorities (EV_MAXPRI - EV_MINPRI + 1). */
  const NUMPRI: nat := 5

  /** An absolute priority, ABSPRI (w): 0 is the lowest. */
  type Priority = p: nat | p < NUMPRI

  class Watcher {
    const pri: Priority  // priority, shifted to start at 0
    var active: nat      // 0 when stopped, otherwise the slot in the heap
    var pending: nat     // 0 when not pending, otherwise 1 + index in the pending queue
    var at: real         // expiry time when active, delay otherwise
    var repeat: real     // repeat interval, 0 for a one-shot timer

    constructor (pri: Priority, after: real, repeat: real)
      ensures this.pri == pri && active == 0 && pending == 0
      ensures at == after && this.repeat == repeat
    {
      this.pri := pri;
      this.active, this.pending := 0, 0;
      this.at, this.repeat := after, repeat;
    }
  }
}

/**
 * The 4-ary heap shared by timers and periodics. Element i of the sequence is slot i + HEAP0 of the C
 * array, whose first HEAP0 slots are never used; ev_active holds the slot number.
 */
module EvHeap {
  import opened EvWatcher

  const DHEAP: nat := 4
  const HEAP0: nat := DHEAP - 1

  /** A heap element: the watcher and its cached expiry time. */
  datatype Anhe = Anhe(w: Watcher, at: real)

  /** Division of C, which truncates toward zero. */
  function TruncDiv(a: int, b: int): int
    requires b > 0
  {
    if a >= 0 then a / b else -((-a) / b)
  }

  /** HPARENT (i + HEAP0) - HEAP0; truncation makes the root its own parent. */
  function Parent(i: nat): (p: nat)
    ensures i == 0 ==> p == 0
    ensures i > 0 ==> p < i && DHEAP * p + 1 <= i <= DHEAP * p + DHEAP
  {
    TruncDiv(i - 1, DHEAP)
  }

  ghost predicate Ordered(h: seq<Anhe>) {
    forall i :: 0 < i < |h| ==> h[Parent(i)].at <= h[i].at
  }

  /** Ordered, except that element k may be too large for its children or too small for its parent. */
  ghost predicate OrderedExcept(h: seq<Anhe>, k: nat) {
    && (forall i :: 0 < i < |h| && i != k && Parent(i) != k ==> h[Parent(i)].at <= h[i].at)
    && (forall i :: 0 < i < |h| && Parent(i) == k && k > 0 ==> h[Parent(k)].at <= h[i].at)
  }

  /** Ordered, except that element k may be too large for its children. */
  ghost predicate OrderedAbove(h: seq<Anhe>, k: nat) {
    OrderedExcept(h, k) && (0 < k < |h| ==> h[Parent(k)].at <= h[k].at)
  }

  /** Ordered, except that element k may be too small for its parent. */
  ghost predicate OrderedBelow(h: seq<Anhe>, k: nat) {
    OrderedExcept(h, k) && (forall i :: 0 < i < |h| && Parent(i) == k ==> h[k].at <= h[i].at)
  }

  ghost function Watchers(h: seq<Anhe>): set<Watcher> {
    set e | e in h :: e.w
  }

  /** Every watcher knows its slot, except possibly the one at k; no watcher occurs twice. */
  ghost predicate PlacedExcept(h: seq<Anhe>, k: nat)
    reads Watchers(h)
  {
    && (forall i :: 0 <= i < |h| && i != k ==> h[i].w.active == i + HEAP0)
    && (forall i :: 0 <= i < |h| && i != k && k < |h| ==> h[i].w != h[k].w)
  }

  ghost predicate Placed(h: seq<Anhe>)
    reads Watchers(h)
  {
    forall i :: 0 <= i < |h| ==> h[i].w.active == i + HEAP0
  }

  /** The first element of a heap is a minimum. */
  lemma {:induction false} RootIsMinimum(h: seq<Anhe>, i: nat)
    requires Ordered(h) && i < |h|
    ensures h[0].at <= h[i].at
  {
    if i > 0 {
      RootIsMinimum(h, Parent(i));
    }
  }

  function Swap(g: seq<Anhe>, i: nat, j: nat): seq<Anhe>
    requires i < |g| && j < |g|
  {
    g[i := g[j]][j := g[i]]
  }

  lemma SameElements(g: seq<Anhe>, h: seq<Anhe>)
    requires multiset(g) == multiset(h)
    ensures |g| == |h| && Watchers(g) == Watchers(h)
    ensures forall e :: e in g <==> e in h
  {
    assert |multiset(g)| == |multiset(h)|;
    forall e ensures e in g <==> e in h {
      assert e in g <==> e in multiset(g);
      assert e in h <==> e in multiset(h);
    }
  }

  /** One step of downheap: exchanging element k with its least child moves the defect to that child. */
  lemma StepDown(g: seq<Anhe>, k: nat, c: nat)
    requires 0 < c < |g| && Parent(c) == k
    requires OrderedAbove(g, k) && g[c].at < g[k].at
    requires forall i :: 0 < i < |g| && Parent(i) == k ==> g[c].at <= g[i].at
    ensures OrderedAbove(Swap(g, k, c), c)
  {
    var s := Swap(g, k, c);
    forall i | 0 < i < |s| && i != c && Parent(i) != c ensures s[Parent(i)].at <= s[i].at {
      if i == k {
        assert s[i] == g[c];
        assert Parent(i) != k;
      } else if Parent(i) == k {
      } else {
        assert s[i] == g[i] && s[Parent(i)] == g[Parent(i)];
      }
    }
    forall i | 0 < i < |s| && Parent(i) == c ensures s[Parent(c)].at <= s[i].at {
      assert s[i] == g[i] && s[k] == g[c];
    }
  }

  /** One step of upheap: exchanging element k with its larger parent moves the defect to the parent. */
  lemma StepUp(g: seq<Anhe>, k: nat)
    requires 0 < k < |g|
    requires OrderedBelow(g, k) && g[k].at < g[Parent(k)].at
    ensures OrderedBelow(Swap(g, k, Parent(k)), Parent(k))
  {
    var p := Parent(k);
    var s := Swap(g, k, p);
    assert s[p] == g[k] && s[k] == g[p];
    forall i | 0 < i < |s| && i != p && Parent(i) != p ensures s[Parent(i)].at <= s[i].at {
      if Parent(i) == k {
        assert s[i] == g[i];
      } else {
        assert s[i] == g[i] && s[Parent(i)] == g[Parent(i)];
      }
    }
    forall i | 0 < i < |s| && Parent(i) == p
      ensures s[p].at <= s[i].at
      ensures p > 0 ==> s[Parent(p)].at <= s[i].at
    {
      if i != k {
        assert s[i] == g[i];
        assert g[p].at <= g[i].at;
      }
      if p > 0 {
        assert s[Parent(p)] == g[Parent(p)];
        assert g[Parent(p)].at <= g[p].at;
      }
    }
  }

  lemma AppendWatchers(h: seq<Anhe>, e: Anhe)
    ensures Watchers(h + [e]) == Watchers(h) + {e.w}
  {
    assert (h + [e])[|h|] == e;
    forall x | x in Watchers(h) ensures x in Watchers(h + [e]) {
      var d :| d in h && d.w == x;
      assert d in h + [e];
    }
  }

  ghost predicate DistinctWatchers(h: seq<Anhe>) {
    forall i, j :: 0 <= i < j < |h| ==> h[i].w != h[j].w
  }

  /** Element k removed by moving the last element into its place. */
  function Without(h: seq<Anhe>, k: nat): (g: seq<Anhe>)
    requires k < |h|
    ensures |g| == |h| - 1
    ensures forall i :: 0 <= i < |g| ==> g[i] == h[if i == k then |h| - 1 else i]
  {
    var n := |h| - 1;
    if k < n then h[..n][k := h[n]] else h[..n]
  }

  lemma WithoutWatchers(h: seq<Anhe>, k: nat)
    requires k < |h| && DistinctWatchers(h)
    ensures Watchers(Without(h, k)) == Watchers(h) - {h[k].w}
  {
    var g, n := Without(h, k), |h| - 1;
    forall x | x in Watchers(h) - {h[k].w} ensures x in Watchers(g) {
      var i :| 0 <= i < |h| && h[i].w == x;
      assert g[if i == n then k else i] == h[i];
    }
    forall x | x in Watchers(g) ensures x in Watchers(h) - {h[k].w} {
      var i :| 0 <= i < |g| && g[i].w == x;
      assert g[i] == h[if i == k then n else i];
    }
  }

  lemma WithoutDefect(h: seq<Anhe>, k: nat)
    requires Ordered(h) && k < |h|
    ensures OrderedExcept(Without(h, k), k)
    ensures k == |h| - 1 ==> Ordered(Without(h, k))
  {
    DropLastOrdered(h);
    if k < |h| - 1 {
      ReplaceDefect(h[..|h| - 1], k, h[|h| - 1]);
    }
  }

  lemma ReplaceWatchers(h: seq<Anhe>, k: nat, e: Anhe)
    requires k < |h| && e.w == h[k].w
    ensures Watchers(h[k := e]) == Watchers(h)
  {
    var g := h[k := e];
    forall x | x in Watchers(h) ensures x in Watchers(g) {
      var i :| 0 <= i < |h| && h[i].w == x;
      assert g[i] in g && g[i].w == x;
    }
    assert h[k] in h;
  }

  /** Appending an element may only put it below a larger parent. */
  lemma AppendDefect(h: seq<Anhe>, e: Anhe)
    requires Ordered(h)
    ensures OrderedBelow(h + [e], |h|)
  {
    forall i | 0 < i < |h| ensures (h + [e])[i] == h[i] && (h + [e])[Parent(i)] == h[Parent(i)] {
    }
  }

  /** Replacing element k may only disturb the order around k. */
  lemma ReplaceDefect(h: seq<Anhe>, k: nat, e: Anhe)
    requires Ordered(h) && k < |h|
    ensures OrderedExcept(h[k := e], k)
  {
    var g := h[k := e];
    forall i | 0 < i < |g| && Parent(i) == k && k > 0 ensures g[Parent(k)].at <= g[i].at {
      assert h[Parent(k)].at <= h[k].at <= h[i].at;
    }
  }

  /** Dropping the last element keeps the order. */
  lemma DropLastOrdered(h: seq<Anhe>)
    requires Ordered(h) && |h| > 0
    ensures Ordered(h[..|h| - 1])
  {
    var g := h[..|h| - 1];
    forall i | 0 < i < |g| ensures g[Parent(i)].at <= g[i].at {
      assert g[i] == h[i] && g[Parent(i)] == h[Parent(i)];
    }
  }

  /** The element that is being moved is held back in he; element k is free. */
  ghost predicate Sifting(heap: seq<Anhe>, h: seq<Anhe>, k: nat, he: Anhe)
    reads Watchers(heap)
  {
    && k < |h| == |heap|
    && h[k] in heap && he in heap
    && multiset(h[k := he]) == multiset(heap)
    && (forall i :: 0 <= i < |h| && i != k ==> h[i] in heap && h[i].w.active == i + HEAP0 && h[i].w != he.w)
  }

  lemma ShiftIsSwap(h: seq<Anhe>, k: nat, c: nat, he: Anhe)
    requires k < |h| && c < |h| && c != k
    ensures h[k := h[c]][c := he] == Swap(h[k := he], k, c)
    ensures multiset(h[k := h[c]][c := he]) == multiset(h[k := he])
  {
  }

  /** The element in slot c moves to the free slot k and is told so; c is free then. */
  method Shift(ghost heap: seq<Anhe>, h: seq<Anhe>, k: nat, c: nat, ghost he: Anhe) returns (h': seq<Anhe>)
    requires c < |h| && c != k && Sifting(heap, h, k, he)
    modifies h[c].w`active
    ensures h' == h[k := h[c]]
    ensures h'[c := he] == Swap(h[k := he], k, c)
    ensures Sifting(heap, h', c, he)
  {
    ShiftIsSwap(h, k, c, he);
    h' := h[k := h[c]];
    h'[k].w.active := k + HEAP0;
    hide Swap;
    forall i | 0 <= i < |h'| && i != c ensures h'[i].w.active == i + HEAP0 {
      if i != k {
        assert h[i].w != h[c].w;
      }
    }
  }

  method Settle(ghost heap: seq<Anhe>, h: seq<Anhe>, k: nat, he: Anhe) returns (h': seq<Anhe>)
    requires Sifting(heap, h, k, he)
    modifies he.w`active
    ensures h' == h[k := he] && Placed(h') && multiset(h') == multiset(heap)
  {
    h' := h[k := he];
    he.w.active := k + HEAP0;
  }

  /** Finds a least child of element k, if there is one. */
  method MinChild(h: seq<Anhe>, k: nat) returns (found: bool, minpos: nat)
    requires k < |h|
    ensures !found ==> forall i :: 0 < i < |h| ==> Parent(i) != k
    ensures found ==> 0 < minpos < |h| && Parent(minpos) == k
    ensures found ==> forall i :: 0 < i < |h| && Parent(i) == k ==> h[minpos].at <= h[i].at
  {
    var pos := DHEAP * k + 1;
    minpos := pos;
    found := true;
    if pos + DHEAP - 1 < |h| {
      if h[pos + 1].at < h[minpos].at { minpos := pos + 1; }
      if h[pos + 2].at < h[minpos].at { minpos := pos + 2; }
      if h[pos + 3].at < h[minpos].at { minpos := pos + 3; }
    } else if pos < |h| {
      if pos + 1 < |h| && h[pos + 1].at < h[minpos].at { minpos := pos + 1; }
      if pos + 2 < |h| && h[pos + 2].at < h[minpos].at { minpos := pos + 2; }
      // the fourth child exists on the fast path only
    } else {
      found := false;
    }
  }

  /** An element that is not too large for its children either leaves the heap ordered. */
  lemma AtRest(g: seq<Anhe>, k: nat)
    requires OrderedAbove(g, k)
    requires forall i :: 0 < i < |g| && Parent(i) == k ==> g[k].at <= g[i].at
    ensures Ordered(g)
  {
    forall i | 0 < i < |g| ensures g[Parent(i)].at <= g[i].at {
    }
  }

  /** Moves the element at k0 away from the root until the heap is ordered. */
  method Downheap(heap: seq<Anhe>, k0: nat) returns (h: seq<Anhe>)
    requires k0 < |heap| && PlacedExcept(heap, k0) && OrderedAbove(heap, k0)
    modifies Watchers(heap)`active
    ensures multiset(h) == multiset(heap) && |h| == |heap|
    ensures Placed(h) && Ordered(h)
  {
    hide Ordered, OrderedAbove;
    h := heap;
    var k := k0;
    var he := h[k];
    assert h[k := he] == heap;
    while true
      invariant Sifting(heap, h, k, he)
      invariant OrderedAbove(h[k := he], k)
      decreases |h| - k
    {
      var found, minpos := MinChild(h, k);
      if !found {
        AtRest(h[k := he], k);
        break;
      }
      assert Parent(minpos) == k && h[minpos] in heap;
      if he.at <= h[minpos].at {
        AtRest(h[k := he], k);
        break;
      }
      StepDown(h[k := he], k, minpos);
      h := Shift(heap, h, k, minpos, he);
      k := minpos;
    }
    h := Settle(heap, h, k, he);
    SameElements(h, heap);
  }

  /** Moves the element at k0 towards the root until the heap is ordered. */
  method Upheap(heap: seq<Anhe>, k0: nat) returns (h: seq<Anhe>)
    requires k0 < |heap| && PlacedExcept(heap, k0) && OrderedBelow(heap, k0)
    modifies Watchers(heap)`active
    ensures multiset(h) == multiset(heap) && |h| == |heap|
    ensures Placed(h) && Ordered(h)
  {
    h := heap;
    var k := k0;
    var he := h[k];
    assert h[k := he] == heap;
    while true
      invariant Sifting(heap, h, k, he)
      invariant OrderedBelow(h[k := he], k)
      decreases k
    {
      var p := Parent(k);
      if p == k || h[p].at <= he.at {
        break;
      }
      assert h[p] in heap;
      StepUp(h[k := he], k);
      h := Shift(heap, h, k, p, he);
      k := p;
    }
    h := Settle(heap, h, k, he);
    SameElements(h, heap);
  }

  /** Restores the order after element k was replaced or had its time changed. */
  method Adjustheap(heap: seq<Anhe>, k: nat) returns (h: seq<Anhe>)
    requires k < |heap| && PlacedExcept(heap, k) && OrderedExcept(heap, k)
    modifies Watchers(heap)`active
    ensures multiset(h) == multiset(heap) && |h| == |heap|
    ensures Placed(h) && Ordered(h)
  {
    if k > 0 && heap[k].at <= heap[Parent(k)].at {
      h := Upheap(heap, k);
    } else {
      h := Downheap(heap, k);
    }
  }

  lemma PlacedMeansDistinct(h: seq<Anhe>)
    requires Placed(h)
    ensures DistinctWatchers(h)
  {
  }

  lemma PrefixReady(h: seq<Anhe>, i: nat)
    requires i < |h| && Placed(h) && Ordered(h[..i])
    ensures OrderedBelow(h[..i + 1], i) && PlacedExcept(h[..i + 1], i) && Watchers(h[..i + 1]) <= Watchers(h)
    ensures forall j :: i < j < |h| ==> h[j].w !in Watchers(h[..i + 1])
  {
    AppendDefect(h[..i], h[i]);
    assert h[..i] + [h[i]] == h[..i + 1];
    PlacedMeansDistinct(h);
  }

  lemma Rejoined(before: seq<Anhe>, front: seq<Anhe>, i: nat)
    requires i < |before| && |front| == i + 1 && multiset(front) == multiset(before[..i + 1])
    ensures var h := front + before[i + 1..];
            && |h| == |before| && multiset(h) == multiset(before)
            && h[..i + 1] == front && forall j :: i < j < |h| ==> h[j] == before[j]
  {
    assert before == before[..i + 1] + before[i + 1..];
  }

  /** reheap: upheap for every element from the root on; element i moves within the first i + 1. */
  method Reheap(heap: seq<Anhe>) returns (h: seq<Anhe>)
    requires Placed(heap)
    modifies Watchers(heap)`active
    ensures multiset(h) == multiset(heap) && |h| == |heap|
    ensures Placed(h) && Ordered(h)
  {
    hide OrderedBelow;
    h := heap;
    assert h[..0] == [];
    for i := 0 to |heap|
      invariant |h| == |heap| && multiset(h) == multiset(heap) && Placed(h) && Ordered(h[..i])
    {
      PrefixReady(h, i);
      SameElements(h, heap);
      ghost var before := h;
      var front := Upheap(h[..i + 1], i);
      SameElements(front, h[..i + 1]);
      Rejoined(before, front, i);
      h := front + h[i + 1..];
      forall j | 0 <= j < |h| ensures h[j].w.active == j + HEAP0 {
        assert h[j] == if j <= i then front[j] else before[j];
      }
    }
    assert h[..|heap|] == h;
  }

  /** Which way a misplaced heap element may have to move. */
  datatype Direction = Up | Down | Either

  ghost predicate Misplaced(h: seq<Anhe>, k: nat, direction: Direction) {
    match direction
    case Up => OrderedBelow(h, k)
    case Down => OrderedAbove(h, k)
    case Either => OrderedExcept(h, k)
  }

  /** Sorts the misplaced element k, if there is one, into place. */
  method Sift(heap: seq<Anhe>, k: nat, direction: Direction) returns (h: seq<Anhe>)
    requires k <= |heap| && PlacedExcept(heap, k) && Misplaced(heap, k, direction)
    modifies Watchers(heap)`active
    ensures Watchers(h) == Watchers(heap) && (forall e :: e in h ==> e in heap)
    ensures Placed(h) && Ordered(h)
  {
    if k == |heap| {
      return heap;
    }
    match direction {
      case Up => h := Upheap(heap, k);
      case Down => h := Downheap(heap, k);
      case Either => h := Adjustheap(heap, k);
    }
    SameElements(h, heap);
  }
}
