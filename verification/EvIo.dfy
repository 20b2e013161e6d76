/** The io watchers of a libev loop: the fd table, its lazy synchronisation with the backend, and dispatch. */
module EvIo {
  import opened Common
  import opened EvPoll

  const EV_ANFD_REIFY: Mask := 1

  class Io {
    const fd: nat
    var events: Mask     // what the watcher waits for
    var active: bool
    var next: Io?        // next watcher of the same fd

    /** ev_io_init */
    constructor (fd: nat, events: Mask)
      ensures this.fd == fd && this.events == events | EV_IOFDSET && !active && next == null
    {
      this.fd := fd;
      this.events := events | EV_IOFDSET;
      active := false;
      next := null;
    }
  }

  /** The table entry of an fd: its list of watchers, the mask given to the backend, and the change flags. */
  datatype Anfd = Anfd(head: Io?, events: Mask, reify: Mask)

  function Successor(l: seq<Io>, i: nat): Io? {
    if i + 1 < |l| then l[i + 1] else null
  }

  /** The linked list starting at head consists of the watchers l. */
  ghost predicate ListOf(head: Io?, l: seq<Io>)
    reads l`next
  {
    && head == (if l == [] then null else l[0])
    && (forall i :: 0 <= i < |l| ==> l[i].next == Successor(l, i))
  }

  /** The OR of the masks of the watchers l. */
  ghost function MaskOf(l: seq<Io>): Mask
    reads l`events
  {
    if l == [] then 0 else MaskOf(l[..|l| - 1]) | l[|l| - 1].events
  }

  lemma {:induction false} MaskIsLegal(l: seq<Io>)
    requires forall w :: w in l ==> Legal(w.events)
    ensures Legal(MaskOf(l))
  {
    if l != [] {
      MaskIsLegal(l[..|l| - 1]);
    }
  }

  /** An event is in the OR exactly if some watcher waits for it. */
  lemma {:induction false} MaskIsExact(l: seq<Io>, bits: Mask)
    ensures MaskOf(l) & bits != 0 <==> exists w :: w in l && w.events & bits != 0
  {
    if l != [] {
      var front, w := l[..|l| - 1], l[|l| - 1];
      MaskIsExact(front, bits);
      OrHas(MaskOf(front), w.events, bits);
      assert l == front + [w];
    }
  }

  lemma OrHas(a: Mask, b: Mask, bits: Mask)
    ensures (a | b) & bits != 0 <==> a & bits != 0 || b & bits != 0
  {
  }

  /** The flags ask for input exactly if some of the watchers waits for EV_READ, for output if one waits for EV_WRITE. */
  ghost predicate AsksFor(flags: bv16, l: seq<Io>)
    reads l`events
  {
    && (flags & 0x001 != 0 <==> exists w :: w in l && w.events & 0x01 != 0)
    && (flags & 0x004 != 0 <==> exists w :: w in l && w.events & 0x02 != 0)
    && flags & !0x005 == 0
  }

  lemma AsksExactly(l: seq<Io>)
    ensures AsksFor(ToPoll(MaskOf(l)), l)
  {
    hide ToPoll;
    MaskIsExact(l, 0x01);
    MaskIsExact(l, 0x02);
    ToPollExact(MaskOf(l));
  }

  ghost function Without(l: seq<Io>, w: Io): seq<Io> {
    if l == [] then [] else if l[0] == w then l[1..] else [l[0]] + Without(l[1..], w)
  }

  lemma {:induction false} WithoutAt(l: seq<Io>, k: nat)
    requires k < |l| && l[k] !in l[..k]
    ensures Without(l, l[k]) == l[..k] + l[k + 1..]
  {
    if k > 0 {
      assert l[1..][..k - 1] == l[..k][1..];
      WithoutAt(l[1..], k - 1);
      assert l[..k] + l[k + 1..] == [l[0]] + (l[1..][..k - 1] + l[1..][k..]);
    }
  }

  lemma {:induction false} WithoutAbsent(l: seq<Io>, w: Io)
    requires w !in l
    ensures Without(l, w) == l
  {
    if l != [] {
      WithoutAbsent(l[1..], w);
    }
  }

  lemma {:induction false} WithoutMembers(l: seq<Io>, w: Io)
    requires Distinct(l)
    ensures Distinct(Without(l, w))
    ensures forall x :: x in Without(l, w) <==> x in l && x != w
  {
    if l != [] && l[0] != w {
      WithoutMembers(l[1..], w);
      assert l == [l[0]] + l[1..];
      var r := Without(l[1..], w);
      assert l[0] !in r;
      forall i, j | 0 <= i < j < |r| + 1 ensures ([l[0]] + r)[i] != ([l[0]] + r)[j] {
        assert r[j - 1] in r;
      }
    }
  }

  /** wlist_add */
  method WlistAdd(head: Io?, w: Io, ghost l: seq<Io>) returns (head': Io?)
    requires ListOf(head, l) && w !in l
    modifies w`next
    ensures ListOf(head', [w] + l)
  {
    w.next := head;
    head' := w;
  }

  /** wlist_del: removes the first occurrence of w from the list, if there is one. */
  method WlistDel(head: Io?, w: Io, ghost l: seq<Io>) returns (head': Io?)
    requires ListOf(head, l) && Distinct(l)
    modifies l`next
    ensures ListOf(head', Without(l, w))
  {
    head' := head;
    var prev: Io? := null;
    var cur := head;
    ghost var k := 0;
    while cur != null
      invariant k <= |l| && cur == (if k == |l| then null else l[k])
      invariant prev == if k == 0 then null else l[k - 1]
      invariant w !in l[..k] && head' == head && ListOf(head, l)
      decreases |l| - k
    {
      if cur == w {
        WithoutAt(l, k);
        if prev == null {
          head' := w.next;
        } else {
          prev.next := w.next;
        }
        return;
      }
      prev := cur;
      cur := cur.next;
      k := k + 1;
    }
    assert l[..k] == l;
    WithoutAbsent(l, w);
  }

  /** The loop of fd_reify over the watchers of one fd. */
  method OrEvents(head: Io?, ghost l: seq<Io>) returns (events: Mask)
    requires ListOf(head, l)
    ensures events == MaskOf(l)
  {
    events := 0;
    var w := head;
    ghost var k := 0;
    while w != null
      invariant k <= |l| && w == (if k == |l| then null else l[k])
      invariant events == MaskOf(l[..k])
      decreases |l| - k
    {
      assert l[..k + 1][..k] == l[..k];
      events := events | w.events;
      w := w.next;
      k := k + 1;
    }
    assert l[..k] == l;
  }

  /** The watchers among l that wait for some of the events, each with those it waits for. */
  ghost function Hits(l: seq<Io>, revents: Mask): seq<(Io, Mask)>
    reads l`events
  {
    if l == [] then [] else Hits(l[..|l| - 1], revents) + Hit(l[|l| - 1], revents)
  }

  ghost function Hit(w: Io, revents: Mask): seq<(Io, Mask)>
    reads w`events
  {
    if w.events & revents != 0 then [(w, w.events & revents)] else []
  }

  ghost predicate IsHit(p: (Io, Mask), revents: Mask)
    reads p.0`events
  {
    p.1 == p.0.events & revents && p.1 != 0
  }

  lemma HitIsExact(w: Io, revents: Mask, p: (Io, Mask))
    ensures p in Hit(w, revents) <==> p.0 == w && IsHit(p, revents)
  {
  }

  lemma {:induction false} HitsAreHits(l: seq<Io>, revents: Mask, p: (Io, Mask))
    ensures p in Hits(l, revents) <==> p.0 in l && IsHit(p, revents)
  {
    hide IsHit, Hit;
    if l != [] {
      var front, w := l[..|l| - 1], l[|l| - 1];
      HitsAreHits(front, revents, p);
      HitIsExact(w, revents, p);
      assert l == front + [w];
    }
  }

  /** The watchers that wait for some of the events are fed exactly those. */
  lemma HitsAreExact(l: seq<Io>, revents: Mask, p: (Io, Mask))
    ensures p in Hits(l, revents) <==> p.0 in l && p.1 == p.0.events & revents && p.1 != 0
  {
    hide Hits, IsHit;
    HitsAreHits(l, revents, p);
    IsHitMeans(p, revents);
  }

  lemma IsHitMeans(p: (Io, Mask), revents: Mask)
    ensures IsHit(p, revents) <==> p.1 == p.0.events & revents && p.1 != 0
  {
  }

  /** Every watcher is fed at most once. */
  lemma {:induction false} HitsOnce(l: seq<Io>, revents: Mask)
    requires Distinct(l)
    ensures Distinct(Hits(l, revents))
  {
    hide Hit;
    if l != [] {
      var front, w := l[..|l| - 1], l[|l| - 1];
      HitsOnce(front, revents);
      HitsAreExact(front, revents, (w, w.events & revents));
      OneHit(w, revents);
      assert l == front + [w];
      hide Distinct;
      DistinctAppend(Hits(front, revents), (w, w.events & revents));
      assert Hits(front, revents) + [] == Hits(front, revents);
    }
  }

  /** They are fed in the order of the list. */
  lemma {:induction false} HitsInOrder(l: seq<Io>, revents: Mask, i: nat, j: nat) returns (a: nat, b: nat)
    requires i < j < |Hits(l, revents)|
    ensures a < b < |l| && Hits(l, revents)[i].0 == l[a] && Hits(l, revents)[j].0 == l[b]
  {
    var front, w := l[..|l| - 1], l[|l| - 1];
    OneHit(w, revents);
    if j < |Hits(front, revents)| {
      a, b := HitsInOrder(front, revents, i, j);
    } else {
      HitsAreExact(front, revents, Hits(front, revents)[i]);
      a :| 0 <= a < |front| && front[a] == Hits(front, revents)[i].0;
      b := |l| - 1;
    }
  }

  lemma OneHit(w: Io, revents: Mask)
    ensures Hit(w, revents) == [] || Hit(w, revents) == [(w, w.events & revents)]
  {
  }

  lemma DistinctAppend<T>(l: seq<T>, x: T)
    requires Distinct(l) && x !in l
    ensures Distinct(l + [x])
  {
  }

  /** fd_event_nocheck */
  method FdEventNocheck(head: Io?, revents: Mask, ghost l: seq<Io>) returns (fed: seq<(Io, Mask)>)
    requires ListOf(head, l)
    ensures fed == Hits(l, revents)
  {
    fed := [];
    var w := head;
    ghost var k := 0;
    while w != null
      invariant k <= |l| && w == (if k == |l| then null else l[k])
      invariant fed == Hits(l[..k], revents)
      decreases |l| - k
    {
      assert l[..k + 1][..k] == l[..k];
      var ev := w.events & revents;
      if ev != 0 {
        fed := fed + [(w, ev)];
      }
      w := w.next;
      k := k + 1;
    }
    assert l[..k] == l;
  }

  /** The change is recorded, and if the descriptor itself may be new, that too. */
  predicate FlagsSet(reify: Mask, events: Mask) {
    reify & 0x01 != 0 && (events & 0x80 != 0 ==> reify & 0x80 != 0)
  }

  lemma FlagsAreSet(reify: Mask, events: Mask)
    ensures FlagsSet(reify | ((events & EV_IOFDSET) | EV_ANFD_REIFY), events)
  {
  }

  /** What poll returns: the number of entries with flags. */
  function Reported(revents: seq<bv16>): nat {
    if revents == [] then 0 else (if revents[0] != 0 then 1 else 0) + Reported(revents[1..])
  }

  lemma {:induction false} NoneReported(revents: seq<bv16>)
    requires Reported(revents) == 0
    ensures forall i :: 0 <= i < |revents| ==> revents[i] == 0
  {
    if revents != [] {
      NoneReported(revents[1..]);
      assert revents == [revents[0]] + revents[1..];
    }
  }

  lemma ReportedStep(revents: seq<bv16>, p: nat)
    requires p <= |revents| && Reported(revents[p..]) > 0
    ensures p < |revents|
    ensures Reported(revents[p + 1..]) == Reported(revents[p..]) - if revents[p] != 0 then 1 else 0
  {
    assert revents[p..][1..] == revents[p + 1..];
  }

  /** w is among l and gets these events when poll returns the flags for its fd. */
  ghost predicate Gets(w: Io, events: Mask, l: seq<Io>, flags: bv16)
    reads w`events
  {
    flags & POLLNVAL == 0 && w in l && events == w.events & FromPoll(flags) && events != 0
  }

  lemma NoFlags(w: Io, events: Mask, l: seq<Io>)
    ensures !Gets(w, events, l, 0)
  {
  }

  lemma GetsHits(w: Io, events: Mask, l: seq<Io>, flags: bv16)
    ensures Gets(w, events, l, flags) <==> flags & POLLNVAL == 0 && (w, events) in Hits(l, FromPoll(flags))
  {
    hide Hits, FromPoll;
    HitsAreExact(l, FromPoll(flags), (w, events));
  }

  /** The watchers of fd; fds beyond the table have none. */
  ghost function ListAt(lists: seq<seq<Io>>, fd: nat): seq<Io> {
    if fd < |lists| then lists[fd] else []
  }

  class IoLoop {
    var anfds: seq<Anfd>
    var fdchanges: seq<nat>         // the fds whose entry may differ from the backend
    var poll: Poll
    ghost var lists: seq<seq<Io>>   // the watchers of every fd, newest first
    ghost const ws: set<Io>         // the watchers of the application

    /** ev_verify for one fd: the list of its watchers is sound and the backend watches what the table says. */
    ghost predicate FdOk(fd: nat)
      reads this`anfds, this`lists, this`poll, ws
      requires fd < |anfds| == |lists|
    {
      && (forall w :: w in lists[fd] ==> w in ws && w.fd == fd && w.active && Legal(w.events))
      && Distinct(lists[fd]) && ListOf(anfds[fd].head, lists[fd])
      && Legal(anfds[fd].events) && Watched(poll, fd) == ToPoll(anfds[fd].events)
    }

    /** The table, and so the backend, agrees with the watchers of fd. */
    ghost predicate Synced(fd: nat)
      reads this`anfds, this`lists, ws`events
      requires fd < |anfds| == |lists|
    {
      (forall w :: w in lists[fd] ==> w in ws) && anfds[fd].events == MaskOf(lists[fd])
    }

    ghost predicate BackendOk()
      reads this`poll, this`anfds
    {
      && Inverse(poll) && NoIdleEntry(poll)
      && forall fd: nat :: fd >= |anfds| ==> Watched(poll, fd) == 0
    }

    /** fdchanges lists exactly the flagged fds, each once. */
    ghost predicate ChangesOk(changes: seq<nat>)
      reads this`anfds
    {
      && Distinct(changes) && (forall fd :: fd in changes ==> fd < |anfds|)
      && forall fd :: 0 <= fd < |anfds| ==> (anfds[fd].reify != 0 <==> fd in changes)
    }

    /** What holds while the backend may disagree about the fds in changes and, for a moment, about dirty. */
    ghost predicate ValidBut(changes: seq<nat>, dirty: int)
      reads this`anfds, this`lists, this`poll, ws
    {
      && |anfds| == |lists| && BackendOk() && ChangesOk(changes)
      && (forall fd :: 0 <= fd < |anfds| ==> FdOk(fd) && (fd !in changes && fd != dirty ==> Synced(fd)))
      && (forall w :: w in ws && w.active ==> w.fd < |lists| && w in lists[w.fd])
    }

    /** Before fd_reify only the fds listed in fdchanges may disagree with the backend. */
    ghost predicate Valid()
      reads this`anfds, this`lists, this`poll, this`fdchanges, ws
    {
      ValidBut(fdchanges, -1)
    }

    constructor (ghost ws: set<Io>)
      requires forall w :: w in ws ==> !w.active
      ensures Valid() && this.ws == ws && lists == [] && fdchanges == []
    {
      anfds := [];
      fdchanges := [];
      poll := NOTHING;
      lists := [];
      this.ws := ws;
    }

    /** array_needsize (ANFD, anfds, anfdmax, cnt, array_init_zero) */
    method GrowTable(cnt: nat)
      requires Valid()
      modifies this`anfds, this`lists
      ensures Valid() && |anfds| >= cnt
      ensures forall fd :: ListAt(lists, fd) == ListAt(old(lists), fd)
    {
      if cnt > |anfds| {
        var size := ArrayNextsize(16, |anfds|, cnt);
        ghost var n := |anfds|;
        anfds := anfds + seq(size - |anfds|, _ => Anfd(null, 0, 0));
        lists := lists + seq(size - |lists|, _ => []);
        forall fd | 0 <= fd < |anfds| ensures FdOk(fd) && (fd !in fdchanges ==> Synced(fd)) {
          if fd < n {
            assert old(FdOk(fd) && (fd !in fdchanges ==> Synced(fd)));
          }
        }
      }
    }

    /** An fd whose entry, watchers and backend state stayed the same is as sound and as synced as before. */
    twostate lemma FdKept(fd: nat)
      requires fd < old(|anfds|) == old(|lists|) && fd < |anfds| == |lists| && old(FdOk(fd))
      requires anfds[fd].head == old(anfds[fd].head) && anfds[fd].events == old(anfds[fd].events)
      requires lists[fd] == old(lists[fd]) && Watched(poll, fd) == old(Watched(poll, fd))
      requires forall w :: w in lists[fd] ==>
                 w.next == old(w.next) && w.events == old(w.events) && w.active == old(w.active)
      ensures FdOk(fd) && (old(Synced(fd)) ==> Synced(fd))
    {
    }

    /** Changing lists and heads only leaves the flags and the backend as they are. */
    twostate lemma FlagsKept(changes: seq<nat>)
      requires old(ChangesOk(changes)) && old(BackendOk()) && poll == old(poll) && |anfds| == old(|anfds|)
      requires forall fd :: 0 <= fd < |anfds| ==> anfds[fd].reify == old(anfds[fd].reify)
      ensures ChangesOk(changes) && BackendOk()
    {
    }

    /** fd_change */
    method FdChange(fd: nat, flags: Mask)
      requires ValidBut(fdchanges, fd) && fd < |anfds| && flags != 0
      modifies this`anfds, this`fdchanges
      ensures Valid() && |anfds| == |old(anfds)|
      ensures anfds == old(anfds)[fd := old(anfds[fd]).(reify := old(anfds[fd].reify) | flags)]
      ensures fdchanges == if fd in old(fdchanges) then old(fdchanges) else old(fdchanges) + [fd]
    {
      hide FdOk, Synced, Watched, Inverse, NoIdleEntry;
      var reify := anfds[fd].reify;
      anfds := anfds[fd := anfds[fd].(reify := reify | flags)];
      assert reify | flags != 0;
      if reify == 0 {
        fdchanges := fdchanges + [fd];
      }
      forall x | 0 <= x < |anfds| ensures FdOk(x) && (x !in fdchanges ==> Synced(x)) {
        FdKept(x);
      }
    }

    /** The part of ev_io_start that enters the watcher into the list of its fd. */
    method Link(w: Io)
      requires Valid() && w in ws && !w.active && w.fd < |anfds| && Legal(w.events)
      modifies this`anfds, this`lists, w`active, w`next
      ensures ValidBut(fdchanges, w.fd) && |anfds| == |old(anfds)| && w.active
      ensures lists == old(lists)[w.fd := [w] + old(lists[w.fd])]
    {
      NotLinked(w);
      hide FdOk, Synced, BackendOk, ChangesOk, Distinct, Watched, ListOf, MaskOf;
      var fd := w.fd;
      HeadOk(fd);
      w.active := true;
      var head := WlistAdd(anfds[fd].head, w, lists[fd]);
      anfds := anfds[fd := anfds[fd].(head := head)];
      lists := lists[fd := [w] + lists[fd]];
      FlagsKept(fdchanges);
      forall x | 0 <= x < |anfds| ensures FdOk(x) && (x !in fdchanges && x != fd ==> Synced(x)) {
        if x == fd {
          FdLinked(w);
        } else {
          FdKept(x);
        }
      }
    }

    lemma NotLinked(w: Io)
      requires Valid() && !w.active
      ensures forall fd :: 0 <= fd < |lists| ==> w !in lists[fd]
    {
      forall fd | 0 <= fd < |lists| ensures w !in lists[fd] {
        assert FdOk(fd);
      }
    }

    lemma HeadOk(fd: nat)
      requires Valid() && fd < |anfds|
      ensures ListOf(anfds[fd].head, lists[fd]) && Distinct(lists[fd])
      ensures forall w :: w in lists[fd] ==> w in ws && w.fd == fd
    {
      assert FdOk(fd);
    }

    twostate lemma FdLinked(w: Io)
      requires w.fd < old(|anfds|) == old(|lists|) && |anfds| == |lists| == old(|anfds|) && old(FdOk(w.fd))
      requires w in ws && w.active && Legal(w.events) && w !in old(lists[w.fd])
      requires lists[w.fd] == [w] + old(lists[w.fd]) && ListOf(anfds[w.fd].head, lists[w.fd])
      requires anfds[w.fd].events == old(anfds[w.fd].events) && poll == old(poll)
      requires forall x :: x in old(lists[w.fd]) ==> x.events == old(x.events) && x.active == old(x.active)
      ensures FdOk(w.fd)
    {
    }

    /** ev_io_start; the flag EV__IOFDSET is taken out of the mask before the watcher is linked, not after. */
    method IoStart(w: Io)
      requires Valid() && w in ws && Legal(w.events & !EV_IOFDSET)
      modifies this`anfds, this`lists, this`fdchanges, w`active, w`next, w`events
      ensures Valid() && w.active
      ensures forall fd: nat :: ListAt(lists, fd) ==
                if fd == w.fd && !old(w.active) then [w] + ListAt(old(lists), fd) else ListAt(old(lists), fd)
      ensures !old(w.active) ==> w.events == old(w.events) & !EV_IOFDSET
      ensures !old(w.active) ==> w.fd < |anfds| && w.fd in fdchanges && FlagsSet(anfds[w.fd].reify, old(w.events))
    {
      if w.active {
        return;
      }
      NotLinked(w);
      assert Legal(w.events & !EV_IOFDSET);
      hide FdOk, Synced, BackendOk, ChangesOk, Watched, ListOf, MaskOf, Legal, FlagsSet;
      GrowTable(w.fd + 1);
      NotLinked(w);
      var flags := (w.events & EV_IOFDSET) | EV_ANFD_REIFY;
      assert flags != 0;
      label before:
      w.events := w.events & !EV_IOFDSET;
      EventsKept@before(w);
      Link(w);
      FlagsAreSet(anfds[w.fd].reify, old(w.events));
      FdChange(w.fd, flags);
    }

    /** Changing the mask of a watcher that is in no list disturbs nothing. */
    twostate lemma EventsKept(w: Io)
      requires old(Valid()) && anfds == old(anfds) && lists == old(lists) && poll == old(poll)
      requires fdchanges == old(fdchanges)
      requires forall fd :: 0 <= fd < |lists| ==> w !in lists[fd]
      requires forall x :: x in ws ==> x.next == old(x.next) && x.active == old(x.active)
      requires forall x :: x in ws && x != w ==> x.events == old(x.events)
      ensures Valid()
    {
      hide Synced, BackendOk, ChangesOk, Watched, ListOf, MaskOf, Legal;
      FlagsKept(fdchanges);
      forall fd | 0 <= fd < |anfds| ensures FdOk(fd) && (fd !in fdchanges ==> Synced(fd)) {
        assert old(FdOk(fd));
        FdKept(fd);
      }
    }

    /** The part of ev_io_stop that takes the watcher out of the list of its fd. */
    method Unlink(w: Io)
      requires Valid() && w in ws && w.active && w.fd < |anfds|
      modifies this`anfds, this`lists, w`active, ws`next
      ensures ValidBut(fdchanges, w.fd) && |anfds| == |old(anfds)| && !w.active
      ensures lists == old(lists)[w.fd := Without(old(lists[w.fd]), w)]
    {
      hide FdOk, Synced, BackendOk, ChangesOk, Distinct, Watched, ListOf, MaskOf, Without;
      var fd := w.fd;
      HeadOk(fd);
      ListsApart(fd);
      WithoutMembers(lists[fd], w);
      var head := WlistDel(anfds[fd].head, w, lists[fd]);
      w.active := false;
      anfds := anfds[fd := anfds[fd].(head := head)];
      ghost var shorter := Without(lists[fd], w);
      lists := lists[fd := shorter];
      FlagsKept(fdchanges);
      forall x | 0 <= x < |anfds| ensures FdOk(x) && (x !in fdchanges && x != fd ==> Synced(x)) {
        if x == fd {
          FdUnlinked(w);
        } else {
          FdKept(x);
        }
      }
    }

    twostate lemma FdUnlinked(w: Io)
      requires w.fd < old(|anfds|) == old(|lists|) && |anfds| == |lists| == old(|anfds|) && old(FdOk(w.fd))
      requires lists[w.fd] == Without(old(lists[w.fd]), w) && ListOf(anfds[w.fd].head, lists[w.fd])
      requires anfds[w.fd].events == old(anfds[w.fd].events) && poll == old(poll)
      requires forall x :: x in ws && x != w ==> x.events == old(x.events) && x.active == old(x.active)
      ensures FdOk(w.fd)
    {
      WithoutMembers(old(lists[w.fd]), w);
    }

    /** Lists of different fds share no watcher. */
    lemma ListsApart(fd: nat)
      requires Valid() && fd < |anfds|
      ensures forall x, w :: 0 <= x < |anfds| && x != fd && w in lists[x] ==> w in ws && w !in lists[fd] && w.fd == x
    {
      forall x, w | 0 <= x < |anfds| && x != fd && w in lists[x]
        ensures w in ws && w !in lists[fd] && w.fd == x
      {
        assert FdOk(x) && FdOk(fd);
      }
    }

    /** ev_io_stop; clear_pending is modelled with the event loop. */
    method IoStop(w: Io)
      requires Valid() && w in ws
      modifies this`anfds, this`lists, this`fdchanges, w`active, ws`next
      ensures Valid() && !w.active && |anfds| == |old(anfds)|
      ensures forall fd: nat :: ListAt(lists, fd) ==
                if fd == w.fd && old(w.active) then Without(ListAt(old(lists), fd), w) else ListAt(old(lists), fd)
      ensures forall fd: nat :: fd != w.fd ==> (fd in fdchanges <==> fd in old(fdchanges))
    {
      if !w.active {
        return;
      }
      assert w.fd < |anfds|;
      hide FdOk, Synced, BackendOk, ChangesOk, Watched, ListOf, MaskOf, Without;
      Unlink(w);
      FdChange(w.fd, EV_ANFD_REIFY);
    }

    /** The round of fd_reify for one fd. */
    method ReifyFd(fd: nat, ghost rest: seq<nat>)
      requires fd < |anfds| && ValidBut([fd] + rest, -1)
      modifies this`anfds, this`poll
      ensures ValidBut(rest, -1) && |anfds| == |old(anfds)|
    {
      hide FdOk, Synced, BackendOk, ChangesOk, Watched, ListOf, MaskOf, Legal, ToPoll, Inverse, NoIdleEntry;
      HeadIsOk(fd, [fd] + rest);
      var anfd := anfds[fd];
      var oevents, oreify := anfd.events, anfd.reify;
      var events := OrEvents(anfd.head, lists[fd]);
      if oevents != events {
        oreify := EV_IOFDSET;
      }
      anfds := anfds[fd := anfd.(reify := 0, events := events)];
      if oreify & EV_IOFDSET != 0 {
        poll := PollModify(poll, fd, oevents, events);
      }
      FdSynced(fd);
      ChangeDone([fd] + rest);
      assert ([fd] + rest)[1..] == rest;
      forall x | 0 <= x < |anfds| ensures FdOk(x) && (x !in rest ==> Synced(x)) {
        if x != fd {
          FdKept(x);
        }
      }
    }

    lemma HeadIsOk(fd: nat, changes: seq<nat>)
      requires ValidBut(changes, -1) && fd < |anfds|
      ensures FdOk(fd) && Inverse(poll) && NoIdleEntry(poll)
      ensures ListOf(anfds[fd].head, lists[fd]) && Legal(anfds[fd].events)
      ensures Watched(poll, fd) == ToPoll(anfds[fd].events) && Legal(MaskOf(lists[fd]))
    {
      assert FdOk(fd);
      MaskIsLegal(lists[fd]);
    }

    twostate lemma FdSynced(fd: nat)
      requires fd < old(|anfds|) == old(|lists|) && old(FdOk(fd)) && |anfds| == old(|anfds|) && lists == old(lists)
      requires anfds[fd].head == old(anfds[fd].head) && anfds[fd].events == MaskOf(lists[fd])
      requires Legal(anfds[fd].events) && Watched(poll, fd) == ToPoll(anfds[fd].events)
      requires forall w :: w in lists[fd] ==>
                 w.next == old(w.next) && w.events == old(w.events) && w.active == old(w.active)
      ensures FdOk(fd) && Synced(fd)
    {
    }

    twostate lemma ChangeDone(changes: seq<nat>)
      requires changes != [] && old(ChangesOk(changes)) && old(BackendOk())
      requires changes[0] < |anfds| == old(|anfds|) && anfds[changes[0]].reify == 0
      requires Inverse(poll) && NoIdleEntry(poll)
      requires forall x :: 0 <= x < |anfds| && x != changes[0] ==> anfds[x].reify == old(anfds[x].reify)
      requires forall x: nat :: x != changes[0] ==> Watched(poll, x) == old(Watched(poll, x))
      ensures ChangesOk(changes[1..]) && BackendOk()
    {
      assert changes == [changes[0]] + changes[1..];
      assert forall fd :: fd in changes <==> fd == changes[0] || fd in changes[1..];
    }

    /**
     * fd_reify: afterwards the backend watches every fd for exactly the OR of the masks of its watchers.
     */
    method FdReify()
      requires Valid()
      modifies this`anfds, this`poll, this`fdchanges
      ensures Valid() && fdchanges == [] && |anfds| == |old(anfds)|
      ensures forall fd: nat :: Watched(poll, fd) == ToPoll(MaskOf(ListAt(lists, fd)))
      ensures forall fd: nat :: AsksFor(Watched(poll, fd), ListAt(lists, fd))
    {
      ghost var changes := fdchanges;
      hide FdOk, Synced, BackendOk, ChangesOk, Watched, ListOf, MaskOf, AsksFor;
      assert changes[0..] == changes;
      for i := 0 to |fdchanges|
        invariant fdchanges == changes && ValidBut(changes[i..], -1) && |anfds| == |old(anfds)|
      {
        assert changes[i..] == [changes[i]] + changes[i + 1..];
        ChangeInTable(changes[i..]);
        ReifyFd(fdchanges[i], changes[i + 1..]);
      }
      fdchanges := [];
      AllSynced();
    }

    lemma ChangeInTable(changes: seq<nat>)
      requires ValidBut(changes, -1) && changes != []
      ensures changes[0] < |anfds|
    {
      assert changes[0] in changes;
    }

    lemma AllSynced()
      requires Valid() && fdchanges == []
      ensures forall fd: nat :: Watched(poll, fd) == ToPoll(MaskOf(ListAt(lists, fd)))
      ensures forall fd: nat :: AsksFor(Watched(poll, fd), ListAt(lists, fd))
    {
      hide AsksFor, ToPoll;
      forall fd: nat
        ensures Watched(poll, fd) == ToPoll(MaskOf(ListAt(lists, fd)))
        ensures AsksFor(Watched(poll, fd), ListAt(lists, fd))
      {
        if fd < |anfds| {
          assert FdOk(fd) && Synced(fd);
        }
        NothingAsked();
        AsksExactly(ListAt(lists, fd));
      }
    }

    lemma NothingAsked()
      ensures ToPoll(MaskOf([])) == 0
    {
    }

    /**
     * fd_event: the events the kernel reported for fd, as fed to its watchers. An fd that changed while the
     * loop was polling gets none.
     */
    method FdEvent(fd: nat, revents: Mask) returns (fed: seq<(Io, Mask)>)
      requires Valid() && fd < |anfds|
      ensures fed == if fd in fdchanges then [] else Hits(lists[fd], revents)
    {
      FlagMeansListed(fd);
      HeadOk(fd);
      fed := [];
      if anfds[fd].reify == 0 {
        fed := FdEventNocheck(anfds[fd].head, revents, lists[fd]);
      }
    }

    lemma FlagMeansListed(fd: nat)
      requires Valid() && fd < |anfds|
      ensures anfds[fd].reify != 0 <==> fd in fdchanges
    {
    }

    /** One round of fd_kill. */
    method KillFirst(fd: nat) returns (w: Io)
      requires Valid() && fd < |anfds| && anfds[fd].head != null
      modifies this`anfds, this`lists, this`fdchanges, ws`active, ws`next
      ensures Valid() && fd < |anfds| == |lists|
      ensures old(lists[fd]) == [w] + lists[fd] && |anfds| == |old(anfds)|
      ensures forall x: nat :: x != fd ==> ListAt(lists, x) == ListAt(old(lists), x)
      ensures forall x: nat :: x != fd ==> (x in fdchanges <==> x in old(fdchanges))
    {
      HeadOk(fd);
      w := anfds[fd].head;
      assert lists[fd] == [w] + lists[fd][1..] && w in lists[fd];
      IsActive(w);
      hide FdOk, Synced, BackendOk, ChangesOk, Watched, MaskOf;
      IoStop(w);
      assert ListAt(lists, fd) == lists[fd];
    }

    /** fd_kill: stops every watcher of the fd; each is then fed EV_ERROR | EV_READ | EV_WRITE. */
    method FdKill(fd: nat) returns (killed: seq<Io>)
      requires Valid() && fd < |anfds|
      modifies this`anfds, this`lists, this`fdchanges, ws`active, ws`next
      ensures Valid() && ListAt(lists, fd) == []
      ensures forall x: nat :: x != fd ==> ListAt(lists, x) == ListAt(old(lists), x)
      ensures forall x: nat :: x != fd ==> (x in fdchanges <==> x in old(fdchanges))
      ensures killed == ListAt(old(lists), fd) && |anfds| == |old(anfds)|
    {
      killed := [];
      hide FdOk, Synced, BackendOk, ChangesOk, Watched, MaskOf;
      while anfds[fd].head != null
        invariant Valid() && fd < |anfds| == |lists| && |anfds| == |old(anfds)|
        invariant forall x: nat :: x != fd ==> ListAt(lists, x) == ListAt(old(lists), x)
        invariant forall x: nat :: x != fd ==> (x in fdchanges <==> x in old(fdchanges))
        invariant killed + lists[fd] == ListAt(old(lists), fd)
        decreases |lists[fd]|
      {
        var w := KillFirst(fd);
        killed := killed + [w];
      }
      HeadOk(fd);
    }

    /** An entry of the poll array belongs to an fd of the table, and no other entry does. */
    lemma EntryInTable(i: nat)
      requires Valid() && i < |poll.polls|
      ensures poll.polls[i].fd < |anfds|
      ensures forall j :: 0 <= j < |poll.polls| && j != i ==> poll.polls[j].fd != poll.polls[i].fd
    {
      hide FdOk, Synced, ChangesOk;
      OneEntryPerWatchedFd(poll, poll.polls[i].fd);
    }

    /** What poll_poll does with the entry i: the watchers of an fd that is not open are killed, others get their events. */
    method PollEvent(i: nat, revents: bv16) returns (fed: seq<(Io, Mask)>, killed: seq<Io>)
      requires Valid() && i < |poll.polls|
      modifies this`anfds, this`lists, this`fdchanges, ws`active, ws`next
      ensures Valid() && |anfds| == |old(anfds)|
      ensures var fd := poll.polls[i].fd;
              var bad := revents & POLLNVAL != 0;
              && killed == (if bad then ListAt(old(lists), fd) else [])
              && fed == (if bad || fd in old(fdchanges) then [] else Hits(ListAt(old(lists), fd), FromPoll(revents)))
              && ListAt(lists, fd) == (if bad then [] else ListAt(old(lists), fd))
              && (forall x: nat :: x != fd ==> ListAt(lists, x) == ListAt(old(lists), x))
              && (forall x: nat :: x != fd ==> (x in fdchanges <==> x in old(fdchanges)))
    {
      EntryInTable(i);
      hide FdOk, Synced, BackendOk, ChangesOk, Hits, FromPoll;
      fed, killed := [], [];
      if revents & POLLNVAL != 0 {
        killed := FdKill(poll.polls[i].fd);
      } else {
        fed := FdEvent(poll.polls[i].fd, FromPoll(revents));
      }
    }

    /** Exactly the watchers of the entries below n that wait for what is reported have been fed. */
    ghost predicate FedBelow(fed: seq<(Io, Mask)>, lists0: seq<seq<Io>>, changes0: seq<nat>, revents: seq<bv16>, n: nat)
      reads this`poll, ws`events
      requires n <= |revents| == |poll.polls|
    {
      && (forall p :: p in fed ==> p.0 in ws)
      && forall w, e :: w in ws ==> ((w, e) in fed <==>
           exists i :: 0 <= i < n && poll.polls[i].fd !in changes0 && Gets(w, e, ListAt(lists0, poll.polls[i].fd), revents[i]))
    }

    /** Exactly the lists of the entries below n that are not open have been emptied. */
    ghost predicate KilledBelow(lists0: seq<seq<Io>>, changes0: seq<nat>, revents: seq<bv16>, n: nat)
      reads this`lists, this`fdchanges, this`poll
      requires n <= |revents| == |poll.polls|
    {
      && (forall i :: 0 <= i < |revents| ==>
            ListAt(lists, poll.polls[i].fd) ==
              if i < n && revents[i] & POLLNVAL != 0 then [] else ListAt(lists0, poll.polls[i].fd))
      && (forall fd: nat :: (forall i :: 0 <= i < |revents| ==> poll.polls[i].fd != fd) ==>
            ListAt(lists, fd) == ListAt(lists0, fd))
      && (forall i :: n <= i < |revents| ==> (poll.polls[i].fd in fdchanges <==> poll.polls[i].fd in changes0))
    }

    lemma FedStep(fed: seq<(Io, Mask)>, lists0: seq<seq<Io>>, changes0: seq<nat>, revents: seq<bv16>, n: nat,
                  more: seq<(Io, Mask)>)
      requires n < |revents| == |poll.polls| && FedBelow(fed, lists0, changes0, revents, n)
      requires var fd := poll.polls[n].fd;
               && (forall w :: w in ListAt(lists0, fd) ==> w in ws)
               && more == if revents[n] & POLLNVAL != 0 || fd in changes0 then []
                          else Hits(ListAt(lists0, fd), FromPoll(revents[n]))
      ensures FedBelow(fed + more, lists0, changes0, revents, n + 1)
    {
      var fd := poll.polls[n].fd;
      forall p | p in more ensures p.0 in ws {
        HitsAreExact(ListAt(lists0, fd), FromPoll(revents[n]), p);
      }
      hide Hits, FromPoll;
      forall w, e | w in ws
        ensures (w, e) in fed + more <==>
          (w, e) in fed || (fd !in changes0 && Gets(w, e, ListAt(lists0, fd), revents[n]))
      {
        GetsHits(w, e, ListAt(lists0, fd), revents[n]);
      }
      hide Gets;
    }

    /** Entries without flags feed nobody. */
    lemma FedRest(fed: seq<(Io, Mask)>, lists0: seq<seq<Io>>, changes0: seq<nat>, revents: seq<bv16>, n: nat, m: nat)
      requires n <= m <= |revents| == |poll.polls| && FedBelow(fed, lists0, changes0, revents, n)
      requires forall i :: n <= i < m ==> revents[i] == 0
      ensures FedBelow(fed, lists0, changes0, revents, m)
    {
      forall i, w, e | n <= i < m ensures !Gets(w, e, ListAt(lists0, poll.polls[i].fd), revents[i]) {
        NoFlags(w, e, ListAt(lists0, poll.polls[i].fd));
      }
      hide Gets;
    }

    lemma KilledRest(lists0: seq<seq<Io>>, changes0: seq<nat>, revents: seq<bv16>, n: nat, m: nat)
      requires n <= m <= |revents| == |poll.polls| && KilledBelow(lists0, changes0, revents, n)
      requires forall i :: n <= i < m ==> revents[i] == 0
      ensures KilledBelow(lists0, changes0, revents, m)
    {
      forall i | n <= i < m ensures revents[i] & POLLNVAL == 0 {
        assert revents[i] == 0;
      }
    }

    lemma ListsKnown()
      requires Valid()
      ensures forall fd: nat, w :: w in ListAt(lists, fd) ==> w in ws
    {
      forall fd: nat, w | w in ListAt(lists, fd) ensures w in ws {
        assert FdOk(fd);
      }
    }

    /** The round of poll_poll for an entry with flags. */
    method PollNext(fed: seq<(Io, Mask)>, ghost lists0: seq<seq<Io>>, ghost changes0: seq<nat>, revents: seq<bv16>, p: nat)
      returns (more: seq<(Io, Mask)>)
      requires Valid() && p < |revents| == |poll.polls|
      requires FedBelow(fed, lists0, changes0, revents, p) && KilledBelow(lists0, changes0, revents, p)
      requires forall fd: nat, w :: w in ListAt(lists0, fd) ==> w in ws
      modifies this`anfds, this`lists, this`fdchanges, ws`active, ws`next
      ensures Valid() && fed <= more
      ensures FedBelow(more, lists0, changes0, revents, p + 1) && KilledBelow(lists0, changes0, revents, p + 1)
    {
      EntryInTable(p);
      hide FdOk, Synced, BackendOk, ChangesOk, Gets, Hits, FromPoll, FedBelow;
      var these, _ := PollEvent(p, revents[p]);
      FedStep(fed, lists0, changes0, revents, p, these);
      more := fed + these;
    }

    /**
     * poll_poll: revents are the flags of the entries, and the loop ends when it has seen all that poll reported. A watcher
     * is fed exactly if its fd did not change meanwhile and it waits for some of what is reported for it.
     */
    method PollPoll(revents: seq<bv16>, res: nat) returns (fed: seq<(Io, Mask)>)
      requires Valid() && |revents| == |poll.polls| && res == Reported(revents)
      modifies this`anfds, this`lists, this`fdchanges, ws`active, ws`next
      ensures Valid()
      ensures FedBelow(fed, old(lists), old(fdchanges), revents, |revents|)
      ensures KilledBelow(old(lists), old(fdchanges), revents, |revents|)
    {
      hide *;
      ListsKnown();
      NothingDispatched(revents);
      fed := [];
      var p, left := 0, res;
      assert revents[0..] == revents;
      while left != 0
        invariant p <= |revents| == |poll.polls| && left == Reported(revents[p..]) && Valid()
        invariant FedBelow(fed, old(lists), old(fdchanges), revents, p)
        invariant KilledBelow(old(lists), old(fdchanges), revents, p)
        decreases |revents| - p
      {
        ReportedStep(revents, p);
        if revents[p] != 0 {
          left := left - 1;
          fed := PollNext(fed, old(lists), old(fdchanges), revents, p);
        } else {
          FedRest(fed, old(lists), old(fdchanges), revents, p, p + 1);
          KilledRest(old(lists), old(fdchanges), revents, p, p + 1);
        }
        p := p + 1;
      }
      AllDispatched(fed, old(lists), old(fdchanges), revents, p);
    }

    lemma NothingDispatched(revents: seq<bv16>)
      requires |revents| == |poll.polls|
      ensures FedBelow([], lists, fdchanges, revents, 0) && KilledBelow(lists, fdchanges, revents, 0)
    {
      hide Gets;
    }

    lemma AllDispatched(fed: seq<(Io, Mask)>, lists0: seq<seq<Io>>, changes0: seq<nat>, revents: seq<bv16>, n: nat)
      requires n <= |revents| == |poll.polls| && Reported(revents[n..]) == 0
      requires FedBelow(fed, lists0, changes0, revents, n) && KilledBelow(lists0, changes0, revents, n)
      ensures FedBelow(fed, lists0, changes0, revents, |revents|) && KilledBelow(lists0, changes0, revents, |revents|)
    {
      hide FedBelow, KilledBelow;
      NoneReported(revents[n..]);
      assert forall i :: n <= i < |revents| ==> revents[i] == revents[n..][i - n];
      FedRest(fed, lists0, changes0, revents, n, |revents|);
      KilledRest(lists0, changes0, revents, n, |revents|);
    }

    lemma IsActive(w: Io)
      requires Valid() && w in ws && w.fd < |lists| && w in lists[w.fd]
      ensures w.active
    {
      assert FdOk(w.fd);
    }
  }
}
