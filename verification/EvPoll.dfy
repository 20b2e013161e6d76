/** The poll backend of libev: a dense array of pollfds and its inverse index. */
module EvPoll {
  type Mask = bv8
  const EV_READ: Mask := 0x01
  const EV_WRITE: Mask := 0x02
  const EV_IOFDSET: Mask := 0x80

  const POLLIN: bv16 := 0x001
  const POLLOUT: bv16 := 0x004
  const POLLERR: bv16 := 0x008
  const POLLHUP: bv16 := 0x010
  const POLLNVAL: bv16 := 0x020

  datatype PollFd = PollFd(fd: nat, events: bv16)

  /** pollidxs [fd] is the place of fd in polls, or negative. */
  datatype Poll = Poll(polls: seq<PollFd>, pollidxs: seq<int>)

  const NOTHING: Poll := Poll([], [])

  predicate Legal(mask: Mask) {
    mask & !(EV_READ | EV_WRITE) == 0
  }

  /** The flags poll is given for an event mask. */
  function ToPoll(mask: Mask): bv16 {
    (if mask & EV_READ != 0 then POLLIN else 0) | (if mask & EV_WRITE != 0 then POLLOUT else 0)
  }

  /** The events poll_poll tells fd_event for the flags that poll returned. */
  function FromPoll(revents: bv16): Mask {
    (if revents & (POLLOUT | POLLERR | POLLHUP) != 0 then EV_WRITE else 0) |
    (if revents & (POLLIN | POLLERR | POLLHUP) != 0 then EV_READ else 0)
  }

  /** poll is asked for input exactly when EV_READ is wanted, for output when EV_WRITE is, and for nothing else. */
  lemma ToPollExact(mask: Mask)
    ensures ToPoll(mask) & 0x001 != 0 <==> mask & 0x01 != 0
    ensures ToPoll(mask) & 0x004 != 0 <==> mask & 0x02 != 0
    ensures ToPoll(mask) & !0x005 == 0
  {
    assert ToPoll(mask) == 0 || ToPoll(mask) == 1 || ToPoll(mask) == 4 || ToPoll(mask) == 5;
  }

  /** Input, an error or a hangup is told as EV_READ; output, an error or a hangup as EV_WRITE. */
  lemma FromPollExact(revents: bv16)
    ensures FromPoll(revents) & 0x01 != 0 <==> revents & 0x001 != 0 || revents & 0x008 != 0 || revents & 0x010 != 0
    ensures FromPoll(revents) & 0x02 != 0 <==> revents & 0x004 != 0 || revents & 0x008 != 0 || revents & 0x010 != 0
    ensures FromPoll(revents) & !0x03 == 0
  {
  }

  /** The two mappings fit: flags that were asked for are told as events that were wanted, all of them if all are. */
  lemma PollRoundTrip(mask: Mask, revents: bv16)
    requires Legal(mask) && revents & !ToPoll(mask) == 0
    ensures FromPoll(revents) & !mask == 0 && FromPoll(ToPoll(mask)) == mask
  {
    assert mask == 0 || mask == 1 || mask == 2 || mask == 3;
  }

  /** Different masks are watched differently. */
  lemma ToPollInjective(a: Mask, b: Mask)
    requires Legal(a) && Legal(b) && ToPoll(a) == ToPoll(b)
    ensures a == b
  {
    assert a == 0 || a == 1 || a == 2 || a == 3;
    assert b == 0 || b == 1 || b == 2 || b == 3;
  }

  /** polls and pollidxs are inverse to each other. */
  ghost predicate Inverse(p: Poll) {
    && (forall i :: 0 <= i < |p.polls| ==> p.polls[i].fd < |p.pollidxs| && p.pollidxs[p.polls[i].fd] == i)
    && (forall fd :: 0 <= fd < |p.pollidxs| && p.pollidxs[fd] >= 0 ==>
          p.pollidxs[fd] < |p.polls| && p.polls[p.pollidxs[fd]].fd == fd)
  }

  /** The flags the kernel is asked to watch fd for; 0 if fd is not in the array. */
  function Watched(p: Poll, fd: nat): bv16 {
    if fd < |p.pollidxs| && 0 <= p.pollidxs[fd] < |p.polls| then p.polls[p.pollidxs[fd]].events else 0
  }

  /** Only fds that are watched for something are in the array. */
  ghost predicate NoIdleEntry(p: Poll) {
    forall i :: 0 <= i < |p.polls| ==> p.polls[i].events != 0
  }

  /** The array holds one entry for every watched fd, with its flags, and none for the others. */
  lemma OneEntryPerWatchedFd(p: Poll, fd: nat)
    requires Inverse(p) && NoIdleEntry(p)
    ensures Watched(p, fd) != 0 <==> exists i :: 0 <= i < |p.polls| && p.polls[i].fd == fd
    ensures forall i :: 0 <= i < |p.polls| && p.polls[i].fd == fd ==> p.polls[i].events == Watched(p, fd)
    ensures forall i, j :: 0 <= i < |p.polls| && 0 <= j < |p.polls| && p.polls[i].fd == p.polls[j].fd ==> i == j
  {
  }

  /** array_nextsize: the next allocation size of an array with cur elements that must hold cnt. */
  method ArrayNextsize(elem: nat, cur: nat, cnt: nat) returns (ncur: nat)
    requires elem > 0
    ensures ncur >= cnt && ncur > cur
  {
    ncur := cur + 1;
    ncur := ncur * 2;
    while cnt > ncur
      invariant ncur > cur
    {
      ncur := ncur * 2;
    }
    if elem * ncur > 4096 - 32 {
      ghost var n := ncur;
      var bytes := ncur * elem;
      bytes := bytes + elem + (4096 - 1) + 32;
      bytes := bytes - bytes % 4096;
      bytes := bytes - 32;
      assert bytes >= n * elem + elem == (n + 1) * elem;
      ncur := bytes / elem;
      DivAtLeast(bytes, elem, n + 1);
    }
  }

  lemma DivAtLeast(a: nat, b: nat, c: nat)
    requires b > 0 && a >= c * b
    ensures a / b >= c
  {
    var q, r := a / b, a % b;
    assert a == q * b + r;
    assert q < c ==> (q + 1) * b <= c * b;
  }

  /** pollidx_init applied to the new part of a grown array. */
  method GrowIndex(pollidxs: seq<int>, cnt: nat) returns (grown: seq<int>)
    ensures |grown| >= cnt && |grown| >= |pollidxs| && grown[..|pollidxs|] == pollidxs
    ensures forall i :: |pollidxs| <= i < |grown| ==> grown[i] == -1
  {
    grown := pollidxs;
    if cnt > |pollidxs| {
      var size := ArrayNextsize(4, |pollidxs|, cnt);
      grown := pollidxs + seq(size - |pollidxs|, _ => -1);
    }
  }

  /** The part of poll_modify that finds the entry of fd, allocating one at the end if there is none. */
  method FindEntry(p: Poll, fd: nat) returns (r: Poll, idx: nat)
    requires Inverse(p)
    ensures Inverse(r) && fd < |r.pollidxs| && r.pollidxs[fd] == idx && idx < |r.polls|
    ensures forall x: nat :: x != fd ==> Watched(r, x) == Watched(p, x)
    ensures forall i :: 0 <= i < |r.polls| && i != idx ==> i < |p.polls| && r.polls[i] == p.polls[i]
  {
    var pollidxs := GrowIndex(p.pollidxs, fd + 1);
    if pollidxs[fd] < 0 {
      idx := |p.polls|;
      r := Poll(p.polls + [PollFd(fd, 0)], pollidxs[fd := idx]);
    } else {
      idx := pollidxs[fd];
      r := Poll(p.polls, pollidxs);
    }
  }

  /** The part of poll_modify that removes the entry idx: the last entry takes its place. */
  method RemoveEntry(p: Poll, fd: nat, idx: nat) returns (r: Poll)
    requires Inverse(p) && fd < |p.pollidxs| && p.pollidxs[fd] == idx && idx < |p.polls|
    ensures Inverse(r) && Watched(r, fd) == 0
    ensures forall x: nat :: x != fd ==> Watched(r, x) == Watched(p, x)
    ensures |r.polls| == |p.polls| - 1
    ensures forall i :: 0 <= i < |r.polls| ==> r.polls[i] == p.polls[if i == idx then |p.polls| - 1 else i]
  {
    var pollidxs := p.pollidxs[fd := -1];
    var polls := p.polls;
    var last := |polls| - 1;
    if idx < last {
      polls := polls[idx := polls[last]];
      pollidxs := pollidxs[polls[idx].fd := idx];
    }
    r := Poll(polls[..last], pollidxs);
  }

  /** poll_modify: fd was watched for oev and is to be watched for nev. */
  method PollModify(p: Poll, fd: nat, oev: Mask, nev: Mask) returns (r: Poll)
    requires Inverse(p) && NoIdleEntry(p)
    requires Legal(oev) && Legal(nev) && Watched(p, fd) == ToPoll(oev)
    ensures Inverse(r) && NoIdleEntry(r)
    ensures Watched(r, fd) == ToPoll(nev)
    ensures forall x: nat :: x != fd ==> Watched(r, x) == Watched(p, x)
  {
    if oev == nev {
      return p;
    }
    var idx;
    r, idx := FindEntry(p, fd);
    assert r.polls[idx].fd == fd;
    if nev != 0 {
      r := r.(polls := r.polls[idx := PollFd(fd, ToPoll(nev))]);
    } else {
      r := RemoveEntry(r, fd, idx);
    }
  }
}
