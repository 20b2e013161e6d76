/**
 * The requests of Session.cpp that wait for an answer, and the list by which they time out, as values. A request object
 * is known by its address, which a later object may have again; the acceptances are numbered to tell them apart.
 */
module SessionTable {
  import opened Common

  const WORD: nat := 0x1_0000_0000
  const DAY_USECONDS: nat := 86400000

  /** Where a request object is. */
  type Address = nat

  datatype Item = Item(identify: string, request: Address, timestamp: nat)

  // ---------- The clock ----------

  /** GetTickCount for a time in milliseconds. */
  function TickCount(ms: nat): (t: nat)
    ensures t < WORD
  {
    ms % WORD
  }

  /** GetTickCountDifferences on unsigned ints. */
  function Difference(start: nat, end: nat): (d: nat)
    requires start < WORD && end < WORD
    ensures d < WORD
  {
    if start <= end then end - start else (DAY_USECONDS - start + end) % WORD
  }

  /**
   * The difference is the time that has passed if and only if the tick count does not wrap around on the way, which it
   * does every 2^32 milliseconds and not, as the macro has it, every day; else it is a day too much.
   */
  lemma DifferenceMeaning(start: nat, elapsed: nat)
    requires elapsed < WORD
    ensures var s, e := TickCount(start), TickCount(start + elapsed);
            && (Difference(s, e) == elapsed <==> s <= e)
            && (s > e ==> Difference(s, e) == (elapsed + DAY_USECONDS) % WORD)
  {
    var s, e := TickCount(start), TickCount(start + elapsed);
    var q := start / WORD;
    assert start == q * WORD + s;
    assert e == if s + elapsed < WORD then s + elapsed else s + elapsed - WORD by {
      Reduce(q, s + elapsed);
    }
  }

  lemma Reduce(q: nat, x: nat)
    requires x < 2 * WORD
    ensures (q * WORD + x) % WORD == if x < WORD then x else x - WORD
  {
  }

  /** A request that was added ten seconds before the count wrapped around is 86410000 milliseconds old right after. */
  lemma WrapLooksLikeADay()
    ensures Difference(TickCount(WORD - 10000), TickCount(WORD)) == DAY_USECONDS + 10000
  {
  }

  // ---------- The table ----------

  /** How a request leaves. */
  datatype Exit = Erased | TimedOut | Destroyed

  datatype Table = Table(
    requests: map<string, Address>,   // mRequestMap
    items: seq<Item>,                 // mRequestItemList
    waiting: map<string, nat>,        // which acceptance waits under a name
    owners: seq<nat>,                 // the acceptance each item was made for
    accepted: nat,                    // how many AddRequest has accepted
    exits: map<nat, Exit>,            // how acceptances have left
    finished: seq<nat>)               // the acceptances FinisRequest(false) was called on, in order

  const NOTHING: Table := Table(map[], [], map[], [], 0, map[], [])

  /** AddRequest; a name that is taken is refused. */
  function Add(s: Table, identify: string, request: Address, now: nat): Table {
    if identify in s.requests then s
    else s.(requests := s.requests[identify := request], items := s.items + [Item(identify, request, now)],
            waiting := s.waiting[identify := s.accepted], owners := s.owners + [s.accepted], accepted := s.accepted + 1)
  }

  /** What waits under the name leaves. */
  function Leave(s: Table, identify: string, how: Exit): Table {
    if identify !in s.waiting then s
    else
      var n := s.waiting[identify];
      s.(requests := s.requests - {identify}, waiting := s.waiting - {identify}, exits := s.exits[n := how],
         finished := if how == Erased then s.finished else s.finished + [n])
  }

  predicate Names(item: Item, identify: string, request: Address) {
    item.identify == identify && item.request == request
  }

  /** The item stands for the request that waits under its name, as far as the two addresses tell. */
  predicate Stands(requests: map<string, Address>, item: Item) {
    item.identify in requests && requests[item.identify] == item.request
  }

  predicate Expired(item: Item, now: nat, timeout: nat)
    requires item.timestamp < WORD && now < WORD
  {
    Difference(item.timestamp, now) > timeout
  }

  predicate Ticks(items: seq<Item>, nows: seq<nat>) {
    |nows| == |items| && forall i :: 0 <= i < |items| ==> items[i].timestamp < WORD && nows[i] < WORD
  }

  /** The loop over the check list: what it does to the requests. nows[i] is what GetTickCount returns for item i. */
  function Checked(s: Table, items: seq<Item>, nows: seq<nat>, timeout: nat): Table
    requires Ticks(items, nows)
  {
    if items == [] then s
    else
      var k := |items| - 1;
      var t := Checked(s, items[..k], nows[..k], timeout);
      if Expired(items[k], nows[k], timeout) && Stands(t.requests, items[k]) then Leave(t, items[k].identify, TimedOut)
      else t
  }

  /** Which items have expired. */
  function Gone(items: seq<Item>, nows: seq<nat>, timeout: nat): (gone: seq<bool>)
    requires Ticks(items, nows)
    ensures |gone| == |items| && forall i :: 0 <= i < |gone| ==> gone[i] == Expired(items[i], nows[i], timeout)
  {
    seq(|items|, i requires 0 <= i < |items| && Ticks(items, nows) => Expired(items[i], nows[i], timeout))
  }

  /** What is not gone. */
  function Keep<T>(all: seq<T>, gone: seq<bool>): seq<T>
    requires |all| == |gone|
  {
    if all == [] then [] else
      var k := |all| - 1;
      Keep(all[..k], gone[..k]) + if gone[k] then [] else [all[k]]
  }

  /** One pass of CheckTimeoutRunnableHandle. */
  function Pass(s: Table, nows: seq<nat>, timeout: nat): Table
    requires Ticks(s.items, nows) && |s.owners| == |s.items|
  {
    if timeout == 0 then s
    else
      var gone := Gone(s.items, nows, timeout);
      Checked(s, s.items, nows, timeout).(items := Keep(s.items, gone), owners := Keep(s.owners, gone))
  }

  /** The loop of the destructor over these names. */
  function Finished(s: Table, names: seq<string>): Table {
    if names == [] then s else Leave(Finished(s, names[..|names| - 1]), names[|names| - 1], Destroyed)
  }

  /** The destructor, with the names of the map in their order. */
  function Destroy(s: Table, names: seq<string>): Table {
    Finished(s, names).(items := [], owners := [])
  }

  // ---------- What every operation keeps ----------

  ghost predicate Injective<V>(m: map<string, V>) {
    forall k, l :: k in m && l in m && m[k] == m[l] ==> k == l
  }

  /** The item at j was made for the request that waits under the name. */
  predicate OwnItem(s: Table, k: string, j: nat) {
    && k in s.requests && k in s.waiting && j < |s.items| == |s.owners| && s.owners[j] == s.waiting[k]
    && Names(s.items[j], k, s.requests[k])
  }

  ghost predicate Increasing(owners: seq<nat>) {
    forall i, j :: 0 <= i < j < |owners| ==> owners[i] < owners[j]
  }

  /** Items are those of acceptances, in their order; what waits has its own item, and an address of its own. */
  ghost predicate Listed(s: Table) {
    && |s.owners| == |s.items| && Increasing(s.owners)
    && (forall j :: 0 <= j < |s.items| ==> s.owners[j] < s.accepted && s.items[j].timestamp < WORD)
    && s.waiting.Keys == s.requests.Keys && Injective(s.requests) && Injective(s.waiting)
    && forall k :: k in s.waiting ==> exists j :: OwnItem(s, k, j)
  }

  /** Every acceptance waits or has left, once; FinisRequest(false) was called once on each that did not succeed. */
  ghost predicate Settled(s: Table) {
    && (forall n: nat :: n < s.accepted <==> n in s.waiting.Values || n in s.exits)
    && (forall n :: n in s.exits ==> n !in s.waiting.Values)
    && (forall n :: n in s.finished <==> n in s.exits && s.exits[n] != Erased)
    && Distinct(s.finished)
  }

  ghost predicate Valid(s: Table) {
    Listed(s) && Settled(s)
  }

  lemma ValuesWith<V>(m: map<string, V>, k: string, v: V)
    requires k !in m
    ensures m[k := v].Values == m.Values + {v}
  {
    assert m[k := v][k] == v;
    forall x | x in m.Values ensures x in m[k := v].Values {
      var l :| l in m && m[l] == x;
      assert m[k := v][l] == x;
    }
  }

  lemma ValuesWithout<V>(m: map<string, V>, k: string)
    requires k in m && Injective(m)
    ensures (m - {k}).Values == m.Values - {m[k]}
  {
    forall x | x in m.Values && x != m[k] ensures x in (m - {k}).Values {
      var l :| l in m && m[l] == x;
      assert (m - {k})[l] == x;
    }
  }

  lemma SameKeys(s: Table)
    requires Valid(s)
    ensures s.waiting.Keys == s.requests.Keys
  {
  }

  lemma ListHas(s: Table)
    requires Valid(s)
    ensures |s.owners| == |s.items| && forall j :: 0 <= j < |s.items| ==> s.items[j].timestamp < WORD
  {
  }

  lemma NothingIsValid()
    ensures Valid(NOTHING)
  {
  }

  lemma InjectiveWith<V>(m: map<string, V>, k: string, v: V)
    requires Injective(m) && v !in m.Values
    ensures Injective(m[k := v])
  {
    forall l | l in m ensures m[l] in m.Values {
    }
  }

  lemma OwnItemStays(s: Table, identify: string, request: Address, now: nat, k: string, j: nat)
    requires OwnItem(s, k, j) && identify !in s.requests
    ensures OwnItem(Add(s, identify, request, now), k, j)
  {
  }

  lemma OwnItemIsNew(s: Table, identify: string, request: Address, now: nat)
    requires identify !in s.requests && |s.owners| == |s.items|
    ensures OwnItem(Add(s, identify, request, now), identify, |s.items|)
  {
  }

  lemma AddedItems(s: Table, identify: string, request: Address, now: nat)
    requires |s.owners| == |s.items| && Increasing(s.owners) && now < WORD
    requires forall j :: 0 <= j < |s.items| ==> s.owners[j] < s.accepted && s.items[j].timestamp < WORD
    ensures var t := Add(s, identify, request, now);
            && |t.owners| == |t.items| && Increasing(t.owners)
            && forall j :: 0 <= j < |t.items| ==> t.owners[j] < t.accepted && t.items[j].timestamp < WORD
  {
  }

  lemma AddKeepsListed(s: Table, identify: string, request: Address, now: nat)
    requires Listed(s) && request !in s.requests.Values && now < WORD && identify !in s.requests
    requires s.accepted !in s.waiting.Values
    ensures Listed(Add(s, identify, request, now))
  {
    hide OwnItem, Increasing, Injective;
    var t := Add(s, identify, request, now);
    AddedItems(s, identify, request, now);
    InjectiveWith(s.requests, identify, request);
    InjectiveWith(s.waiting, identify, s.accepted);
    forall k | k in t.waiting ensures exists j :: OwnItem(t, k, j) {
      if k == identify {
        OwnItemIsNew(s, identify, request, now);
      } else {
        var j :| OwnItem(s, k, j);
        OwnItemStays(s, identify, request, now, k, j);
      }
    }
  }

  lemma AddKeepsSettled(s: Table, identify: string, request: Address, now: nat)
    requires Settled(s) && identify !in s.requests && identify !in s.waiting
    ensures Settled(Add(s, identify, request, now))
  {
    hide Distinct;
    ValuesWith(s.waiting, identify, s.accepted);
  }

  /** An address that is not that of a request that waits may be added. */
  lemma AddKeepsValid(s: Table, identify: string, request: Address, now: nat)
    requires Valid(s) && request !in s.requests.Values && now < WORD
    ensures Valid(Add(s, identify, request, now))
    ensures identify !in s.requests ==> OwnItem(Add(s, identify, request, now), identify, |s.items|)
  {
    if identify !in s.requests {
      hide OwnItem, Increasing, Injective, Distinct;
      assert s.accepted !in s.waiting.Values;
      AddKeepsListed(s, identify, request, now);
      AddKeepsSettled(s, identify, request, now);
      OwnItemIsNew(s, identify, request, now);
    }
  }

  lemma LeaveKeepsValid(s: Table, identify: string, how: Exit)
    requires Valid(s)
    ensures Valid(Leave(s, identify, how))
    ensures identify in s.waiting ==> s.waiting[identify] !in s.exits && s.waiting[identify] !in s.finished
  {
    if identify in s.waiting {
      ValuesWithout(s.waiting, identify);
      assert s.waiting[identify] in s.waiting.Values;
      var t := Leave(s, identify, how);
      forall k | k in t.waiting ensures exists j :: OwnItem(t, k, j) {
        var j :| OwnItem(s, k, j);
        assert OwnItem(t, k, j);
      }
    }
  }

  // ---------- The pass ----------

  /** An expired item has the name and the address of the request that waits under k. */
  predicate ExpiredFor(requests: map<string, Address>, items: seq<Item>, nows: seq<nat>, timeout: nat, k: string)
    requires Ticks(items, nows)
  {
    k in requests && exists j :: 0 <= j < |items| && Names(items[j], k, requests[k]) && Expired(items[j], nows[j], timeout)
  }

  lemma ExpiredForStep(requests: map<string, Address>, items: seq<Item>, nows: seq<nat>, timeout: nat, k: string)
    requires Ticks(items, nows) && items != []
    ensures var n := |items| - 1;
            ExpiredFor(requests, items, nows, timeout, k) <==>
            ExpiredFor(requests, items[..n], nows[..n], timeout, k) ||
            (k in requests && Names(items[n], k, requests[k]) && Expired(items[n], nows[n], timeout))
  {
    hide Names, Expired;
    var n := |items| - 1;
    if k in requests && exists j :: 0 <= j < |items| && Names(items[j], k, requests[k]) && Expired(items[j], nows[j], timeout) {
      var j :| 0 <= j < |items| && Names(items[j], k, requests[k]) && Expired(items[j], nows[j], timeout);
      assert j < n ==> items[..n][j] == items[j] && nows[..n][j] == nows[j];
    }
  }

  /** What the loop over these items makes of s. */
  ghost predicate ChecksTo(s: Table, t: Table, items: seq<Item>, nows: seq<nat>, timeout: nat)
    requires Ticks(items, nows) && s.waiting.Keys == s.requests.Keys
  {
    && t.items == s.items && t.owners == s.owners && t.accepted == s.accepted && t.waiting.Keys == t.requests.Keys
    && (forall k :: k in t.requests <==> k in s.requests && !ExpiredFor(s.requests, items, nows, timeout, k))
    && (forall k :: k in t.requests ==> t.requests[k] == s.requests[k] && t.waiting[k] == s.waiting[k])
    && (forall k :: k in s.requests && k !in t.requests ==>
          s.waiting[k] in t.exits && t.exits[s.waiting[k]] == TimedOut)
    && (forall n :: n in s.exits ==> n in t.exits && t.exits[n] == s.exits[n])
  }

  lemma ChecksStep(s: Table, t: Table, items: seq<Item>, nows: seq<nat>, timeout: nat)
    requires Ticks(items, nows) && items != [] && s.waiting.Keys == s.requests.Keys
    requires ChecksTo(s, t, items[..|items| - 1], nows[..|items| - 1], timeout)
    requires forall k :: k in t.waiting ==> t.waiting[k] !in t.exits
    ensures var n := |items| - 1;
            var u := if Expired(items[n], nows[n], timeout) && Stands(t.requests, items[n])
                     then Leave(t, items[n].identify, TimedOut) else t;
            ChecksTo(s, u, items, nows, timeout)
  {
    hide Expired, ExpiredFor;
    var n := |items| - 1;
    forall k ensures ExpiredFor(s.requests, items, nows, timeout, k) <==>
                     ExpiredFor(s.requests, items[..n], nows[..n], timeout, k) ||
                     (k in s.requests && Names(items[n], k, s.requests[k]) && Expired(items[n], nows[n], timeout)) {
      ExpiredForStep(s.requests, items, nows, timeout, k);
    }
  }

  lemma NotLeft(s: Table)
    requires Valid(s)
    ensures forall k :: k in s.waiting ==> s.waiting[k] !in s.exits
  {
    forall k | k in s.waiting ensures s.waiting[k] in s.waiting.Values {
    }
  }

  /** The loop takes out exactly the requests for which an item has expired, whatever it took out before. */
  lemma {:induction false} CheckedIs(s: Table, items: seq<Item>, nows: seq<nat>, timeout: nat)
    requires Ticks(items, nows) && Valid(s)
    ensures Valid(Checked(s, items, nows, timeout)) && ChecksTo(s, Checked(s, items, nows, timeout), items, nows, timeout)
    decreases |items|
  {
    if items == [] {
      hide Settled, OwnItem;
      forall k ensures !ExpiredFor(s.requests, items, nows, timeout, k) {
        NothingExpired(s.requests, nows, timeout, k);
      }
    } else {
      var n := |items| - 1;
      CheckedIs(s, items[..n], nows[..n], timeout);
      var t := Checked(s, items[..n], nows[..n], timeout);
      NotLeft(t);
      LeaveKeepsValid(t, items[n].identify, TimedOut);
      hide Settled, OwnItem, Expired, ChecksTo;
      ChecksStep(s, t, items, nows, timeout);
    }
  }

  lemma NothingExpired(requests: map<string, Address>, nows: seq<nat>, timeout: nat, k: string)
    requires nows == []
    ensures !ExpiredFor(requests, [], nows, timeout, k)
  {
  }

  lemma {:induction false} KeptIs<T>(all: seq<T>, gone: seq<bool>, x: T)
    requires |all| == |gone| && x in Keep(all, gone)
    ensures x in all
    decreases |all|
  {
    var k := |all| - 1;
    if all != [] && x in Keep(all[..k], gone[..k]) {
      KeptIs(all[..k], gone[..k], x);
    }
  }

  lemma {:induction false} KeptInOrder(owners: seq<nat>, gone: seq<bool>)
    requires |owners| == |gone| && Increasing(owners)
    ensures Increasing(Keep(owners, gone))
    decreases |owners|
  {
    if owners != [] {
      var k := |owners| - 1;
      KeptInOrder(owners[..k], gone[..k]);
      var kept := Keep(owners[..k], gone[..k]);
      forall i | 0 <= i < |kept| ensures kept[i] < owners[k] {
        KeptIs(owners[..k], gone[..k], kept[i]);
      }
    }
  }

  /** What is kept of two lists stays side by side. */
  lemma {:induction false} KeptPairs<S, T>(a: seq<S>, b: seq<T>, gone: seq<bool>, i: nat) returns (j: nat)
    requires |a| == |b| == |gone| && i < |Keep(a, gone)|
    ensures |Keep(a, gone)| == |Keep(b, gone)| && j < |a| && !gone[j]
    ensures Keep(a, gone)[i] == a[j] && Keep(b, gone)[i] == b[j]
    decreases |a|
  {
    var k := |a| - 1;
    SameLength(a[..k], b[..k], gone[..k]);
    if i < |Keep(a[..k], gone[..k])| {
      j := KeptPairs(a[..k], b[..k], gone[..k], i);
    } else {
      j := k;
    }
  }

  lemma {:induction false} SameLength<S, T>(a: seq<S>, b: seq<T>, gone: seq<bool>)
    requires |a| == |b| == |gone|
    ensures |Keep(a, gone)| == |Keep(b, gone)|
    decreases |a|
  {
    if a != [] {
      SameLength(a[..|a| - 1], b[..|a| - 1], gone[..|a| - 1]);
    }
  }

  lemma {:induction false} KeptAt<S, T>(a: seq<S>, b: seq<T>, gone: seq<bool>, j: nat) returns (i: nat)
    requires |a| == |b| == |gone| && j < |a| && !gone[j]
    ensures i < |Keep(a, gone)| == |Keep(b, gone)| && Keep(a, gone)[i] == a[j] && Keep(b, gone)[i] == b[j]
    decreases |a|
  {
    var k := |a| - 1;
    SameLength(a[..k], b[..k], gone[..k]);
    if j < k {
      i := KeptAt(a[..k], b[..k], gone[..k], j);
    } else {
      i := |Keep(a[..k], gone[..k])|;
    }
  }

  /** A request that still waits after a pass still has its own item. */
  lemma StillWaiting(s: Table, nows: seq<nat>, timeout: nat, k: string) returns (i: nat)
    requires Valid(s) && Ticks(s.items, nows) && timeout > 0 && k in Pass(s, nows, timeout).requests
    ensures OwnItem(Pass(s, nows, timeout), k, i)
  {
    CheckedIs(s, s.items, nows, timeout);
    var gone := Gone(s.items, nows, timeout);
    var j :| OwnItem(s, k, j);
    i := KeptAt(s.items, s.owners, gone, j);
  }

  lemma PassKeepsListed(s: Table, nows: seq<nat>, timeout: nat)
    requires Valid(s) && Ticks(s.items, nows) && timeout > 0
    ensures Listed(Pass(s, nows, timeout))
  {
    CheckedIs(s, s.items, nows, timeout);
    var t, gone := Pass(s, nows, timeout), Gone(s.items, nows, timeout);
    SameLength(s.items, s.owners, gone);
    KeptInOrder(s.owners, gone);
    forall i | 0 <= i < |t.items| ensures t.owners[i] < t.accepted && t.items[i].timestamp < WORD {
      var j := KeptPairs(s.items, s.owners, gone, i);
    }
    forall k | k in t.waiting ensures exists j :: OwnItem(t, k, j) {
      var i := StillWaiting(s, nows, timeout, k);
    }
  }

  lemma PassKeepsValid(s: Table, nows: seq<nat>, timeout: nat)
    requires Valid(s) && Ticks(s.items, nows)
    ensures Valid(Pass(s, nows, timeout))
  {
    if timeout > 0 {
      PassKeepsListed(s, nows, timeout);
      hide Settled, OwnItem;
      CheckedIs(s, s.items, nows, timeout);
      SettledOnly(Checked(s, s.items, nows, timeout), Pass(s, nows, timeout));
    }
  }

  lemma SettledOnly(s: Table, t: Table)
    requires Settled(s) && t == s.(items := t.items, owners := t.owners)
    ensures Settled(t)
  {
  }

  /** The middle of a pass: the first i items have been looked at. */
  function Midway(s: Table, nows: seq<nat>, timeout: nat, i: nat): Table
    requires Ticks(s.items, nows) && |s.owners| == |s.items| && i <= |s.items|
  {
    var gone := Gone(s.items, nows, timeout)[..i];
    Checked(s, s.items[..i], nows[..i], timeout)
      .(items := Keep(s.items[..i], gone) + s.items[i..], owners := Keep(s.owners[..i], gone) + s.owners[i..])
  }

  /** The position of item i by then. */
  function Position(s: Table, nows: seq<nat>, timeout: nat, i: nat): nat
    requires Ticks(s.items, nows) && i <= |s.items|
  {
    |Keep(s.items[..i], Gone(s.items, nows, timeout)[..i])|
  }

  lemma MidwayBegins(s: Table, nows: seq<nat>, timeout: nat)
    requires Ticks(s.items, nows) && |s.owners| == |s.items|
    ensures Midway(s, nows, timeout, 0) == s && Position(s, nows, timeout, 0) == 0
  {
    hide Gone, Expired;
    assert s.items[0..] == s.items && s.owners[0..] == s.owners;
  }

  lemma MidwayEnds(s: Table, nows: seq<nat>, timeout: nat)
    requires Ticks(s.items, nows) && |s.owners| == |s.items| && timeout > 0
    ensures Midway(s, nows, timeout, |s.items|) == Pass(s, nows, timeout)
    ensures Position(s, nows, timeout, |s.items|) == |Pass(s, nows, timeout).items|
  {
    hide Gone, Checked, Keep, Expired;
    var n, gone := |s.items|, Gone(s.items, nows, timeout);
    assert s.items[..n] == s.items && s.owners[..n] == s.owners && nows[..n] == nows && gone[..n] == gone;
  }

  lemma NotChecked(s: Table, nows: seq<nat>)
    requires Ticks(s.items, nows) && |s.owners| == |s.items|
    ensures Pass(s, nows, 0) == s
  {
  }

  /** Element i of all is behind front; taking it out, and leaving it in. */
  lemma NextOf<T>(front: seq<T>, all: seq<T>, i: nat)
    requires i < |all|
    ensures var m, pos := front + all[i..], |front|;
            && m[pos] == all[i] && m[..pos] + m[pos + 1..] == front + all[i + 1..]
            && m == (front + [all[i]]) + all[i + 1..]
  {
  }

  /** The item at this position is looked at, and leaves the list if it has expired. */
  lemma MidwayStep(s: Table, nows: seq<nat>, timeout: nat, i: nat)
    requires Ticks(s.items, nows) && |s.owners| == |s.items| && i < |s.items|
    ensures var m, pos := Midway(s, nows, timeout, i), Position(s, nows, timeout, i);
            && pos < |m.items| == |m.owners| && m.items[pos] == s.items[i] && m.items[pos].timestamp < WORD && nows[i] < WORD
            && (if Expired(m.items[pos], nows[i], timeout) then
                  && Position(s, nows, timeout, i + 1) == pos
                  && Midway(s, nows, timeout, i + 1) ==
                       (if Stands(m.requests, m.items[pos]) then Leave(m, m.items[pos].identify, TimedOut) else m)
                         .(items := m.items[..pos] + m.items[pos + 1..], owners := m.owners[..pos] + m.owners[pos + 1..])
                else Position(s, nows, timeout, i + 1) == pos + 1 && Midway(s, nows, timeout, i + 1) == m)
  {
    hide Checked, Expired, Leave, Keep, Stands;
    var gone := Gone(s.items, nows, timeout);
    CheckedStep(s, s.items, nows, timeout, i);
    KeepStep(s.items, gone, i);
    KeepStep(s.owners, gone, i);
    SameLength(s.items[..i], s.owners[..i], gone[..i]);
    NextOf(Keep(s.items[..i], gone[..i]), s.items, i);
    NextOf(Keep(s.owners[..i], gone[..i]), s.owners, i);
    var t := Checked(s, s.items[..i], nows[..i], timeout);
    LeaveIgnoresItems(t, s.items[i].identify, Midway(s, nows, timeout, i));
  }

  /** The list ends where the pass does. */
  lemma MidwayIsLonger(s: Table, nows: seq<nat>, timeout: nat, i: nat)
    requires Ticks(s.items, nows) && |s.owners| == |s.items| && i <= |s.items|
    ensures |Midway(s, nows, timeout, i).items| == Position(s, nows, timeout, i) + |s.items| - i
  {
  }

  lemma CheckedStep(s: Table, items: seq<Item>, nows: seq<nat>, timeout: nat, i: nat)
    requires Ticks(items, nows) && i < |items|
    ensures var t := Checked(s, items[..i], nows[..i], timeout);
            Checked(s, items[..i + 1], nows[..i + 1], timeout) ==
            if Expired(items[i], nows[i], timeout) && Stands(t.requests, items[i]) then Leave(t, items[i].identify, TimedOut)
            else t
  {
    assert items[..i + 1][..i] == items[..i] && nows[..i + 1][..i] == nows[..i];
  }

  lemma KeepStep<T>(all: seq<T>, gone: seq<bool>, i: nat)
    requires |all| == |gone| && i < |all|
    ensures Keep(all[..i + 1], gone[..i + 1]) == Keep(all[..i], gone[..i]) + if gone[i] then [] else [all[i]]
  {
    assert all[..i + 1][..i] == all[..i] && gone[..i + 1][..i] == gone[..i];
  }

  lemma LeaveIgnoresItems(s: Table, k: string, t: Table)
    requires t == s.(items := t.items, owners := t.owners)
    ensures Leave(t, k, TimedOut) == Leave(s, k, TimedOut).(items := t.items, owners := t.owners)
  {
  }

  lemma SameNames(s: Table, nows: seq<nat>, timeout: nat, i: nat)
    requires Valid(s) && Ticks(s.items, nows) && i <= |s.items|
    ensures var m := Midway(s, nows, timeout, i); m.waiting.Keys == m.requests.Keys
  {
    CheckedIs(s, s.items[..i], nows[..i], timeout);
  }

  // ---------- Who times out ----------

  lemma PassRequests(s: Table, nows: seq<nat>, timeout: nat, k: string)
    requires Valid(s) && Ticks(s.items, nows) && timeout > 0 && k in s.requests
    ensures var t := Pass(s, nows, timeout);
            && (k !in t.requests <==> ExpiredFor(s.requests, s.items, nows, timeout, k))
            && (k !in t.requests ==> s.waiting[k] in t.exits && t.exits[s.waiting[k]] == TimedOut)
            && (k in t.requests ==> t.requests[k] == s.requests[k] && k in t.waiting && t.waiting[k] == s.waiting[k])
  {
    CheckedIs(s, s.items, nows, timeout);
  }

  /**
   * A request times out in a pass if and only if an item with its name and its address, its own or not, was added more
   * than the timeout ago.
   */
  lemma TimesOutExactly(s: Table, nows: seq<nat>, timeout: nat, k: string)
    requires Valid(s) && Ticks(s.items, nows) && timeout > 0 && k in s.requests
    ensures var t := Pass(s, nows, timeout);
            && (k !in t.requests <==>
                  exists j :: 0 <= j < |s.items| && s.items[j].identify == k && s.items[j].request == s.requests[k]
                              && Difference(s.items[j].timestamp, nows[j]) > timeout)
            && (k !in t.requests ==> s.waiting[k] in t.exits && t.exits[s.waiting[k]] == TimedOut)
            && (k in t.requests ==> t.requests[k] == s.requests[k] && k in t.waiting && t.waiting[k] == s.waiting[k])
  {
    PassRequests(s, nows, timeout, k);
    hide Pass, Valid, Difference;
  }

  predicate Recent(s: Table, nows: seq<nat>, timeout: nat, j: int)
    requires Ticks(s.items, nows)
  {
    0 <= j < |s.items| && Difference(s.items[j].timestamp, nows[j]) <= timeout
  }

  /** Item i of t is item j of s, with its owner, and was added no longer than the timeout ago. */
  predicate Stays(s: Table, t: Table, nows: seq<nat>, timeout: nat, j: int, i: int)
    requires Ticks(s.items, nows)
  {
    && Recent(s, nows, timeout, j) && j < |s.owners| && 0 <= i < |t.items| == |t.owners|
    && t.items[i] == s.items[j] && t.owners[i] == s.owners[j]
  }

  lemma KeptStays(s: Table, nows: seq<nat>, timeout: nat, i: nat) returns (j: nat)
    requires Valid(s) && Ticks(s.items, nows) && timeout > 0 && i < |Pass(s, nows, timeout).items|
    ensures Stays(s, Pass(s, nows, timeout), nows, timeout, j, i) && j < |s.items| && Pass(s, nows, timeout).items[i] == s.items[j]
  {
    var gone := Gone(s.items, nows, timeout);
    SameLength(s.items, s.owners, gone);
    j := KeptPairs(s.items, s.owners, gone, i);
    assert !Expired(s.items[j], nows[j], timeout);
    hide Keep, Checked, Valid;
  }

  lemma StaysKept(s: Table, nows: seq<nat>, timeout: nat, j: nat) returns (i: nat)
    requires Valid(s) && Ticks(s.items, nows) && timeout > 0 && Recent(s, nows, timeout, j)
    ensures Stays(s, Pass(s, nows, timeout), nows, timeout, j, i)
  {
    var gone := Gone(s.items, nows, timeout);
    assert !Expired(s.items[j], nows[j], timeout);
    i := KeptAt(s.items, s.owners, gone, j);
    hide Keep, Checked, Valid;
  }

  /** The items that stay are those that have not expired, in their order, each with its owner. */
  lemma ItemsLeft(s: Table, nows: seq<nat>, timeout: nat)
    requires Valid(s) && Ticks(s.items, nows) && timeout > 0
    ensures var t := Pass(s, nows, timeout);
            && Increasing(t.owners)
            && (forall i :: 0 <= i < |t.items| ==> t.items[i] in s.items && exists j :: Stays(s, t, nows, timeout, j, i))
            && (forall j :: Recent(s, nows, timeout, j) ==> exists i :: Stays(s, t, nows, timeout, j, i))
  {
    PassKeepsValid(s, nows, timeout);
    hide Pass, Stays, Settled;
    var t := Pass(s, nows, timeout);
    forall i | 0 <= i < |t.items| ensures t.items[i] in s.items && exists j :: Stays(s, t, nows, timeout, j, i) {
      var j := KeptStays(s, nows, timeout, i);
    }
    forall j | Recent(s, nows, timeout, j) ensures exists i :: Stays(s, t, nows, timeout, j, i)
    {
      var i := StaysKept(s, nows, timeout, j);
    }
  }

  /**
   * So it times out exactly when its own item has expired, if and only if that has expired or no other item with its
   * name and address has.
   */
  lemma OwnItemExact(s: Table, nows: seq<nat>, timeout: nat, k: string, own: nat)
    requires Valid(s) && Ticks(s.items, nows) && timeout > 0 && OwnItem(s, k, own)
    ensures (k !in Pass(s, nows, timeout).requests <==> Expired(s.items[own], nows[own], timeout)) <==>
            (Expired(s.items[own], nows[own], timeout) ||
             forall j :: 0 <= j < |s.items| && j != own && Names(s.items[j], k, s.requests[k]) ==>
               !Expired(s.items[j], nows[j], timeout))
  {
    hide Valid, Expired, Pass;
    PassRequests(s, nows, timeout, k);
  }

  // ---------- The end ----------

  /** What is left when these names are. */
  ghost predicate FinishesTo(s: Table, t: Table, left: seq<string>)
    requires s.waiting.Keys == s.requests.Keys
  {
    && t.accepted == s.accepted && t.waiting.Keys == t.requests.Keys && (forall k :: k in t.waiting <==> k in left)
    && (forall k :: k in t.waiting ==> k in s.waiting && t.waiting[k] == s.waiting[k])
    && (forall k :: k in s.waiting && k !in t.waiting ==> s.waiting[k] in t.exits && t.exits[s.waiting[k]] == Destroyed)
    && (forall n :: n in s.exits ==> n in t.exits && t.exits[n] == s.exits[n])
  }

  lemma FinishesStep(s: Table, t: Table, left: seq<string>)
    requires s.waiting.Keys == s.requests.Keys && FinishesTo(s, t, left) && left != [] && left[0] !in left[1..]
    requires forall k :: k in t.waiting ==> t.waiting[k] !in t.exits
    ensures FinishesTo(s, Leave(t, left[0], Destroyed), left[1..])
  {
    assert left == [left[0]] + left[1..];
  }

  lemma {:induction false} FinishedIs(s: Table, names: seq<string>, i: nat)
    requires Valid(s) && Distinct(names) && (forall k :: k in s.waiting <==> k in names) && i <= |names|
    ensures var t := Finished(s, names[..i]); Valid(t) && FinishesTo(s, t, names[i..])
    decreases i
  {
    if i == 0 {
      assert names[..0] == [] && names[0..] == names;
    } else {
      FinishedIs(s, names, i - 1);
      var t := Finished(s, names[..i - 1]);
      NotLeft(t);
      LeaveKeepsValid(t, names[i - 1], Destroyed);
      FinishedStep(s, names, i - 1);
      assert names[i - 1..][0] == names[i - 1] && names[i - 1..][1..] == names[i..];
      hide Settled, FinishesTo, OwnItem;
      FinishesStep(s, t, names[i - 1..]);
    }
  }

  lemma FinishedStep(s: Table, names: seq<string>, i: nat)
    requires i < |names|
    ensures Finished(s, names[..i + 1]) == Leave(Finished(s, names[..i]), names[i], Destroyed)
    ensures names[i] in names[i..]
  {
    assert names[..i + 1][..i] == names[..i];
    assert names[i..][0] == names[i];
  }

  /** Every request that waited is finished by the destructor, once; then every one ever accepted has left. */
  lemma AllHaveLeft(s: Table, names: seq<string>)
    requires Valid(s) && Distinct(names) && forall k :: k in s.waiting <==> k in names
    ensures var t := Destroy(s, names);
            && Valid(t) && t.requests == map[] && t.items == []
            && (forall k :: k in s.waiting ==> s.waiting[k] in t.exits && t.exits[s.waiting[k]] == Destroyed)
            && (forall n :: n in s.exits ==> n in t.exits && t.exits[n] == s.exits[n])
            && (forall n: nat :: n in t.exits <==> n < s.accepted)
            && (forall n: nat :: n in t.finished <==> n < s.accepted && t.exits[n] != Erased) && Distinct(t.finished)
  {
    FinishedIs(s, names, |names|);
    assert names[..|names|] == names && names[|names|..] == [];
    var t := Finished(s, names);
    assert t.waiting == map[] && t.requests == map[];
    SettledOnly(t, Destroy(s, names));
  }

  // ---------- An address that is used again ----------

  /** A request is accepted and erased, and the next one of that name, five seconds later, is at the same address. */
  function Reused(p: Address): Table {
    Add(Leave(Add(NOTHING, "a", p, 0), "a", Erased), "a", p, 5000)
  }

  lemma ReusedIs(p: Address)
    ensures var s := Reused(p);
            && s.items == [Item("a", p, 0), Item("a", p, 5000)] && s.owners == [0, 1]
            && s.requests == map["a" := p] && s.waiting == map["a" := 1]
  {
  }

  lemma ReusedIsValid(p: Address)
    ensures Valid(Reused(p)) && OwnItem(Reused(p), "a", 1)
  {
    ReusedIs(p);
    hide Valid, OwnItem;
    NothingIsValid();
    AddKeepsValid(NOTHING, "a", p, 0);
    var s0 := Add(NOTHING, "a", p, 0);
    LeaveKeepsValid(s0, "a", Erased);
    AddKeepsValid(Leave(s0, "a", Erased), "a", p, 5000);
  }

  /** A pass after another 1500 milliseconds finds the item that was left behind, and makes the new request fail. */
  lemma ReusedAddress(p: Address)
    ensures var s, t := Reused(p), Pass(Reused(p), [6500, 6500], 6000);
            && Valid(s) && OwnItem(s, "a", 1) && s.waiting["a"] == 1 && !Expired(s.items[1], 6500, 6000)
            && Valid(t) && 1 in t.exits && t.exits[1] == TimedOut && 1 in t.finished
  {
    ReusedIs(p);
    ReusedIsValid(p);
    var s := Reused(p);
    hide Reused, Pass, Listed;
    assert Expired(s.items[0], 6500, 6000) && Names(s.items[0], "a", p);
    PassKeepsValid(s, [6500, 6500], 6000);
    PassRequests(s, [6500, 6500], 6000, "a");
  }

  /** The same tick count for every item. */
  function AllAt(items: seq<Item>, e: nat): (nows: seq<nat>)
    requires e < WORD && forall j :: 0 <= j < |items| ==> items[j].timestamp < WORD
    ensures Ticks(items, nows) && forall j :: 0 <= j < |items| ==> nows[j] == e
  {
    seq(|items|, _ => e)
  }

  /** An item of that name and that address, older than now, is still in the check list. */
  predicate LeftBehind(items: seq<Item>, identify: string, request: Address, now: nat) {
    exists j :: 0 <= j < |items| && Names(items[j], identify, request) && items[j].timestamp < now
  }

  /** A pass at tick count e makes the request fail, though its own item has not expired. */
  predicate FailsEarly(s: Table, k: string, own: nat, timeout: nat, e: nat)
    requires |s.owners| == |s.items| && own < |s.items|
    requires e < WORD && forall j :: 0 <= j < |s.items| ==> s.items[j].timestamp < WORD
  {
    k !in Pass(s, AllAt(s.items, e), timeout).requests && !Expired(s.items[own], e, timeout)
  }

  /**
   * What a caller of AddRequest could look for: as long as the clock does not wrap around, some pass makes the new request
   * fail before its own item has expired if and only if an older item of its name and address was left behind.
   */
  lemma ReuseExact(s: Table, identify: string, request: Address, now: nat, timeout: nat)
    requires Valid(s) && identify !in s.requests && request !in s.requests.Values && timeout > 0
    requires now + timeout < WORD && forall j :: 0 <= j < |s.items| ==> s.items[j].timestamp <= now
    ensures var t := Add(s, identify, request, now);
            && Valid(t)
            && ((exists e :: now <= e < WORD && FailsEarly(t, identify, |s.items|, timeout, e))
                <==> LeftBehind(s.items, identify, request, now))
  {
    hide Pass, Settled, FailsEarly;
    var t, own := Add(s, identify, request, now), |s.items|;
    AddKeepsValid(s, identify, request, now);
    if LeftBehind(s.items, identify, request, now) {
      var j :| 0 <= j < own && Names(s.items[j], identify, request) && s.items[j].timestamp < now;
      var late := s.items[j].timestamp + timeout + 1;
      var e := if late < now then now else late;
      assert t.items[j] == s.items[j];
      EarlyWhen(t, identify, own, timeout, e);
      assert FailsEarly(t, identify, own, timeout, e);
    } else {
      forall e | now <= e < WORD ensures !FailsEarly(t, identify, own, timeout, e) {
        EarlyWhen(t, identify, own, timeout, e);
        forall j | 0 <= j < own && Names(t.items[j], identify, request) ensures t.items[j].timestamp == now {
          assert t.items[j] == s.items[j];
        }
      }
    }
  }

  lemma EarlyWhen(s: Table, k: string, own: nat, timeout: nat, e: nat)
    requires Valid(s) && OwnItem(s, k, own) && timeout > 0 && e < WORD
    ensures FailsEarly(s, k, own, timeout, e) <==>
            !Expired(s.items[own], e, timeout) &&
            exists j :: 0 <= j < |s.items| && Names(s.items[j], k, s.requests[k]) && Expired(s.items[j], e, timeout)
  {
    hide Pass, Settled, Expired;
    PassRequests(s, AllAt(s.items, e), timeout, k);
    assert forall j :: 0 <= j < |s.items| ==> AllAt(s.items, e)[j] == e;
  }

  // ---------- Whole runs ----------

  /** The item is the only one with the name and the address of its request. */
  ghost predicate Unmistakable(s: Table) {
    forall k, j | k in s.requests && k in s.waiting && 0 <= j < |s.items| == |s.owners| && Names(s.items[j], k, s.requests[k])
      :: s.owners[j] == s.waiting[k]
  }

  /** Then a request times out if and only if its own item has expired. */
  lemma TimesOutByOwnItem(s: Table, nows: seq<nat>, timeout: nat, k: string, own: nat)
    requires Valid(s) && Unmistakable(s) && Ticks(s.items, nows) && timeout > 0 && OwnItem(s, k, own)
    ensures k !in Pass(s, nows, timeout).requests <==> Expired(s.items[own], nows[own], timeout)
  {
    hide Pass, Settled, Expired;
    PassRequests(s, nows, timeout, k);
    forall j | 0 <= j < |s.items| && Names(s.items[j], k, s.requests[k]) ensures j == own {
      assert s.owners[j] == s.owners[own];
    }
  }

  datatype Action = Adding(identify: string, request: Address, now: nat) | Erasing(identify: string) | Passing(nows: seq<nat>)

  predicate Enabled(s: Table, a: Action) {
    match a
    case Adding(_, request, now) => request !in s.requests.Values && now < WORD
    case Erasing(_) => true
    case Passing(nows) => Ticks(s.items, nows) && |s.owners| == |s.items|
  }

  function Apply(s: Table, a: Action, timeout: nat): Table
    requires Enabled(s, a)
  {
    match a
    case Adding(identify, request, now) => Add(s, identify, request, now)
    case Erasing(identify) => Leave(s, identify, Erased)
    case Passing(nows) => Pass(s, nows, timeout)
  }

  predicate Possible(s: Table, run: seq<Action>, timeout: nat)
    decreases |run|
  {
    run == [] || (Enabled(s, run[0]) && Possible(Apply(s, run[0], timeout), run[1..], timeout))
  }

  /** What is accepted finds no item with its name and address in the check list. */
  predicate FindsNone(s: Table, a: Action) {
    a.Adding? && a.identify !in s.requests ==> forall j :: 0 <= j < |s.items| ==> !Names(s.items[j], a.identify, a.request)
  }

  predicate AlwaysFindsNone(s: Table, run: seq<Action>, timeout: nat)
    requires Possible(s, run, timeout)
    decreases |run|
  {
    run == [] || (FindsNone(s, run[0]) && AlwaysFindsNone(Apply(s, run[0], timeout), run[1..], timeout))
  }

  ghost predicate AlwaysUnmistakable(s: Table, run: seq<Action>, timeout: nat)
    requires Possible(s, run, timeout)
    decreases |run|
  {
    Unmistakable(s) && (run == [] || AlwaysUnmistakable(Apply(s, run[0], timeout), run[1..], timeout))
  }

  lemma AddUnmistakable(s: Table, identify: string, request: Address, now: nat)
    requires Valid(s) && Unmistakable(s) && request !in s.requests.Values && now < WORD
    ensures Unmistakable(Add(s, identify, request, now)) <==> FindsNone(s, Adding(identify, request, now))
  {
    hide Settled;
    var t := Add(s, identify, request, now);
    if identify !in s.requests {
      forall j | 0 <= j < |s.items| ensures t.items[j] == s.items[j] && t.owners[j] == s.owners[j] < s.accepted {
      }
      if FindsNone(s, Adding(identify, request, now)) {
        forall k, j | k in t.requests && k in t.waiting && 0 <= j < |t.items| && Names(t.items[j], k, t.requests[k])
          ensures t.owners[j] == t.waiting[k]
        {
          assert j < |s.items| ==> Names(s.items[j], k, t.requests[k]);
        }
      } else {
        var j :| 0 <= j < |s.items| && Names(s.items[j], identify, request);
        assert Names(t.items[j], identify, t.requests[identify]) && t.owners[j] != t.waiting[identify];
      }
    }
  }

  lemma LeaveUnmistakable(s: Table, identify: string, how: Exit)
    requires Unmistakable(s)
    ensures Unmistakable(Leave(s, identify, how))
  {
  }

  lemma PassUnmistakable(s: Table, nows: seq<nat>, timeout: nat)
    requires Valid(s) && Unmistakable(s) && Ticks(s.items, nows)
    ensures Unmistakable(Pass(s, nows, timeout))
  {
    hide Settled;
    if timeout > 0 {
      CheckedIs(s, s.items, nows, timeout);
      var t, gone := Pass(s, nows, timeout), Gone(s.items, nows, timeout);
      SameLength(s.items, s.owners, gone);
      forall k, i | k in t.requests && k in t.waiting && 0 <= i < |t.items| && Names(t.items[i], k, t.requests[k])
        ensures t.owners[i] == t.waiting[k]
      {
        var j := KeptPairs(s.items, s.owners, gone, i);
      }
    }
  }

  lemma StepKeepsValid(s: Table, a: Action, timeout: nat)
    requires Valid(s) && Enabled(s, a)
    ensures Valid(Apply(s, a, timeout))
    ensures Unmistakable(s) ==> (Unmistakable(Apply(s, a, timeout)) <==> FindsNone(s, a))
  {
    hide Valid, Unmistakable, Add, Leave, Pass, FindsNone;
    match a
    case Adding(identify, request, now) =>
      AddKeepsValid(s, identify, request, now);
      if Unmistakable(s) {
        AddUnmistakable(s, identify, request, now);
      }
    case Erasing(identify) =>
      LeaveKeepsValid(s, identify, Erased);
      FindsNoneElse(s, a);
      if Unmistakable(s) {
        LeaveUnmistakable(s, identify, Erased);
      }
    case Passing(nows) =>
      PassKeepsValid(s, nows, timeout);
      FindsNoneElse(s, a);
      if Unmistakable(s) {
        PassUnmistakable(s, nows, timeout);
      }
  }

  lemma FindsNoneElse(s: Table, a: Action)
    requires !a.Adding?
    ensures FindsNone(s, a)
  {
  }

  /**
   * No request can ever be mistaken for another one if and only if every one that is accepted finds no item with its
   * name and its address.
   */
  lemma {:induction false} UnmistakableFrom(s: Table, run: seq<Action>, timeout: nat)
    requires Valid(s) && Unmistakable(s) && Possible(s, run, timeout)
    ensures AlwaysUnmistakable(s, run, timeout) <==> AlwaysFindsNone(s, run, timeout)
    decreases |run|
  {
    hide Valid, Unmistakable, Apply, FindsNone, Enabled;
    if run != [] {
      StepKeepsValid(s, run[0], timeout);
      var t := Apply(s, run[0], timeout);
      if Unmistakable(t) {
        UnmistakableFrom(t, run[1..], timeout);
      } else {
        assert !AlwaysUnmistakable(t, run[1..], timeout);
      }
    }
  }

  lemma UnmistakableExact(run: seq<Action>, timeout: nat)
    requires Possible(NOTHING, run, timeout)
    ensures AlwaysUnmistakable(NOTHING, run, timeout) <==> AlwaysFindsNone(NOTHING, run, timeout)
  {
    NothingIsValid();
    UnmistakableFrom(NOTHING, run, timeout);
  }
}
