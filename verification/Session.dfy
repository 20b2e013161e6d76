/** Session.cpp: the requests that wait for an answer. */
module Session {
  import opened Common
  import opened SessionTable

  class Session {
    var timeout: nat                       // milliseconds; 0: no check
    var requests: map<string, Address>     // mRequestMap
    var items: seq<Item>                   // mRequestItemList
    ghost var waiting: map<string, nat>    // which acceptance waits under a name
    ghost var owners: seq<nat>             // the acceptance each item was made for
    ghost var accepted: nat                // how many AddRequest has accepted
    ghost var exits: map<nat, Exit>        // how acceptances have left
    ghost var finished: seq<nat>           // the calls of FinisRequest(false), in order

    ghost function State(): Table
      reads this
    {
      Table(requests, items, waiting, owners, accepted, exits, finished)
    }

    constructor (timeout: nat)
      ensures State() == NOTHING && this.timeout == timeout
    {
      this.timeout := timeout;
      requests, items, waiting, owners, accepted, exits, finished := map[], [], map[], [], 0, map[], [];
    }

    /** A request may have the address of one that has left, but not of one that waits. */
    method AddRequest(identify: string, request: Address, now: nat) returns (flag: bool)
      requires Valid(State()) && request !in requests.Values && now < WORD
      modifies `requests, `items, `waiting, `owners, `accepted
      ensures Valid(State()) && State() == Add(old(State()), identify, request, now)
      ensures flag <==> identify !in old(requests)
      ensures requests == if flag then old(requests)[identify := request] else old(requests)
      ensures items == if flag then old(items) + [Item(identify, request, now)] else old(items)
    {
      hide Valid, OwnItem;
      AddKeepsValid(State(), identify, request, now);
      flag := false;
      if identify !in requests {
        requests := requests[identify := request];
        items := items + [Item(identify, request, now)];
        waiting, owners, accepted := waiting[identify := accepted], owners + [accepted], accepted + 1;
        flag := true;
      }
    }

    method EraseRequest(identify: string) returns (request: Option<Address>)
      requires Valid(State())
      modifies `requests, `waiting, `exits
      ensures Valid(State()) && State() == Leave(old(State()), identify, Erased)
      ensures request == if identify in old(requests) then Some(old(requests)[identify]) else None
      ensures requests == old(requests) - {identify} && items == old(items) && finished == old(finished)
      ensures identify in old(waiting) ==> old(waiting)[identify] !in finished
    {
      hide Valid;
      SameKeys(State());
      LeaveKeepsValid(State(), identify, Erased);
      request := None;
      if identify in requests {
        request := Some(requests[identify]);
        exits := exits[waiting[identify] := Erased];
        requests, waiting := requests - {identify}, waiting - {identify};
      }
    }

    /** FinisRequest(false) on a waiting request, and its removal. */
    method Fail(identify: string, ghost how: Exit)
      requires identify in requests && identify in waiting && how != Erased
      modifies `requests, `waiting, `exits, `finished
      ensures State() == Leave(old(State()), identify, how)
    {
      ghost var n := waiting[identify];
      requests, waiting := requests - {identify}, waiting - {identify};
      exits, finished := exits[n := how], finished + [n];
    }

    /** What the pass does about the request of an item that has expired. */
    method CheckItem(item: Item)
      requires waiting.Keys == requests.Keys
      modifies `requests, `waiting, `exits, `finished
      ensures State() == if Stands(old(requests), item) then Leave(old(State()), item.identify, TimedOut) else old(State())
    {
      if item.identify in requests && requests[item.identify] == item.request {
        Fail(item.identify, TimedOut);
      }
    }

    /** The body of the loop over the list that s has held, for its item i, which is at position pos now. */
    method CheckNext(pos: nat, now: nat, ghost s: Table, ghost nows: seq<nat>, ghost i: nat) returns (next: nat)
      requires Valid(s) && Ticks(s.items, nows) && i < |s.items| && now == nows[i]
      requires State() == Midway(s, nows, timeout, i) && pos == Position(s, nows, timeout, i)
      modifies `requests, `items, `waiting, `owners, `exits, `finished
      ensures State() == Midway(s, nows, timeout, i + 1) && next == Position(s, nows, timeout, i + 1)
    {
      MidwayStep(s, nows, timeout, i);
      SameNames(s, nows, timeout, i);
      hide Valid, Leave, Stands, Midway, Position;
      var item := items[pos];
      next := pos;
      if Difference(item.timestamp, now) > timeout {
        CheckItem(item);
        items := items[..pos] + items[pos + 1..];
        owners := owners[..pos] + owners[pos + 1..];
      } else {
        next := pos + 1;
      }
    }

    /** One pass of CheckTimeoutRunnableHandle; nows[i] is the tick count when item i is looked at. */
    method CheckTimeouts(nows: seq<nat>)
      requires Valid(State()) && |nows| == |items| && forall i :: 0 <= i < |nows| ==> nows[i] < WORD
      modifies `requests, `items, `waiting, `owners, `exits, `finished
      ensures Valid(State()) && State() == Pass(old(State()), nows, timeout)
    {
      hide Valid, Pass, Midway, Position;
      ghost var s := State();
      ListHas(s);
      PassKeepsValid(s, nows, timeout);
      if timeout > 0 {
        CheckAll(nows, s);
        MidwayEnds(s, nows, timeout);
      } else {
        NotChecked(s, nows);
      }
    }

    /** The loop over the list. */
    method CheckAll(nows: seq<nat>, ghost s: Table)
      requires Valid(s) && Ticks(s.items, nows) && |s.owners| == |s.items| && timeout > 0
      requires State() == s
      modifies `requests, `items, `waiting, `owners, `exits, `finished
      ensures State() == Midway(s, nows, timeout, |s.items|)
    {
      hide Valid, Pass, Midway, Position;
      MidwayBegins(s, nows, timeout);
      var pos, i := 0, 0;
      while pos < |items|
        invariant i <= |s.items|
        invariant State() == Midway(s, nows, timeout, i) && pos == Position(s, nows, timeout, i)
        decreases |s.items| - i
      {
        MidwayIsLonger(s, nows, timeout, i);
        pos := CheckNext(pos, nows[i], s, nows, i);
        i := i + 1;
      }
      MidwayIsLonger(s, nows, timeout, i);
    }

    /** The destructor: what still waits fails; the order of the map is that of its names. */
    method Destroy(names: seq<string>)
      requires Valid(State()) && (forall k :: k in requests <==> k in names) && Distinct(names)
      modifies `requests, `items, `waiting, `owners, `exits, `finished
      ensures Valid(State()) && State() == SessionTable.Destroy(old(State()), names)
      ensures requests == map[] && items == []
    {
      hide Valid, Leave;
      ghost var s := State();
      SameKeys(s);
      AllHaveLeft(s, names);
      assert names[..|names|] == names && names[..0] == [];
      for i := 0 to |names|
        invariant State() == Finished(s, names[..i])
      {
        FinishedIs(s, names, i);
        FinishedStep(s, names, i);
        Fail(names[i], Destroyed);
      }
      items, owners := [], [];
    }
  }
}
