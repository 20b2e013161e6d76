/** MessageList.cpp: the list message buffers wait in. */
module MessageLists {
  import opened Common

  /** A list of message buffers, named by numbers. */
  class MessageList {
    var list: seq<nat>
    var size: nat

    ghost predicate Valid()
      reads this
    {
      size == |list|
    }

    constructor ()
      ensures Valid() && list == []
    {
      list, size := [], 0;
    }

    method PushBack(m: nat)
      requires Valid()
      modifies this
      ensures Valid() && list == old(list) + [m]
    {
      list := list + [m];
      size := size + 1;
    }

    method PopFront() returns (m: Option<nat>)
      requires Valid()
      modifies this
      ensures Valid()
      ensures old(list) == [] ==> m == None && list == []
      ensures old(list) != [] ==> m == Some(old(list)[0]) && list == old(list)[1..]
    {
      m := None;
      if |list| > 0 {
        m := Some(list[0]);
        list := list[1..];
        size := size - 1;
      }
    }
  }
}

/**
 * Client::ParseData: packets come in the order the handler threads get hold of the client, and are parsed in the order
 * of their numbers. Parsing one packet is a function of the packets parsed before it.
 */
module Reorder {
  import opened Common
  import opened MessageLists

  type Data = seq<char>

  /** What ParseCurrentPackage returns for the last of the packets it has been given: -1, 0 or 1. */
  type Parser = seq<Data> -> int

  /** A cached packet and the buffer it was copied to. */
  datatype Cached = Cached(buffer: nat, data: Data)

  ghost function Buffers(cached: map<int, Cached>): multiset<nat>
    decreases |cached|
  {
    if !exists k :: k in cached then multiset{} else
      var k :| k in cached;
      multiset{cached[k].buffer} + Buffers(cached - {k})
  }

  lemma {:induction false} BuffersWithout(cached: map<int, Cached>, k: int)
    requires k in cached
    ensures Buffers(cached) == multiset{cached[k].buffer} + Buffers(cached - {k})
    decreases |cached|
  {
    var j :| j in cached && Buffers(cached) == multiset{cached[j].buffer} + Buffers(cached - {j});
    hide Buffers;
    if j != k {
      var rest := cached - {j} - {k};
      BuffersWithout(cached - {j}, k);
      BuffersWithout(cached - {k}, j);
      assert rest == cached - {k} - {j};
    }
  }

  lemma BuffersWith(cached: map<int, Cached>, k: int, c: Cached)
    requires k !in cached
    ensures Buffers(cached[k := c]) == multiset{c.buffer} + Buffers(cached)
  {
    BuffersWithout(cached[k := c], k);
    assert cached[k := c] - {k} == cached;
  }

  /** The packets numbered below n, in order. */
  ghost function InOrder(first: map<int, Data>, n: nat): (d: seq<Data>)
    requires forall i :: 0 <= i < n ==> i in first
    ensures |d| == n
  {
    seq(n, i requires 0 <= i < n => first[i])
  }

  class Client {
    var recvSeq: nat              // miDataPacketRecvSeq
    var error: bool               // mbError
    var cached: map<int, Cached>  // mMessageMap
    const idle: MessageList       // mpIdleMessageList, shared with the other clients
    const parser: Parser
    var parsed: seq<Data>         // the packets given to ParseCurrentPackage, which make up mBuffer
    ghost var first: map<int, Data>      // the packets received, the first of each number
    ghost var lost: multiset<nat>        // buffers of packets whose number was cached already

    /**
     * All packets below recvSeq have come, and were parsed in order without an error; of the later ones, those that
     * came are cached. After a failure, what was parsed is still in order.
     */
    ghost predicate Sound(failed: bool)
      reads `recvSeq, `cached, `parsed, `first
    {
      && (forall i :: 0 <= i < recvSeq ==> i in first)
      && (forall s :: s in cached && s >= recvSeq ==> s in first && cached[s].data == first[s])
      && if failed then
           |parsed| in {recvSeq, recvSeq + 1} && (|parsed| == recvSeq + 1 ==> recvSeq in first)
           && parsed == InOrder(first, |parsed|)
         else
           && parsed == InOrder(first, recvSeq) && (forall s :: s in first && s > recvSeq ==> s in cached)
           && forall k :: 0 < k <= |parsed| ==> parser(parsed[..k]) != -1
    }

    /** Between two calls, the packet that is waited for has not come. */
    ghost predicate Valid()
      reads this, idle
    {
      idle.Valid() && Sound(error) && (!error ==> recvSeq !in first && recvSeq !in cached)
    }

    /** If the packet that is waited for has come, it is cached. */
    ghost predicate Ready()
      reads `recvSeq, `cached, `first
    {
      recvSeq in first ==> recvSeq in cached
    }

    /** Nothing is cached that was parsed already; so it is unless a number comes twice. */
    ghost predicate NoStale()
      reads `recvSeq, `cached
    {
      forall s :: s in cached ==> recvSeq <= s
    }

    ghost function Held(): multiset<nat>
      reads `cached, `lost, idle
    {
      multiset(idle.list) + Buffers(cached) + lost
    }

    constructor (list: MessageList, parser: Parser)
      requires list.Valid()
      ensures Valid() && idle == list && this.parser == parser
      ensures recvSeq == 0 && !error && cached == map[] && parsed == [] && first == map[] && lost == multiset{}
    {
      recvSeq, error, cached, idle := 0, false, map[], list;
      this.parser := parser;
      parsed, first, lost := [], map[], multiset{};
    }

    /** A packet out of order: it is copied to an idle buffer. KSafeMap::Insert keeps an element that is there already. */
    method Cache(number: int, data: Data) returns (ret: int)
      requires idle.Valid()
      modifies `cached, `lost, idle
      ensures idle.Valid() && Held() == old(Held())
      ensures ret == if old(idle.list) == [] then -1 else 0
      ensures cached == if ret == -1 || number in old(cached) then old(cached)
                        else old(cached)[number := Cached(old(idle.list)[0], data)]
      ensures number !in old(cached) ==> lost == old(lost)
    {
      var mc := idle.PopFront();
      if mc == None {
        return -1;
      }
      ghost var before := old(idle.list);
      assert before == [before[0]] + before[1..];
      if number in cached {
        lost := lost + multiset{mc.value};
      } else {
        BuffersWith(cached, number, Cached(mc.value, data));
        cached := cached[number := Cached(mc.value, data)];
      }
      ret := 0;
    }

    /** ParseCurrentPackage */
    method ParseCurrentPackage(data: Data) returns (ret: int)
      modifies `parsed
      ensures parsed == old(parsed) + [data] && ret == parser(parsed)
    {
      parsed := parsed + [data];
      ret := parser(parsed);
    }

    /** ParseCurrentPackage of the packet that is waited for, and the counter. */
    method ParseNext(data: Data) returns (ret: int)
      requires Sound(false) && recvSeq in first && first[recvSeq] == data
      modifies `parsed, `recvSeq
      ensures ret == parser(parsed) && parsed == old(parsed) + [data]
      ensures recvSeq == old(recvSeq) + if ret != -1 then 1 else 0
      ensures Sound(ret == -1) && (ret != -1 ==> Ready())
    {
      ghost var before := parsed;
      assert InOrder(first, recvSeq + 1) == InOrder(first, recvSeq) + [first[recvSeq]];
      ret := ParseCurrentPackage(data);
      assert parsed[..|parsed|] == parsed;
      assert forall k :: 0 < k <= |before| ==> parsed[..k] == before[..k];
      if ret != -1 {
        recvSeq := recvSeq + 1;
      }
    }

    /** One round of the loop over the cached packets. */
    method ParseOneCached() returns (ret: int)
      requires idle.Valid() && Sound(false) && recvSeq in cached
      modifies `recvSeq, `cached, `parsed, idle
      ensures idle.Valid() && Held() == old(Held()) && cached.Keys < old(cached.Keys)
      ensures Sound(ret == -1) && ret == parser(parsed) && old(parsed) < parsed && (ret != -1 ==> Ready())
      ensures old(NoStale()) && ret != -1 ==> NoStale()
    {
      hide Buffers, InOrder;
      var number, mc := recvSeq, cached[recvSeq];
      BuffersWithout(cached, recvSeq);
      ret := ParseNext(mc.data);
      idle.PushBack(mc.buffer);
      cached := cached - {number};
      assert number !in cached.Keys;
    }

    /** The loop over the cached packets that have become the next ones. */
    method ParseCached(last: int) returns (ret: int)
      requires idle.Valid() && Sound(false) && Ready() && last != -1
      modifies `recvSeq, `cached, `parsed, idle
      ensures idle.Valid() && Held() == old(Held()) && cached.Keys <= old(cached.Keys)
      ensures Sound(ret == -1) && (ret != -1 ==> recvSeq !in cached && recvSeq !in first)
      ensures old(NoStale()) && ret != -1 ==> NoStale()
      ensures ret == -1 ==> parsed != [] && parser(parsed) == -1
      ensures old(parsed) <= parsed
    {
      hide Held, Sound, NoStale;
      ret := last;
      while recvSeq in cached
        invariant idle.Valid() && Sound(false) && Ready() && ret != -1
        invariant Held() == old(Held()) && cached.Keys <= old(cached.Keys) && old(parsed) <= parsed
        invariant old(NoStale()) ==> NoStale()
        decreases cached.Keys
      {
        ret := ParseOneCached();
        if ret == -1 {
          return;
        }
      }
    }

    /** A packet that is not the one waited for. */
    method ParseLater(number: nat, data: Data) returns (ret: int)
      requires Valid() && !error && number != recvSeq
      modifies `cached, `lost, `first, idle
      ensures first == if number in old(first) then old(first) else old(first)[number := data]
      ensures idle.Valid() && Sound(ret == -1) && Held() == old(Held()) && ret in {-1, 0}
      ensures ret == 0 ==> recvSeq !in first && recvSeq !in cached
      ensures ret == -1 ==> old(idle.list) == []
      ensures old(NoStale()) && number !in old(first) ==> NoStale()
      ensures number !in old(first) ==> lost == old(lost)
    {
      hide Buffers;
      Grow(number, data);
      ret := Cache(number, data);
    }

    /** The packet that is waited for, and those it makes ready. */
    method ParseNow(data: Data) returns (ret: int)
      requires Valid() && !error
      modifies `recvSeq, `cached, `parsed, `first, idle
      ensures first == old(first)[old(recvSeq) := data]
      ensures idle.Valid() && Sound(ret == -1) && Held() == old(Held())
      ensures ret == -1 ==> parsed != [] && parser(parsed) == -1
      ensures ret != -1 ==> recvSeq !in cached && recvSeq !in first
      ensures old(NoStale()) && ret != -1 ==> NoStale()
      ensures old(parsed) <= parsed
    {
      hide Buffers;
      Grow(recvSeq, data);
      ret := ParseNext(data);
      if ret != -1 {
        ret := ParseCached(ret);
      }
    }

    /** The packet is the first of its number, or a repetition. */
    ghost method Grow(number: nat, data: Data)
      requires Sound(error)
      modifies `first
      ensures first == if number in old(first) then old(first) else old(first)[number := data]
      ensures forall n :: 0 <= n <= |parsed| ==> InOrder(old(first), n) == InOrder(first, n)
      ensures error ==> Sound(true)
    {
      if number !in first {
        FirstGrows(first, number, data, recvSeq);
        first := first[number := data];
      }
    }

    /** ParseData */
    method ParseData(number: nat, data: Data) returns (ret: int)
      requires Valid()
      modifies this, idle
      ensures Valid() && Held() == old(Held())
      ensures first == if number in old(first) then old(first) else old(first)[number := data]
      ensures error <==> ret == -1
      ensures old(error) ==> error && parsed == old(parsed)
      ensures error && !old(error) ==>
                (parsed != [] && parser(parsed) == -1) || (number != old(recvSeq) && old(idle.list) == [] && parsed == old(parsed))
      ensures old(parsed) <= parsed
      ensures number !in old(first) ==> lost == old(lost) && (old(NoStale()) && !error ==> NoStale())
    {
      hide Held;
      ret := 0;
      if error {
        ret := -1;
      }
      if ret != -1 {
        if recvSeq != number {
          ret := ParseLater(number, data);
        } else {
          ret := ParseNow(data);
        }
      } else {
        Grow(number, data);
      }
      if ret == -1 {
        error := true;
      }
    }
  }

  lemma FirstGrows(first: map<int, Data>, number: nat, data: Data, n: nat)
    requires number !in first && forall i :: 0 <= i < n ==> i in first
    ensures InOrder(first[number := data], n) == InOrder(first, n)
  {
  }

  /** The numbers 0 to n - 1, each once, in the order in which the handler threads happen to present the packets. */
  ghost predicate IsShuffle(numbers: seq<nat>, n: nat) {
    && (forall i :: 0 <= i < n ==> i in numbers)
    && (forall i :: 0 <= i < |numbers| ==> numbers[i] < n)
    && forall i, j :: 0 <= i < j < |numbers| ==> numbers[i] != numbers[j]
  }

  /**
   * Whatever the order: either the client ends in error, or all packets have been parsed in the order of their numbers
   * and all buffers are back in the idle list. An error means that the parser failed or that the buffers ran out.
   */
  method PresentAll(client: Client, numbers: seq<nat>, data: seq<Data>)
    requires client.Valid() && client.first == map[] && client.cached == map[] && !client.error && client.lost == multiset{}
    requires client.recvSeq == 0 && IsShuffle(numbers, |data|)
    modifies client, client.idle
    ensures client.Valid() && client.parsed <= data
    ensures !client.error ==> client.parsed == data && multiset(client.idle.list) == old(multiset(client.idle.list))
    ensures client.error ==> multiset(client.idle.list) <= old(multiset(client.idle.list))
    ensures client.error ==>
              |old(client.idle.list)| < |data| || exists k :: 0 < k <= |data| && client.parser(data[..k]) == -1
  {
    hide Client.Held;
    ghost var start, spare := client.Held(), |client.idle.list|;
    HeldHas(client);
    for i := 0 to |numbers|
      invariant client.Valid() && client.Held() == start && client.lost == multiset{}
      invariant !client.error ==> client.NoStale()
      invariant forall s :: s in client.first ==> 0 <= s < |data| && client.first[s] == data[s]
      invariant forall s :: s in client.first <==> s in numbers[..i]
      invariant client.error ==> spare < |data| || exists k :: 0 < k <= |data| && client.parser(data[..k]) == -1
    {
      if !client.error && client.idle.list == [] {
        FewBuffers(client, numbers[i], |data|);
      }
      assert numbers[i] !in numbers[..i];
      assert numbers[..i + 1] == numbers[..i] + [numbers[i]];
      var ret := client.ParseData(numbers[i], data[numbers[i]]);
      PrefixParsed(client.first, client.parsed, data);
      assert client.parsed == data[..|client.parsed|];
    }
    assert numbers[..|numbers|] == numbers;
    assert forall s :: 0 <= s < |data| ==> s in numbers ==> s in client.first;
    PrefixParsed(client.first, client.parsed, data);
    if !client.error {
      assert client.recvSeq > 0 ==> client.recvSeq - 1 in client.first;
      assert client.recvSeq == |data|;
    }
    HeldHas(client);
  }

  lemma {:induction false} BuffersCount(cached: map<int, Cached>)
    ensures |Buffers(cached)| == |cached.Keys|
    decreases |cached|
  {
    if exists k :: k in cached {
      var k :| k in cached;
      BuffersWithout(cached, k);
      BuffersCount(cached - {k});
      assert (cached - {k}).Keys == cached.Keys - {k};
    } else {
      assert cached.Keys == {};
    }
  }

  lemma {:induction false} CountBelow(all: set<int>, n: nat)
    requires forall s :: s in all ==> 0 <= s < n
    ensures |all| <= n
  {
    if n > 0 {
      CountBelow(all - {n - 1}, n - 1);
      assert n - 1 in all ==> all == (all - {n - 1}) + {n - 1};
      assert n - 1 !in all ==> all == all - {n - 1};
    } else {
      assert forall s :: s !in all;
    }
  }

  /** Without an idle buffer all buffers are cached, and fewer than all packets are, as one is being presented. */
  lemma FewBuffers(client: Client, number: nat, n: nat)
    requires client.idle.list == [] && client.lost == multiset{} && number < n && number !in client.cached
    requires forall s :: s in client.cached ==> 0 <= s < n
    ensures |client.Held()| < n
  {
    hide Buffers;
    BuffersCount(client.cached);
    CountBelow(client.cached.Keys + {number}, n);
    assert client.Held() == Buffers(client.cached);
  }

  lemma HeldHas(client: Client)
    ensures multiset(client.idle.list) <= client.Held()
    ensures client.cached == map[] && client.lost == multiset{} ==> client.Held() == multiset(client.idle.list)
  {
    if client.cached == map[] {
      NoBuffers(client.cached);
    }
  }

  lemma PrefixParsed(first: map<int, Data>, parsed: seq<Data>, data: seq<Data>)
    requires forall s :: s in first ==> 0 <= s < |data| && first[s] == data[s]
    requires forall i :: 0 <= i < |parsed| ==> i in first
    requires parsed == InOrder(first, |parsed|)
    ensures parsed <= data
  {
    assert |parsed| > 0 ==> |parsed| - 1 in first;
  }

  lemma NoBuffers(cached: map<int, Cached>)
    requires forall k :: k !in cached
    ensures Buffers(cached) == multiset{}
  {
  }
}
