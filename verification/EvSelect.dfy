/** The select backend of libev: vectors of words, a word being the set of its bits. */
module EvSelect {
  import opened EvPoll

  const NFDBITS: nat := 64

  type Word = set<nat>

  /** vec_ri and vec_wi; their common length is vec_max. */
  datatype Select = Select(ri: seq<Word>, wi: seq<Word>)

  const NO_FDS: Select := Select([], [])

  ghost predicate Valid(s: Select) {
    && |s.ri| == |s.wi|
    && forall i :: 0 <= i < |s.ri| ==> (forall b :: b in s.ri[i] ==> b < NFDBITS) && (forall b :: b in s.wi[i] ==> b < NFDBITS)
  }

  predicate IsSet(vec: seq<Word>, fd: nat) {
    fd / NFDBITS < |vec| && fd % NFDBITS in vec[fd / NFDBITS]
  }

  /** The events the kernel is asked to watch fd for. */
  function Selected(s: Select, fd: nat): Mask {
    (if IsSet(s.ri, fd) then EV_READ else 0) | (if IsSet(s.wi, fd) then EV_WRITE else 0)
  }

  /** Word and bit are a number's quotient and remainder. */
  lemma FdOf(fd: nat, word: nat, bit: nat)
    requires bit < NFDBITS
    ensures (fd / NFDBITS == word && fd % NFDBITS == bit) <==> fd == word * NFDBITS + bit
  {
  }

  /** The growth of the vectors: the new words are empty. */
  method Grow(vec: seq<Word>, word: nat) returns (grown: seq<Word>)
    ensures word < |grown| && |grown| == (if |vec| <= word then word + 1 else |vec|)
    ensures forall i :: 0 <= i < |grown| ==> grown[i] == if i < |vec| then vec[i] else {}
  {
    grown := vec;
    var newMax := if |vec| <= word then word + 1 else |vec|;
    while |grown| < newMax
      invariant |vec| <= |grown| <= newMax
      invariant forall i :: 0 <= i < |grown| ==> grown[i] == if i < |vec| then vec[i] else {}
    {
      grown := grown + [{}];
    }
  }

  /** The bit of the fd is set, and cleared again unless the event is wanted. */
  method SetOrClear(vec: seq<Word>, fd: nat, wanted: bool) returns (r: seq<Word>)
    requires fd / NFDBITS < |vec|
    ensures |r| == |vec| && forall x: nat :: IsSet(r, x) == if x == fd then wanted else IsSet(vec, x)
    ensures forall i :: 0 <= i < |r| ==> r[i] <= vec[i] + {fd % NFDBITS}
  {
    var word, bit := fd / NFDBITS, fd % NFDBITS;
    r := vec[word := vec[word] + {bit}];
    if !wanted {
      r := r[word := r[word] - {bit}];
    }
    forall x: nat ensures IsSet(r, x) == if x == fd then wanted else IsSet(vec, x) {
      FdOf(x, word, bit);
    }
  }

  /** select_modify */
  method SelectModify(s: Select, fd: nat, oev: Mask, nev: Mask) returns (r: Select)
    requires Valid(s) && Legal(oev) && Legal(nev) && Selected(s, fd) == oev
    ensures Valid(r) && Selected(r, fd) == nev
    ensures (IsSet(r.ri, fd) <==> nev & 0x01 != 0) && (IsSet(r.wi, fd) <==> nev & 0x02 != 0)
    ensures forall x: nat :: x != fd ==> Selected(r, x) == Selected(s, x)
  {
    SelectedExact(s, fd);
    if oev == nev {
      return s;
    }
    MaskParts(nev);
    hide Legal;
    var ri := Grow(s.ri, fd / NFDBITS);
    var wi := Grow(s.wi, fd / NFDBITS);
    assert forall x: nat :: IsSet(ri, x) == IsSet(s.ri, x) && IsSet(wi, x) == IsSet(s.wi, x);
    ri := SetOrClear(ri, fd, nev & EV_READ != 0);
    wi := SetOrClear(wi, fd, nev & EV_WRITE != 0);
    r := Select(ri, wi);
  }

  /** The read vector is for EV_READ, the write vector for EV_WRITE. */
  lemma SelectedExact(s: Select, fd: nat)
    ensures Selected(s, fd) & 0x01 != 0 <==> IsSet(s.ri, fd)
    ensures Selected(s, fd) & 0x02 != 0 <==> IsSet(s.wi, fd)
    ensures Selected(s, fd) & !0x03 == 0
  {
    hide IsSet;
  }

  lemma MaskParts(m: Mask)
    requires Legal(m)
    ensures m == (if m & EV_READ != 0 then EV_READ else 0) | (if m & EV_WRITE != 0 then EV_WRITE else 0)
  {
    assert m == 0 || m == 1 || m == 2 || m == 3;
  }

  /** The two backends agree: the mask of select is the one poll was given. */
  ghost predicate Agree(s: Select, p: Poll) {
    forall fd: nat :: Watched(p, fd) == ToPoll(Selected(s, fd))
  }

  /** Calls of backend_modify: fd, and the mask it is to be watched for. */
  datatype Change = Change(fd: nat, nev: Mask)

  /** The mask of the last change for fd. */
  function Wanted(changes: seq<Change>, fd: nat): Mask {
    if changes == [] then 0
    else
      var last := changes[|changes| - 1];
      if last.fd == fd then last.nev else Wanted(changes[..|changes| - 1], fd)
  }

  /** Driven by the same changes, the two backends watch the same fds for the same events: those asked for last. */
  method Drive(changes: seq<Change>) returns (s: Select, p: Poll)
    requires forall i :: 0 <= i < |changes| ==> Legal(changes[i].nev)
    ensures Valid(s) && Inverse(p) && NoIdleEntry(p) && Agree(s, p)
    ensures forall fd: nat :: Selected(s, fd) == Wanted(changes, fd)
  {
    hide Legal, ToPoll, Inverse;
    s, p := NO_FDS, NOTHING;
    NothingWatched();
    for i := 0 to |changes|
      invariant Valid(s) && Inverse(p) && NoIdleEntry(p) && Agree(s, p)
      invariant forall fd: nat :: Selected(s, fd) == Wanted(changes[..i], fd)
    {
      assert changes[..i + 1][..i] == changes[..i];
      var fd, oev, nev := changes[i].fd, Selected(s, changes[i].fd), changes[i].nev;
      SelectedIsLegal(s, fd);
      p := PollModify(p, fd, oev, nev);
      s := SelectModify(s, fd, oev, nev);
    }
    assert changes[..|changes|] == changes;
  }

  lemma SelectedIsLegal(s: Select, fd: nat)
    ensures Legal(Selected(s, fd))
  {
  }

  lemma NothingWatched()
    ensures Valid(NO_FDS) && Inverse(NOTHING) && NoIdleEntry(NOTHING) && Agree(NO_FDS, NOTHING)
    ensures forall fd: nat :: Selected(NO_FDS, fd) == 0
  {
  }

  // ---------- The scan of select_poll ----------

  datatype FdEvents = FdEvents(fd: nat, events: Mask)

  /** The calls of fd_event are for the fds from lo on that are set, from the highest fd down, each with its events. */
  ghost predicate Scanned(out: seq<FdEvents>, s: Select, lo: nat) {
    && (forall i :: 0 <= i < |out| ==> lo <= out[i].fd && out[i].events == Selected(s, out[i].fd) != 0)
    && (forall i, j :: 0 <= i < j < |out| ==> out[i].fd > out[j].fd)
    && (forall fd: nat :: lo <= fd && Selected(s, fd) != 0 ==> exists i :: 0 <= i < |out| && out[i].fd == fd)
  }

  lemma ScanStep(out: seq<FdEvents>, s: Select, lo: nat, fd: nat)
    requires Scanned(out, s, lo) && lo == fd + 1
    ensures var e := Selected(s, fd);
            Scanned(if e != 0 then out + [FdEvents(fd, e)] else out, s, fd)
  {
    var e := Selected(s, fd);
    var r := if e != 0 then out + [FdEvents(fd, e)] else out;
    forall x: nat | fd <= x && Selected(s, x) != 0 ensures exists i :: 0 <= i < |r| && r[i].fd == x {
      if x == fd {
        assert r[|out|].fd == x;
      } else {
        var i :| 0 <= i < |out| && out[i].fd == x;
        assert r[i].fd == x;
      }
    }
  }

  lemma NothingAbove(s: Select, lo: nat)
    requires Valid(s) && lo >= |s.ri| * NFDBITS
    ensures Scanned([], s, lo)
  {
    forall fd: nat | lo <= fd ensures Selected(s, fd) == 0 {
      assert fd / NFDBITS >= |s.ri|;
    }
  }

  /** A word without bits has nothing to report. */
  lemma EmptyWord(out: seq<FdEvents>, s: Select, word: nat)
    requires Valid(s) && word < |s.ri| && s.ri[word] == {} && s.wi[word] == {}
    requires Scanned(out, s, (word + 1) * NFDBITS)
    ensures Scanned(out, s, word * NFDBITS)
  {
    forall fd: nat | word * NFDBITS <= fd < (word + 1) * NFDBITS ensures Selected(s, fd) == 0 {
      assert fd / NFDBITS == word;
    }
  }

  /** The loops of select_poll over the result s of select: every ready fd is reported once. */
  method Scan(s: Select) returns (out: seq<FdEvents>)
    requires Valid(s)
    ensures Scanned(out, s, 0)
  {
    hide Scanned;
    out := [];
    var word := |s.ri|;
    NothingAbove(s, word * NFDBITS);
    while word > 0
      invariant 0 <= word <= |s.ri| && Scanned(out, s, word * NFDBITS)
    {
      word := word - 1;
      if s.ri[word] != {} || s.wi[word] != {} {
        var bit := NFDBITS;
        while bit > 0
          invariant 0 <= bit <= NFDBITS && Scanned(out, s, word * NFDBITS + bit)
        {
          bit := bit - 1;
          var fd := word * NFDBITS + bit;
          FdOf(fd, word, bit);
          ScanStep(out, s, fd + 1, fd);
          var events: Mask := (if bit in s.ri[word] then EV_READ else 0) | (if bit in s.wi[word] then EV_WRITE else 0);
          if events != 0 {
            out := out + [FdEvents(fd, events)];
          }
        }
      } else {
        EmptyWord(out, s, word);
      }
    }
  }
}
