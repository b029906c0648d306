/** The virtqueue consumer of src/lkl/virtio_queue.c.

    The driver makes entries available by writing descriptor heads into the ring and advancing avail->idx; the
    device hands them over, one request at a time, and advances last_queued_idx. Both indices are 16 bits
    wide and wrap; `made` and `taken` count the same events without wrapping and `entries` lists all heads
    ever made available, and these three are history. `accepted` and `calls` belong to the device: what it has
    taken out of the requests it was given, one element per entry, and all calls of its enqueue operation
    with their answers. The driver runs between the steps of the consumer as often and as fast as an
    arbitrary sequence says, and the answers are drawn from another; when that is used up, the device
    refuses. A ring never holds more than num entries (section 2.6 of Virtio 1.1). */
module Vring {
  import opened Basics
  import opened Words

  const W16: nat := 0x1_0000
  const W32: nat := 0x1_0000_0000
  const MAX_BUFS: nat := 19 // VIRTIO_REQ_MAX_BUFS with pages of 4096 bytes

  datatype Desc = Desc(addr: nat, len: nat, more: bool, next: nat)
  datatype Buf = Buf(base: nat, len: nat)

  // virtio_panic ends the program.
  datatype Request = Panic | Request(bufs: seq<Buf>, total: nat)
  datatype Outcome = Panicked | Answer(n: int)

  // A call of enqueue: a negative answer is a refusal.
  datatype Call = Call(r: Request, answer: int)

  // The buffer is the one that the descriptor names.
  ghost predicate Names(d: Desc, b: Buf) { b.base == d.addr && b.len == d.len }

  ghost predicate Bad(d: Desc) { d.addr == 0 || d.len == 0 }

  // The bytes of the first n buffers, as the 32-bit field counts them.
  ghost function Total(bufs: seq<Buf>): nat {
    if bufs == [] then 0 else (Total(bufs[..|bufs| - 1]) + bufs[|bufs| - 1].len) % W32
  }

  lemma TotalNext(bufs: seq<Buf>, b: Buf)
    ensures Total(bufs + [b]) == (Total(bufs) + b.len) % W32
  {
    assert (bufs + [b])[..|bufs|] == bufs;
  }

  // ---- descriptor chains --------------------------------------------------------------------------------------

  // The descriptor that head h names.
  ghost function DescIn(desc: seq<Desc>, h: nat): Desc
    requires desc != []
  {
    desc[h % |desc|]
  }

  // The j-th descriptor of the chain that starts at head h.
  ghost function Chain(desc: seq<Desc>, h: nat, j: nat): Desc
    requires desc != []
    decreases j
  {
    if j == 0 then DescIn(desc, h) else DescIn(desc, Chain(desc, h, j - 1).next)
  }

  // The chain has more than n descriptors.
  ghost predicate Longer(desc: seq<Desc>, h: nat, n: nat)
    requires desc != []
  {
    forall j :: 0 <= j < n ==> Chain(desc, h, j).more
  }

  /** The chain has exactly n descriptors. A chain that runs in a circle has no length. */
  ghost predicate HasLength(desc: seq<Desc>, h: nat, n: nat)
    requires desc != []
  {
    n > 0 && Longer(desc, h, n - 1) && !Chain(desc, h, n - 1).more
  }

  // None of the first n descriptors is bad.
  ghost predicate Sound(desc: seq<Desc>, h: nat, n: nat)
    requires desc != []
  {
    forall j :: 0 <= j < n ==> !Bad(Chain(desc, h, j))
  }

  // The buffers of the first descriptors of the chain, in order.
  ghost predicate InChain(desc: seq<Desc>, h: nat, bufs: seq<Buf>)
    requires desc != []
  {
    forall j :: 0 <= j < |bufs| ==> Names(Chain(desc, h, j), bufs[j])
  }

  // The buffers of a chain, all of them or all but the one that no longer fits.
  ghost predicate OfChain(desc: seq<Desc>, h: nat, bufs: seq<Buf>)
    requires desc != []
  {
    && InChain(desc, h, bufs) && |bufs| <= MAX_BUFS && Sound(desc, h, |bufs|)
    && (HasLength(desc, h, |bufs|) || (|bufs| == MAX_BUFS && HasLength(desc, h, MAX_BUFS + 1)))
  }

  // What virtio_process_one makes of the chain at h.
  ghost predicate IsChainRequest(desc: seq<Desc>, h: nat, r: Request)
    requires desc != []
  {
    match r
    case Request(bufs, total) => OfChain(desc, h, bufs) && total == Total(bufs)
    case Panic => (Sound(desc, h, MAX_BUFS) && Longer(desc, h, MAX_BUFS + 1)) || BadWithin(desc, h, MAX_BUFS)
  }

  // A bad descriptor among the first n of the chain.
  ghost predicate BadWithin(desc: seq<Desc>, h: nat, n: nat)
    requires desc != []
  {
    exists j: nat :: j < n && Longer(desc, h, j) && Bad(Chain(desc, h, j))
  }

  lemma OneLength(desc: seq<Desc>, h: nat, m: nat, n: nat)
    requires desc != [] && HasLength(desc, h, m) && HasLength(desc, h, n)
    ensures m == n
  {}

  ghost predicate Whole(desc: seq<Desc>, h: nat, r: Request)
    requires desc != []
  {
    r.Request? && HasLength(desc, h, |r.bufs|) && InChain(desc, h, r.bufs)
  }

  ghost predicate Truncated(desc: seq<Desc>, h: nat, r: Request)
    requires desc != []
  {
    r.Request? && !HasLength(desc, h, |r.bufs|)
  }

  // The chain has a length that fits, and no bad descriptor.
  ghost predicate Fits(desc: seq<Desc>, h: nat)
    requires desc != []
  {
    exists n: nat :: n <= MAX_BUFS && HasLength(desc, h, n) && Sound(desc, h, n)
  }

  /** A request carries the whole chain if and only if the chain has at most MAX_BUFS descriptors, none of them
      bad. It is cut short without a panic if and only if the chain has exactly one more and none of the
      first MAX_BUFS is bad. */
  lemma ChainExact(desc: seq<Desc>, h: nat, r: Request)
    requires desc != [] && IsChainRequest(desc, h, r)
    ensures Whole(desc, h, r) <==> Fits(desc, h)
    ensures Truncated(desc, h, r) <==> HasLength(desc, h, MAX_BUFS + 1) && Sound(desc, h, MAX_BUFS)
  {
    if n: nat :| n <= MAX_BUFS && HasLength(desc, h, n) && Sound(desc, h, n) {
      FitsRequest(desc, h, r, n);
    } else if HasLength(desc, h, MAX_BUFS + 1) && Sound(desc, h, MAX_BUFS) {
      FitsRequest(desc, h, r, MAX_BUFS + 1);
    }
  }

  // A chain of length n without a bad descriptor in front is no panic, and only one request is made of it.
  lemma FitsRequest(desc: seq<Desc>, h: nat, r: Request, n: nat)
    requires desc != [] && IsChainRequest(desc, h, r)
    requires n <= MAX_BUFS + 1 && HasLength(desc, h, n) && Sound(desc, h, Min(n, MAX_BUFS))
    ensures r.Request? && |r.bufs| == Min(n, MAX_BUFS)
  {
    if r.Request? {
      OneLength(desc, h, n, if HasLength(desc, h, |r.bufs|) then |r.bufs| else MAX_BUFS + 1);
    }
    var last := Chain(desc, h, n - 1);
    forall j: nat | j < MAX_BUFS && Longer(desc, h, j) ensures !Bad(Chain(desc, h, j)) {}
  }

  // What the loop over a chain has collected.
  ghost predicate Collected(desc: seq<Desc>, h: nat, bufs: seq<Buf>, total: nat)
    requires desc != []
  {
    InChain(desc, h, bufs) && Sound(desc, h, |bufs|) && total == Total(bufs)
  }

  lemma CollectNext(desc: seq<Desc>, h: nat, bufs: seq<Buf>, total: nat, b: Buf)
    requires desc != [] && Collected(desc, h, bufs, total) && !Bad(Chain(desc, h, |bufs|))
    requires Names(Chain(desc, h, |bufs|), b)
    ensures Collected(desc, h, bufs + [b], (total + b.len) % W32)
  {
    TotalNext(bufs, b);
  }

  // Where the loop over a chain is: at its next descriptor d, or behind its last one.
  ghost predicate Reached(desc: seq<Desc>, h: nat, n: nat, d: Desc, last: bool)
    requires desc != []
  {
    if last then HasLength(desc, h, n) else Longer(desc, h, n) && d == Chain(desc, h, n)
  }

  lemma ReachNext(desc: seq<Desc>, h: nat, n: nat, d: Desc)
    requires desc != [] && Reached(desc, h, n, d, false)
    ensures Reached(desc, h, n + 1, DescIn(desc, d.next), !d.more)
  {}

  lemma ChainEnd(desc: seq<Desc>, h: nat, bufs: seq<Buf>, total: nat, d: Desc, last: bool)
    requires desc != [] && Collected(desc, h, bufs, total) && Reached(desc, h, |bufs|, d, last)
    requires |bufs| <= MAX_BUFS && (last || |bufs| == MAX_BUFS)
    ensures IsChainRequest(desc, h, if !last && d.more then Panic else Request(bufs, total))
  {
    if !last { ReachNext(desc, h, MAX_BUFS, d); }
  }

  lemma SameBufs(desc: seq<Desc>, h: nat, a: seq<Buf>, b: seq<Buf>)
    requires desc != [] && InChain(desc, h, a) && InChain(desc, h, b) && |a| == |b|
    ensures a == b
  {
    forall j | 0 <= j < |a| ensures a[j] == b[j] { assert Names(Chain(desc, h, j), a[j]); }
  }

  // Only one thing can be made of a chain.
  lemma OneChainRequest(desc: seq<Desc>, h: nat, r: Request, r': Request)
    requires desc != [] && IsChainRequest(desc, h, r) && IsChainRequest(desc, h, r') && r.Request?
    ensures r == r'
  {
    FitsRequest(desc, h, r', if HasLength(desc, h, |r.bufs|) then |r.bufs| else MAX_BUFS + 1);
    SameBufs(desc, h, r.bufs, r'.bufs);
  }

  // ---- merged entries -----------------------------------------------------------------------------------------

  // The buffers of the first pending entries; pend lists their heads.
  ghost predicate Merged(desc: seq<Desc>, pend: seq<nat>, bufs: seq<Buf>)
    requires desc != []
  {
    |bufs| <= |pend| && forall j :: 0 <= j < |bufs| ==> Names(DescIn(desc, pend[j]), bufs[j])
  }

  // All but the last stay within the merge length.
  ghost predicate Fitting(len: nat, bufs: seq<Buf>) { forall j :: 0 < j < |bufs| ==> Total(bufs[..j]) <= len }

  // No further buffer is added.
  ghost predicate Full(pend: seq<nat>, len: nat, bufs: seq<Buf>) {
    |bufs| == MAX_BUFS || |bufs| == |pend| || Total(bufs) > len
  }

  ghost predicate Longest(desc: seq<Desc>, pend: seq<nat>, len: nat, bufs: seq<Buf>)
    requires desc != []
  {
    bufs != [] && |bufs| <= MAX_BUFS && Merged(desc, pend, bufs) && Fitting(len, bufs) && Full(pend, len, bufs)
  }

  // The descriptor looked at last: that of the buffer which exceeded the merge length, or of the next entry.
  ghost function Seen(desc: seq<Desc>, pend: seq<nat>, len: nat, bufs: seq<Buf>): Option<Desc>
    requires desc != [] && bufs != [] && |bufs| <= |pend|
  {
    var p := if Total(bufs) > len then |bufs| - 1 else |bufs|;
    if p < |pend| then Some(DescIn(desc, pend[p])) else None
  }

  // None of the first n pending entries names a bad descriptor.
  ghost predicate Clean(desc: seq<Desc>, pend: seq<nat>, n: nat)
    requires desc != [] && n <= |pend|
  {
    forall j :: 0 <= j < n ==> !Bad(DescIn(desc, pend[j]))
  }

  /** What virtio_process_one makes of the pending entries in merge mode: the longest run of them that fits, or a
      panic exactly if one of these names a bad descriptor or the descriptor looked at last is chained. */
  ghost predicate IsMergeRequest(desc: seq<Desc>, pend: seq<nat>, len: nat, r: Request)
    requires desc != []
  {
    exists bufs :: Longest(desc, pend, len, bufs) && r == MergeResult(desc, pend, len, bufs)
  }

  ghost function MergeResult(desc: seq<Desc>, pend: seq<nat>, len: nat, bufs: seq<Buf>): Request
    requires desc != [] && Longest(desc, pend, len, bufs)
  {
    var d := Seen(desc, pend, len, bufs);
    if !Clean(desc, pend, |bufs|) || (d.Some? && d.value.more) then Panic else Request(bufs, Total(bufs))
  }

  lemma FittingNext(len: nat, bufs: seq<Buf>, b: Buf)
    requires Fitting(len, bufs) && (bufs != [] ==> Total(bufs) <= len)
    ensures Fitting(len, bufs + [b])
  {
    var bufs' := bufs + [b];
    forall j | 0 < j < |bufs'| ensures Total(bufs'[..j]) <= len {
      assert bufs'[..j] == if j < |bufs| then bufs[..j] else bufs;
    }
  }

  lemma MergedNext(desc: seq<Desc>, pend: seq<nat>, bufs: seq<Buf>, b: Buf)
    requires desc != [] && Merged(desc, pend, bufs) && |bufs| < |pend| && Names(DescIn(desc, pend[|bufs|]), b)
    ensures Merged(desc, pend, bufs + [b])
  {
    var bufs' := bufs + [b];
    forall j | 0 <= j < |bufs'| ensures Names(DescIn(desc, pend[j]), bufs'[j]) {
      assert bufs'[j] == if j < |bufs| then bufs[j] else b;
    }
  }

  // What has been collected is part of a longest run.
  lemma {:induction false} Extend(desc: seq<Desc>, pend: seq<nat>, len: nat, bufs: seq<Buf>) returns (all: seq<Buf>)
    requires desc != [] && Merged(desc, pend, bufs) && Fitting(len, bufs) && |bufs| < |pend| && |bufs| < MAX_BUFS
    requires bufs != [] ==> Total(bufs) <= len
    ensures |bufs| < |all| && Longest(desc, pend, len, all)
    decreases MAX_BUFS - |bufs|
  {
    var d := DescIn(desc, pend[|bufs|]);
    var b := Buf(d.addr, d.len);
    MergedNext(desc, pend, bufs, b);
    FittingNext(len, bufs, b);
    all := bufs + [b];
    if !Full(pend, len, all) { all := Extend(desc, pend, len, all); }
  }

  lemma OneLongest(desc: seq<Desc>, pend: seq<nat>, len: nat, a: seq<Buf>, b: seq<Buf>)
    requires desc != [] && Longest(desc, pend, len, a) && Longest(desc, pend, len, b)
    ensures a == b
  {
    StillRoom(desc, pend, len, a);
    StillRoom(desc, pend, len, b);
    SamePrefix(desc, pend, a, b);
    SamePrefix(desc, pend, b, a);
  }

  lemma StillRoom(desc: seq<Desc>, pend: seq<nat>, len: nat, bufs: seq<Buf>)
    requires desc != [] && Longest(desc, pend, len, bufs)
    ensures forall n :: 0 < n < |bufs| ==> !Full(pend, len, bufs[..n])
  {}

  lemma SamePrefix(desc: seq<Desc>, pend: seq<nat>, a: seq<Buf>, b: seq<Buf>)
    requires desc != [] && Merged(desc, pend, a) && Merged(desc, pend, b)
    ensures |a| <= |b| ==> a == b[..|a|]
  {}

  // What virtio_process_one makes of the pending entries.
  ghost predicate IsRequest(desc: seq<Desc>, len: nat, pend: seq<nat>, r: Request)
    requires desc != [] && pend != []
  {
    if len > 0 then IsMergeRequest(desc, pend, len, r) else IsChainRequest(desc, pend[0], r)
  }

  /** Pending entries determine the request, or that there is a panic instead. */
  lemma OneRequest(desc: seq<Desc>, len: nat, pend: seq<nat>, r: Request, r': Request)
    requires desc != [] && pend != [] && IsRequest(desc, len, pend, r) && IsRequest(desc, len, pend, r')
    ensures r == r'
  {
    if len > 0 {
      var a :| Longest(desc, pend, len, a) && r == MergeResult(desc, pend, len, a);
      var b :| Longest(desc, pend, len, b) && r' == MergeResult(desc, pend, len, b);
      OneLongest(desc, pend, len, a, b);
    } else if r.Request? {
      OneChainRequest(desc, pend[0], r, r');
    } else if r'.Request? {
      OneChainRequest(desc, pend[0], r', r);
    }
  }

  // ---- indices ------------------------------------------------------------------------------------------------

  lemma SlotOf(p: nat, k: nat)
    requires k <= 15
    ensures And(p % W16, Pow2(k) - 1) == p % Pow2(k)
  {
    SmallPowers();
    AndMask(p % W16, k);
    ModMod(p, 16, k);
  }

  // Positions less than 2^16 apart are told apart by their 16-bit indices.
  lemma SameIndex(p: nat, q: nat)
    requires p <= q < p + W16
    ensures p % W16 == q % W16 <==> p == q
  {}

  lemma NextIndex(p: nat, n: nat)
    ensures (p % W16 + n) % W16 == (p + n) % W16
  {}

  lemma RingSize(k: nat)
    requires k <= 15
    ensures Pow2(k) <= 0x8000
  {
    SmallPowers();
    assert Pow2(16) == 2 * Pow2(15);
    Pow2Mono(k, 15);
  }

  // Positions less than a ring apart lie in different slots.
  lemma OtherSlot(p: nat, q: nat, n: nat)
    requires n > 0 && p < q < p + n
    ensures p % n != q % n
  {
    var a, r := p / n, p % n;
    assert q == n * a + (r + (q - p));
    if r + (q - p) < n {
      ModUnique(q, n, a, r + (q - p));
    } else {
      assert n * (a + 1) == n * a + n;
      ModUnique(q, n, a + 1, r + (q - p) - n);
    }
  }

  // None of the calls from number n on was refused.
  ghost predicate Willing(calls: seq<Call>, n: nat) { forall i :: n <= i < |calls| ==> calls[i].answer >= 0 }

  lemma WillingMore(was: seq<Call>, calls: seq<Call>, n: nat)
    requires was <= calls && |calls| == |was| + 1 && Willing(was, n)
    ensures calls[..|calls| - 1] == was
    ensures calls[|was|].answer >= 0 ==> Willing(calls, n)
  {}

  class VirtQueue {
    const k: nat
    const num: nat
    const mergeLen: nat
    const desc: seq<Desc>
    var ready: bool
    var ring: seq<nat>
    var availIdx: nat
    var lastQueued: nat
    var upcoming: seq<nat>
    var pace: seq<nat>
    var answers: seq<int>
    ghost var made: nat
    ghost var taken: nat
    ghost var entries: seq<nat>
    var accepted: seq<seq<Buf>>
    var calls: seq<Call>

    ghost predicate InRing(p: nat)
      reads this`ring, this`entries
    {
      num > 0 && p % num < |ring| && p < |entries| && ring[p % num] == entries[p]
    }

    /** The indices are the counters modulo 2^16, and the ring holds the entries not handed over yet. */
    ghost predicate Valid()
      reads this`ring, this`availIdx, this`lastQueued, this`made, this`taken, this`entries
    {
      && k <= 15 && num == Pow2(k) && |desc| == |ring| == num
      && availIdx == made % W16 && lastQueued == taken % W16
      && taken <= made <= taken + num && |entries| == made
      && forall p :: taken <= p < made ==> InRing(p)
    }

    constructor (k0: nat, mergeLen0: nat, desc0: seq<Desc>, upcoming0: seq<nat>, pace0: seq<nat>, answers0: seq<int>)
      requires k0 <= 15 && |desc0| == Pow2(k0)
      ensures Valid() && Delivered(0) && made == taken == 0 && mergeLen == mergeLen0 && desc == desc0 && ready
      ensures calls == []
    {
      k, num, mergeLen, desc, ready := k0, Pow2(k0), mergeLen0, desc0, true;
      ring, availIdx, lastQueued := seq(Pow2(k0), _ => 0), 0, 0;
      upcoming, pace, answers := upcoming0, pace0, answers0;
      made, taken, entries, accepted, calls := 0, 0, [], [], [];
    }

    // The entries not handed over yet.
    ghost function Pend(): (pend: seq<nat>)
      requires taken <= |entries|
      reads this`taken, this`entries
    {
      entries[taken..]
    }

    // What the device gets for an entry: its buffer in merge mode, otherwise those of its chain.
    ghost predicate HandedOver(bufs: seq<Buf>, h: nat)
      requires desc != []
    {
      if mergeLen > 0 then |bufs| == 1 && Names(DescIn(desc, h), bufs[0]) else OfChain(desc, h, bufs)
    }

    /** The device has got the first n entries, each once and in order, and nothing else. */
    ghost predicate Delivered(n: nat)
      reads this`accepted, this`entries
    {
      && |accepted| == n <= |entries| && desc != []
      && forall p :: 0 <= p < n ==> HandedOver(accepted[p], entries[p])
    }

    // ---- the driver ---------------------------------------------------------------------------------------------

    method AddOne(h: nat)
      requires Valid() && made < taken + num
      modifies this`ring, this`availIdx, this`made, this`entries
      ensures Valid() && made == old(made) + 1 && entries == old(entries) + [h]
    {
      SlotOf(made, k);
      NextIndex(made, 1);
      ghost var p0, ring0 := made, ring;
      ring := ring[And(availIdx, num - 1) := h];
      availIdx := (availIdx + 1) % W16;
      entries := entries + [h];
      made := made + 1;
      forall p | taken <= p < made ensures InRing(p) {
        if p < p0 {
          OtherSlot(p, p0, num);
          assert old(InRing(p));
        }
      }
    }

    // Whatever the driver does between two steps of the device.
    method Driver()
      requires Valid()
      modifies this`ring, this`availIdx, this`made, this`entries, this`upcoming, this`pace
      ensures Valid() && old(entries) <= entries && |pace| <= |old(pace)|
      ensures old(pace) == [] ==> entries == old(entries)
      ensures old(pace) != [] ==> |pace| < |old(pace)|
    {
      if pace == [] { return; }
      var n := pace[0];
      pace := pace[1..];
      while n > 0 && upcoming != [] && (availIdx - lastQueued) % W16 < num
        invariant Valid() && old(entries) <= entries && pace == old(pace)[1..]
        decreases n
      {
        Pending();
        AddOne(upcoming[0]);
        upcoming := upcoming[1..];
        n := n - 1;
      }
    }

    lemma Pending()
      requires Valid()
      ensures (availIdx - lastQueued) % W16 == made - taken
    {
      RingSize(k);
    }

    // ---- the device ---------------------------------------------------------------------------------------------

    // vring_desc_at_le_idx
    method DescAt(h: nat) returns (d: Desc)
      requires Valid()
      ensures d == DescIn(desc, h)
    {
      AndMask(h, k);
      d := desc[And(h, num - 1)];
    }

    // vring_desc_at_avail_idx
    method DescAtAvail(idx: nat, ghost p: nat) returns (d: Desc)
      requires Valid() && taken <= p < made && idx == p % W16
      ensures d == DescIn(desc, entries[p])
    {
      SlotOf(p, k);
      assert InRing(p);
      d := DescAt(ring[And(idx, num - 1)]);
    }

    // bufs are the first entries pending, without a bad descriptor among them.
    ghost predicate Building(bufs: seq<Buf>, total: nat)
      reads this`ring, this`availIdx, this`lastQueued, this`made, this`taken, this`entries
    {
      && Valid() && Merged(desc, Pend(), bufs) && Fitting(mergeLen, bufs) && |bufs| <= MAX_BUFS
      && Clean(desc, Pend(), |bufs|) && total == Total(bufs)
    }

    lemma Appended(bufs: seq<Buf>, total: nat, b: Buf)
      requires Building(bufs, total) && |bufs| < MAX_BUFS && |bufs| < |Pend()| && (bufs != [] ==> total <= mergeLen)
      requires !Bad(DescIn(desc, Pend()[|bufs|])) && Names(DescIn(desc, Pend()[|bufs|]), b)
      ensures Building(bufs + [b], (total + b.len) % W32)
    {
      MergedNext(desc, Pend(), bufs, b);
      FittingNext(mergeLen, bufs, b);
      TotalNext(bufs, b);
    }

    ghost predicate Grown(was: seq<nat>, paceWas: seq<nat>)
      reads this`entries, this`pace
    {
      was <= entries && |pace| <= |paceWas| && (paceWas == [] ==> entries == was)
    }

    // The driver adds entries behind those that a request is made of.
    method DriverBehind(ghost bufs: seq<Buf>, ghost total: nat)
      requires Building(bufs, total)
      modifies this`ring, this`availIdx, this`made, this`entries, this`upcoming, this`pace
      ensures Building(bufs, total) && Grown(old(entries), old(pace))
    {
      Driver();
    }

    // The entry after p, if there is one by now.
    method Following(idx: nat, ghost p: nat) returns (idx': nat, d: Option<Desc>)
      requires Valid() && taken <= p < made && idx == p % W16
      ensures idx' == (p + 1) % W16
      ensures if p + 1 == made then d == None else p + 1 < made && d == Some(DescIn(desc, entries[p + 1]))
    {
      NextIndex(p, 1);
      RingSize(k);
      SameIndex(p + 1, made);
      idx' := (idx + 1) % W16;
      if idx' == availIdx { return idx', None; }
      var next := DescAtAvail(idx', p + 1);
      d := Some(next);
    }

    // get_next_desc in merge mode; the driver may have been at work.
    method NextMerged(idx: nat, ghost bufs: seq<Buf>, ghost total: nat) returns (idx': nat, d: Option<Desc>)
      requires Building(bufs, total) && bufs != [] && idx == (taken + |bufs| - 1) % W16
      modifies this`ring, this`availIdx, this`made, this`entries, this`upcoming, this`pace
      ensures Building(bufs, total) && Grown(old(entries), old(pace)) && idx' == (taken + |bufs|) % W16
      ensures d == if |bufs| == |Pend()| then None else Some(DescIn(desc, Pend()[|bufs|]))
    {
      DriverBehind(bufs, total);
      idx', d := Following(idx, taken + |bufs| - 1);
    }

    // What the loop has when it goes on: the descriptor to add next.
    ghost predicate Going(bufs: seq<Buf>, total: nat, idx: nat, d: Option<Desc>)
      reads this`ring, this`availIdx, this`lastQueued, this`made, this`taken, this`entries
    {
      && Building(bufs, total) && |bufs| < |Pend()| && |bufs| < MAX_BUFS && idx == (taken + |bufs|) % W16
      && d == Some(DescIn(desc, Pend()[|bufs|])) && (bufs != [] ==> total <= mergeLen)
    }

    // What it has when it ends, d being the descriptor it looked at last.
    ghost predicate Complete(bufs: seq<Buf>, total: nat, d: Option<Desc>)
      reads this`ring, this`availIdx, this`lastQueued, this`made, this`taken, this`entries
    {
      && Building(bufs, total) && bufs != [] && Full(Pend(), mergeLen, bufs)
      && d == Seen(desc, Pend(), mergeLen, bufs)
    }

    lemma OverLong(bufs: seq<Buf>, total: nat, d: Desc)
      requires Building(bufs, total) && bufs != [] && total > mergeLen && d == DescIn(desc, Pend()[|bufs| - 1])
      ensures Complete(bufs, total, Some(d))
    {}

    lemma InLength(bufs: seq<Buf>, total: nat, idx: nat, d: Option<Desc>)
      requires Building(bufs, total) && bufs != [] && total <= mergeLen && idx == (taken + |bufs|) % W16
      requires d == if |bufs| == |Pend()| then None else Some(DescIn(desc, Pend()[|bufs|]))
      ensures if d.None? || |bufs| == MAX_BUFS then Complete(bufs, total, d) else Going(bufs, total, idx, d)
    {}

    method MergeTurn(bufs: seq<Buf>, total: nat, idx: nat, d: Option<Desc>)
      returns (bufs': seq<Buf>, total': nat, idx': nat, d': Option<Desc>, stop: bool)
      requires Going(bufs, total, idx, d) && !Bad(d.value)
      modifies this`ring, this`availIdx, this`made, this`entries, this`upcoming, this`pace
      ensures Grown(old(entries), old(pace)) && |bufs'| == |bufs| + 1
      ensures if stop then Complete(bufs', total', d') else Going(bufs', total', idx', d')
    {
      var b := Buf(d.value.addr, d.value.len);
      Appended(bufs, total, b);
      bufs', total', idx', d', stop := bufs + [b], (total + b.len) % W32, idx, d, true;
      if total' > mergeLen {
        OverLong(bufs', total', d.value);
      } else {
        idx', d' := NextMerged(idx, bufs', total');
        stop := d'.None? || |bufs'| == MAX_BUFS;
        InLength(bufs', total', idx', d');
      }
    }

    /** A request in merge mode: as many of the pending entries, in order, as fit, or a panic, as the entries that
        are available in the end determine. It never looks at an entry that has not been made available. */
    method MergeRequest() returns (r: Request)
      requires Valid() && taken < made && mergeLen > 0
      modifies this`ring, this`availIdx, this`made, this`entries, this`upcoming, this`pace
      ensures Valid() && Grown(old(entries), old(pace))
      ensures IsMergeRequest(desc, Pend(), mergeLen, r)
    {
      var idx, bufs, stop := lastQueued, [], false;
      var total: nat := 0;
      var first := DescAtAvail(idx, taken);
      var d := Some(first);
      while !stop
        invariant Grown(old(entries), old(pace)) && |bufs| <= MAX_BUFS
        invariant if stop then Complete(bufs, total, d) else Going(bufs, total, idx, d)
        decreases !stop, MAX_BUFS - |bufs|
      {
        if d.value.addr == 0 || d.value.len == 0 {
          ghost var all := Extend(desc, Pend(), mergeLen, bufs);
          assert MergeResult(desc, Pend(), mergeLen, all) == Panic;
          return Panic;
        }
        bufs, total, idx, d, stop := MergeTurn(bufs, total, idx, d);
      }
      r := if d.Some? && d.value.more then Panic else Request(bufs, total);
      assert r == MergeResult(desc, Pend(), mergeLen, bufs);
    }

    /** A request without merging: the buffers of one chain. */
    method ChainRequest() returns (r: Request)
      requires Valid() && taken < made
      ensures IsChainRequest(desc, entries[taken], r)
    {
      var bufs := [];
      var total: nat := 0;
      ghost var h := entries[taken];
      var d := DescAtAvail(lastQueued, taken);
      var last := false;
      while !last && |bufs| < MAX_BUFS
        invariant |bufs| <= MAX_BUFS && Collected(desc, h, bufs, total) && Reached(desc, h, |bufs|, d, last)
        decreases !last, MAX_BUFS - |bufs|
      {
        if d.addr == 0 || d.len == 0 {
          assert BadWithin(desc, h, MAX_BUFS);
          return Panic;
        }
        var b := Buf(d.addr, d.len);
        CollectNext(desc, h, bufs, total, b);
        ReachNext(desc, h, |bufs|, d);
        bufs, total := bufs + [b], (total + b.len) % W32;
        last := !d.more;
        if !last { d := DescAt(d.next); }
      }
      ChainEnd(desc, h, bufs, total, d, last);
      if !last && d.more { return Panic; }
      r := Request(bufs, total);
    }

    method MakeRequest() returns (r: Request)
      requires Valid() && taken < made
      modifies this`ring, this`availIdx, this`made, this`entries, this`upcoming, this`pace
      ensures Valid() && Grown(old(entries), old(pace)) && IsRequest(desc, mergeLen, Pend(), r)
    {
      if mergeLen > 0 {
        r := MergeRequest();
      } else {
        r := ChainRequest();
      }
    }

    // A request that the device is given, made of the n pending entries at the front.
    ghost predicate Offer(r: Request, n: nat)
      reads this`ring, this`availIdx, this`lastQueued, this`made, this`taken, this`entries
    {
      && Valid() && taken < made && r.Request? && IsRequest(desc, mergeLen, Pend(), r)
      && n == if mergeLen > 0 then |r.bufs| else 1
    }

    lemma Offered(r: Request, n: nat)
      requires Offer(r, n)
      ensures 0 < n <= made - taken
      ensures mergeLen > 0 ==> forall j :: 0 <= j < n ==> Names(DescIn(desc, entries[taken + j]), r.bufs[j])
      ensures mergeLen == 0 ==> OfChain(desc, entries[taken], r.bufs)
    {
      if mergeLen > 0 {
        var pend := Pend();
        forall j | 0 <= j < n ensures Names(DescIn(desc, entries[taken + j]), r.bufs[j]) {
          assert pend[j] == entries[taken + j];
        }
      }
    }

    // The enqueue operation of the device: it refuses the request or takes out of it the first a of its n entries.
    method Enqueue(r: Request, n: nat) returns (a: int)
      requires Offer(r, n) && Delivered(taken)
      modifies this`answers, this`accepted, this`calls
      ensures a <= n && calls == old(calls) + [Call(r, a)] && (a >= 0 ==> |answers| < |old(answers)|)
      ensures Delivered(if a < 0 then taken else taken + a) && old(accepted) <= accepted
    {
      Offered(r, n);
      a := -1;
      if answers != [] {
        a := if answers[0] <= 0 then answers[0] else 1 + answers[0] % n;
        answers := answers[1..];
      }
      calls := calls + [Call(r, a)];
      if a > 0 && mergeLen > 0 {
        accepted := accepted + seq(a, j requires 0 <= j < a <= |r.bufs| => [r.bufs[j]]);
      } else if a > 0 {
        accepted := accepted + [r.bufs];
      }
    }

    // A panic exactly if the pending entries lead to one, and otherwise one more call, with what is made of them.
    ghost predicate Did(out: Outcome, was: seq<Call>)
      requires desc != [] && taken < |entries|
      reads this`taken, this`entries, this`calls
    {
      if IsRequest(desc, mergeLen, Pend(), Panic) then out.Panicked? && calls == was
      else
        && out.Answer? && |calls| == |was| + 1 && was <= calls
        && IsRequest(desc, mergeLen, Pend(), calls[|was|].r) && calls[|was|].answer == out.n
    }

    /** virtio_process_one: the request is made of the entries pending, from the first on, and the answer is
        negative, with nothing handed over, or the number of those that the device has got. */
    method ProcessOne() returns (out: Outcome)
      requires Valid() && Delivered(taken) && taken < made
      modifies this`ring, this`availIdx, this`made, this`entries, this`upcoming, this`pace
      modifies this`answers, this`accepted, this`calls
      ensures Valid() && Grown(old(entries), old(pace)) && old(accepted) <= accepted && Did(out, old(calls))
      ensures out.Answer? ==> out.n <= made - taken && (out.n >= 0 ==> |answers| < |old(answers)|)
      ensures Delivered(if out.Answer? && out.n > 0 then taken + out.n else taken)
    {
      var r := MakeRequest();
      if r.Panic? { return Panicked; }
      if IsRequest(desc, mergeLen, Pend(), Panic) { OneRequest(desc, mergeLen, Pend(), r, Panic); }
      var n := if mergeLen > 0 then |r.bufs| else 1;
      Offered(r, n);
      var a := Enqueue(r, n);
      out := Answer(a);
    }

    /** After an answer of 0, and unless the driver adds entries, the same request is made again. */
    method OfferedAgain() returns (first: Outcome, second: Outcome)
      requires Valid() && Delivered(taken) && taken < made && pace == []
      modifies this`ring, this`availIdx, this`made, this`entries, this`upcoming, this`pace
      modifies this`answers, this`accepted, this`calls
      ensures first == Answer(0) ==>
                && second.Answer? && |calls| == |old(calls)| + 2 && entries == old(entries)
                && calls[|old(calls)| + 1].r == calls[|old(calls)|].r
    {
      ghost var n := |calls|;
      first := ProcessOne();
      second := first;
      if first == Answer(0) {
        ghost var r := calls[n].r;
        second := ProcessOne();
        OneRequest(desc, mergeLen, Pend(), r, calls[n + 1].r);
      }
    }

    method Advance(n: nat)
      requires Valid() && n <= made - taken
      modifies this`lastQueued, this`taken
      ensures Valid() && taken == old(taken) + n
    {
      NextIndex(taken, n);
      lastQueued := (lastQueued + n) % W16;
      taken := taken + n;
    }

    // How the consumer has ended, n being the number of earlier calls.
    ghost predicate Ended(out: Outcome, n: nat)
      requires desc != [] && taken <= |entries|
      reads this`taken, this`entries, this`calls
    {
      if taken == |entries| then out == Answer(0) && Willing(calls, n)
      else if IsRequest(desc, mergeLen, Pend(), Panic) then out.Panicked? && Willing(calls, n)
      else
        && |calls| > n && Willing(calls[..|calls| - 1], n) && out == Answer(calls[|calls| - 1].answer) && out.n < 0
        && IsRequest(desc, mergeLen, Pend(), calls[|calls| - 1].r)
    }

    /** async_virtio_process_queue terminates, and the device gets every available entry exactly once and in order:
        what it has got is, element by element, what the entries made available say, up to last_queued_idx.
        That is all of them, unless what is left leads to a panic, or the device has refused the request
        made of it, which is then the only one it refused. */
    method ProcessQueue() returns (out: Outcome)
      requires Valid() && Delivered(taken)
      modifies this`ring, this`availIdx, this`made, this`entries, this`upcoming, this`pace
      modifies this`answers, this`accepted, this`calls, this`lastQueued, this`taken
      ensures Valid() && Delivered(taken) && old(entries) <= entries && old(accepted) <= accepted
      ensures old(calls) <= calls
      ensures if ready then Ended(out, |old(calls)|)
              else accepted == old(accepted) && entries == old(entries) && calls == old(calls) && out == Answer(0)
    {
      out := Answer(0);
      if !ready { return; }
      ghost var n := |calls|;
      while lastQueued != availIdx
        invariant Valid() && Delivered(taken) && out == Answer(0) && old(calls) <= calls && Willing(calls, n)
        invariant old(entries) <= entries && old(accepted) <= accepted
        decreases |pace|, made - taken, |answers|
      {
        NotEmpty();
        out := Round(n);
        if out != Answer(0) { return; }
        Driver();
      }
      NotEmpty();
    }

    // One turn of the loop.
    method Round(ghost n: nat) returns (out: Outcome)
      requires Valid() && Delivered(taken) && taken < made && n <= |calls| && Willing(calls, n)
      modifies this`ring, this`availIdx, this`made, this`entries, this`upcoming, this`pace
      modifies this`answers, this`accepted, this`calls, this`lastQueued, this`taken
      ensures Valid() && Delivered(taken) && Grown(old(entries), old(pace)) && old(accepted) <= accepted
      ensures old(calls) <= calls
      ensures if out != Answer(0) then Ended(out, n)
              else && Willing(calls, n) && old(taken) <= taken
                   && (taken == old(taken) ==> |answers| < |old(answers)|)
    {
      ghost var was := calls;
      out := ProcessOne();
      if out.Panicked? { return; }
      WillingMore(was, calls, n);
      if out.n < 0 { return; }
      Advance(out.n);
      out := Answer(0);
    }

    lemma NotEmpty()
      requires Valid()
      ensures lastQueued == availIdx <==> taken == made
    {
      RingSize(k);
      SameIndex(taken, made);
    }
  }

  /** A ring of 32 descriptors and a chain of MAX_BUFS + 1 of them: the request leaves the last one out. */
  method LosesLast() returns (q: VirtQueue, r: Request)
    ensures |q.desc| == 32 && HasLength(q.desc, 0, 20) && Sound(q.desc, 0, 20)
    ensures IsChainRequest(q.desc, 0, r) && r.Request? && |r.bufs| == 19
  {
    var desc := seq(32, i requires 0 <= i => Desc(4096 * (i + 1), 1, i < MAX_BUFS, i + 1));
    assert Pow2(5) == 32;
    q := new VirtQueue(5, 0, desc, [], [], []);
    q.AddOne(0);
    forall j | 0 <= j <= MAX_BUFS ensures Chain(desc, 0, j) == desc[j] { Straight(desc, j); }
    r := q.ChainRequest();
    ChainExact(desc, 0, r);
  }

  lemma {:induction false} Straight(desc: seq<Desc>, j: nat)
    requires j < |desc| && forall i :: 0 <= i < j ==> desc[i].next == i + 1
    ensures Chain(desc, 0, j) == desc[j]
  {
    ModUnique(j, |desc|, 0, j);
    if j > 0 { Straight(desc, j - 1); }
  }
}
