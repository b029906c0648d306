/** The per-thread arena through which buffers travel to and from the host
    (src/host/sgx_hostcall_interface.c), and its use by readv and writev (src/host/sgx_hostcalls.c).

    An arena is a stretch of host memory with a bump pointer; `bytes` is its content, staged headers included:
    a byte is an octet or one of the bytes of a header. Growing it is itself a
    host call, mremap, made through the caller's own system call slot; `slot` says whether a request has
    been written into that slot and not yet been carried out. Where mremap moves the arena is drawn
    from an arbitrary sequence. */
module Arena {
  import opened Basics

  const NULL: nat := 0
  const IOVEC: nat := 16 // sizeof(struct iovec)

  datatype Iov = Iov(base: nat, len: nat)
  datatype SlotState = Unused | Written
  datatype Byte = Octet(v: int) | Part(h: Iov, j: nat)

  // A header as it lies in memory.
  function HdrBytes(h: Iov): (b: seq<Byte>)
    ensures |b| == IOVEC && b[0] == Part(h, 0)
  {
    seq(IOVEC, j requires 0 <= j => Part(h, j))
  }

  // The content of an arena of n bytes made of one that may be smaller; what mremap adds is zero.
  function Enlarged(b: seq<Byte>, n: nat): (e: seq<Byte>)
    ensures b <= e && |e| == if |b| < n then n else |b|
  {
    if |b| < n then b + seq(n - |b|, _ => Octet(0)) else b
  }

  // ---- sizes ----------------------------------------------------------------------------------------------

  // The bytes of the first n buffers.
  ghost function Before(iov: seq<Iov>, n: nat): nat
    requires n <= |iov|
  {
    if n == 0 then 0 else Before(iov, n - 1) + iov[n - 1].len
  }

  ghost function Concat(data: seq<seq<Byte>>): seq<Byte> {
    if data == [] then [] else Concat(data[..|data| - 1]) + data[|data| - 1]
  }

  lemma {:induction false} BeforeMono(iov: seq<Iov>, m: nat, n: nat)
    requires m <= n <= |iov|
    ensures Before(iov, m) <= Before(iov, n)
  {
    if m < n { BeforeMono(iov, m, n - 1); }
  }

  ghost predicate Sized(data: seq<seq<Byte>>, iov: seq<Iov>) {
    |data| == |iov| && forall i :: 0 <= i < |iov| ==> |data[i]| == iov[i].len
  }

  lemma {:induction false} ConcatSize(data: seq<seq<Byte>>, iov: seq<Iov>, n: nat)
    requires Sized(data, iov) && n <= |data|
    ensures |Concat(data[..n])| == Before(iov, n)
  {
    if n > 0 {
      ConcatSize(data, iov, n - 1);
      assert data[..n][..n - 1] == data[..n - 1];
    }
  }

  lemma ConcatNext(data: seq<seq<Byte>>, n: nat)
    requires n < |data|
    ensures Concat(data[..n + 1]) == Concat(data[..n]) + data[n]
  {
    assert data[..n + 1][..n] == data[..n];
  }

  lemma ConcatLast(data: seq<seq<Byte>>, part: seq<Byte>)
    ensures Concat(data + [part]) == Concat(data) + part
  {
    assert (data + [part])[..|data|] == data;
  }

  lemma SizedNext(data: seq<seq<Byte>>, part: seq<Byte>, iov: seq<Iov>, n: nat)
    requires n < |iov| && Sized(data, iov[..n]) && |part| == iov[n].len
    ensures Sized(data + [part], iov[..n + 1])
  {}

  /** The size that readv and writev reserve is exactly what their allocations use: the headers and all the
      buffers. */
  ghost function Need(iov: seq<Iov>): nat { IOVEC * |iov| + Before(iov, |iov|) }

  // ---- the arena ------------------------------------------------------------------------------------------

  class Arena {
    var mem: nat
    var size: nat
    var used: nat
    var bytes: seq<Byte>
    var slot: SlotState
    var moves: seq<nat>

    ghost predicate Valid()
      reads this
    {
      mem != NULL && |bytes| == size
    }

    constructor (base: nat, n: nat, moves0: seq<nat>)
      requires base != NULL
      ensures Valid() && mem == base && size == n && used == 0 && slot == Unused
    {
      mem, size, used, slot, moves := base, n, 0, Unused, moves0;
      bytes := seq(n, _ => Octet(0));
    }

    /** mremap through the caller's slot. The slot must not hold a request: it would be overwritten. */
    method Mremap(sz: nat) returns (newmem: nat)
      requires Valid() && slot == Unused && size < sz
      modifies this`slot, this`bytes, this`moves
      ensures newmem != NULL && slot == Unused && bytes == Enlarged(old(bytes), sz)
    {
      slot := Written;
      bytes := Enlarged(bytes, sz);
      newmem := mem;
      if moves != [] {
        newmem := if moves[0] == NULL then mem else moves[0];
        moves := moves[1..];
      }
      slot := Unused;
    }

    // arena_ensure
    method Ensure(sz: nat)
      requires Valid() && slot == Unused
      modifies this`mem, this`size, this`slot, this`bytes, this`moves
      ensures Valid() && slot == Unused && size >= sz && bytes == Enlarged(old(bytes), sz)
    {
      if size < sz {
        var newmem := Mremap(sz);
        mem := newmem;
        size := sz;
      }
    }

    // arena_alloc, which does not check that there is room
    method Alloc(sz: nat) returns (p: nat)
      requires Valid()
      modifies this`used
      ensures Valid() && used == old(used) + sz
      ensures p == if sz == 0 then NULL else mem + old(used)
    {
      if sz == 0 { return NULL; }
      p := mem + used;
      used := used + sz;
    }

    // arena_free
    method Free()
      requires Valid()
      modifies this`used
      ensures Valid() && used == 0
    {
      used := 0;
    }

    // memcpy into the arena
    method Put(p: nat, data: seq<Byte>)
      requires Valid() && (data != [] ==> mem <= p && p - mem + |data| <= size)
      modifies this`bytes
      ensures Valid() && |bytes| == |old(bytes)|
      ensures data == [] ==> bytes == old(bytes)
      ensures data != [] ==> bytes == old(bytes)[..p - mem] + data + old(bytes)[p - mem + |data|..]
    {
      if data != [] { bytes := bytes[..p - mem] + data + bytes[p - mem + |data|..]; }
    }

    // memcpy out of the arena
    method Take(p: nat, n: nat) returns (data: seq<Byte>)
      requires Valid() && (n != 0 ==> mem <= p && p - mem + n <= size)
      ensures data == Content(p, n)
    {
      data := if n == 0 then [] else bytes[p - mem..p - mem + n];
    }

    ghost function Content(p: nat, n: nat): seq<Byte>
      requires n != 0 ==> mem <= p && p - mem + n <= |bytes|
      reads this`mem, this`bytes
    {
      if n == 0 then [] else bytes[p - mem..p - mem + n]
    }

    // ---- iovecs -----------------------------------------------------------------------------------------------

    // Header i lies in the arena, and its buffer is where the order of allocation puts it.
    ghost predicate Placed(iov: seq<Iov>, hdr: seq<Iov>, i: nat)
      requires i < |iov| && i < |hdr|
      reads this`mem, this`bytes
    {
      && hdr[i].len == iov[i].len
      && hdr[i].base == (if iov[i].len == 0 then NULL else mem + IOVEC * |iov| + Before(iov, i))
      && HdrAt(i, hdr[i])
    }

    ghost predicate HdrAt(i: nat, h: Iov)
      reads this`bytes
    {
      IOVEC * i + IOVEC <= |bytes| && bytes[IOVEC * i..IOVEC * i + IOVEC] == HdrBytes(h)
    }

    /** The first n headers are set up: buffer by buffer behind the header array, in order and without gaps. */
    ghost predicate Laid(iov: seq<Iov>, hdr: seq<Iov>, n: nat)
      requires n <= |iov| && n <= |hdr|
      reads this`mem, this`bytes
    {
      forall i :: 0 <= i < n ==> Placed(iov, hdr, i)
    }

    // Writing behind the header array leaves the headers alone.
    lemma StillLaid(iov: seq<Iov>, hdr: seq<Iov>, was: seq<Byte>)
      requires |hdr| == |iov| && IOVEC * |iov| <= |was| == |bytes| && bytes[..IOVEC * |iov|] == was[..IOVEC * |iov|]
      requires forall i :: 0 <= i < |iov| ==> PlacedIn(iov, hdr, i, was)
      ensures Laid(iov, hdr, |iov|)
    {
      forall i | 0 <= i < |iov| ensures Placed(iov, hdr, i) {
        assert PlacedIn(iov, hdr, i, was);
        assert bytes[IOVEC * i..IOVEC * i + IOVEC] == bytes[..IOVEC * |iov|][IOVEC * i..IOVEC * i + IOVEC];
        assert was[IOVEC * i..IOVEC * i + IOVEC] == was[..IOVEC * |iov|][IOVEC * i..IOVEC * i + IOVEC];
      }
    }

    // The same of an earlier content of the arena.
    ghost predicate PlacedIn(iov: seq<Iov>, hdr: seq<Iov>, i: nat, was: seq<Byte>)
      requires i < |iov| && i < |hdr|
      reads this`mem
    {
      && hdr[i].len == iov[i].len
      && hdr[i].base == (if iov[i].len == 0 then NULL else mem + IOVEC * |iov| + Before(iov, i))
      && IOVEC * i + IOVEC <= |was| && was[IOVEC * i..IOVEC * i + IOVEC] == HdrBytes(hdr[i])
    }

    // One turn of the loop over deepinitiovec
    method InitHeader(iov: seq<Iov>, i: nat, val: nat, ghost hdr: seq<Iov>) returns (ghost h: Iov)
      requires Valid() && i == |hdr| < |iov| && size >= Need(iov) && Laid(iov, hdr, i) && val == mem
      requires used == IOVEC * |iov| + Before(iov, i)
      modifies this`used, this`bytes
      ensures Valid() && Laid(iov, hdr + [h], i + 1) && used == IOVEC * |iov| + Before(iov, i + 1)
      ensures bytes[IOVEC * |iov|..] == old(bytes)[IOVEC * |iov|..]
    {
      BeforeMono(iov, i + 1, |iov|);
      var p := Alloc(iov[i].len);
      h := Iov(p, iov[i].len);
      ghost var was := bytes;
      Put(val + IOVEC * i, HdrBytes(Iov(p, iov[i].len)));
      ghost var hdr' := hdr + [h];
      forall j | 0 <= j <= i ensures Placed(iov, hdr', j) {
        if j < i {
          assert old(Placed(iov, hdr, j));
          assert bytes[IOVEC * j..IOVEC * j + IOVEC] == was[IOVEC * j..IOVEC * j + IOVEC];
        }
      }
    }

    /** The stages of readv and writev before the data is copied: the size is computed, the arena made large enough,
        and only then is the request written and the headers allocated and filled in. */
    method Stage(iov: seq<Iov>) returns (val: nat, ghost hdr: seq<Iov>)
      requires Valid() && used == 0 && slot == Unused
      modifies this
      ensures Valid() && slot == Written && used == Need(iov) && size >= Need(iov)
      ensures |hdr| == |iov| && Laid(iov, hdr, |iov|) && val == (if iov == [] then NULL else mem)
      ensures bytes[IOVEC * |iov|..] == Enlarged(old(bytes), Need(iov))[IOVEC * |iov|..]
    {
      var len, i := 0, 0;
      while i < |iov|
        invariant i <= |iov| && len == IOVEC * i + Before(iov, i)
        modifies {}
      {
        len := len + (IOVEC + iov[i].len);
        i := i + 1;
      }
      Ensure(len);
      slot := Written;
      val := Alloc(IOVEC * |iov|);
      ghost var grown := bytes;
      hdr := [];
      i := 0;
      while i < |iov|
        invariant i == |hdr| <= |iov| && Valid() && size >= Need(iov) && Laid(iov, hdr, i)
        invariant used == IOVEC * |iov| + Before(iov, i) && bytes[IOVEC * |iov|..] == grown[IOVEC * |iov|..]
        modifies this`used, this`bytes
      {
        ghost var h := InitHeader(iov, i, val, hdr);
        hdr := hdr + [h];
        i := i + 1;
      }
    }

    // The first n bytes behind the headers.
    ghost function Payload(cnt: nat, n: nat): seq<Byte>
      requires IOVEC * cnt + n <= |bytes|
      reads this`bytes
    {
      bytes[IOVEC * cnt..IOVEC * cnt + n]
    }

    ghost predicate Staged(iov: seq<Iov>, hdr: seq<Iov>, val: nat)
      reads this
    {
      Valid() && |hdr| == |iov| && Need(iov) <= size && Laid(iov, hdr, |iov|) && (iov != [] ==> val == mem)
    }

    // Reading header i out of the arena
    method Header(iov: seq<Iov>, ghost hdr: seq<Iov>, val: nat, i: nat) returns (h: Iov)
      requires Staged(iov, hdr, val) && i < |iov|
      ensures h == hdr[i] && h.len == iov[i].len && IOVEC * |iov| + Before(iov, i) + iov[i].len <= size
      ensures h.len != 0 ==> h.base == mem + IOVEC * |iov| + Before(iov, i)
    {
      BeforeMono(iov, i + 1, |iov|);
      assert Placed(iov, hdr, i);
      var off := val - mem + IOVEC * i;
      assert bytes[off] == bytes[off..off + IOVEC][0];
      h := bytes[off].h;
    }

    // The bytes that header i points to; they follow those of the headers before it.
    method Segment(iov: seq<Iov>, ghost hdr: seq<Iov>, val: nat, i: nat) returns (part: seq<Byte>)
      requires Staged(iov, hdr, val) && i < |iov|
      ensures |part| == iov[i].len && IOVEC * |iov| + Before(iov, i) + |part| <= size
      ensures Payload(|iov|, Before(iov, i)) + part == Payload(|iov|, Before(iov, i + 1))
    {
      var h := Header(iov, hdr, val, i);
      part := Take(h.base, h.len);
      Longer(bytes, IOVEC * |iov|, Before(iov, i), h.len);
    }

    // What the host finds when it follows the headers.
    method Gather(iov: seq<Iov>, ghost hdr: seq<Iov>, val: nat) returns (sent: seq<Byte>)
      requires Staged(iov, hdr, val)
      ensures sent == Payload(|iov|, Before(iov, |iov|))
    {
      sent := [];
      var i := 0;
      while i < |iov|
        invariant i <= |iov| && IOVEC * |iov| + Before(iov, i) <= size && sent == Payload(|iov|, Before(iov, i))
      {
        var part := Segment(iov, hdr, val, i);
        sent := sent + part;
        i := i + 1;
      }
    }

    // memcpy to a place behind the headers
    method PutBehind(iov: seq<Iov>, ghost hdr: seq<Iov>, val: nat, p: nat, data: seq<Byte>)
      requires Staged(iov, hdr, val)
      requires data != [] ==> mem + IOVEC * |iov| <= p && p - mem + |data| <= size
      modifies this`bytes
      ensures Staged(iov, hdr, val) && |bytes| == |old(bytes)|
      ensures data == [] ==> bytes == old(bytes)
      ensures data != [] ==> bytes == old(bytes)[..p - mem] + data + old(bytes)[p - mem + |data|..]
    {
      ghost var was := bytes;
      Put(p, data);
      forall i | 0 <= i < |iov| ensures PlacedIn(iov, hdr, i, was) { assert old(Placed(iov, hdr, i)); }
      StillLaid(iov, hdr, was);
    }

    // deepcopyiovec, for all buffers, into the arena
    method CopyIn(iov: seq<Iov>, ghost hdr: seq<Iov>, val: nat, src: seq<seq<Byte>>)
      requires Staged(iov, hdr, val) && Sized(src, iov)
      modifies this`bytes
      ensures Staged(iov, hdr, val) && Payload(|iov|, Before(iov, |iov|)) == Concat(src)
    {
      var i := 0;
      while i < |iov|
        invariant i <= |iov| && Staged(iov, hdr, val) && IOVEC * |iov| + Before(iov, i) <= size
        invariant Payload(|iov|, Before(iov, i)) == Concat(src[..i])
      {
        var h := Header(iov, hdr, val, i);
        ConcatNext(src, i);
        ConcatSize(src, iov, i);
        PutBehind(iov, hdr, val, h.base, src[i]);
        i := i + 1;
      }
      assert src[..|iov|] == src;
    }

    /** writev: what the host gets, following the headers in the arena, is the concatenation of the caller's buffers,
        and the arena ends empty. */
    method Writev(iov: seq<Iov>, src: seq<seq<Byte>>) returns (sent: seq<Byte>)
      requires Valid() && used == 0 && slot == Unused && Sized(src, iov)
      modifies this
      ensures Valid() && used == 0 && slot == Unused && sent == Concat(src)
    {
      ghost var hdr;
      var val;
      val, hdr := Stage(iov);
      CopyIn(iov, hdr, val, src);
      sent := Gather(iov, hdr, val);
      Free();
      slot := Unused;
    }

    // The host fills the buffers in order, as far as its data goes.
    method Scatter(iov: seq<Iov>, ghost hdr: seq<Iov>, val: nat, data: seq<Byte>)
      requires Staged(iov, hdr, val) && |data| <= Before(iov, |iov|)
      modifies this`bytes
      ensures Staged(iov, hdr, val) && |bytes| == |old(bytes)| && Payload(|iov|, |data|) == data
      ensures bytes[IOVEC * |iov| + |data|..] == old(bytes)[IOVEC * |iov| + |data|..]
    {
      var i, pos := 0, 0;
      while i < |iov|
        invariant i <= |iov| && Staged(iov, hdr, val) && |bytes| == |old(bytes)|
        invariant pos <= |data| && pos == Min(Before(iov, i), |data|) && Payload(|iov|, pos) == data[..pos]
        invariant bytes[IOVEC * |iov| + pos..] == old(bytes)[IOVEC * |iov| + pos..]
      {
        var h := Header(iov, hdr, val, i);
        var end := Min(pos + iov[i].len, |data|);
        ghost var was := bytes;
        PutBehind(iov, hdr, val, h.base, data[pos..end]);
        Filled(was, bytes, old(bytes), IOVEC * |iov|, pos, data, end);
        pos := end;
        i := i + 1;
      }
      assert data[..|data|] == data;
    }

    // deepcopyiovec, for all buffers, out of the arena
    method CopyOut(iov: seq<Iov>, ghost hdr: seq<Iov>, val: nat) returns (out: seq<seq<Byte>>)
      requires Staged(iov, hdr, val)
      ensures Sized(out, iov) && Concat(out) == Payload(|iov|, Before(iov, |iov|))
    {
      out := [];
      var i := 0;
      while i < |iov|
        invariant i <= |iov| && IOVEC * |iov| + Before(iov, i) <= size && Sized(out, iov[..i])
        invariant Concat(out) == Payload(|iov|, Before(iov, i))
      {
        var part := Segment(iov, hdr, val, i);
        ConcatLast(out, part);
        SizedNext(out, part, iov, i);
        out := out + [part];
        i := i + 1;
      }
      assert iov[..|iov|] == iov;
    }

    /** readv: the data the host delivers ends up in the caller's buffers, in order, each buffer keeping its length.
        What the host did not fill is overwritten with what the arena held there before. The arena ends
        empty. A call that fails delivers nothing. */
    method Readv(iov: seq<Iov>, data: seq<Byte>) returns (out: seq<seq<Byte>>)
      requires Valid() && used == 0 && slot == Unused && |data| <= Before(iov, |iov|)
      modifies this
      ensures Valid() && used == 0 && slot == Unused && Sized(out, iov)
      ensures Concat(out) == Received(Enlarged(old(bytes), Need(iov)), iov, data)
    {
      ghost var hdr;
      var val;
      ghost var before := Enlarged(bytes, Need(iov));
      val, hdr := Stage(iov);
      Scatter(iov, hdr, val, data);
      out := CopyOut(iov, hdr, val);
      ReceivedIs(before, bytes, iov, data);
      Free();
      slot := Unused;
    }
  }

  lemma Longer(s: seq<Byte>, base: nat, n: nat, more: nat)
    requires base + n + more <= |s|
    ensures s[base..base + n] + s[base + n..base + n + more] == s[base..base + n + more]
  {}

  lemma SameRest(s: seq<Byte>, t: seq<Byte>, lo: nat, hi: nat)
    requires lo <= hi <= |s| == |t| && s[lo..] == t[lo..]
    ensures s[hi..] == t[hi..]
  {
    assert s[hi..] == s[lo..][hi - lo..] && t[hi..] == t[lo..][hi - lo..];
  }

  // Writing data[pos..end] where the data so far ends, what follows being as it was at first.
  lemma Filled(was: seq<Byte>, now: seq<Byte>, first: seq<Byte>, base: nat, pos: nat, data: seq<Byte>, end: nat)
    requires pos <= end <= |data| && base + end <= |was| == |now| == |first|
    requires was[base..base + pos] == data[..pos] && was[base + pos..] == first[base + pos..]
    requires if pos == end then now == was
             else now == was[..base + pos] + data[pos..end] + was[base + end..]
    ensures now[base..base + end] == data[..end] && now[base + end..] == first[base + end..]
  {
    SameRest(was, first, base + pos, base + end);
    if pos < end {
      assert now[base..base + end] == was[base..base + pos] + data[pos..end];
      assert data[..pos] + data[pos..end] == data[..end];
    }
  }

  /** What a readv leaves in the caller's buffers, all together: the data, and behind it what the arena held. */
  ghost function Received(arena: seq<Byte>, iov: seq<Iov>, data: seq<Byte>): seq<Byte>
    requires Need(iov) <= |arena| && |data| <= Before(iov, |iov|)
  {
    data + arena[IOVEC * |iov| + |data|..Need(iov)]
  }

  lemma ReceivedIs(before: seq<Byte>, after: seq<Byte>, iov: seq<Iov>, data: seq<Byte>)
    requires Need(iov) <= |before| == |after| && |data| <= Before(iov, |iov|)
    requires after[IOVEC * |iov|..IOVEC * |iov| + |data|] == data
    requires after[IOVEC * |iov| + |data|..] == before[IOVEC * |iov| + |data|..]
    ensures after[IOVEC * |iov|..Need(iov)] == Received(before, iov, data)
  {
    Join(after, before, IOVEC * |iov|, IOVEC * |iov| + |data|, Need(iov), data);
  }

  lemma Join(s: seq<Byte>, t: seq<Byte>, lo: nat, mid: nat, hi: nat, data: seq<Byte>)
    requires lo <= mid <= hi <= |s| == |t| && s[lo..mid] == data && s[mid..] == t[mid..]
    ensures s[lo..hi] == data + t[mid..hi]
  {
    assert s[mid..hi] == s[mid..][..hi - mid];
    assert t[mid..hi] == t[mid..][..hi - mid];
    assert s[lo..hi] == s[lo..mid] + s[mid..hi];
  }

  // Any content of the right size can be cut up into the caller's buffers.
  lemma {:induction false} CutUp(flat: seq<Byte>, iov: seq<Iov>, n: nat) returns (data: seq<seq<Byte>>)
    requires n <= |iov| && |flat| == Before(iov, n)
    ensures |data| == n && Concat(data) == flat && forall i :: 0 <= i < n ==> |data[i]| == iov[i].len
    decreases n
  {
    if n == 0 {
      data := [];
    } else {
      var m := Before(iov, n - 1);
      var front := CutUp(flat[..m], iov, n - 1);
      data := front + [flat[m..]];
      assert data[..n - 1] == front;
    }
  }

  ghost predicate Keeps(arena: seq<Byte>, iov: seq<Iov>, data: seq<Byte>, was: seq<seq<Byte>>)
    requires Need(iov) <= |arena| && |data| <= Before(iov, |iov|) && Sized(was, iov)
  {
    |data| <= |Concat(was)| && Received(arena, iov, data)[|data|..] == Concat(was)[|data|..]
  }

  /** Whatever the caller's buffers contained, they keep it beyond the delivered bytes if and only if there is
      nothing beyond them: a short or failed readv overwrites them. */
  lemma KeepsRest(arena: seq<Byte>, iov: seq<Iov>, data: seq<Byte>)
    requires Need(iov) <= |arena| && |data| <= Before(iov, |iov|)
    ensures (forall was :: Sized(was, iov) ==> Keeps(arena, iov, data, was)) <==> |data| == Before(iov, |iov|)
  {
    var n := Before(iov, |iov|);
    forall was: seq<seq<Byte>> | Sized(was, iov) ensures |Concat(was)| == n {
      ConcatSize(was, iov, |iov|);
      assert was[..|iov|] == was;
    }
    if |data| < n {
      var r := Received(arena, iov, data);
      var other := if r[|data|] == Octet(0) then Octet(1) else Octet(0);
      var was := CutUp(r[|data| := other], iov, |iov|);
      assert r[|data|..][0] != Concat(was)[|data|..][0];
      assert !Keeps(arena, iov, data, was);
    }
  }

  /** A buffer lies in the arena, behind the headers and in front of every later buffer. */
  lemma Disjoint(a: Arena, iov: seq<Iov>, hdr: seq<Iov>, i: nat)
    requires a.Valid() && |hdr| == |iov| && a.Laid(iov, hdr, |iov|) && Need(iov) <= a.size
    requires i < |iov| && iov[i].len != 0
    ensures a.mem + IOVEC * |iov| <= hdr[i].base && hdr[i].base + iov[i].len <= a.mem + a.size
    ensures forall j :: i < j < |iov| && iov[j].len != 0 ==> hdr[i].base + iov[i].len <= hdr[j].base
  {
    assert a.Placed(iov, hdr, i);
    BeforeMono(iov, i + 1, |iov|);
    forall j | i < j < |iov| && iov[j].len != 0 ensures hdr[i].base + iov[i].len <= hdr[j].base {
      assert a.Placed(iov, hdr, j);
      BeforeMono(iov, i + 1, j);
    }
  }
}
