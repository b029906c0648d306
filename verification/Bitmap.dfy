/** The bitmap routines of src/include/bitops.h: word-by-word searches and region operations on an array of
    64-bit words, against the single bits they stand for. The searches for set and for clear
    bits differ in the source only by a complement; here `zero` selects it. */
module Bitmap {
  import opened Basics
  import opened Words

  const ENOMEM: int := 12
  const EBUSY: int := 16

  predicate BitAt(ws: seq<Word>, q: nat) { q / BITS < |ws| && Bit(ws[q / BITS], q % BITS) }

  lemma InMap(ws: seq<Word>, q: nat)
    requires BitAt(ws, q)
    ensures q < BITS * |ws|
  {}

  // Bit q is what is looked for.
  predicate Sought(ws: seq<Word>, q: nat, zero: bool) { q / BITS < |ws| && BitAt(ws, q) != zero }

  // Nothing that is looked for lies in the given range.
  ghost predicate NoneIn(ws: seq<Word>, from: nat, to: nat, zero: bool) {
    forall q :: from <= q < to ==> !Sought(ws, q, zero)
  }

  function Pick(w: Word, zero: bool): Word { if zero then Not(w) else w }

  lemma BitPick(w: Word, zero: bool, j: nat)
    requires j < BITS
    ensures Bit(Pick(w, zero), j) <==> Bit(w, j) != zero
  {
    if zero { BitNot(w, j); }
  }

  // What a mask of word i tells about the bits of the map: it contains what is sought between lo and hi.
  ghost predicate Masks(mask: Word, ws: seq<Word>, i: nat, lo: nat, hi: nat, zero: bool)
    requires i < |ws|
  {
    forall j :: 0 <= j < BITS ==> (Bit(mask, j) <==> lo <= j < hi && Bit(ws[i], j) != zero)
  }

  lemma MaskNone(mask: Word, ws: seq<Word>, i: nat, lo: nat, hi: nat, zero: bool)
    requires i < |ws| && Masks(mask, ws, i, lo, hi, zero) && lo <= hi <= BITS && mask == 0
    ensures NoneIn(ws, BITS * i + lo, BITS * i + hi, zero)
  {
    forall q | BITS * i + lo <= q < BITS * i + hi ensures !Sought(ws, q, zero) {
      BitZero(q - BITS * i);
      assert q / BITS == i && q % BITS == q - BITS * i;
    }
  }

  lemma MaskFirst(mask: Word, ws: seq<Word>, i: nat, lo: nat, hi: nat, zero: bool, j: nat)
    requires i < |ws| && Masks(mask, ws, i, lo, hi, zero) && hi <= BITS && j < BITS
    requires Bit(mask, j) && forall k :: 0 <= k < j ==> !Bit(mask, k)
    ensures lo <= j < hi && Sought(ws, BITS * i + j, zero) && NoneIn(ws, BITS * i + lo, BITS * i + j, zero)
  {
    assert (BITS * i + j) / BITS == i && (BITS * i + j) % BITS == j;
    forall q | BITS * i + lo <= q < BITS * i + j ensures !Sought(ws, q, zero) {
      assert !Bit(mask, q - BITS * i);
      assert q / BITS == i && q % BITS == q - BITS * i;
    }
  }

  lemma WholeMask(ws: seq<Word>, i: nat, zero: bool)
    requires i < |ws|
    ensures Masks(Pick(ws[i], zero), ws, i, 0, BITS, zero)
  {
    forall j | 0 <= j < BITS ensures Bit(Pick(ws[i], zero), j) <==> Bit(ws[i], j) != zero { BitPick(ws[i], zero, j); }
  }

  lemma LowMask(ws: seq<Word>, i: nat, zero: bool, n: nat)
    requires i < |ws| && n <= BITS
    ensures Masks(And(Pick(ws[i], zero), LastWordMask(n)), ws, i, 0, n, zero)
  {
    var mask := And(Pick(ws[i], zero), LastWordMask(n));
    forall j | 0 <= j < BITS ensures Bit(mask, j) <==> j < n && Bit(ws[i], j) != zero {
      BitAnd(Pick(ws[i], zero), LastWordMask(n), j);
      BitPick(ws[i], zero, j);
      BitLastWordMask(n, j);
    }
  }

  lemma HighMask(ws: seq<Word>, i: nat, zero: bool, n: nat)
    requires i < |ws| && n <= BITS
    ensures Masks(And(Pick(ws[i], zero), Not(LastWordMask(n))), ws, i, n, BITS, zero)
  {
    var mask := And(Pick(ws[i], zero), Not(LastWordMask(n)));
    forall j | 0 <= j < BITS ensures Bit(mask, j) <==> n <= j && Bit(ws[i], j) != zero {
      BitAnd(Pick(ws[i], zero), Not(LastWordMask(n)), j);
      BitPick(ws[i], zero, j);
      BitNot(LastWordMask(n), j);
      BitLastWordMask(n, j);
    }
  }

  // ---- searches ---------------------------------------------------------------------------------------------

  /** The result of a bit-by-bit search of [from, size): below size it is the first bit sought, otherwise
      there is none. */
  ghost predicate IsFirst(ws: seq<Word>, from: nat, size: nat, zero: bool, r: nat) {
    if r < size then from <= r && Sought(ws, r, zero) && NoneIn(ws, from, r, zero) else NoneIn(ws, from, size, zero)
  }

  // The loop over whole words and the last, partial word, common to all searches.
  method ScanWords(a: array<Word>, pos: nat, size: nat, zero: bool) returns (r: nat)
    requires BITS * pos <= size <= BITS * a.Length
    ensures IsFirst(a[..], BITS * pos, size, zero, r) && r <= size
  {
    var i, rest := pos, size - BITS * pos;
    while rest >= BITS
      invariant pos <= i && 0 <= rest == size - BITS * i && NoneIn(a[..], BITS * pos, BITS * i, zero)
    {
      var w := Pick(a[i], zero);
      WholeMask(a[..], i, zero);
      if w != 0 {
        var j := Ffsl(w);
        MaskFirst(w, a[..], i, 0, BITS, zero, j);
        return BITS * i + j;
      }
      MaskNone(w, a[..], i, 0, BITS, zero);
      i, rest := i + 1, rest - BITS;
    }
    r := BITS * i;
    if rest != 0 {
      var mask := And(Pick(a[i], zero), LastWordMask(rest));
      LowMask(a[..], i, zero, rest);
      if mask != 0 {
        var j := Ffsl(mask);
        MaskFirst(mask, a[..], i, 0, rest, zero, j);
        r := r + j;
      } else {
        MaskNone(mask, a[..], i, 0, rest, zero);
        r := r + rest;
      }
    }
  }

  /** find_first_bit and find_first_zero_bit */
  method FindFirst(a: array<Word>, size: nat, zero: bool) returns (r: nat)
    requires size <= BITS * a.Length
    ensures IsFirst(a[..], 0, size, zero, r) && r <= size
  {
    r := ScanWords(a, 0, size, zero);
  }

  /** find_next_bit and find_next_zero_bit; when the search ends in its first word the result may exceed
      size. */
  method FindNext(a: array<Word>, size: nat, offset: nat, zero: bool) returns (r: nat)
    requires size <= BITS * a.Length
    ensures IsFirst(a[..], offset, size, zero, r)
    ensures r > size ==> r / BITS == offset / BITS
  {
    if offset >= size { return size; }
    var pos, offs := offset / BITS, offset % BITS;
    if offs != 0 {
      var mask := And(Pick(a[pos], zero), Not(LastWordMask(offs)));
      HighMask(a[..], pos, zero, offs);
      if mask != 0 {
        var j := Ffsl(mask);
        MaskFirst(mask, a[..], pos, offs, BITS, zero, j);
        return BITS * pos + j;
      }
      MaskNone(mask, a[..], pos, offs, BITS, zero);
      if size - BITS * pos <= BITS { return size; }
      pos := pos + 1;
    }
    r := ScanWords(a, pos, size, zero);
  }

  // ---- counting ---------------------------------------------------------------------------------------------

  ghost function Count(ws: seq<Word>, n: nat): nat {
    if n == 0 then 0 else Count(ws, n - 1) + if BitAt(ws, n - 1) then 1 else 0
  }

  lemma {:induction false} CountGap(ws: seq<Word>, a: nat, b: nat)
    requires a <= b <= BITS * |ws| && NoneIn(ws, a, b, false)
    ensures Count(ws, b) == Count(ws, a)
  {
    if a < b {
      assert !Sought(ws, b - 1, false);
      CountGap(ws, a, b - 1);
    }
  }

  /** bitmap_weight: the number of set bits below nbits. */
  method Weight(a: array<Word>, nbits: nat) returns (n: nat)
    requires nbits <= BITS * a.Length
    ensures n == Count(a[..], nbits)
  {
    n := 0;
    var bit := FindFirst(a, nbits, false);
    CountGap(a[..], 0, if bit < nbits then bit else nbits);
    while bit < nbits
      invariant n == Count(a[..], if bit < nbits then bit else nbits)
      invariant bit < nbits ==> BitAt(a[..], bit)
      decreases nbits - bit
    {
      n := n + 1;
      var next := FindNext(a, nbits, bit + 1, false);
      CountGap(a[..], bit + 1, if next < nbits then next else nbits);
      bit := next;
    }
  }

  // ---- regions ----------------------------------------------------------------------------------------------

  // The bits of a region of 2^order bits that fall into one word, and how many words there are.
  function InWord(order: nat): (n: nat)
    ensures 0 < n <= BITS
  {
    Min(Pow2(order), BITS)
  }

  function Longs(order: nat): nat { (Pow2(order) + BITS - 1) / BITS }

  // The words that __reg_op looks at lie in the array.
  predicate Fits(len: nat, pos: nat, order: nat) { pos / BITS + Longs(order) <= len }

  /** The bits that __reg_op reads or writes, for any position. */
  ghost predicate Touched(pos: nat, order: nat, q: nat) {
    && pos / BITS <= q / BITS < pos / BITS + Longs(order)
    && pos % BITS <= q % BITS < pos % BITS + InWord(order)
  }

  ghost predicate InRegion(pos: nat, order: nat, q: nat) { pos <= q < pos + Pow2(order) }

  // The region does not run over the end of its word, or consists of whole words.
  predicate Contained(pos: nat, order: nat) { pos % BITS + InWord(order) <= BITS }

  lemma WholeWords(order: nat)
    ensures Pow2(order) >= BITS <==> order >= 6
    ensures Pow2(order) >= BITS ==> Pow2(order) % BITS == 0
  {
    assert Pow2(5) == 32;
    if order < 6 {
      Pow2Mono(order, 5);
    } else {
      Pow2Add(6, order - 6);
      assert Pow2(order) == BITS * Pow2(order - 6);
    }
  }

  /** __reg_op works on exactly the bits of its region if and only if the region lies within one word or
      starts at a word boundary. */
  lemma TouchedExactly(pos: nat, order: nat)
    ensures (forall q: nat :: Touched(pos, order, q) <==> InRegion(pos, order, q)) <==> Contained(pos, order)
  {
    var n := Pow2(order);
    WholeWords(order);
    if Contained(pos, order) {
      forall q: nat ensures Touched(pos, order, q) <==> InRegion(pos, order, q) { ContainedTouches(pos, order, q); }
    } else {
      var q := pos + n - 1;
      assert InRegion(pos, order, q) && !Touched(pos, order, q);
    }
  }

  lemma ContainedTouches(pos: nat, order: nat, q: nat)
    requires Contained(pos, order)
    ensures Touched(pos, order, q) <==> InRegion(pos, order, q)
  {
    WholeWords(order);
  }

  lemma {:induction false} ShlPow2(i: nat, k: nat)
    requires i + k < BITS
    ensures Pow2(i) < LIMIT && Shl(Pow2(i), k) == Pow2(i + k)
    decreases k
  {
    WordSize();
    Pow2Mono(i, 63);
    if k > 0 {
      Pow2Mono(i + 1, 63);
      ShlPow2(i + 1, k - 1);
    }
  }

  // The mask of __reg_op.
  method RegionMask(order: nat, offset: nat) returns (mask: Word)
    requires offset < BITS
    ensures forall j :: 0 <= j < BITS ==> (Bit(mask, j) <==> offset <= j < offset + InWord(order))
  {
    var n := InWord(order);
    ShlPow2(0, n - 1);
    mask := Shl(1, n - 1);
    assert Pow2(n) == 2 * Pow2(n - 1);
    assert mask + (mask - 1) < LIMIT by {
      WordSize();
      Pow2Mono(n, BITS);
    }
    mask := mask + (mask - 1);
    ghost var ones := mask;
    mask := Shl(mask, offset);
    forall j | 0 <= j < BITS ensures Bit(mask, j) <==> offset <= j < offset + n {
      BitShl(ones, offset, j);
      if j >= offset { BitOnes(n, j - offset); }
    }
  }

  // A word with the bits of the mask set or cleared.
  function Changed(w: Word, mask: Word, on: bool): Word {
    if on then (WordSize(); OrFits(w, mask, BITS); Or(w, mask)) else And(w, Not(mask))
  }

  lemma BitChanged(w: Word, mask: Word, on: bool, j: nat)
    requires j < BITS
    ensures Bit(Changed(w, mask, on), j) <==> if Bit(mask, j) then on else Bit(w, j)
  {
    if on {
      BitOr(w, mask, j);
    } else {
      BitAnd(w, Not(mask), j);
      BitNot(mask, j);
    }
  }

  ghost predicate MaskFor(mask: Word, pos: nat, order: nat) {
    forall j :: 0 <= j < BITS ==> (Bit(mask, j) <==> pos % BITS <= j < pos % BITS + InWord(order))
  }

  // now is the map was with the touched bits set or cleared.
  ghost predicate Rewritten(was: seq<Word>, now: seq<Word>, pos: nat, order: nat, on: bool) {
    && |now| == |was|
    && forall q: nat :: q < BITS * |was| ==> (BitAt(now, q) <==> if Touched(pos, order, q) then on else BitAt(was, q))
  }

  ghost predicate AllClear(ws: seq<Word>, pos: nat, order: nat) {
    forall q: nat :: Touched(pos, order, q) ==> !BitAt(ws, q)
  }

  lemma WordsRewritten(was: seq<Word>, now: seq<Word>, mask: Word, pos: nat, order: nat, on: bool)
    requires |now| == |was| && MaskFor(mask, pos, order)
    requires forall k :: 0 <= k < |was| ==>
               now[k] == if pos / BITS <= k < pos / BITS + Longs(order) then Changed(was[k], mask, on) else was[k]
    ensures Rewritten(was, now, pos, order, on)
  {
    forall q: nat | q < BITS * |was|
      ensures BitAt(now, q) <==> if Touched(pos, order, q) then on else BitAt(was, q)
    {
      BitChanged(was[q / BITS], mask, on, q % BITS);
    }
  }

  // A word with no bit of the mask.
  lemma WordClear(ws: seq<Word>, mask: Word, pos: nat, order: nat, k: nat)
    requires k < |ws| && MaskFor(mask, pos, order)
    requires pos / BITS <= k < pos / BITS + Longs(order)
    ensures And(ws[k], mask) == 0 <==> forall q: nat :: q / BITS == k && Touched(pos, order, q) ==> !BitAt(ws, q)
  {
    var x := And(ws[k], mask);
    if x == 0 {
      forall q: nat | q / BITS == k && Touched(pos, order, q) ensures !BitAt(ws, q) {
        BitAnd(ws[k], mask, q % BITS);
        BitZero(q % BITS);
      }
    } else {
      WordSize();
      var j := SomeBit(x, BITS);
      BitAnd(ws[k], mask, j);
      var q := BITS * k + j;
      assert q / BITS == k && q % BITS == j;
      assert Touched(pos, order, q) && BitAt(ws, q);
    }
  }

  /** __reg_op with REG_OP_ISFREE: whether all touched bits are clear. */
  method RegIsFree(a: array<Word>, pos: nat, order: nat) returns (free: bool)
    requires Fits(a.Length, pos, order)
    ensures free <==> AllClear(a[..], pos, order)
  {
    var index := pos / BITS;
    var mask := RegionMask(order, pos % BITS);
    var i := 0;
    while i < Longs(order)
      invariant i <= Longs(order)
      invariant forall q: nat :: Touched(pos, order, q) && q / BITS < index + i ==> !BitAt(a[..], q)
    {
      WordClear(a[..], mask, pos, order, index + i);
      if And(a[index + i], mask) != 0 { return false; }
      i := i + 1;
    }
    return true;
  }

  /** __reg_op with REG_OP_ALLOC and REG_OP_RELEASE: sets or clears exactly the touched bits. */
  method RegWrite(a: array<Word>, pos: nat, order: nat, on: bool)
    requires Fits(a.Length, pos, order)
    modifies a
    ensures Rewritten(old(a[..]), a[..], pos, order, on)
  {
    var index := pos / BITS;
    var mask := RegionMask(order, pos % BITS);
    var i := 0;
    while i < Longs(order)
      invariant i <= Longs(order)
      invariant forall k :: 0 <= k < a.Length ==>
                  a[k] == if index <= k < index + i then Changed(old(a[k]), mask, on) else old(a[k])
    {
      a[index + i] := Changed(a[index + i], mask, on);
      i := i + 1;
    }
    WordsRewritten(old(a[..]), a[..], mask, pos, order, on);
  }

  /** bitmap_allocate_region: refuses a region with a bit set and otherwise sets exactly its bits. */
  method AllocateRegion(a: array<Word>, pos: nat, order: nat) returns (r: int)
    requires Fits(a.Length, pos, order)
    modifies a
    ensures r == (if AllClear(old(a[..]), pos, order) then 0 else -EBUSY)
    ensures if r == 0 then Rewritten(old(a[..]), a[..], pos, order, true) else a[..] == old(a[..])
  {
    var free := RegIsFree(a, pos, order);
    if !free { return -EBUSY; }
    RegWrite(a, pos, order, true);
    return 0;
  }

  /** bitmap_release_region */
  method ReleaseRegion(a: array<Word>, pos: nat, order: nat)
    requires Fits(a.Length, pos, order)
    modifies a
    ensures Rewritten(old(a[..]), a[..], pos, order, false)
  {
    RegWrite(a, pos, order, false);
  }

  // The i-th aligned position.
  function Start(i: nat, order: nat): nat { i * Pow2(order) }

  lemma StartNext(i: nat, order: nat)
    ensures Start(i + 1, order) == Start(i, order) + Pow2(order)
  {}

  lemma SmallPow2(order: nat)
    requires order < 6
    ensures Pow2(order) == [1, 2, 4, 8, 16, 32][order]
  {
    assert Pow2(1) == 2 && Pow2(2) == 4 && Pow2(3) == 8 && Pow2(4) == 16 && Pow2(5) == 32;
  }

  lemma Distribute(m: nat, a: nat, b: nat, n: nat)
    ensures (m * a + b) * n == (n * m) * a + b * n
  {}

  lemma SmallAligned(i: nat, n: nat, m: nat)
    requires n * m == BITS
    ensures i * n % BITS + n <= BITS
  {
    SmallAlignedAt(i / m, i % m, n, m);
    assert i == m * (i / m) + i % m;
  }

  lemma SmallAlignedAt(a: nat, b: nat, n: nat, m: nat)
    requires n * m == BITS && b < m
    ensures (m * a + b) * n % BITS + n <= BITS
  {
    Distribute(m, a, b, n);
    MulLess(n, b, m);
    assert b * n == n * b;
  }

  // A region at a multiple of its size does not straddle words.
  lemma AlignedContained(i: nat, order: nat)
    ensures Contained(Start(i, order), order)
  {
    WholeWords(order);
    if order < 6 {
      SmallPow2(order);
      SmallAligned(i, Pow2(order), [64, 32, 16, 8, 4, 2][order]);
    } else {
      MultipleOf(i, Pow2(order));
    }
  }

  lemma MultipleOf(i: nat, n: nat)
    requires n % BITS == 0
    ensures (i * n) % BITS == 0
  {
    assert i * n == BITS * (i * (n / BITS));
  }

  ghost predicate FreeRegion(ws: seq<Word>, pos: nat, order: nat) {
    forall q: nat :: InRegion(pos, order, q) ==> !BitAt(ws, q)
  }

  lemma ContainedFits(len: nat, pos: nat, order: nat)
    requires Contained(pos, order) && pos + Pow2(order) <= BITS * len
    ensures Fits(len, pos, order)
  {
    WholeWords(order);
  }

  lemma ContainedClear(ws: seq<Word>, pos: nat, order: nat)
    requires Contained(pos, order)
    ensures AllClear(ws, pos, order) <==> FreeRegion(ws, pos, order)
  {
    forall q: nat ensures Touched(pos, order, q) <==> InRegion(pos, order, q) { ContainedTouches(pos, order, q); }
  }

  ghost predicate NoneFreeBelow(ws: seq<Word>, k: nat, order: nat) {
    forall i: nat :: i < k ==> !FreeRegion(ws, Start(i, order), order)
  }

  /** bitmap_find_free_region: the lowest aligned region within the first `bits` bits that is all clear is
      set, bit for bit; only if there is none does it fail. */
  method FindFreeRegion(a: array<Word>, bits: nat, order: nat) returns (r: int, ghost k: nat)
    requires bits <= BITS * a.Length
    modifies a
    ensures NoneFreeBelow(old(a[..]), k, order)
    ensures if Start(k, order) + Pow2(order) > bits then
              r == -ENOMEM && a[..] == old(a[..])
            else
              && r == Start(k, order) && FreeRegion(old(a[..]), Start(k, order), order)
              && Rewritten(old(a[..]), a[..], Start(k, order), order, true)
  {
    var pos := 0;
    k := 0;
    while pos + Pow2(order) <= bits
      invariant pos == Start(k, order) && a[..] == old(a[..]) && NoneFreeBelow(a[..], k, order)
      decreases bits - pos
    {
      AlignedContained(k, order);
      ContainedFits(a.Length, pos, order);
      ContainedClear(a[..], pos, order);
      StartNext(k, order);
      var free := RegIsFree(a, pos, order);
      if free {
        RegWrite(a, pos, order, true);
        return pos, k;
      }
      pos := pos + Pow2(order);
      k := k + 1;
    }
    return -ENOMEM, k;
  }

  // ---- live regions -----------------------------------------------------------------------------------------

  datatype Region = Region(i: nat, order: nat)

  ghost predicate Within(r: Region, q: nat) { InRegion(Start(r.i, r.order), r.order, q) }

  ghost predicate Apart(r: Region, r': Region) { forall q: nat :: !(Within(r, q) && Within(r', q)) }

  /** A bitmap of which aligned regions are allocated and released. */
  class RegionMap {
    const words: array<Word>
    const bits: nat
    ghost var live: set<Region>

    ghost predicate Inside(r: Region) { Start(r.i, r.order) + Pow2(r.order) <= bits }

    ghost predicate Covered(q: nat)
      reads this`live
    {
      exists r :: r in live && Within(r, q)
    }

    /** Live regions are pairwise disjoint, and the bits that are set are exactly theirs. */
    ghost predicate Valid()
      reads this, words
    {
      && bits <= BITS * words.Length
      && (forall r :: r in live ==> Inside(r))
      && (forall r, r' :: r in live && r' in live && r != r' ==> Apart(r, r'))
      && (forall q: nat :: q < BITS * words.Length ==> (BitAt(words[..], q) <==> Covered(q)))
    }

    constructor (n: nat)
      ensures Valid() && bits == n && live == {} && fresh(words)
    {
      bits := n;
      words := new Word[(n + BITS - 1) / BITS](_ => 0);
      live := {};
      new;
      forall q: nat | q < BITS * words.Length ensures !BitAt(words[..], q) { BitZero(q % BITS); }
    }

    // The touched bits are the region's own.
    lemma Exact(r: Region)
      requires Valid() && Inside(r)
      ensures Fits(words.Length, Start(r.i, r.order), r.order)
      ensures AllClear(words[..], Start(r.i, r.order), r.order) <==> FreeRegion(words[..], Start(r.i, r.order), r.order)
      ensures forall q: nat :: Touched(Start(r.i, r.order), r.order, q) <==> Within(r, q)
    {
      var pos := Start(r.i, r.order);
      AlignedContained(r.i, r.order);
      ContainedFits(words.Length, pos, r.order);
      ContainedClear(words[..], pos, r.order);
      forall q: nat ensures Touched(pos, r.order, q) <==> Within(r, q) { ContainedTouches(pos, r.order, q); }
    }

    ghost predicate Available(r: Region)
      reads this`live
    {
      Inside(r) && forall r' :: r' in live ==> Apart(r, r')
    }

    /** bitmap_allocate_region at an aligned position succeeds exactly if the region is disjoint from every live
        one, and then it is live. */
    method Allocate(i: nat, order: nat) returns (r: int)
      requires Valid() && Inside(Region(i, order))
      modifies words, this`live
      ensures Valid()
      ensures if old(Available(Region(i, order))) then r == 0 && live == old(live) + {Region(i, order)}
              else r == -EBUSY && live == old(live)
    {
      ghost var g := Region(i, order);
      Exact(g);
      ghost var was := words[..];
      if FreeRegion(was, Start(i, order), order) { Apartness(was, g); } else { Taken(was, g); }
      r := AllocateRegion(words, Start(i, order), order);
      if r == 0 { Added(g, was); }
    }

    ghost method Added(g: Region, was: seq<Word>)
      requires bits <= BITS * words.Length && Inside(g) && |was| == words.Length
      requires forall r :: r in live ==> Inside(r)
      requires forall r, r' :: r in live && r' in live && r != r' ==> Apart(r, r')
      requires Records(was) && Available(g)
      requires Rewritten(was, words[..], Start(g.i, g.order), g.order, true)
      requires forall q: nat :: Touched(Start(g.i, g.order), g.order, q) <==> Within(g, q)
      modifies this`live
      ensures Valid() && live == old(live) + {g}
    {
      live := live + {g};
      forall q: nat | q < BITS * words.Length ensures BitAt(words[..], q) <==> Covered(q) {
        if Within(g, q) {
          assert Covered(q);
        } else if BitAt(was, q) {
          var r :| r in old(live) && Within(r, q);
          assert r in live;
        }
      }
    }

    /** bitmap_find_free_region: the lowest aligned region that is disjoint from every live one becomes live; it
        fails only if there is none. */
    method Find(order: nat) returns (r: int, ghost k: nat)
      requires Valid()
      modifies words, this`live
      ensures Valid()
      ensures forall i: nat :: i < k ==> !old(Available(Region(i, order)))
      ensures if Inside(Region(k, order)) then
                r == Start(k, order) && old(Available(Region(k, order))) && live == old(live) + {Region(k, order)}
              else r == -ENOMEM && live == old(live)
    {
      r, k := FindFreeRegion(words, bits, order);
      ghost var was, g := old(words[..]), Region(k, order);
      forall i: nat | i < k ensures !old(Available(Region(i, order))) {
        assert !FreeRegion(was, Start(i, order), order);
        Taken(was, Region(i, order));
      }
      if Inside(g) {
        Apartness(was, g);
        AlignedContained(k, order);
        forall q: nat ensures Touched(Start(k, order), order, q) <==> Within(g, q) {
          ContainedTouches(Start(k, order), order, q);
        }
        Added(g, was);
      }
    }

    ghost predicate Records(was: seq<Word>)
      reads this`live
    {
      forall q: nat :: q < BITS * |was| ==> (BitAt(was, q) <==> Covered(q))
    }

    lemma Taken(was: seq<Word>, r: Region)
      requires Records(was) && !FreeRegion(was, Start(r.i, r.order), r.order)
      ensures !Available(r)
    {
      var q: nat :| Within(r, q) && BitAt(was, q);
      assert Covered(q) by { InMap(was, q); }
      var r' :| r' in live && Within(r', q);
      assert Within(r, q) && Within(r', q);
    }

    lemma Apartness(was: seq<Word>, r: Region)
      requires Records(was) && bits <= BITS * |was| && Inside(r) && FreeRegion(was, Start(r.i, r.order), r.order)
      ensures Available(r)
    {
      forall r' | r' in live ensures Apart(r, r') {
        forall q: nat ensures !(Within(r, q) && Within(r', q)) {
          if Within(r, q) && Within(r', q) { assert Covered(q) && !BitAt(was, q); }
        }
      }
    }

    /** bitmap_release_region of a live region clears its bits and nobody else's. */
    method Free(i: nat, order: nat)
      requires Valid() && Region(i, order) in live
      modifies words, this`live
      ensures Valid() && live == old(live) - {Region(i, order)}
    {
      ghost var g := Region(i, order);
      Exact(g);
      ReleaseRegion(words, Start(i, order), order);
      Removed(g, old(words[..]));
    }

    ghost method Removed(g: Region, was: seq<Word>)
      requires bits <= BITS * words.Length && g in live && |was| == words.Length && Records(was)
      requires forall r :: r in live ==> Inside(r)
      requires forall r, r' :: r in live && r' in live && r != r' ==> Apart(r, r')
      requires Rewritten(was, words[..], Start(g.i, g.order), g.order, false)
      requires forall q: nat :: Touched(Start(g.i, g.order), g.order, q) <==> Within(g, q)
      modifies this`live
      ensures Valid() && live == old(live) - {g}
    {
      live := live - {g};
      forall q: nat | q < BITS * words.Length ensures BitAt(words[..], q) <==> Covered(q) {
        if Within(g, q) {
          forall r | r in live ensures !Within(r, q) { assert Apart(g, r); }
        } else if BitAt(was, q) {
          var r :| r in old(live) && Within(r, q);
          assert r in live;
        }
      }
    }
  }
}
