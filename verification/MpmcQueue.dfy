/** The bounded multi-producer multi-consumer queue of src/shared/mpmc_queue.c as an interleaving machine.

    Every access to shared memory is one step of one thread: loading a position, loading a cell's
    sequence number, the compare-and-swap on a position, accessing a cell's data, storing a cell's
    sequence number. `claimed` is history: the data of every enqueue in the order of their successful
    compare-and-swaps. `cur` and `got` are history too: the position that each cell currently serves,
    and what the dequeues returned, by position.

    Positions are unbounded in this machine. The last part adds the machine that compares and masks
    64-bit words, as the code does, and shows that it takes the same steps. */
module MpmcQueue {
  import opened Basics
  import opened Words

  type Tid = nat
  type Data = int

  datatype Cell = Cell(seqno: int, data: Data)

  datatype Pc =
    | Idle
    | ELoadPos(data: Data)                 // about to load enqueue_pos
    | ELoadSeq(data: Data, pos: nat)       // about to load the cell's sequence number
    | ECas(data: Data, pos: nat)           // about to advance enqueue_pos from pos
    | EWrite(data: Data, pos: nat)         // owns position pos, about to store the data
    | EPublish(data: Data, pos: nat)       // about to store the sequence number
    | EDone(ok: bool)
    | DLoadPos
    | DLoadSeq(pos: nat)
    | DCas(pos: nat)
    | DRead(pos: nat)                      // owns position pos, about to load the data
    | DRelease(pos: nat, data: Data)       // about to store the sequence number
    | DDone(result: Result)

  datatype Result = Empty | Got(pos: nat, data: Data)

  datatype State = State(cells: seq<Cell>, enq: nat, deq: nat, pc: map<Tid, Pc>, claimed: seq<Data>,
                         cur: seq<nat>, got: map<nat, Data>)

  datatype Step =
    | CallEnqueue(t: Tid, data: Data)
    | CallDequeue(t: Tid)
    | Go(t: Tid)                           // the next access of t
    | SpuriousFailure(t: Tid)              // the weak compare-and-swap fails without reason
    | Return(t: Tid)

  function Slot(pos: nat, n: nat): nat
    requires n > 0
  {
    pos % n
  }

  ghost predicate Shape(s: State) { |s.cells| >= 2 && |s.cur| == |s.cells| }

  ghost function N(s: State): nat { |s.cells| }

  ghost predicate Enabled(s: State, step: Step) {
    Shape(s) && step.t in s.pc &&
    match step
    case CallEnqueue(t, _) => s.pc[t].Idle?
    case CallDequeue(t) => s.pc[t].Idle?
    case Go(t) => !s.pc[t].Idle? && !s.pc[t].EDone? && !s.pc[t].DDone?
    case SpuriousFailure(t) => s.pc[t].ECas? || s.pc[t].DCas?
    case Return(t) => s.pc[t].EDone? || s.pc[t].DDone?
  }

  ghost function SetPc(s: State, t: Tid, pc: Pc): State { s.(pc := s.pc[t := pc]) }

  ghost function Access(s: State, t: Tid): State
    requires Enabled(s, Go(t))
  {
    var n := N(s);
    match s.pc[t]
    case ELoadPos(d) => SetPc(s, t, ELoadSeq(d, s.enq))
    case ELoadSeq(d, pos) =>
      var dif := s.cells[Slot(pos, n)].seqno - pos;
      SetPc(s, t, if dif == 0 then ECas(d, pos) else if dif < 0 then EDone(false) else ELoadPos(d))
    case ECas(d, pos) =>
      if s.enq == pos then SetPc(s, t, EWrite(d, pos)).(enq := pos + 1, claimed := s.claimed + [d])
      else SetPc(s, t, ELoadSeq(d, pos))
    case EWrite(d, pos) =>
      var c := Slot(pos, n);
      SetPc(s, t, EPublish(d, pos)).(cells := s.cells[c := s.cells[c].(data := d)])
    case EPublish(d, pos) =>
      var c := Slot(pos, n);
      SetPc(s, t, EDone(true)).(cells := s.cells[c := s.cells[c].(seqno := pos + 1)])
    case DLoadPos => SetPc(s, t, DLoadSeq(s.deq))
    case DLoadSeq(pos) =>
      var dif := s.cells[Slot(pos, n)].seqno - (pos + 1);
      SetPc(s, t, if dif == 0 then DCas(pos) else if dif < 0 then DDone(Empty) else DLoadPos)
    case DCas(pos) =>
      if s.deq == pos then SetPc(s, t, DRead(pos)).(deq := pos + 1) else SetPc(s, t, DLoadSeq(pos))
    case DRead(pos) => SetPc(s, t, DRelease(pos, s.cells[Slot(pos, n)].data))
    case DRelease(pos, d) =>
      var c := Slot(pos, n);
      SetPc(s, t, DDone(Got(pos, d))).(cells := s.cells[c := s.cells[c].(seqno := pos + n)], cur := s.cur[c := pos + n],
                                              got := s.got[pos := d])
    case _ => s
  }

  ghost function Apply(s: State, step: Step): State
    requires Enabled(s, step)
  {
    match step
    case CallEnqueue(t, d) => SetPc(s, t, ELoadPos(d))
    case CallDequeue(t) => SetPc(s, t, DLoadPos)
    case Go(t) => Access(s, t)
    case SpuriousFailure(t) =>
      SetPc(s, t, if s.pc[t].ECas? then ELoadSeq(s.pc[t].data, s.pc[t].pos) else DLoadSeq(s.pc[t].pos))
    case Return(t) => SetPc(s, t, Idle)
  }

  // newmpmcq: cell i starts with sequence number i.
  ghost function Init(threads: set<Tid>, n: nat): State {
    State(seq(n, i => Cell(i, 0)), 0, 0, map t | t in threads :: Idle, [], seq(n, i => i), map[])
  }

  ghost predicate Follows(s: State, s': State) { exists step :: Enabled(s, step) && s' == Apply(s, step) }

  ghost predicate Linked(run: seq<State>, i: int)
    requires 0 <= i < |run| - 1
  {
    Follows(run[i], run[i + 1])
  }

  ghost predicate IsRun(threads: set<Tid>, n: nat, run: seq<State>) {
    && n >= 2 && run != [] && run[0] == Init(threads, n)
    && forall i :: 0 <= i < |run| - 1 ==> Linked(run, i)
  }

  // ---- positions and cells -----------------------------------------------------------------------

  lemma Multiple(n: nat, k: int)
    requires n > 0
    ensures k >= 1 ==> n * k >= n
    ensures k <= -1 ==> n * k + n <= 0
  {
    if k >= 1 { assert n * k == n * (k - 1) + n; }
    if k <= -1 { assert n * k == n * (k + 1) - n; }
  }

  lemma SlotSame(p: nat, q: nat, n: nat)
    requires n > 0 && Slot(p, n) == Slot(q, n) && p <= q < p + n
    ensures p == q
  {
    var k := q / n - p / n;
    assert q - p == n * k;
    Multiple(n, k);
  }

  lemma SlotNext(p: nat, n: nat)
    requires n > 0
    ensures Slot(p + n, n) == Slot(p, n) && Slot(p, n) < n
  {
    var k := (p + n) / n - p / n - 1;
    assert (p + n) % n - p % n == -(n * k) by { assert p + n == n * ((p + n) / n) + (p + n) % n; }
    Multiple(n, k);
  }

  lemma SlotSmall(p: nat, n: nat)
    requires p < n
    ensures Slot(p, n) == p
  {
    Multiple(n, p / n);
  }

  // ---- invariant -----------------------------------------------------------------------------------

  ghost predicate Producing(pc: Pc) { pc.EWrite? || pc.EPublish? }
  ghost predicate Consuming(pc: Pc) { pc.DRead? || pc.DRelease? }

  // Cell c serves position cur[c]; it holds that position's data once its number is one above.
  ghost predicate CellOk(s: State, c: nat)
    requires Shape(s) && c < N(s) && |s.claimed| == s.enq
  {
    var p, cell := s.cur[c], s.cells[c];
    && Slot(p, N(s)) == c && p < s.deq + N(s)
    && (p < s.deq ==> cell.seqno == p + 1)
    && (cell.seqno == p || (cell.seqno == p + 1 && p < s.enq && cell.data == s.claimed[p]))
  }

  ghost predicate PcOk(s: State, t: Tid)
    requires Shape(s) && t in s.pc && s.deq <= s.enq == |s.claimed|
  {
    var pc, n := s.pc[t], N(s);
    match pc
    case ELoadSeq(_, pos) => pos <= s.enq
    case ECas(_, pos) => pos <= s.enq && (pos == s.enq ==> s.cells[Slot(pos, n)].seqno == pos)
    case EWrite(d, pos) => pos < s.enq && d == s.claimed[pos] && s.cells[Slot(pos, n)].seqno == pos
    case EPublish(d, pos) => pos < s.enq && d == s.claimed[pos] && s.cells[Slot(pos, n)] == Cell(pos, d)
    case DLoadSeq(pos) => pos <= s.deq
    case DCas(pos) => pos <= s.deq && (pos == s.deq ==> s.cells[Slot(pos, n)].seqno == pos + 1)
    case DRead(pos) => pos < s.deq && s.cells[Slot(pos, n)].seqno == pos + 1
    case DRelease(pos, d) => pos < s.deq && s.cells[Slot(pos, n)].seqno == pos + 1 && d == s.claimed[pos]
    case DDone(Got(pos, d)) => pos < s.deq && d == s.claimed[pos]
    case _ => true
  }

  // No cell goes back: the cell of a claimed position serves it or a later one.
  ghost predicate PosOk(s: State, p: nat)
    requires Shape(s)
  {
    SlotNext(p, N(s));
    s.cur[Slot(p, N(s))] >= p
  }

  // What a dequeue has returned was enqueued at that position, and the cell has moved on.
  ghost predicate GotOk(s: State, p: nat)
    requires Shape(s) && s.deq <= s.enq == |s.claimed| && p in s.got
  {
    SlotNext(p, N(s));
    p < s.deq && s.got[p] == s.claimed[p] && s.cur[Slot(p, N(s))] > p
  }

  // Two threads never own the same position.
  ghost predicate Apart(a: Pc, b: Pc) {
    (Producing(a) && Producing(b)) || (Consuming(a) && Consuming(b)) ==> a.pos != b.pos
  }

  ghost predicate Inv(s: State) {
    && Shape(s) && s.deq <= s.enq && |s.claimed| == s.enq
    && (forall c :: 0 <= c < N(s) ==> CellOk(s, c))
    && (forall p :: 0 <= p < s.enq ==> PosOk(s, p))
    && (forall p :: p in s.got ==> GotOk(s, p))
    && (forall t :: t in s.pc ==> PcOk(s, t) && (Consuming(s.pc[t]) ==> s.pc[t].pos !in s.got))
    && (forall t, t' :: t in s.pc && t' in s.pc && t != t' ==> Apart(s.pc[t], s.pc[t']))
  }

  // A cell's number is that of the position it serves, or one above.
  lemma Serves(s: State, pos: nat, k: nat)
    requires Inv(s) && s.cells[Slot(pos, N(s))].seqno == pos + k && k <= 1
    ensures s.cur[Slot(pos, N(s))] == pos
  {
    var n := N(s);
    var c := Slot(pos, n);
    SlotNext(pos, n);
    assert CellOk(s, c);
    var p := s.cur[c];
    if p < pos { SlotSame(p, pos, n); } else { SlotSame(pos, p, n); }
  }

  lemma InitInv(threads: set<Tid>, n: nat)
    requires n >= 2
    ensures Inv(Init(threads, n))
  {
    var s := Init(threads, n);
    forall c | 0 <= c < n ensures CellOk(s, c) { SlotSmall(c, n); }
  }

  // Steps that only change one thread's program counter.
  lemma PcOnly(s: State, t: Tid, pc: Pc)
    requires Inv(s) && t in s.pc && PcOk(SetPc(s, t, pc), t)
    requires !Producing(pc) && !Consuming(pc)
    ensures Inv(SetPc(s, t, pc))
  {
    var s' := SetPc(s, t, pc);
    forall c | 0 <= c < N(s) ensures CellOk(s', c) { assert CellOk(s, c); }
    forall p | 0 <= p < s.enq ensures PosOk(s', p) { assert PosOk(s, p); }
    forall p | p in s.got ensures GotOk(s', p) { assert GotOk(s, p); }
    forall t' | t' in s'.pc ensures PcOk(s', t') { assert t' != t ==> PcOk(s, t'); }
  }

  ghost predicate Owns(pc: Pc) { Producing(pc) || Consuming(pc) }

  // The program counters that rely on the number in their cell.
  ghost predicate Relies(s: State, pc: Pc) {
    Owns(pc) || (pc.ECas? && pc.pos == s.enq) || (pc.DCas? && pc.pos == s.deq)
  }

  // No thread relies on the cell of a position that another thread owns.
  lemma OwnCell(s: State, t: Tid, t': Tid)
    requires Inv(s) && t in s.pc && t' in s.pc && t != t' && Owns(s.pc[t]) && Relies(s, s.pc[t'])
    ensures Slot(s.pc[t].pos, N(s)) != Slot(s.pc[t'].pos, N(s))
  {
    assert PcOk(s, t) && PcOk(s, t') && Apart(s.pc[t], s.pc[t']);
    var a, b := s.pc[t], s.pc[t'];
    if Slot(a.pos, N(s)) == Slot(b.pos, N(s)) {
      Serves(s, a.pos, if Producing(a) then 0 else 1);
      Serves(s, b.pos, if Producing(b) || b.ECas? then 0 else 1);
    }
  }

  // Only the cell of a position owned by t changes.
  ghost predicate OwnStep(s: State, t: Tid, s': State)
    requires Inv(s) && t in s.pc && Owns(s.pc[t])
  {
    var c := Slot(s.pc[t].pos, N(s));
    && t in s'.pc && |s'.cells| == |s.cells| && |s'.cur| == |s.cur|
    && s' == SetPc(s, t, s'.pc[t]).(cells := s.cells[c := s'.cells[c]], cur := s.cur[c := s'.cur[c]], got := s'.got)
    && s.cur[c] <= s'.cur[c] && CellOk(s', c) && PcOk(s', t)
    && (Owns(s'.pc[t]) ==>
          s'.pc[t].pos == s.pc[t].pos && Producing(s'.pc[t]) == Producing(s.pc[t]) && s'.got == s.got)
    && (s'.got == s.got || (s.pc[t].DRelease? && s'.got == s.got[s.pc[t].pos := s.pc[t].data]
                            && s'.cur[c] > s.pc[t].pos))
  }

  lemma OwnStepThreads(s: State, t: Tid, s': State)
    requires Inv(s) && t in s.pc && Owns(s.pc[t]) && OwnStep(s, t, s')
    ensures forall t' :: t' in s'.pc ==> PcOk(s', t') && (Consuming(s'.pc[t']) ==> s'.pc[t'].pos !in s'.got)
  {
    forall t' | t' in s'.pc ensures PcOk(s', t') && (Consuming(s'.pc[t']) ==> s'.pc[t'].pos !in s'.got) {
      assert PcOk(s, t');
      if t' != t {
        assert Apart(s.pc[t], s.pc[t']);
        if Relies(s, s.pc[t']) { OwnCell(s, t, t'); }
      }
    }
  }

  lemma CellStep(s: State, t: Tid, s': State)
    requires Inv(s) && t in s.pc && Owns(s.pc[t]) && OwnStep(s, t, s')
    ensures Inv(s')
  {
    OwnStepThreads(s, t, s');
    assert PcOk(s, t);
    forall c' | 0 <= c' < N(s) ensures CellOk(s', c') { assert CellOk(s, c'); }
    forall p | 0 <= p < s.enq ensures PosOk(s', p) { assert PosOk(s, p); }
    forall p | p in s'.got ensures GotOk(s', p) { assert p in s.got ==> GotOk(s, p); }
    forall a, b | a in s'.pc && b in s'.pc && a != b ensures Apart(s'.pc[a], s'.pc[b]) {
      assert Apart(s.pc[a], s.pc[b]);
    }
  }

  lemma WriteInv(s: State, t: Tid)
    requires Inv(s) && Enabled(s, Go(t)) && s.pc[t].EWrite?
    ensures Inv(Access(s, t))
  {
    var pos, s' := s.pc[t].pos, Access(s, t);
    assert PcOk(s, t);
    SlotNext(pos, N(s));
    Serves(s, pos, 0);
    assert CellOk(s, Slot(pos, N(s)));
    CellStep(s, t, s');
  }

  lemma PublishInv(s: State, t: Tid)
    requires Inv(s) && Enabled(s, Go(t)) && s.pc[t].EPublish?
    ensures Inv(Access(s, t))
  {
    var pos, s' := s.pc[t].pos, Access(s, t);
    assert PcOk(s, t);
    SlotNext(pos, N(s));
    Serves(s, pos, 0);
    assert CellOk(s, Slot(pos, N(s)));
    CellStep(s, t, s');
  }

  lemma ReleaseInv(s: State, t: Tid)
    requires Inv(s) && Enabled(s, Go(t)) && s.pc[t].DRelease?
    ensures Inv(Access(s, t))
  {
    var pos, s' := s.pc[t].pos, Access(s, t);
    assert PcOk(s, t);
    SlotNext(pos, N(s));
    Serves(s, pos, 1);
    SlotNext(pos + N(s), N(s));
    assert pos + N(s) < s.enq ==> PosOk(s, pos + N(s));
    CellStep(s, t, s');
  }

  // The data that a consumer loads is that of the enqueue with the same position.
  lemma ReadInv(s: State, t: Tid)
    requires Inv(s) && Enabled(s, Go(t)) && s.pc[t].DRead?
    ensures Inv(Access(s, t)) && Access(s, t).pc[t] == DRelease(s.pc[t].pos, s.claimed[s.pc[t].pos])
  {
    var pos, s' := s.pc[t].pos, Access(s, t);
    assert PcOk(s, t);
    SlotNext(pos, N(s));
    Serves(s, pos, 1);
    var c := Slot(pos, N(s));
    assert CellOk(s, c);
    assert s'.cells == s.cells[c := s.cells[c]] && s'.cur == s.cur[c := s.cur[c]];
    CellStep(s, t, s');
  }

  lemma EnqueueClaimInv(s: State, t: Tid)
    requires Inv(s) && Enabled(s, Go(t)) && s.pc[t].ECas? && s.pc[t].pos == s.enq
    ensures Inv(Access(s, t))
  {
    var pos, s', n := s.pc[t].pos, Access(s, t), N(s);
    assert PcOk(s, t);
    Serves(s, pos, 0);
    forall c | 0 <= c < n ensures CellOk(s', c) { assert CellOk(s, c); }
    forall p | 0 <= p < s'.enq ensures PosOk(s', p) { assert p < s.enq ==> PosOk(s, p); }
    forall p | p in s.got ensures GotOk(s', p) { assert GotOk(s, p); }
    forall t' | t' in s'.pc ensures PcOk(s', t') { assert PcOk(s, t'); }
    forall a, b | a in s'.pc && b in s'.pc && a != b ensures Apart(s'.pc[a], s'.pc[b]) {
      assert Apart(s.pc[a], s.pc[b]) && PcOk(s, a) && PcOk(s, b);
    }
  }

  lemma DequeueClaimInv(s: State, t: Tid)
    requires Inv(s) && Enabled(s, Go(t)) && s.pc[t].DCas? && s.pc[t].pos == s.deq
    ensures Inv(Access(s, t))
  {
    var pos, s', n := s.pc[t].pos, Access(s, t), N(s);
    assert PcOk(s, t);
    SlotNext(pos, n);
    Serves(s, pos, 1);
    assert CellOk(s, Slot(pos, n));
    forall c | 0 <= c < n ensures CellOk(s', c) { assert CellOk(s, c); }
    forall p | 0 <= p < s'.enq ensures PosOk(s', p) { assert p < s.enq ==> PosOk(s, p); }
    forall p | p in s.got ensures GotOk(s', p) { assert GotOk(s, p); }
    forall t' | t' in s'.pc ensures PcOk(s', t') { assert PcOk(s, t'); }
    forall a, b | a in s'.pc && b in s'.pc && a != b ensures Apart(s'.pc[a], s'.pc[b]) {
      assert Apart(s.pc[a], s.pc[b]) && PcOk(s, a) && PcOk(s, b);
    }
  }

  lemma AccessInv(s: State, t: Tid)
    requires Inv(s) && Enabled(s, Go(t))
    ensures Inv(Access(s, t))
  {
    assert PcOk(s, t);
    var pc := s.pc[t];
    if pc.EWrite? { WriteInv(s, t); }
    else if pc.EPublish? { PublishInv(s, t); }
    else if pc.DRead? { ReadInv(s, t); }
    else if pc.DRelease? { ReleaseInv(s, t); }
    else if pc.ECas? && pc.pos == s.enq { EnqueueClaimInv(s, t); }
    else if pc.DCas? && pc.pos == s.deq { DequeueClaimInv(s, t); }
    else { PcOnly(s, t, Access(s, t).pc[t]); }
  }

  lemma StepInv(s: State, step: Step)
    requires Inv(s) && Enabled(s, step)
    ensures Inv(Apply(s, step))
  {
    assert PcOk(s, step.t);
    if step.Go? { AccessInv(s, step.t); } else { PcOnly(s, step.t, Apply(s, step).pc[step.t]); }
  }

  lemma {:induction false} RunInv(threads: set<Tid>, n: nat, run: seq<State>, k: nat)
    requires IsRun(threads, n, run) && k < |run|
    ensures Inv(run[k])
  {
    if k == 0 {
      InitInv(threads, n);
    } else {
      RunInv(threads, n, run, k - 1);
      assert Linked(run, k - 1);
      var step :| Enabled(run[k - 1], step) && run[k] == Apply(run[k - 1], step);
      StepInv(run[k - 1], step);
    }
  }

  // ---- results ---------------------------------------------------------------------------------------

  /** The queue that the machine implements: enqueues claimed and not yet claimed by a dequeue. */
  ghost function Queue(s: State): seq<Data>
    requires s.deq <= s.enq == |s.claimed|
  {
    s.claimed[s.deq..s.enq]
  }

  lemma Capacity(s: State)
    requires Inv(s)
    ensures |Queue(s)| <= N(s)
  {
    if s.enq > 0 {
      SlotNext(s.enq - 1, N(s));
      assert PosOk(s, s.enq - 1) && CellOk(s, Slot(s.enq - 1, N(s)));
    }
  }

  // What a step does to the positions.
  ghost predicate Claims(s: State, t: Tid, s': State) {
    || (s'.deq == s.deq && s'.enq == s.enq && s'.claimed == s.claimed)
    || (&& t in s'.pc && s'.pc[t].EWrite? && s'.deq == s.deq && s'.enq == s.enq + 1
        && s'.claimed == s.claimed + [s'.pc[t].data])
    || (t in s'.pc && s'.pc[t] == DRead(s.deq) && s'.deq == s.deq + 1 && s'.enq == s.enq && s'.claimed == s.claimed)
  }

  lemma StepClaims(s: State, step: Step)
    requires Enabled(s, step)
    ensures Claims(s, step.t, Apply(s, step))
  {}

  /** Every step leaves the queue alone, or appends the data of an enqueue that will report success, or
      removes the head for a dequeue that will return exactly it. */
  lemma StepRefines(s: State, step: Step)
    requires Inv(s) && Enabled(s, step)
    ensures Inv(Apply(s, step)) && Refines(s, step.t, Apply(s, step))
  {
    StepInv(s, step);
    StepClaims(s, step);
    ClaimsRefine(s, step.t, Apply(s, step));
  }

  ghost predicate Refines(s: State, t: Tid, s': State)
    requires Inv(s) && Inv(s')
  {
    || Queue(s') == Queue(s)
    || (t in s'.pc && s'.pc[t].EWrite? && Queue(s') == Queue(s) + [s'.pc[t].data])
    || (&& t in s'.pc && Queue(s) != [] && s'.pc[t] == DRead(s.deq) && s.claimed[s.deq] == Queue(s)[0]
        && Queue(s') == Queue(s)[1..])
  }

  lemma ClaimsRefine(s: State, t: Tid, s': State)
    requires Inv(s) && Inv(s') && Claims(s, t, s')
    ensures Refines(s, t, s')
  {
    if s'.deq != s.deq { assert Queue(s') == Queue(s)[1..]; }
    if s'.enq != s.enq { assert Queue(s') == Queue(s) + [s'.pc[t].data]; }
  }

  /** In every run each dequeue returns the data of the enqueue with the same rank, no rank is
      returned twice, and the queue never exceeds the buffer. */
  lemma Fifo(threads: set<Tid>, n: nat, run: seq<State>, k: nat)
    requires IsRun(threads, n, run) && k < |run|
    ensures var s := run[k];
            && s.deq <= s.enq == |s.claimed| && |Queue(s)| <= N(s)
            && (forall p :: p in s.got ==> p < s.deq && s.got[p] == s.claimed[p])
            && (forall t :: t in s.pc && s.pc[t].DRelease? ==>
                  s.pc[t].pos !in s.got && s.pc[t].pos < s.deq && s.pc[t].data == s.claimed[s.pc[t].pos])
  {
    RunInv(threads, n, run, k);
    Capacity(run[k]);
    forall p | p in run[k].got ensures p < run[k].deq && run[k].got[p] == run[k].claimed[p] { assert GotOk(run[k], p); }
    forall t | t in run[k].pc && run[k].pc[t].DRelease?
      ensures run[k].pc[t].pos < run[k].deq && run[k].pc[t].data == run[k].claimed[run[k].pc[t].pos]
    {
      assert PcOk(run[k], t);
    }
  }

  /** An enqueue reports "full" if and only if the cell it needs still serves a position a whole buffer back or
      more, whose dequeue has not returned yet. */
  lemma EnqueueFailure(s: State, t: Tid)
    requires Inv(s) && Enabled(s, Go(t)) && s.pc[t].ELoadSeq?
    ensures var p := s.cur[Slot(s.pc[t].pos, N(s))];
            && (Access(s, t).pc[t] == EDone(false) <==> p < s.pc[t].pos)
            && (p < s.pc[t].pos ==> p + N(s) <= s.pc[t].pos <= s.enq && p !in s.got)
  {
    var pos, n := s.pc[t].pos, N(s);
    SlotNext(pos, n);
    assert PcOk(s, t) && CellOk(s, Slot(pos, n));
    var p := s.cur[Slot(pos, n)];
    if p < pos < p + n { SlotSame(p, pos, n); }
    assert p in s.got ==> GotOk(s, p);
  }

  /** A dequeue reports "empty" if and only if the position it loaded is still the next one and has not been
      published: unclaimed, or claimed by an enqueue that has not stored its number. */
  lemma DequeueFailure(s: State, t: Tid)
    requires Inv(s) && Enabled(s, Go(t)) && s.pc[t].DLoadSeq?
    ensures Access(s, t).pc[t] == DDone(Empty) <==>
            s.pc[t].pos == s.deq && (s.deq == s.enq || s.cells[Slot(s.deq, N(s))].seqno == s.deq)
  {
    var pos, n := s.pc[t].pos, N(s);
    SlotNext(pos, n);
    assert PcOk(s, t) && CellOk(s, Slot(pos, n));
    var p := s.cur[Slot(pos, n)];
    if pos < s.enq { assert PosOk(s, pos); }
    if pos <= p < pos + n { SlotSame(pos, p, n); }
  }

  // ---- an enqueue that meets a dequeue -----------------------------------------------------------------

  // Somebody is at work on a position that has been claimed by a dequeue and has not been returned.
  ghost predicate UnderWay(s: State, p: nat) { exists t :: t in s.pc && Consuming(s.pc[t]) && s.pc[t].pos == p }

  ghost predicate AllUnderWay(s: State) { forall p: nat :: p < s.deq && p !in s.got ==> UnderWay(s, p) }

  // What a step of t does to the positions that dequeues have claimed.
  ghost predicate Works(s: State, t: Tid, s': State) {
    && t in s.pc && t in s'.pc && s'.pc == s.pc[t := s'.pc[t]] && s.got.Keys <= s'.got.Keys
    && (s'.deq == s.deq || (s'.deq == s.deq + 1 && s'.pc[t] == DRead(s.deq)))
    && (Consuming(s.pc[t]) ==>
          s.pc[t].pos in s'.got || (Consuming(s'.pc[t]) && s'.pc[t].pos == s.pc[t].pos))
  }

  lemma StepWorks(s: State, step: Step)
    requires Enabled(s, step)
    ensures Works(s, step.t, Apply(s, step))
  {}

  // A thread that goes on working on the same position.
  lemma StillUnderWay(s: State, s': State, t: Tid, p: nat)
    requires UnderWay(s, p) && t in s'.pc && s'.pc == s.pc[t := s'.pc[t]]
    requires t in s.pc && Consuming(s.pc[t]) && s.pc[t].pos == p ==> Consuming(s'.pc[t]) && s'.pc[t].pos == p
    ensures UnderWay(s', p)
  {
    var u :| u in s.pc && Consuming(s.pc[u]) && s.pc[u].pos == p;
    assert u in s'.pc && Consuming(s'.pc[u]) && s'.pc[u].pos == p;
  }

  lemma StepUnderWay(s: State, step: Step)
    requires AllUnderWay(s) && Enabled(s, step)
    ensures AllUnderWay(Apply(s, step))
  {
    StepWorks(s, step);
    WorksUnderWay(s, step.t, Apply(s, step));
  }

  lemma WorksUnderWay(s: State, t: Tid, s': State)
    requires AllUnderWay(s) && Works(s, t, s')
    ensures AllUnderWay(s')
  {
    forall p: nat | p < s'.deq && p !in s'.got ensures UnderWay(s', p) {
      if p < s.deq { StillUnderWay(s, s', t, p); } else { assert Consuming(s'.pc[t]) && s'.pc[t].pos == p; }
    }
  }

  lemma {:induction false} RunUnderWay(threads: set<Tid>, n: nat, run: seq<State>, k: nat)
    requires IsRun(threads, n, run) && k < |run|
    ensures AllUnderWay(run[k])
  {
    if k > 0 {
      RunUnderWay(threads, n, run, k - 1);
      assert Linked(run, k - 1);
      var step :| Enabled(run[k - 1], step) && run[k] == Apply(run[k - 1], step);
      StepUnderWay(run[k - 1], step);
    }
  }

  /** In every run an enqueue that reports "full" while there is room has met a cell that a dequeue is about to
      release: some thread owns the cell's position, and its next access is enabled. */
  lemma FullOrBusy(threads: set<Tid>, n: nat, run: seq<State>, k: nat, t: Tid) returns (u: Tid)
    requires IsRun(threads, n, run) && k < |run| && Enabled(run[k], Go(t)) && run[k].pc[t].ELoadSeq?
    requires Access(run[k], t).pc[t] == EDone(false)
    ensures var s := run[k];
            && s.deq <= s.enq == |s.claimed|
            && (|Queue(s)| == N(s)
                || (u in s.pc && Consuming(s.pc[u]) && Slot(s.pc[u].pos, N(s)) == Slot(s.pc[t].pos, N(s))
                    && Enabled(s, Go(u))))
  {
    var s := run[k];
    RunInv(threads, n, run, k);
    RunUnderWay(threads, n, run, k);
    Capacity(s);
    EnqueueFailure(s, t);
    SlotNext(s.pc[t].pos, N(s));
    assert CellOk(s, Slot(s.pc[t].pos, N(s)));
    var p := s.cur[Slot(s.pc[t].pos, N(s))];
    u := t;
    if p < s.deq {
      assert UnderWay(s, p);
      u :| u in s.pc && Consuming(s.pc[u]) && s.pc[u].pos == p;
    }
  }

  // ---- what a call returns ------------------------------------------------------------------------------

  ghost predicate ByThread(s: State, s': State, t: Tid) {
    exists step: Step :: step.t == t && Enabled(s, step) && s' == Apply(s, step)
  }

  // The call made at step a has not returned in any state up to k.
  ghost predicate During(run: seq<State>, a: nat, k: nat, call: Step) {
    && a < k < |run| && Enabled(run[a], call) && run[a + 1] == Apply(run[a], call)
    && forall i :: a < i <= k ==> call.t in run[i].pc && !run[i].pc[call.t].Idle?
  }

  // In step i thread t moves the head of the queue ...
  ghost predicate Removes(run: seq<State>, i: int, t: Tid)
    requires 0 <= i < |run| - 1
  {
    run[i + 1].deq == run[i].deq + 1 && ByThread(run[i], run[i + 1], t)
  }

  // ... or adds something at its end.
  ghost predicate Appends(run: seq<State>, i: int, t: Tid)
    requires 0 <= i < |run| - 1
  {
    |run[i].claimed| < |run[i + 1].claimed| && ByThread(run[i], run[i + 1], t)
  }

  /** The positions that t has taken out of the queue after step a and before state k, in order. */
  ghost function Removed(run: seq<State>, a: nat, k: nat, t: Tid): seq<nat>
    requires k < |run|
    decreases k
  {
    if k <= a + 1 then [] else Removed(run, a, k - 1, t) + if Removes(run, k - 1, t) then [run[k - 1].deq] else []
  }

  /** What t has appended to the queue after step a and before state k, in order. */
  ghost function Appended(run: seq<State>, a: nat, k: nat, t: Tid): seq<Data>
    requires k < |run|
    decreases k
  {
    if k <= a + 1 then []
    else
      Appended(run, a, k - 1, t) + if Appends(run, k - 1, t) then run[k].claimed[|run[k - 1].claimed|..] else []
  }

  ghost predicate InDequeue(pc: Pc) {
    pc.DLoadPos? || pc.DLoadSeq? || pc.DCas? || pc.DRead? || pc.DRelease? || pc.DDone?
  }

  // The positions that a dequeue has taken so far.
  ghost function Position(pc: Pc): seq<nat> {
    match pc
    case DRead(p) => [p]
    case DRelease(p, _) => [p]
    case DDone(Got(p, _)) => [p]
    case _ => []
  }

  // Which program counters move the positions, and that nobody else's changes.
  lemma StepPc(s: State, step: Step)
    requires Enabled(s, step)
    ensures var s', t := Apply(s, step), step.t;
            && t in s'.pc && s'.pc == s.pc[t := s'.pc[t]]
            && (s'.deq != s.deq ==> s.pc[t] == DCas(s.deq) && s'.pc[t] == DRead(s.deq) && s'.deq == s.deq + 1)
            && (s'.claimed != s.claimed ==>
                  && s.pc[t].ECas? && s'.pc[t].EWrite? && s'.pc[t].data == s.pc[t].data
                  && s'.claimed == s.claimed + [s.pc[t].data])
  {}

  lemma OwnDequeueStep(s: State, step: Step)
    requires Enabled(s, step) && InDequeue(s.pc[step.t]) && !step.Return?
    ensures var s', t := Apply(s, step), step.t;
            && t in s'.pc && InDequeue(s'.pc[t])
            && (s'.deq == s.deq ==> Position(s'.pc[t]) == Position(s.pc[t]))
  {}

  lemma DequeueStep(s: State, s': State, t: Tid)
    requires Follows(s, s') && t in s.pc && t in s'.pc && InDequeue(s.pc[t]) && !s'.pc[t].Idle?
    ensures InDequeue(s'.pc[t])
    ensures Position(s'.pc[t]) ==
            Position(s.pc[t]) + if s'.deq == s.deq + 1 && ByThread(s, s', t) then [s.deq] else []
  {
    if ByThread(s, s', t) {
      var step: Step :| step.t == t && Enabled(s, step) && s' == Apply(s, step);
      StepPc(s, step);
      OwnDequeueStep(s, step);
    } else {
      var step :| Enabled(s, step) && s' == Apply(s, step);
      StepPc(s, step);
      assert step.t != t;
    }
  }

  lemma {:induction false} DequeueSoFar(run: seq<State>, a: nat, k: nat, t: Tid)
    requires During(run, a, k, CallDequeue(t)) && forall i :: 0 <= i < |run| - 1 ==> Linked(run, i)
    ensures InDequeue(run[k].pc[t]) && Position(run[k].pc[t]) == Removed(run, a, k, t)
    decreases k
  {
    if k > a + 1 {
      DequeueSoFar(run, a, k - 1, t);
      assert Linked(run, k - 1);
      DequeueStep(run[k - 1], run[k], t);
    }
  }

  /** What a dequeue call returns, in every run: an item if and only if its thread took a position out of the
      queue during the call, which it does at most once, and then the item enqueued with that rank. */
  lemma DequeueCall(threads: set<Tid>, n: nat, run: seq<State>, a: nat, k: nat, t: Tid)
    requires IsRun(threads, n, run) && During(run, a, k, CallDequeue(t))
    requires run[k].pc[t].EDone? || run[k].pc[t].DDone?
    ensures run[k].pc[t].DDone?
    ensures match run[k].pc[t].result
            case Got(p, d) => Removed(run, a, k, t) == [p] && p < |run[k].claimed| && d == run[k].claimed[p]
            case Empty => Removed(run, a, k, t) == []
  {
    DequeueSoFar(run, a, k, t);
    RunInv(threads, n, run, k);
    assert PcOk(run[k], t);
  }

  // An enqueue of d, before and after it has appended it.
  ghost predicate InEnqueue(pc: Pc, d: Data) {
    || ((pc.ELoadPos? || pc.ELoadSeq? || pc.ECas? || pc.EWrite? || pc.EPublish?) && pc.data == d)
    || pc.EDone?
  }

  ghost predicate HasAppended(pc: Pc) { pc.EWrite? || pc.EPublish? || (pc.EDone? && pc.ok) }

  lemma OwnEnqueueStep(s: State, step: Step, d: Data)
    requires Enabled(s, step) && InEnqueue(s.pc[step.t], d) && !step.Return?
    ensures var s', t := Apply(s, step), step.t;
            && t in s'.pc && InEnqueue(s'.pc[t], d)
            && (s'.claimed == s.claimed ==> HasAppended(s'.pc[t]) == HasAppended(s.pc[t]))
  {}

  lemma EnqueueStep(s: State, s': State, t: Tid, d: Data)
    requires Follows(s, s') && t in s.pc && t in s'.pc && InEnqueue(s.pc[t], d) && !s'.pc[t].Idle?
    ensures InEnqueue(s'.pc[t], d)
    ensures if |s.claimed| < |s'.claimed| && ByThread(s, s', t) then
              s'.claimed[|s.claimed|..] == [d] && !HasAppended(s.pc[t]) && HasAppended(s'.pc[t])
            else HasAppended(s'.pc[t]) == HasAppended(s.pc[t])
  {
    if ByThread(s, s', t) {
      var step: Step :| step.t == t && Enabled(s, step) && s' == Apply(s, step);
      StepPc(s, step);
      OwnEnqueueStep(s, step, d);
    } else {
      var step :| Enabled(s, step) && s' == Apply(s, step);
      StepPc(s, step);
      assert step.t != t;
    }
  }

  lemma {:induction false} EnqueueSoFar(run: seq<State>, a: nat, k: nat, t: Tid, d: Data)
    requires During(run, a, k, CallEnqueue(t, d)) && forall i :: 0 <= i < |run| - 1 ==> Linked(run, i)
    ensures InEnqueue(run[k].pc[t], d) && Appended(run, a, k, t) == if HasAppended(run[k].pc[t]) then [d] else []
    decreases k
  {
    if k > a + 1 {
      EnqueueSoFar(run, a, k - 1, t, d);
      assert Linked(run, k - 1);
      EnqueueStep(run[k - 1], run[k], t, d);
    }
  }

  /** What an enqueue call returns, in every run: success if and only if its thread appended its data to the queue
      during the call, exactly once, and nothing else. */
  lemma EnqueueCall(threads: set<Tid>, n: nat, run: seq<State>, a: nat, k: nat, t: Tid, d: Data)
    requires IsRun(threads, n, run) && During(run, a, k, CallEnqueue(t, d))
    requires run[k].pc[t].EDone? || run[k].pc[t].DDone?
    ensures run[k].pc[t].EDone? && Appended(run, a, k, t) == if run[k].pc[t].ok then [d] else []
  {
    EnqueueSoFar(run, a, k, t, d);
  }

  lemma {:induction false} QueueGrows(threads: set<Tid>, n: nat, run: seq<State>, i: nat, k: nat)
    requires IsRun(threads, n, run) && i <= k < |run|
    ensures run[i].deq <= run[k].deq && run[i].claimed <= run[k].claimed
    decreases k
  {
    if i < k {
      QueueGrows(threads, n, run, i, k - 1);
      assert Linked(run, k - 1);
      var step :| Enabled(run[k - 1], step) && run[k] == Apply(run[k - 1], step);
      StepClaims(run[k - 1], step);
    }
  }

  /** No position is taken out twice, so no item is returned by two calls. */
  lemma RemovedOnce(threads: set<Tid>, n: nat, run: seq<State>, i: nat, j: nat, t: Tid, u: Tid)
    requires IsRun(threads, n, run) && i < |run| - 1 && j < |run| - 1
    requires Removes(run, i, t) && Removes(run, j, u) && run[i].deq == run[j].deq
    ensures i == j && t == u
  {
    if i < j {
      QueueGrows(threads, n, run, i + 1, j);
    } else if j < i {
      QueueGrows(threads, n, run, j + 1, i);
    }
    var step: Step :| step.t == t && Enabled(run[i], step) && run[i + 1] == Apply(run[i], step);
    var other: Step :| other.t == u && Enabled(run[j], other) && run[j + 1] == Apply(run[j], other);
    StepPc(run[i], step);
    StepPc(run[j], other);
  }

  // ---- a call that runs alone ---------------------------------------------------------------------------

  // Up to n accesses of t in succession.
  ghost function Alone(s: State, t: Tid, n: nat): State {
    if n == 0 then s
    else
      var r := Alone(s, t, n - 1);
      if Enabled(r, Go(t)) then Access(r, t) else r
  }

  lemma {:induction false} AloneAgain(s: State, t: Tid, m: nat, n: nat)
    ensures Alone(Alone(s, t, m), t, n) == Alone(s, t, m + n)
  {
    if n > 0 { AloneAgain(s, t, m, n - 1); }
  }

  // The two loads that a call starts with.
  lemma LoadTwice(s: State, t: Tid)
    requires Shape(s) && t in s.pc && (s.pc[t].ELoadPos? || s.pc[t].DLoadPos?)
    ensures var at := SetPc(s, t, if s.pc[t].ELoadPos? then ELoadSeq(s.pc[t].data, s.enq) else DLoadSeq(s.deq));
            Enabled(at, Go(t)) && Alone(s, t, 2) == Access(at, t)
  {
    assert Alone(s, t, 0) == s;
    assert Alone(s, t, 1) == Access(s, t);
  }

  // The three accesses of a call that owns the next position, and none of one that has ended.
  lemma EnqueueEnd(s: State, t: Tid, d: Data)
    requires Shape(s) && t in s.pc && (s.pc[t] == ECas(d, s.enq) || s.pc[t] == EDone(false))
    ensures var r, ok := Alone(s, t, 3), s.pc[t].ECas?;
            && t in r.pc && r.pc[t] == EDone(ok) && r.deq == s.deq
            && r.claimed == s.claimed + if ok then [d] else []
  {
    assert Alone(s, t, 0) == s;
    if s.pc[t].ECas? {
      var a := Access(s, t);
      var b := Access(a, t);
      assert Alone(s, t, 1) == a && Alone(s, t, 2) == b && Alone(s, t, 3) == Access(b, t);
    } else {
      assert Alone(s, t, 1) == s && Alone(s, t, 2) == s;
    }
  }

  lemma DequeueEnd(s: State, t: Tid, d: Data)
    requires Shape(s) && t in s.pc && (s.pc[t] == DCas(s.deq) || s.pc[t] == DDone(Empty))
    requires Slot(s.deq, N(s)) < N(s) && (s.pc[t].DCas? ==> s.cells[Slot(s.deq, N(s))].data == d)
    ensures var r, ok := Alone(s, t, 3), s.pc[t].DCas?;
            && t in r.pc && r.claimed == s.claimed && r.deq == s.deq + (if ok then 1 else 0)
            && r.pc[t] == DDone(if ok then Got(s.deq, d) else Empty)
  {
    assert Alone(s, t, 0) == s;
    if s.pc[t].DCas? {
      var a := Access(s, t);
      var b := Access(a, t);
      assert Alone(s, t, 1) == a && Alone(s, t, 2) == b && Alone(s, t, 3) == Access(b, t);
    } else {
      assert Alone(s, t, 1) == s && Alone(s, t, 2) == s;
    }
  }

  // The number in the cell of the next position to be enqueued is that position or lower.
  lemma NextCell(s: State)
    requires Inv(s)
    ensures Slot(s.enq, N(s)) < N(s) && s.cells[Slot(s.enq, N(s))].seqno <= s.enq
  {
    var n := N(s);
    SlotNext(s.enq, n);
    assert CellOk(s, Slot(s.enq, n));
    var p := s.cur[Slot(s.enq, n)];
    if s.enq <= p < s.enq + n { SlotSame(s.enq, p, n); }
  }

  lemma EnqueueFrom(s: State, t: Tid, d: Data)
    requires Enabled(s, CallEnqueue(t, d)) && Slot(s.enq, N(s)) < N(s) && s.cells[Slot(s.enq, N(s))].seqno <= s.enq
    ensures var free := s.cells[Slot(s.enq, N(s))].seqno == s.enq;
            var r := Alone(Apply(s, CallEnqueue(t, d)), t, 5);
            && t in r.pc && r.pc[t] == EDone(free) && r.deq == s.deq
            && r.claimed == s.claimed + if free then [d] else []
  {
    var s0 := Apply(s, CallEnqueue(t, d));
    LoadTwice(s0, t);
    EnqueueEnd(Alone(s0, t, 2), t, d);
    AloneAgain(s0, t, 2, 3);
  }

  /** An enqueue that runs without interruption takes at most five accesses. It succeeds if and only if the cell of
      the next position is free, and then appends its data. */
  lemma EnqueueAlone(s: State, t: Tid, d: Data)
    requires Inv(s) && Enabled(s, CallEnqueue(t, d))
    ensures var free := Slot(s.enq, N(s)) < N(s) && s.cells[Slot(s.enq, N(s))].seqno == s.enq;
            var r := Alone(Apply(s, CallEnqueue(t, d)), t, 5);
            && t in r.pc && r.pc[t] == EDone(free) && r.deq == s.deq
            && r.claimed == s.claimed + if free then [d] else []
  {
    NextCell(s);
    EnqueueFrom(s, t, d);
  }

  lemma HeadCell(s: State)
    requires Inv(s)
    ensures Slot(s.deq, N(s)) < N(s) && s.cells[Slot(s.deq, N(s))].seqno <= s.deq + 1
    ensures s.cells[Slot(s.deq, N(s))].seqno == s.deq + 1 ==>
              s.deq < s.enq && s.cells[Slot(s.deq, N(s))].data == s.claimed[s.deq]
  {
    var n := N(s);
    SlotNext(s.deq, n);
    assert CellOk(s, Slot(s.deq, n));
    var p := s.cur[Slot(s.deq, n)];
    if s.deq <= p < s.deq + n { SlotSame(s.deq, p, n); }
    if p <= s.deq < p + n { SlotSame(p, s.deq, n); }
  }

  lemma DequeueFrom(s: State, t: Tid)
    requires Enabled(s, CallDequeue(t)) && Slot(s.deq, N(s)) < N(s) && s.cells[Slot(s.deq, N(s))].seqno <= s.deq + 1
    ensures var cell := s.cells[Slot(s.deq, N(s))];
            var r := Alone(Apply(s, CallDequeue(t)), t, 5);
            && t in r.pc && r.claimed == s.claimed && r.deq == s.deq + (if cell.seqno == s.deq + 1 then 1 else 0)
            && r.pc[t] == DDone(if cell.seqno == s.deq + 1 then Got(s.deq, cell.data) else Empty)
  {
    var s0 := Apply(s, CallDequeue(t));
    LoadTwice(s0, t);
    DequeueEnd(Alone(s0, t, 2), t, s.cells[Slot(s.deq, N(s))].data);
    AloneAgain(s0, t, 2, 3);
  }

  /** A dequeue that runs without interruption takes at most five accesses. It returns the head of the queue if and
      only if that has been published, and otherwise reports that the queue is empty. */
  lemma DequeueAlone(s: State, t: Tid)
    requires Inv(s) && Enabled(s, CallDequeue(t))
    ensures var published := s.deq < s.enq && Slot(s.deq, N(s)) < N(s) && s.cells[Slot(s.deq, N(s))].seqno == s.deq + 1;
            var r := Alone(Apply(s, CallDequeue(t)), t, 5);
            && t in r.pc && r.claimed == s.claimed && r.deq == s.deq + (if published then 1 else 0)
            && r.pc[t] == DDone(if published then Got(s.deq, s.claimed[s.deq]) else Empty)
  {
    HeadCell(s);
    DequeueFrom(s, t);
  }

  /** A call that finds its position overtaken loads the current one and goes on with that. */
  lemma Reloads(s: State, t: Tid)
    requires Enabled(s, Go(t)) && (s.pc[t].ELoadSeq? || s.pc[t].DLoadSeq?) && Slot(s.pc[t].pos, N(s)) < N(s)
    requires s.cells[Slot(s.pc[t].pos, N(s))].seqno > s.pc[t].pos + if s.pc[t].ELoadSeq? then 0 else 1
    ensures var r := Alone(s, t, 2);
            r == SetPc(s, t, if s.pc[t].ELoadSeq? then ELoadSeq(s.pc[t].data, s.enq) else DLoadSeq(s.deq))
  {
    assert Alone(s, t, 0) == s;
    assert Alone(s, t, 1) == SetPc(s, t, if s.pc[t].ELoadSeq? then ELoadPos(s.pc[t].data) else DLoadPos);
  }

  // ---- 64-bit positions ------------------------------------------------------------------------------

  // The difference of two words, read as a signed number.
  function Signed(x: int): int {
    var r := x % LIMIT;
    if r < LIMIT / 2 then r else r - LIMIT
  }

  ghost function WordDif(a: int, b: int): int { Signed(a % LIMIT - b % LIMIT) }

  lemma SignedDifference(a: int, b: int)
    requires -0x8000_0000_0000_0000 <= a - b < 0x8000_0000_0000_0000
    ensures Signed(a % LIMIT - b % LIMIT) == a - b
  {}

  lemma SameWord(a: nat, b: nat)
    requires a <= b < a + LIMIT
    ensures a % LIMIT == b % LIMIT <==> a == b
  {}

  // pos & buffer_mask
  ghost function MaskedSlot(pos: nat, n: nat): nat
    requires n > 0
  {
    And(pos % LIMIT, n - 1)
  }

  lemma SlotMasked(pos: nat, k: nat)
    requires k <= 61
    ensures MaskedSlot(pos, Pow2(k)) == Slot(pos, Pow2(k))
  {
    WordSize();
    AndMask(pos % LIMIT, k);
    ModMod(pos, BITS, k);
  }

  /** The accesses as the code makes them: sequence numbers and positions are compared as 64-bit words. */
  ghost function WordAccess(s: State, t: Tid): State
    requires Enabled(s, Go(t))
  {
    match s.pc[t]
    case ELoadSeq(d, pos) =>
      var c := MaskedSlot(pos, N(s));
      var dif := if c < N(s) then WordDif(s.cells[c].seqno, pos) else 0;
      SetPc(s, t, if dif == 0 then ECas(d, pos) else if dif < 0 then EDone(false) else ELoadPos(d))
    case ECas(d, pos) =>
      if s.enq % LIMIT == pos % LIMIT then
        SetPc(s, t, EWrite(d, pos)).(enq := s.enq + 1, claimed := s.claimed + [d])
      else SetPc(s, t, ELoadSeq(d, pos))
    case DLoadSeq(pos) =>
      var c := MaskedSlot(pos, N(s));
      var dif := if c < N(s) then WordDif(s.cells[c].seqno, pos + 1) else 0;
      SetPc(s, t, if dif == 0 then DCas(pos) else if dif < 0 then DDone(Empty) else DLoadPos)
    case DCas(pos) =>
      if s.deq % LIMIT == pos % LIMIT then SetPc(s, t, DRead(pos)).(deq := s.deq + 1)
      else SetPc(s, t, DLoadSeq(pos))
    case _ => Access(s, t)
  }

  ghost function WordApply(s: State, step: Step): State
    requires Enabled(s, step)
  {
    if step.Go? then WordAccess(s, step.t) else Apply(s, step)
  }

  // The thread has not slept through 2^61 operations since it loaded its position.
  ghost predicate Awake(s: State, t: Tid)
    requires t in s.pc
  {
    var pc := s.pc[t];
    && (pc.ELoadSeq? || pc.ECas? ==> s.enq < pc.pos + 0x2000_0000_0000_0000)
    && (pc.DLoadSeq? || pc.DCas? ==> s.deq < pc.pos + 0x2000_0000_0000_0000)
  }

  ghost predicate Timely(s: State) { forall t :: t in s.pc ==> Awake(s, t) }

  ghost predicate WordLinked(run: seq<State>, i: int)
    requires 0 <= i < |run| - 1
  {
    exists step :: Enabled(run[i], step) && run[i + 1] == WordApply(run[i], step)
  }

  ghost predicate IsWordRun(threads: set<Tid>, k: nat, run: seq<State>) {
    && 1 <= k <= 61 && run != [] && run[0] == Init(threads, Pow2(k))
    && forall i :: 0 <= i < |run| - 1 ==> WordLinked(run, i)
  }

  // The number in a cell is not far from a position that the cell serves sooner or later.
  lemma NumberNear(s: State, pos: nat)
    requires Inv(s) && pos <= s.enq
    ensures Slot(pos, N(s)) < N(s)
    ensures pos <= s.cells[Slot(pos, N(s))].seqno + N(s)
    ensures s.cells[Slot(pos, N(s))].seqno <= s.deq + N(s)
  {
    var n := N(s);
    SlotNext(pos, n);
    var c := Slot(pos, n);
    assert CellOk(s, c);
    if pos >= n {
      SlotNext(pos - n, n);
      assert PosOk(s, pos - n);
    }
  }

  lemma LoadsAgree(s: State, t: Tid, k: nat, pos: nat, base: nat)
    requires Inv(s) && t in s.pc && Awake(s, t) && N(s) == Pow2(k) && k <= 61
    requires (s.pc[t].ELoadSeq? && base == s.pc[t].pos) || (s.pc[t].DLoadSeq? && base == s.pc[t].pos + 1)
    requires pos == s.pc[t].pos
    ensures MaskedSlot(pos, N(s)) == Slot(pos, N(s)) < N(s)
    ensures var q := s.cells[Slot(pos, N(s))].seqno; WordDif(q, base) == q - base
  {
    assert PcOk(s, t);
    SmallBuffer(k);
    SlotMasked(pos, k);
    NumberNear(s, pos);
    SignedDifference(s.cells[Slot(pos, N(s))].seqno, base);
  }

  lemma WordsAgree(s: State, t: Tid, k: nat)
    requires Inv(s) && Timely(s) && Enabled(s, Go(t)) && N(s) == Pow2(k) && k <= 61
    ensures WordAccess(s, t) == Access(s, t)
  {
    assert PcOk(s, t) && Awake(s, t);
    if s.pc[t].ELoadSeq? {
      EnqueueLoadAgrees(s, t, k);
    } else if s.pc[t].DLoadSeq? {
      DequeueLoadAgrees(s, t, k);
    } else if s.pc[t].ECas? {
      SameWord(s.pc[t].pos, s.enq);
    } else if s.pc[t].DCas? {
      SameWord(s.pc[t].pos, s.deq);
    }
  }

  lemma EnqueueLoadAgrees(s: State, t: Tid, k: nat)
    requires Inv(s) && Enabled(s, Go(t)) && Awake(s, t) && s.pc[t].ELoadSeq? && N(s) == Pow2(k) && k <= 61
    ensures WordAccess(s, t) == Access(s, t)
  {
    LoadsAgree(s, t, k, s.pc[t].pos, s.pc[t].pos);
    SameLoad(s, t);
  }

  lemma DequeueLoadAgrees(s: State, t: Tid, k: nat)
    requires Inv(s) && Enabled(s, Go(t)) && Awake(s, t) && s.pc[t].DLoadSeq? && N(s) == Pow2(k) && k <= 61
    ensures WordAccess(s, t) == Access(s, t)
  {
    LoadsAgree(s, t, k, s.pc[t].pos, s.pc[t].pos + 1);
    SameLoad(s, t);
  }

  lemma SameLoad(s: State, t: Tid)
    requires Enabled(s, Go(t)) && (s.pc[t].ELoadSeq? || s.pc[t].DLoadSeq?)
    requires MaskedSlot(s.pc[t].pos, N(s)) == Slot(s.pc[t].pos, N(s)) < N(s)
    requires var q, base := s.cells[Slot(s.pc[t].pos, N(s))].seqno, s.pc[t].pos + if s.pc[t].ELoadSeq? then 0 else 1;
             WordDif(q, base) == q - base
    ensures WordAccess(s, t) == Access(s, t)
  {}

  lemma SmallBuffer(k: nat)
    requires k <= 61
    ensures Pow2(k) <= 0x2000_0000_0000_0000
  {
    WordSize();
    assert Pow2(63) == 2 * Pow2(62) && Pow2(62) == 2 * Pow2(61);
    Pow2Mono(k, 61);
  }

  lemma WordStep(s: State, step: Step, k: nat)
    requires Enabled(s, step) && Inv(s) && Timely(s) && N(s) == Pow2(k) && k <= 61
    ensures WordApply(s, step) == Apply(s, step)
  {
    if step.Go? { WordsAgree(s, step.t, k); }
  }

  lemma SameSize(s: State, step: Step)
    requires Enabled(s, step)
    ensures N(Apply(s, step)) == N(s)
  {}

  lemma WordFollows(run: seq<State>, i: nat, k: nat)
    requires i < |run| - 1 && WordLinked(run, i) && Inv(run[i]) && Timely(run[i]) && N(run[i]) == Pow2(k) && k <= 61
    ensures Linked(run, i) && Inv(run[i + 1]) && N(run[i + 1]) == Pow2(k)
  {
    var step :| Enabled(run[i], step) && run[i + 1] == WordApply(run[i], step);
    WordStep(run[i], step, k);
    StepInv(run[i], step);
    SameSize(run[i], step);
  }

  ghost predicate AllTimely(run: seq<State>) { forall i :: 0 <= i < |run| ==> Timely(run[i]) }

  lemma {:induction false} WordInv(threads: set<Tid>, k: nat, run: seq<State>, m: nat)
    requires IsWordRun(threads, k, run) && m < |run| && AllTimely(run)
    ensures Inv(run[m]) && N(run[m]) == Pow2(k)
  {
    if m == 0 {
      assert Pow2(k) == 2 * Pow2(k - 1);
      InitInv(threads, Pow2(k));
    } else {
      WordInv(threads, k, run, m - 1);
      assert WordLinked(run, m - 1);
      WordFollows(run, m - 1, k);
    }
  }

  /** Every run of the code's own machine, whose positions wrap at 2^64, is a run of the unbounded one, and
      so keeps all that is proved of it, as long as no thread sleeps through 2^61 operations between
      loading a position and its last use of it. */
  lemma WordRuns(threads: set<Tid>, k: nat, run: seq<State>)
    requires IsWordRun(threads, k, run) && AllTimely(run)
    ensures IsRun(threads, Pow2(k), run)
  {
    assert Pow2(k) == 2 * Pow2(k - 1);
    forall i | 0 <= i < |run| - 1 ensures Linked(run, i) {
      WordInv(threads, k, run, i);
      assert WordLinked(run, i);
      WordFollows(run, i, k);
    }
  }
}
