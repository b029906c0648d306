/** The ticket lock of src/include/ticketlock.h as an interleaving machine over any set of threads.

    The lock is one 64-bit word: `ticket` is its low half and `users` its high half, both wrapping at
    2^32. Every atomic access is one step: the fetch-and-add and each read of the spin loop, the load
    and the store into which `ticket++` splits, the read and the compare-and-swap of the trylock.
    `arrivals`, `entries` and `released` are history and influence no step. */
module TicketLock {
  import opened Basics

  const W: int := 0x1_0000_0000

  type Tid = nat

  datatype Pc =
    | Idle
    | Spin(me: int)
    | Held
    | Unlocking(seen: int)
    | Trying(me: int)

  datatype State = State(u: int, pc: map<Tid, Pc>, arrivals: seq<Tid>, entries: seq<Tid>, released: nat)

  datatype Step =
    | FetchAdd(t: Tid)
    | Enter(t: Tid)
    | UnlockLoad(t: Tid)
    | UnlockStore(t: Tid)
    | TryRead(t: Tid)
    | TryCas(t: Tid)

  function Ticket(u: int): int { u % W }
  function Users(u: int): int { u / W }
  function Pack(users: int, ticket: int): int { users * W + ticket }

  ghost predicate Enabled(s: State, step: Step) {
    step.t in s.pc &&
    match step
    case FetchAdd(t) => s.pc[t].Idle?
    case Enter(t) => s.pc[t].Spin? && Ticket(s.u) == s.pc[t].me
    case UnlockLoad(t) => s.pc[t].Held?
    case UnlockStore(t) => s.pc[t].Unlocking?
    case TryRead(t) => s.pc[t].Idle?
    case TryCas(t) => s.pc[t].Trying?
  }

  ghost function Apply(s: State, step: Step): State
    requires Enabled(s, step)
  {
    match step
    case FetchAdd(t) =>
      var me := Users(s.u);
      s.(u := Pack((me + 1) % W, Ticket(s.u)), pc := s.pc[t := Spin(me)], arrivals := s.arrivals + [t])
    case Enter(t) => s.(pc := s.pc[t := Held], entries := s.entries + [t])
    case UnlockLoad(t) => s.(pc := s.pc[t := Unlocking(Ticket(s.u))])
    case UnlockStore(t) =>
      s.(u := Pack(Users(s.u), (s.pc[t].seen + 1) % W), pc := s.pc[t := Idle], released := s.released + 1)
    case TryRead(t) => s.(pc := s.pc[t := Trying(Users(s.u))])
    case TryCas(t) =>
      var me := s.pc[t].me;
      if s.u == Pack(me, me) then
        s.(u := Pack((me + 1) % W, me), pc := s.pc[t := Held],
           arrivals := s.arrivals + [t], entries := s.entries + [t])
      else
        s.(pc := s.pc[t := Idle])
  }

  ghost function Init(threads: set<Tid>): State {
    State(0, map t | t in threads :: Idle, [], [], 0)
  }

  ghost predicate Follows(s: State, s': State) {
    exists step :: Enabled(s, step) && s' == Apply(s, step)
  }

  /** A run of the given threads, from the zeroed lock. */
  ghost predicate IsRun(threads: set<Tid>, run: seq<State>) {
    && run != [] && run[0] == Init(threads)
    && forall i :: 0 <= i < |run| - 1 ==> Follows(run[i], run[i + 1])
  }

  ghost predicate HasLock(s: State, t: Tid) { t in s.pc && (s.pc[t].Held? || s.pc[t].Unlocking?) }
  ghost predicate Pending(s: State, t: Tid) { t in s.pc && (s.pc[t].Spin? || HasLock(s, t)) }

  /** At most one thread is between its entry and the end of its unlock. */
  ghost predicate Exclusive(s: State) {
    forall t, t' :: HasLock(s, t) && HasLock(s, t') ==> t == t'
  }

  // ---- invariant ------------------------------------------------------------------------------

  ghost predicate InLine(s: State, i: int)
    requires s.released <= i < |s.arrivals|
  {
    var t := s.arrivals[i];
    t in s.pc &&
    if i < |s.entries| then s.pc[t] == Held || s.pc[t] == Unlocking(s.released % W)
    else s.pc[t] == Spin(i % W)
  }

  ghost predicate Inv(threads: set<Tid>, s: State) {
    && s.pc.Keys == threads
    && s.released <= |s.entries| <= s.released + 1 && |s.entries| <= |s.arrivals|
    && s.entries == s.arrivals[..|s.entries|]
    && s.u == Pack(|s.arrivals| % W, s.released % W)
    && (forall i :: s.released <= i < |s.arrivals| ==> InLine(s, i))
    && (forall i, j :: s.released <= i < j < |s.arrivals| ==> s.arrivals[i] != s.arrivals[j])
    && (forall t :: Pending(s, t) ==> t in s.arrivals[s.released..])
  }

  ghost function PendingSet(s: State): set<Tid> { set t | t in s.pc && Pending(s, t) }

  /** At most 2^32 threads hold the lock or wait for it. */
  ghost predicate Few(s: State) { |PendingSet(s)| <= W }

  lemma LineFits(threads: set<Tid>, s: State, extra: set<Tid>)
    requires Inv(threads, s) && extra !! PendingSet(s)
    ensures |s.arrivals| - s.released + |extra| <= |PendingSet(s) + extra|
  {
    var line := s.arrivals[s.released..];
    forall i | 0 <= i < |line| ensures line[i] in PendingSet(s) { assert InLine(s, s.released + i); }
    FitsIn(line, PendingSet(s));
  }

  // A thread that takes a ticket and leaves few pending finds room for it.
  lemma RoomForOne(threads: set<Tid>, s: State, step: Step)
    requires Inv(threads, s) && Enabled(s, step) && Few(Apply(s, step))
    requires step.FetchAdd? || (step.TryCas? && s.u == Pack(s.pc[step.t].me, s.pc[step.t].me))
    ensures |s.arrivals| - s.released < W
  {
    LineFits(threads, s, {step.t});
    assert PendingSet(Apply(s, step)) == PendingSet(s) + {step.t};
  }

  lemma Unpack(a: int, b: int)
    requires 0 <= a < W && 0 <= b < W
    ensures Users(Pack(a, b)) == a && Ticket(Pack(a, b)) == b
  {}

  // Ticket numbers less than 2^32 apart are told apart modulo 2^32.
  lemma SameResidue(i: int, j: int)
    requires 0 <= i <= j < i + W && i % W == j % W
    ensures i == j
  {}

  lemma NextResidue(n: int)
    ensures (n % W + 1) % W == (n + 1) % W
  {}

  lemma PlaceOf(threads: set<Tid>, s: State, t: Tid) returns (i: nat)
    requires Inv(threads, s) && Pending(s, t)
    ensures s.released <= i < |s.arrivals| && s.arrivals[i] == t && InLine(s, i)
  {
    var k :| 0 <= k < |s.arrivals[s.released..]| && s.arrivals[s.released..][k] == t;
    i := s.released + k;
  }

  lemma InitInv(threads: set<Tid>)
    ensures Inv(threads, Init(threads))
  {}

  lemma FetchAddInv(threads: set<Tid>, s: State, t: Tid)
    requires Inv(threads, s) && Enabled(s, FetchAdd(t)) && |s.arrivals| - s.released < W
    ensures Inv(threads, Apply(s, FetchAdd(t)))
  {
    var s', n := Apply(s, FetchAdd(t)), |s.arrivals|;
    Unpack(n % W, s.released % W);
    NextResidue(n);
    forall i | s.released <= i < n ensures InLine(s', i) && s.arrivals[i] != t { assert InLine(s, i); }
    assert InLine(s', n);
    forall t' | Pending(s', t') ensures t' in s'.arrivals[s.released..] {
      if t' != t {
        var i := PlaceOf(threads, s, t');
        assert s'.arrivals[s.released..][i - s.released] == t';
      } else {
        assert s'.arrivals[s.released..][n - s.released] == t;
      }
    }
  }

  lemma EnterInv(threads: set<Tid>, s: State, t: Tid)
    requires Inv(threads, s) && Enabled(s, Enter(t)) && Few(s)
    ensures Inv(threads, Apply(s, Enter(t))) && s.arrivals[s.released] == t && |s.entries| == s.released
  {
    var s' := Apply(s, Enter(t));
    LineFits(threads, s, {});
    assert PendingSet(s) + {} == PendingSet(s);
    Unpack(|s.arrivals| % W, s.released % W);
    var i := PlaceOf(threads, s, t);
    SameResidue(s.released, i);
    forall j | s.released <= j < |s.arrivals| ensures InLine(s', j) { assert InLine(s, j); }
    forall t' | Pending(s', t') ensures t' in s'.arrivals[s.released..] { assert Pending(s, t'); }
  }

  lemma UnlockLoadInv(threads: set<Tid>, s: State, t: Tid)
    requires Inv(threads, s) && Enabled(s, UnlockLoad(t))
    ensures Inv(threads, Apply(s, UnlockLoad(t)))
  {
    var s' := Apply(s, UnlockLoad(t));
    Unpack(|s.arrivals| % W, s.released % W);
    var i := PlaceOf(threads, s, t);
    forall j | s.released <= j < |s.arrivals| ensures InLine(s', j) { assert InLine(s, j); }
    forall t' | Pending(s', t') ensures t' in s'.arrivals[s.released..] { assert Pending(s, t'); }
  }

  lemma UnlockStoreInv(threads: set<Tid>, s: State, t: Tid)
    requires Inv(threads, s) && Enabled(s, UnlockStore(t))
    ensures Inv(threads, Apply(s, UnlockStore(t))) && s.arrivals[s.released] == t
  {
    var s' := Apply(s, UnlockStore(t));
    Unpack(|s.arrivals| % W, s.released % W);
    NextResidue(s.released);
    var i := PlaceOf(threads, s, t);
    assert i == s.released;
    forall j | s'.released <= j < |s.arrivals| ensures InLine(s', j) { assert InLine(s, j); }
    forall t' | Pending(s', t') ensures t' in s'.arrivals[s'.released..] {
      var j := PlaceOf(threads, s, t');
      assert s'.arrivals[s'.released..][j - s'.released] == t';
    }
  }

  lemma TryReadInv(threads: set<Tid>, s: State, t: Tid)
    requires Inv(threads, s) && Enabled(s, TryRead(t))
    ensures Inv(threads, Apply(s, TryRead(t)))
  {
    var s' := Apply(s, TryRead(t));
    forall j | s.released <= j < |s.arrivals| ensures InLine(s', j) { assert InLine(s, j); }
    forall t' | Pending(s', t') ensures t' in s'.arrivals[s.released..] { assert Pending(s, t'); }
  }

  lemma TryFinds(threads: set<Tid>, s: State, t: Tid)
    requires Inv(threads, s) && Enabled(s, TryCas(t)) && Few(Apply(s, TryCas(t)))
    requires s.u == Pack(s.pc[t].me, s.pc[t].me)
    ensures |s.arrivals| == s.released && s.pc[t].me == s.released % W && forall t' :: !Pending(s, t')
  {
    RoomForOne(threads, s, TryCas(t));
    PackInjective(s.pc[t].me, |s.arrivals| % W, s.released % W);
    SameResidue(s.released, |s.arrivals|);
    forall t' ensures !Pending(s, t') {
      if Pending(s, t') { var i := PlaceOf(threads, s, t'); }
    }
  }

  /** The trylock succeeds only on a lock that nobody holds or waits for. */
  lemma TryCasInv(threads: set<Tid>, s: State, t: Tid)
    requires Inv(threads, s) && Enabled(s, TryCas(t)) && Few(Apply(s, TryCas(t)))
    ensures Inv(threads, Apply(s, TryCas(t)))
    ensures HasLock(Apply(s, TryCas(t)), t) ==> forall t' :: !Pending(s, t')
  {
    var s', n := Apply(s, TryCas(t)), |s.arrivals|;
    if s.u == Pack(s.pc[t].me, s.pc[t].me) {
      TryFinds(threads, s, t);
      NextResidue(n);
      assert s'.arrivals[s.released..] == [t];
      forall t' | Pending(s', t') ensures t' in s'.arrivals[s.released..] { assert t' != t ==> Pending(s, t'); }
    } else {
      forall j | s.released <= j < n ensures InLine(s', j) { assert InLine(s, j); }
      forall t' | Pending(s', t') ensures t' in s'.arrivals[s.released..] { assert Pending(s, t'); }
    }
  }

  lemma PackInjective(me: int, a: int, b: int)
    requires 0 <= a < W && 0 <= b < W && Pack(me, me) == Pack(a, b)
    ensures me == a == b
  {
    assert me * (W + 1) == a * W + b;
  }

  lemma StepInv(threads: set<Tid>, s: State, step: Step)
    requires Inv(threads, s) && Enabled(s, step) && Few(s) && Few(Apply(s, step))
    ensures Inv(threads, Apply(s, step))
  {
    match step
    case FetchAdd(t) => RoomForOne(threads, s, step); FetchAddInv(threads, s, t);
    case Enter(t) => EnterInv(threads, s, t);
    case UnlockLoad(t) => UnlockLoadInv(threads, s, t);
    case UnlockStore(t) => UnlockStoreInv(threads, s, t);
    case TryRead(t) => TryReadInv(threads, s, t);
    case TryCas(t) => TryCasInv(threads, s, t);
  }

  ghost predicate AllFew(run: seq<State>) { forall i :: 0 <= i < |run| ==> Few(run[i]) }

  lemma {:induction false} RunInv(threads: set<Tid>, run: seq<State>, k: nat)
    requires IsRun(threads, run) && AllFew(run) && k < |run|
    ensures Inv(threads, run[k])
  {
    if k == 0 {
      InitInv(threads);
    } else {
      RunInv(threads, run, k - 1);
      assert Follows(run[k - 1], run[k - 1 + 1]);
      var step :| Enabled(run[k - 1], step) && run[k] == Apply(run[k - 1], step);
      StepInv(threads, run[k - 1], step);
    }
  }

  // ---- results ----------------------------------------------------------------------------------

  lemma InvExclusive(threads: set<Tid>, s: State)
    requires Inv(threads, s)
    ensures Exclusive(s)
  {
    forall t, t' | HasLock(s, t) && HasLock(s, t') ensures t == t' {
      var i := PlaceOf(threads, s, t);
      var j := PlaceOf(threads, s, t');
    }
  }

  /** As long as at most 2^32 threads are pending, whatever their number in all, at most one of them holds the
      lock. */
  lemma Exclusion(threads: set<Tid>, run: seq<State>, k: nat)
    requires IsRun(threads, run) && AllFew(run) && k < |run|
    ensures Exclusive(run[k])
  {
    RunInv(threads, run, k);
    InvExclusive(threads, run[k]);
  }

  /** The lock is then entered in the order of the tickets, and whoever is first in line holds it or finds its
      ticket up. */
  lemma FirstComeFirstServed(threads: set<Tid>, run: seq<State>, k: nat)
    requires IsRun(threads, run) && AllFew(run) && k < |run|
    ensures run[k].entries <= run[k].arrivals
    ensures (exists t :: Pending(run[k], t)) ==>
              && run[k].released < |run[k].arrivals|
              && var first := run[k].arrivals[run[k].released];
                 HasLock(run[k], first) || Enabled(run[k], Enter(first))
  {
    var s := run[k];
    RunInv(threads, run, k);
    if t :| Pending(s, t) {
      var i := PlaceOf(threads, s, t);
      assert InLine(s, s.released);
      Unpack(|s.arrivals| % W, s.released % W);
    }
  }

  // ---- the trylock ------------------------------------------------------------------------------

  lemma {:induction false} StillTrying(run: seq<State>, i: nat, k: nat, t: Tid)
    requires i <= k < |run| && forall j :: 0 <= j < |run| - 1 ==> Follows(run[j], run[j + 1])
    requires forall j :: i <= j <= k ==> t in run[j].pc && run[j].pc[t].Trying?
    ensures run[k].pc[t] == run[i].pc[t]
    decreases k
  {
    if i < k {
      StillTrying(run, i, k - 1, t);
      assert Follows(run[k - 1], run[k - 1 + 1]);
    }
  }

  lemma NobodyPending(threads: set<Tid>, s: State)
    requires Inv(threads, s)
    ensures (forall t :: !Pending(s, t)) <==> |s.arrivals| == s.released
  {
    if s.released < |s.arrivals| { assert InLine(s, s.released) && Pending(s, s.arrivals[s.released]); }
  }

  lemma PackSame(me: int, a: int, b: int)
    requires 0 <= me < W && 0 <= a < W && 0 <= b < W
    ensures Pack(a, b) == Pack(me, me) <==> a == me && b == me
  {
    Unpack(a, b);
    Unpack(me, me);
  }

  /** A trylock succeeds if and only if, at its compare-and-swap, nobody holds the lock or waits for it, and the
      number of tickets drawn is, modulo 2^32, the one at its read. */
  lemma TrySucceeds(threads: set<Tid>, run: seq<State>, i: nat, k: nat, t: Tid)
    requires IsRun(threads, run) && AllFew(run) && i < k < |run| - 1
    requires Enabled(run[i], TryRead(t)) && run[i + 1] == Apply(run[i], TryRead(t))
    requires forall j :: i < j <= k ==> t in run[j].pc && run[j].pc[t].Trying?
    requires Enabled(run[k], TryCas(t)) && run[k + 1] == Apply(run[k], TryCas(t))
    ensures HasLock(run[k + 1], t) <==>
            (forall t' :: !Pending(run[k], t')) && |run[k].arrivals| % W == |run[i].arrivals| % W
  {
    RunInv(threads, run, i);
    RunInv(threads, run, k);
    StillTrying(run, i + 1, k, t);
    var s, me := run[k], |run[i].arrivals| % W;
    Unpack(me, run[i].released % W);
    PackSame(me, |s.arrivals| % W, s.released % W);
    NobodyPending(threads, s);
    if s.u == Pack(me, me) {
      RoomForOne(threads, s, TryCas(t));
      SameResidue(s.released, |s.arrivals|);
    }
  }

  /** So a trylock that is not interrupted succeeds if and only if the lock is free and nobody waits for it. */
  lemma TryAtOnce(threads: set<Tid>, run: seq<State>, i: nat, t: Tid)
    requires IsRun(threads, run) && AllFew(run) && i + 2 < |run|
    requires Enabled(run[i], TryRead(t)) && run[i + 1] == Apply(run[i], TryRead(t))
    requires Enabled(run[i + 1], TryCas(t)) && run[i + 2] == Apply(run[i + 1], TryCas(t))
    ensures HasLock(run[i + 2], t) <==> forall t' :: !Pending(run[i], t')
  {
    TrySucceeds(threads, run, i, i + 1, t);
    RunInv(threads, run, i);
    RunInv(threads, run, i + 1);
    NobodyPending(threads, run[i]);
    NobodyPending(threads, run[i + 1]);
  }

  // ---- the bound on the number of threads is exact -------------------------------------------------

  ghost predicate AllSpin(threads: set<Tid>, s: State, n: nat) {
    && s.pc.Keys == threads && |s.arrivals| == n && s.u == Pack(n % W, 0)
    && (forall i :: 0 <= i < n ==> s.arrivals[i] in threads && s.pc[s.arrivals[i]] == Spin(i % W))
    && (forall i, j :: 0 <= i < j < n ==> s.arrivals[i] != s.arrivals[j])
    && (forall t :: t in threads && t !in s.arrivals ==> s.pc[t].Idle?)
  }

  lemma AnotherThread(threads: set<Tid>, s: seq<Tid>) returns (t: Tid)
    requires |s| < |threads|
    ensures t in threads && t !in s
  {
    var taken := Elems(s);
    SetOfSeq(s);
    if threads - taken == {} {
      forall x | x in threads ensures x in taken { assert x !in threads - taken; }
      SubsetSize(threads, taken);
    }
    t :| t in threads - taken;
  }

  ghost function Elems(s: seq<Tid>): set<Tid> { set x | x in s }

  lemma {:induction false} SetOfSeq(s: seq<Tid>)
    ensures |Elems(s)| <= |s|
  {
    if s == [] {
      assert Elems(s) == {};
    } else {
      var k := |s| - 1;
      SetOfSeq(s[..k]);
      assert Elems(s) == Elems(s[..k]) + {s[k]};
    }
  }

  lemma {:induction false} SubsetSize(a: set<Tid>, b: set<Tid>)
    requires a <= b
    ensures |a| <= |b|
  {
    if a != {} {
      var x :| x in a;
      SubsetSize(a - {x}, b - {x});
    }
  }

  // n threads take tickets, one after the other.
  lemma {:induction false} CrowdIn(threads: set<Tid>, n: nat) returns (run: seq<State>)
    requires n <= |threads|
    ensures IsRun(threads, run) && AllSpin(threads, run[|run| - 1], n)
  {
    if n == 0 {
      run := [Init(threads)];
    } else {
      var before := CrowdIn(threads, n - 1);
      var s := before[|before| - 1];
      var t := AnotherThread(threads, s.arrivals);
      var step := FetchAdd(t);
      Unpack((n - 1) % W, 0);
      NextResidue(n - 1);
      run := Extend(threads, before, step);
    }
  }

  lemma Extend(threads: set<Tid>, run: seq<State>, step: Step) returns (run': seq<State>)
    requires IsRun(threads, run) && Enabled(run[|run| - 1], step)
    ensures IsRun(threads, run') && run' == run + [Apply(run[|run| - 1], step)]
  {
    run' := run + [Apply(run[|run| - 1], step)];
    forall i | 0 <= i < |run'| - 1 ensures Follows(run'[i], run'[i + 1]) {
      if i < |run| - 1 { assert Follows(run[i], run[i + 1]); }
    }
  }

  // With more than 2^32 threads two of them can draw the same ticket number and both enter.
  lemma TooManyThreads(threads: set<Tid>) returns (run: seq<State>)
    requires |threads| > W
    ensures IsRun(threads, run) && !Exclusive(run[|run| - 1])
  {
    run := CrowdIn(threads, W + 1);
    var s := run[|run| - 1];
    var a, b := s.arrivals[0], s.arrivals[W];
    Unpack((W + 1) % W, 0);
    run := Extend(threads, run, Enter(a));
    run := Extend(threads, run, Enter(b));
    var s2 := run[|run| - 1];
    assert HasLock(s2, a) && HasLock(s2, b) && a != b;
  }

  lemma {:induction false} SameThreads(threads: set<Tid>, run: seq<State>, k: nat)
    requires IsRun(threads, run) && k < |run|
    ensures run[k].pc.Keys == threads && |PendingSet(run[k])| <= |threads|
  {
    if k > 0 {
      SameThreads(threads, run, k - 1);
      assert Follows(run[k - 1], run[k - 1 + 1]);
    }
    SubsetSize(PendingSet(run[k]), threads);
  }

  /** Mutual exclusion holds in every state of every run exactly when there are at most 2^32 threads. */
  lemma MutualExclusion(threads: set<Tid>)
    ensures |threads| <= W <==> forall run, k :: IsRun(threads, run) && 0 <= k < |run| ==> Exclusive(run[k])
  {
    if |threads| <= W {
      forall run, k | IsRun(threads, run) && 0 <= k < |run| ensures Exclusive(run[k]) {
        forall i | 0 <= i < |run| ensures Few(run[i]) { SameThreads(threads, run, i); }
        Exclusion(threads, run, k);
      }
    } else {
      var run := TooManyThreads(threads);
      assert IsRun(threads, run) && 0 <= |run| - 1 < |run| && !Exclusive(run[|run| - 1]);
    }
  }
}
