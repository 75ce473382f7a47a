/** The debug mutex tracker of port/ic_port.c as a concurrent protocol. Before
    a thread blocks on a mutex it enters a key for (mutex, thread) in a shared
    table, and it aborts the program if the key is there already; it takes the
    key out again after unlocking, and aborts if it is missing. Threads take
    their steps in any order. */
module MutexTracker {
  import opened Basics

  type Mutex = nat
  type Thread = nat
  type Key = nat

  /** Where a thread stands between two steps. */
  datatype Pc =
    | Idle                       // between calls
    | Locking(m: Mutex)          // ic_mutex_lock: tracked, about to block on m
    | Unlocked(m: Mutex)         // ic_mutex_unlock: m released, key still in the table
    | WaitUntracked(m: Mutex)    // ic_cond_wait: key taken out, about to be put back
    | WaitTracked(m: Mutex)      // ic_cond_wait: key back, about to wait
    | Waiting(m: Mutex)          // inside the wait: m given up until woken
    | Aborted

  /** `owner` is who holds each mutex, `keys` the shared table. */
  datatype State = State(owner: map<Mutex, Thread>, keys: set<Key>, pc: map<Thread, Pc>)

  /** How keys are made of a mutex address and a thread id. */
  type KeyOf = (Mutex, Thread) -> Key

  /** The mutexes and threads of a program. */
  datatype Program = Program(mutexes: iset<Mutex>, threads: iset<Thread>) {
    ghost predicate Has(m: Mutex, t: Thread) {
      m in mutexes && t in threads
    }
  }

  /** No two (mutex, thread) pairs of the program share a key. */
  ghost predicate Injective(key: KeyOf, p: Program) {
    forall m, t, m', t' :: p.Has(m, t) && p.Has(m', t') && key(m, t) == key(m', t') ==> m == m' && t == t'
  }

  function At(s: State, t: Thread): Pc {
    if t in s.pc then s.pc[t] else Idle
  }

  function Goto(s: State, t: Thread, pc: Pc): State {
    s.(pc := s.pc[t := pc])
  }

  predicate Owns(s: State, t: Thread, m: Mutex) {
    m in s.owner && s.owner[m] == t
  }

  datatype Step =
    | CallLock(m: Mutex)      // debug_lock_mutex
    | Acquire                 // g_mutex_lock returns
    | CallUnlock(m: Mutex)    // g_mutex_unlock
    | Release                 // debug_release_mutex
    | CallWait(m: Mutex)      // ic_cond_wait: debug_release_mutex
    | Retrack                 // ic_cond_wait: debug_lock_mutex
    | BeginWait               // g_cond_wait gives the mutex up
    | EndWait                 // g_cond_wait has it back

  /** debug_lock_mutex: the key is entered in any case, and found before means abort. */
  function Track(s: State, key: KeyOf, t: Thread, m: Mutex, next: Pc): State {
    var k := key(m, t);
    Goto(s.(keys := s.keys + {k}), t, if k in s.keys then Aborted else next)
  }

  /** debug_release_mutex. */
  function Untrack(s: State, key: KeyOf, t: Thread, m: Mutex, next: Pc): State {
    var k := key(m, t);
    Goto(s.(keys := s.keys - {k}), t, if k in s.keys then next else Aborted)
  }

  /** Whether thread `t` can take `step`. A blocked acquire is not possible
      until the mutex is free; calls are possible whatever the thread holds. */
  predicate Enabled(s: State, t: Thread, step: Step) {
    match step
    case CallLock(_) => At(s, t).Idle?
    case Acquire => At(s, t).Locking? && At(s, t).m !in s.owner
    case CallUnlock(_) => At(s, t).Idle?
    case Release => At(s, t).Unlocked?
    case CallWait(_) => At(s, t).Idle?
    case Retrack => At(s, t).WaitUntracked?
    case BeginWait => At(s, t).WaitTracked?
    case EndWait => At(s, t).Waiting? && At(s, t).m !in s.owner
  }

  function Take(s: State, key: KeyOf, t: Thread, step: Step): State
    requires Enabled(s, t, step)
  {
    var pc := At(s, t);
    match step
    case CallLock(m) => Track(s, key, t, m, Locking(m))
    case Acquire => Goto(s.(owner := s.owner[pc.m := t]), t, Idle)
    case CallUnlock(m) => Goto(s.(owner := s.owner - {m}), t, Unlocked(m))
    case Release => Untrack(s, key, t, pc.m, Idle)
    case CallWait(m) => Untrack(s, key, t, m, WaitUntracked(m))
    case Retrack => Track(s, key, t, pc.m, WaitTracked(pc.m))
    case BeginWait => Goto(s.(owner := s.owner - {pc.m}), t, Waiting(pc.m))
    case EndWait => Goto(s.(owner := s.owner[pc.m := t]), t, Idle)
  }

  /** A step of the program: its threads call with its mutexes. */
  ghost predicate Within(p: Program, t: Thread, step: Step) {
    t in p.threads && (step.CallLock? || step.CallUnlock? || step.CallWait? ==> step.m in p.mutexes)
  }

  /** One thread aborting ends the program. */
  predicate Running(s: State) {
    forall t :: t in s.pc ==> !s.pc[t].Aborted?
  }

  const START := State(map[], {}, map[])

  /** A schedule: which thread takes which step, in order. */
  type Schedule = seq<(Thread, Step)>

  /** The state after a schedule, or None once it is not possible. */
  datatype Outcome = Impossible | Reached(s: State)

  function After(key: KeyOf, schedule: Schedule): Outcome {
    if schedule == [] then Reached(START)
    else
      var (t, step) := schedule[|schedule| - 1];
      match After(key, schedule[..|schedule| - 1])
      case Impossible => Impossible
      case Reached(s) =>
        if Running(s) && Enabled(s, t, step) then Reached(Take(s, key, t, step)) else Impossible
  }

  ghost predicate Runs(p: Program, schedule: Schedule) {
    forall i :: 0 <= i < |schedule| ==> Within(p, schedule[i].0, schedule[i].1)
  }

  // ----- safety: no thread blocks on a mutex it owns -----

  /** About to block in g_mutex_lock on a mutex it already owns. */
  predicate SelfDeadlock(s: State, t: Thread) {
    At(s, t).Locking? && Owns(s, t, At(s, t).m)
  }

  /** The mutex a thread has entered a key for without owning it now, or
      while it owns it inside ic_cond_wait. */
  predicate HoldsKeyFor(pc: Pc, m: Mutex) {
    pc == Locking(m) || pc == WaitTracked(m) || pc == Waiting(m)
  }

  /** What every step keeps. The key of an owned mutex is in the table, except
      while its owner is between the two table operations of ic_cond_wait; a
      thread about to block, or waiting, has its key in the table; and a thread
      does not own what it is about to get or has just given up. */
  ghost predicate Tracked(s: State, key: KeyOf, p: Program) {
    && (forall m, t :: Owns(s, t, m) ==> p.Has(m, t) && (key(m, t) in s.keys || At(s, t) == WaitUntracked(m)))
    && (forall m, t :: HoldsKeyFor(At(s, t), m) ==> p.Has(m, t) && key(m, t) in s.keys)
    && (forall m, t :: At(s, t) == Unlocked(m) || At(s, t) == WaitUntracked(m) ==> p.Has(m, t))
    && (forall m, t :: At(s, t) == Locking(m) || At(s, t) == Unlocked(m) || At(s, t) == Waiting(m) ==> !Owns(s, t, m))
  }

  lemma OwnershipStepKeepsTracked(s: State, key: KeyOf, p: Program, t: Thread, step: Step)
    requires Tracked(s, key, p) && Enabled(s, t, step) && Within(p, t, step)
    requires step.Acquire? || step.EndWait? || step.CallUnlock? || step.BeginWait?
    ensures Tracked(Take(s, key, t, step), key, p)
  {
  }

  lemma TrackKeepsTracked(s: State, key: KeyOf, p: Program, t: Thread, step: Step)
    requires Tracked(s, key, p) && Enabled(s, t, step) && Within(p, t, step)
    requires step.CallLock? || step.Retrack?
    ensures Tracked(Take(s, key, t, step), key, p)
  {
  }

  lemma UntrackKeepsTracked(s: State, key: KeyOf, p: Program, t: Thread, step: Step)
    requires Injective(key, p) && Tracked(s, key, p) && Enabled(s, t, step) && Within(p, t, step)
    requires step.Release? || step.CallWait?
    ensures Tracked(Take(s, key, t, step), key, p)
  {
  }

  lemma StepKeepsTracked(s: State, key: KeyOf, p: Program, t: Thread, step: Step)
    requires Injective(key, p) && Tracked(s, key, p) && Enabled(s, t, step) && Within(p, t, step)
    ensures Tracked(Take(s, key, t, step), key, p)
  {
    hide Tracked, Injective;
    if step.CallLock? || step.Retrack? {
      TrackKeepsTracked(s, key, p, t, step);
    } else if step.Release? || step.CallWait? {
      UntrackKeepsTracked(s, key, p, t, step);
    } else {
      OwnershipStepKeepsTracked(s, key, p, t, step);
    }
  }

  lemma {:induction false} ReachedIsTracked(key: KeyOf, p: Program, schedule: Schedule)
    requires Injective(key, p) && Runs(p, schedule) && After(key, schedule).Reached?
    ensures Tracked(After(key, schedule).s, key, p)
  {
    if schedule != [] {
      var before := schedule[..|schedule| - 1];
      var (t, step) := schedule[|schedule| - 1];
      ReachedIsTracked(key, p, before);
      StepKeepsTracked(After(key, before).s, key, p, t, step);
    }
  }

  /** No schedule of the program brings a thread to block on a mutex it owns. */
  ghost predicate NeverSelfDeadlocks(key: KeyOf, p: Program) {
    forall schedule, t :: Runs(p, schedule) && After(key, schedule).Reached? ==>
        !SelfDeadlock(After(key, schedule).s, t)
  }

  /** Stepping through a schedule. */
  lemma AfterStep(key: KeyOf, schedule: Schedule, t: Thread, step: Step)
    ensures After(key, schedule + [(t, step)])
         == match After(key, schedule)
            case Impossible => Impossible
            case Reached(s) => if Running(s) && Enabled(s, t, step) then Reached(Take(s, key, t, step)) else Impossible
  {
    var longer := schedule + [(t, step)];
    assert longer[..|longer| - 1] == schedule;
  }

  /** Keys that coincide let the key of a held mutex be taken out: by a wait of
      another thread, or by an unlock of another mutex. */
  lemma CollisionDeadlocks(key: KeyOf, p: Program, m: Mutex, t: Thread, m': Mutex, t': Thread)
      returns (schedule: Schedule)
    requires p.Has(m, t) && p.Has(m', t') && key(m, t) == key(m', t') && (m != m' || t != t')
    ensures Runs(p, schedule)
    ensures After(key, schedule).Reached? && SelfDeadlock(After(key, schedule).s, t)
  {
    AfterStep(key, [], t, CallLock(m));
    schedule := [] + [(t, CallLock(m))];
    AfterStep(key, schedule, t, Acquire);
    schedule := schedule + [(t, Acquire)];
    if t != t' {
      AfterStep(key, schedule, t', CallWait(m'));
      schedule := schedule + [(t', CallWait(m'))];
    } else {
      AfterStep(key, schedule, t, CallUnlock(m'));
      schedule := schedule + [(t, CallUnlock(m'))];
      AfterStep(key, schedule, t, Release);
      schedule := schedule + [(t, Release)];
    }
    AfterStep(key, schedule, t, CallLock(m));
    schedule := schedule + [(t, CallLock(m))];
  }

  /** The tracker does its job under every interleaving, whatever calls the
      threads make, exactly when no two (mutex, thread) pairs share a key. */
  lemma SafeIffInjective(key: KeyOf, p: Program)
    ensures NeverSelfDeadlocks(key, p) <==> Injective(key, p)
  {
    if Injective(key, p) {
      forall schedule, t | Runs(p, schedule) && After(key, schedule).Reached?
        ensures !SelfDeadlock(After(key, schedule).s, t)
      {
        ReachedIsTracked(key, p, schedule);
      }
    } else {
      var m, t, m', t' :| p.Has(m, t) && p.Has(m', t') && key(m, t) == key(m', t') && (m != m' || t != t');
      var schedule := CollisionDeadlocks(key, p, m, t, m', t');
    }
  }

  // ----- no false alarms -----

  /** A thread locks only what it does not hold, and unlocks or waits on only
      what it holds. */
  predicate Proper(s: State, t: Thread, step: Step) {
    match step
    case CallLock(m) => !Owns(s, t, m)
    case CallUnlock(m) => Owns(s, t, m)
    case CallWait(m) => Owns(s, t, m)
    case _ => true
  }

  predicate Disciplined(key: KeyOf, schedule: Schedule) {
    schedule == [] ||
    var before := schedule[..|schedule| - 1];
    var (t, step) := schedule[|schedule| - 1];
    Disciplined(key, before) && (After(key, before).Reached? ==> Proper(After(key, before).s, t, step))
  }

  /** With proper calls the table is exact: a thread's key for a mutex is in it
      if and only if the thread owns it or is on its way in or out. */
  ghost predicate Exact(s: State, key: KeyOf, p: Program) {
    && (forall m, t :: Owns(s, t, m) || HoldsKeyFor(At(s, t), m) || At(s, t) == Unlocked(m) ==> p.Has(m, t))
    && (forall m, t :: p.Has(m, t) ==> (key(m, t) in s.keys <==>
          (Owns(s, t, m) && At(s, t) != WaitUntracked(m)) || HoldsKeyFor(At(s, t), m) || At(s, t) == Unlocked(m)))
    && (forall m, t :: At(s, t) == WaitUntracked(m) || At(s, t) == WaitTracked(m) ==> Owns(s, t, m))
    && (forall m, t :: At(s, t) == Locking(m) || At(s, t) == Unlocked(m) || At(s, t) == Waiting(m) ==> !Owns(s, t, m))
  }

  lemma ProperLockKeepsExact(s: State, key: KeyOf, p: Program, t: Thread, m: Mutex)
    requires Injective(key, p) && Exact(s, key, p) && Running(s) && At(s, t).Idle? && !Owns(s, t, m) && p.Has(m, t)
    ensures var s' := Take(s, key, t, CallLock(m)); Exact(s', key, p) && Running(s')
  {
  }

  lemma RetrackKeepsExact(s: State, key: KeyOf, p: Program, t: Thread)
    requires Injective(key, p) && Exact(s, key, p) && Running(s) && At(s, t).WaitUntracked?
    ensures var s' := Take(s, key, t, Retrack); Exact(s', key, p) && Running(s')
  {
  }

  lemma UntrackKeepsExact(s: State, key: KeyOf, p: Program, t: Thread, step: Step)
    requires Injective(key, p) && Exact(s, key, p) && Running(s) && Enabled(s, t, step) && Proper(s, t, step)
    requires step.Release? || step.CallWait?
    ensures var s' := Take(s, key, t, step); Exact(s', key, p) && Running(s')
  {
  }

  lemma GainKeepsExact(s: State, key: KeyOf, p: Program, t: Thread, step: Step)
    requires Exact(s, key, p) && Running(s) && Enabled(s, t, step)
    requires step.Acquire? || step.EndWait?
    ensures var s' := Take(s, key, t, step); Exact(s', key, p) && Running(s')
  {
  }

  lemma LossKeepsExact(s: State, key: KeyOf, p: Program, t: Thread, step: Step)
    requires Exact(s, key, p) && Running(s) && Enabled(s, t, step) && Proper(s, t, step)
    requires step.CallUnlock? || step.BeginWait?
    ensures var s' := Take(s, key, t, step); Exact(s', key, p) && Running(s')
  {
  }

  lemma ProperStepKeepsExact(s: State, key: KeyOf, p: Program, t: Thread, step: Step)
    requires Injective(key, p) && Exact(s, key, p) && Running(s)
    requires Enabled(s, t, step) && Proper(s, t, step) && Within(p, t, step)
    ensures Exact(Take(s, key, t, step), key, p) && Running(Take(s, key, t, step))
  {
    hide Exact, Injective;
    match step {
      case CallLock(m) => ProperLockKeepsExact(s, key, p, t, m);
      case Retrack => RetrackKeepsExact(s, key, p, t);
      case Release => UntrackKeepsExact(s, key, p, t, step);
      case CallWait(_) => UntrackKeepsExact(s, key, p, t, step);
      case Acquire => GainKeepsExact(s, key, p, t, step);
      case EndWait => GainKeepsExact(s, key, p, t, step);
      case CallUnlock(_) => LossKeepsExact(s, key, p, t, step);
      case BeginWait => LossKeepsExact(s, key, p, t, step);
    }
  }

  lemma {:induction false} DisciplinedRunsGoOn(key: KeyOf, p: Program, schedule: Schedule)
    requires Injective(key, p) && Runs(p, schedule) && Disciplined(key, schedule) && After(key, schedule).Reached?
    ensures Exact(After(key, schedule).s, key, p) && Running(After(key, schedule).s)
  {
    if schedule != [] {
      var before := schedule[..|schedule| - 1];
      var (t, step) := schedule[|schedule| - 1];
      DisciplinedRunsGoOn(key, p, before);
      ProperStepKeepsExact(After(key, before).s, key, p, t, step);
    }
  }

  ghost predicate NoFalseAlarm(key: KeyOf, p: Program) {
    forall schedule :: Runs(p, schedule) && Disciplined(key, schedule) && After(key, schedule).Reached?
      ==> Running(After(key, schedule).s)
  }

  lemma CollisionAlarms(key: KeyOf, p: Program, m: Mutex, t: Thread, m': Mutex, t': Thread) returns (schedule: Schedule)
    requires p.Has(m, t) && p.Has(m', t') && key(m, t) == key(m', t') && (m != m' || t != t')
    ensures Runs(p, schedule) && Disciplined(key, schedule)
    ensures After(key, schedule).Reached? && !Running(After(key, schedule).s)
  {
    AfterStep(key, [], t, CallLock(m));
    var one: Schedule := [(t, CallLock(m))];
    assert [] + one == one && one[..0] == [] && Disciplined(key, one[..0]);
    assert Disciplined(key, one);
    AfterStep(key, one, t, Acquire);
    var two := one + [(t, Acquire)];
    assert two[..1] == one && Disciplined(key, two);
    AfterStep(key, two, t', CallLock(m'));
    schedule := two + [(t', CallLock(m'))];
    assert schedule[..2] == two;
    assert After(key, schedule).s.pc[t'] == Aborted;
  }

  /** A program that uses its mutexes properly is never aborted, under every
      interleaving, exactly when no two of its pairs share a key. */
  lemma NoFalseAlarmIffInjective(key: KeyOf, p: Program)
    ensures NoFalseAlarm(key, p) <==> Injective(key, p)
  {
    if Injective(key, p) {
      forall schedule | Runs(p, schedule) && Disciplined(key, schedule) && After(key, schedule).Reached?
        ensures Running(After(key, schedule).s)
      {
        DisciplinedRunsGoOn(key, p, schedule);
      }
    } else {
      var m, t, m', t' :| p.Has(m, t) && p.Has(m', t') && key(m, t) == key(m', t') && (m != m' || t != t');
      var schedule := CollisionAlarms(key, p, m, t, m', t');
    }
  }

  // ----- the keys of the source -----

  /** `mutex | (self << 32)` in 64 bits: the low half is that of the address,
      the high half the bitwise or of the address's high half and the low half
      of the thread id. */
  function SourceKey(m: Mutex, t: Thread): Key {
    m % TWO_TO_32 + TWO_TO_32 * Or(m / TWO_TO_32, t, 32)
  }

  /** Bitwise or of the low `bits` bits. */
  function Or(a: nat, b: nat, bits: nat): nat {
    if bits == 0 then 0
    else 2 * Or(a / 2, b / 2, bits - 1) + (if a % 2 == 1 || b % 2 == 1 then 1 else 0)
  }

  function Power2(k: nat): nat {
    if k == 0 then 1 else 2 * Power2(k - 1)
  }

  lemma {:induction false} OrIgnoresHighBits(a: nat, b: nat, bits: nat)
    ensures Or(a, b + Power2(bits), bits) == Or(a, b, bits)
  {
    if bits > 0 {
      OrIgnoresHighBits(a / 2, b / 2, bits - 1);
      assert (b + Power2(bits)) / 2 == b / 2 + Power2(bits - 1);
    }
  }

  lemma {:induction false} OrZero(b: nat, bits: nat)
    requires b < Power2(bits)
    ensures Or(0, b, bits) == b
  {
    if bits > 0 {
      OrZero(b / 2, bits - 1);
    }
  }

  lemma Power2Of32()
    ensures Power2(32) == TWO_TO_32
  {
    assert Power2(8) == 256;
    assert Power2(16) == 65536;
    assert Power2(24) == 0x100_0000;
  }

  /** Thread ids that differ only above their low 32 bits share all keys: a
      program with two such threads has neither guarantee. */
  lemma SourceKeyCollides(p: Program, m: Mutex, t: Thread)
    requires p.Has(m, t) && p.Has(m, t + TWO_TO_32)
    ensures SourceKey(m, t) == SourceKey(m, t + TWO_TO_32)
    ensures !NeverSelfDeadlocks(SourceKey, p) && !NoFalseAlarm(SourceKey, p)
  {
    Power2Of32();
    OrIgnoresHighBits(m / TWO_TO_32, t, 32);
    SafeIffInjective(SourceKey, p);
    NoFalseAlarmIffInjective(SourceKey, p);
  }

  /** Two keys coincide exactly when the low halves of the addresses do, and the
      high halves do together with the thread ids. */
  lemma SourceKeysMeetIff(m: Mutex, t: Thread, m': Mutex, t': Thread)
    ensures SourceKey(m, t) == SourceKey(m', t') <==>
              m % TWO_TO_32 == m' % TWO_TO_32 && Or(m / TWO_TO_32, t, 32) == Or(m' / TWO_TO_32, t', 32)
  {
    var a, b, c, d := m % TWO_TO_32, Or(m / TWO_TO_32, t, 32), m' % TWO_TO_32, Or(m' / TWO_TO_32, t', 32);
    assert SourceKey(m, t) == a + TWO_TO_32 * b && SourceKey(m', t') == c + TWO_TO_32 * d;
    hide Or, SourceKey;
    HalvesAreUnique(a, b, c, d);
  }

  lemma HalvesAreUnique(a: nat, b: nat, c: nat, d: nat)
    requires a < TWO_TO_32 && c < TWO_TO_32
    ensures a + TWO_TO_32 * b == c + TWO_TO_32 * d <==> a == c && b == d
  {
    if b < d {
      assert TWO_TO_32 * d >= TWO_TO_32 * b + TWO_TO_32;
    } else if d < b {
      assert TWO_TO_32 * b >= TWO_TO_32 * d + TWO_TO_32;
    }
  }

  /** Mutexes of one 4 GB region, as those of most processes: the program has
      both guarantees exactly when no two of its threads agree in the bits in
      which the region's number has none. */
  lemma SourceKeySafeIff(p: Program, high: nat)
    requires (exists m :: m in p.mutexes) && forall m :: m in p.mutexes ==> m / TWO_TO_32 == high
    ensures NeverSelfDeadlocks(SourceKey, p) <==> ThreadsDiffer(p, high)
    ensures NoFalseAlarm(SourceKey, p) <==> ThreadsDiffer(p, high)
  {
    hide SourceKey, Or;
    SafeIffInjective(SourceKey, p);
    NoFalseAlarmIffInjective(SourceKey, p);
    if ThreadsDiffer(p, high) {
      forall m, t, m', t' | p.Has(m, t) && p.Has(m', t') && SourceKey(m, t) == SourceKey(m', t')
        ensures m == m' && t == t'
      {
        SourceKeysMeetIff(m, t, m', t');
        SameHalves(m, m');
      }
    } else {
      var t, t' :| t in p.threads && t' in p.threads && t != t' && Or(high, t, 32) == Or(high, t', 32);
      var m :| m in p.mutexes;
      SourceKeysMeetIff(m, t, m, t');
      assert p.Has(m, t) && p.Has(m, t');
    }
  }

  ghost predicate ThreadsDiffer(p: Program, high: nat) {
    forall t, t' :: t in p.threads && t' in p.threads && t != t' ==> Or(high, t, 32) != Or(high, t', 32)
  }

  lemma SameHalves(m: nat, m': nat)
    requires m / TWO_TO_32 == m' / TWO_TO_32 && m % TWO_TO_32 == m' % TWO_TO_32
    ensures m == m'
  {
  }

  /** A program whose mutex addresses and thread ids fit 32 bits has both. */
  lemma SourceKeySafeOnSmall(p: Program)
    requires forall m :: m in p.mutexes ==> m < TWO_TO_32
    requires forall t :: t in p.threads ==> t < TWO_TO_32
    ensures NeverSelfDeadlocks(SourceKey, p) && NoFalseAlarm(SourceKey, p)
  {
    Power2Of32();
    forall t | t in p.threads ensures Or(0, t, 32) == t {
      OrZero(t, 32);
    }
    hide SourceKey, Or, Power2;
    assert ThreadsDiffer(p, 0);
    if exists m :: m in p.mutexes {
      SourceKeySafeIff(p, 0);
    } else {
      SafeIffInjective(SourceKey, p);
      NoFalseAlarmIffInjective(SourceKey, p);
    }
  }
}
