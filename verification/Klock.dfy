/** Leveled kernel locks over ticket spinlocks, as steps of many CPUs (src/core/klock.c, src/core/spinlock.h). */
module Klocks {
  import opened Bytes

  const LEVEL_MAX := 14
  const DEPTH_MAX := 14
  const CPU_MAX := 16

  /** A ticket lock counts without wrapping here; the machine compares the counts modulo 2^32. */
  datatype Lock = Lock(level: nat, taken: nat, served: nat)

  /** One record of a CPU's stack: the level the code stores, and which acquire pushed it. */
  datatype Held = Held(level: nat, lock: nat, turn: nat)

  datatype Activity = Running | Spinning(lock: nat, turn: nat)

  datatype Cpu = Cpu(stack: seq<Held>, doing: Activity)

  datatype State = State(cpus: seq<Cpu>, locks: seq<Lock>, panicked: bool)

  datatype Action = Begin(cpu: nat, lock: nat) | Enter(cpu: nat) | Release(cpu: nat, lock: nat)

  // ---- the code -----------------------------------------------------------

  /** klock_order_ok. */
  predicate OrderOk(held: nat, wanted: nat)
  {
    wanted > held
  }

  /** klock_held_level. */
  function HeldLevel(stack: seq<Held>): nat
  {
    if stack == [] then 0 else stack[|stack| - 1].level
  }

  predicate Present(s: State, c: nat, l: nat)
  {
    c < |s.cpus| && l < |s.locks|
  }

  /** klock_acquire up to and including the ticket: out of order or too deep panics. */
  function BeginAcquire(s: State, c: nat, l: nat): State
    requires Present(s, c, l)
  {
    var cpu, lock := s.cpus[c], s.locks[l];
    if |cpu.stack| >= DEPTH_MAX || !OrderOk(HeldLevel(cpu.stack), lock.level) then s.(panicked := true)
    else s.(cpus := s.cpus[c := cpu.(doing := Spinning(l, lock.taken))],
      locks := s.locks[l := lock.(taken := lock.taken + 1)])
  }

  /** The spin of spin_lock ends when the served count, as a u32, is the CPU's ticket. */
  predicate SpinDone(lock: Lock, turn: nat)
  {
    lock.served % U32_LIMIT == turn % U32_LIMIT
  }

  predicate CanEnter(s: State, c: nat)
  {
    && c < |s.cpus| && s.cpus[c].doing.Spinning? && s.cpus[c].doing.lock < |s.locks|
    && SpinDone(s.locks[s.cpus[c].doing.lock], s.cpus[c].doing.turn)
  }

  /** The rest of klock_acquire: push the level. */
  function EnterLock(s: State, c: nat): State
    requires CanEnter(s, c)
  {
    var cpu := s.cpus[c];
    var l, t := cpu.doing.lock, cpu.doing.turn;
    s.(cpus := s.cpus[c := Cpu(cpu.stack + [Held(s.locks[l].level, l, t)], Running)])
  }

  /** klock_release: the code compares only the level of the top record. */
  function ReleaseLock(s: State, c: nat, l: nat): State
    requires Present(s, c, l)
  {
    var cpu, lock := s.cpus[c], s.locks[l];
    if cpu.stack == [] || HeldLevel(cpu.stack) != lock.level then s.(panicked := true)
    else s.(cpus := s.cpus[c := cpu.(stack := cpu.stack[..|cpu.stack| - 1])],
      locks := s.locks[l := lock.(served := lock.served + 1)])
  }

  /** An action a CPU can take: a spinning CPU does nothing else, and a panic ends the run. */
  predicate Enabled(s: State, a: Action)
  {
    && !s.panicked
    && match a
       case Begin(c, l) => Present(s, c, l) && s.cpus[c].doing.Running?
       case Enter(c) => CanEnter(s, c)
       case Release(c, l) => Present(s, c, l) && s.cpus[c].doing.Running?
  }

  function Act(s: State, a: Action): State
    requires Enabled(s, a)
  {
    match a
    case Begin(c, l) => BeginAcquire(s, c, l)
    case Enter(c) => EnterLock(s, c)
    case Release(c, l) => ReleaseLock(s, c, l)
  }

  /** The caller's part of the bargain: release the lock taken last. */
  predicate Disciplined(s: State, a: Action)
  {
    a.Release? && Present(s, a.cpu, a.lock) ==>
      var stack := s.cpus[a.cpu].stack; stack != [] && stack[|stack| - 1].lock == a.lock
  }

  // ---- the invariant ------------------------------------------------------

  ghost predicate Holds(cpu: Cpu, l: nat, t: nat)
  {
    exists i :: 0 <= i < |cpu.stack| && cpu.stack[i].lock == l && cpu.stack[i].turn == t
  }

  /** The CPU holds lock `l` or spins for it, with turn `t`. */
  ghost predicate Plays(cpu: Cpu, l: nat, t: nat)
  {
    Holds(cpu, l, t) || cpu.doing == Spinning(l, t)
  }

  /** A CPU's records name real locks, in strictly rising level, and it spins only above them. */
  ghost predicate Ordered(cpu: Cpu, locks: seq<Lock>)
  {
    && (forall i :: 0 <= i < |cpu.stack| ==>
      cpu.stack[i].lock < |locks| && cpu.stack[i].level == locks[cpu.stack[i].lock].level)
    && (forall i, j :: 0 <= i < j < |cpu.stack| ==> cpu.stack[i].level < cpu.stack[j].level)
    && (cpu.doing.Spinning? ==> cpu.doing.lock < |locks| && HeldLevel(cpu.stack) < locks[cpu.doing.lock].level)
  }

  ghost predicate Owned(s: State, l: nat, t: nat)
  {
    exists c: nat :: c < |s.cpus| && Plays(s.cpus[c], l, t)
  }

  /** Levels are 1..14, served counts trail taken ones, and every CPU is ordered. */
  ghost predicate Shape(s: State)
  {
    && |s.cpus| <= CPU_MAX
    && (forall l :: 0 <= l < |s.locks| ==> 1 <= s.locks[l].level <= LEVEL_MAX && s.locks[l].served <= s.locks[l].taken)
    && (forall c :: 0 <= c < |s.cpus| ==> Ordered(s.cpus[c], s.locks))
  }

  /** Turns in play are outstanding, and only the served turn holds. */
  ghost predicate InWindow(s: State)
  {
    forall c: nat, l: nat, t: nat :: c < |s.cpus| && l < |s.locks| && Plays(s.cpus[c], l, t) ==>
      && s.locks[l].served <= t < s.locks[l].taken
      && (Holds(s.cpus[c], l, t) ==> t == s.locks[l].served)
  }

  /** No turn belongs to two CPUs. */
  ghost predicate Unique(s: State)
  {
    forall b: nat, c: nat, l: nat, t: nat ::
      b < |s.cpus| && c < |s.cpus| && l < |s.locks| && Plays(s.cpus[b], l, t) && Plays(s.cpus[c], l, t) ==> b == c
  }

  /** No outstanding turn is lost. */
  ghost predicate Covered(s: State)
  {
    forall l: nat, t: nat :: l < |s.locks| && s.locks[l].served <= t < s.locks[l].taken ==> Owned(s, l, t)
  }

  ghost predicate Inv(s: State)
  {
    Shape(s) && InWindow(s) && Unique(s) && Covered(s)
  }

  ghost predicate Init(s: State)
  {
    && |s.cpus| <= CPU_MAX && !s.panicked
    && (forall l :: 0 <= l < |s.locks| ==>
      1 <= s.locks[l].level <= LEVEL_MAX && s.locks[l].served == s.locks[l].taken == 0)
    && (forall c :: 0 <= c < |s.cpus| ==> s.cpus[c] == Cpu([], Running))
  }

  lemma InitInv(s: State)
    requires Init(s)
    ensures Inv(s)
  {
  }

  // ---- no more than sixteen tickets are out -------------------------------

  /** Strictly rising levels between 1 and 14: never more than fourteen records, and never the same lock twice. */
  lemma {:induction false} RisingDepth(stack: seq<Held>, n: nat)
    requires n <= |stack| && forall i :: 0 <= i < n ==> stack[i].level >= 1
    requires forall i, j :: 0 <= i < j < |stack| ==> stack[i].level < stack[j].level
    ensures n > 0 ==> stack[n - 1].level >= n
  {
    if n > 1 {
      RisingDepth(stack, n - 1);
    }
  }

  /** Depth never exceeds fourteen, so the depth check can only fire where the order check does. */
  lemma DepthBound(s: State, c: nat)
    requires Inv(s) && c < |s.cpus|
    ensures |s.cpus[c].stack| <= HeldLevel(s.cpus[c].stack) <= LEVEL_MAX
    ensures forall l :: 0 <= l < |s.locks| && |s.cpus[c].stack| >= DEPTH_MAX ==>
      !OrderOk(HeldLevel(s.cpus[c].stack), s.locks[l].level)
  {
    var stack := s.cpus[c].stack;
    assert Ordered(s.cpus[c], s.locks);
    RisingDepth(stack, |stack|);
  }

  /** A CPU plays at most one turn of a lock. */
  lemma PlaysOnce(s: State, c: nat, l: nat, t: nat, u: nat)
    requires Inv(s) && Present(s, c, l) && Plays(s.cpus[c], l, t) && Plays(s.cpus[c], l, u)
    ensures t == u
  {
    var cpu := s.cpus[c];
    assert Ordered(cpu, s.locks);
    if Holds(cpu, l, t) && Holds(cpu, l, u) {
    } else if cpu.doing.Spinning? && (Holds(cpu, l, t) || Holds(cpu, l, u)) {
      NotAbove(cpu, s.locks, l);
    }
  }

  lemma NotAbove(cpu: Cpu, locks: seq<Lock>, l: nat)
    requires Ordered(cpu, locks) && l < |locks| && cpu.doing.Spinning?
    ensures forall t: nat :: Holds(cpu, l, t) ==> cpu.doing.lock != l
  {
    forall t: nat | Holds(cpu, l, t)
      ensures cpu.doing.lock != l
    {
      var i :| 0 <= i < |cpu.stack| && cpu.stack[i].lock == l && cpu.stack[i].turn == t;
      assert cpu.stack[i].level <= HeldLevel(cpu.stack);
    }
  }

  /** The CPUs that own the first `k` outstanding turns are `k` different CPUs. */
  lemma {:induction false} Owners(s: State, l: nat, k: nat) returns (owners: set<nat>)
    requires Inv(s) && l < |s.locks| && s.locks[l].served + k <= s.locks[l].taken
    ensures |owners| == k
    ensures forall c :: c in owners ==> c < |s.cpus| && exists t: nat ::
      s.locks[l].served <= t < s.locks[l].served + k && Plays(s.cpus[c], l, t)
  {
    if k == 0 {
      owners := {};
    } else {
      owners := Owners(s, l, k - 1);
      var t := s.locks[l].served + k - 1;
      assert Owned(s, l, t);
      var c: nat :| c < |s.cpus| && Plays(s.cpus[c], l, t);
      if c in owners {
        var u: nat :| s.locks[l].served <= u < s.locks[l].served + k - 1 && Plays(s.cpus[c], l, u);
        PlaysOnce(s, c, l, t, u);
      }
      owners := owners + {c};
    }
  }

  lemma {:induction false} BelowSize(owners: set<nat>, n: nat)
    requires forall c :: c in owners ==> c < n
    ensures |owners| <= n
  {
    if n == 0 {
      assert owners == {};
    } else {
      BelowSize(owners - {n - 1}, n - 1);
    }
  }

  lemma Outstanding(s: State, l: nat)
    requires Inv(s) && l < |s.locks|
    ensures s.locks[l].taken - s.locks[l].served <= |s.cpus| <= CPU_MAX
  {
    var owners := Owners(s, l, s.locks[l].taken - s.locks[l].served);
    BelowSize(owners, |s.cpus|);
  }

  /** The u32 comparison ends the spin at the CPU's own turn and at no other. */
  lemma SpinExact(s: State, c: nat)
    requires Inv(s) && c < |s.cpus| && s.cpus[c].doing.Spinning?
    ensures CanEnter(s, c) <==> s.cpus[c].doing.turn == s.locks[s.cpus[c].doing.lock].served
  {
    var l, t := s.cpus[c].doing.lock, s.cpus[c].doing.turn;
    assert Ordered(s.cpus[c], s.locks) && Plays(s.cpus[c], l, t);
    Outstanding(s, l);
    SmallDistance(s.locks[l].served, t);
  }

  lemma SmallDistance(a: nat, b: nat)
    requires a <= b < a + U32_LIMIT
    ensures a % U32_LIMIT == b % U32_LIMIT <==> a == b
  {
    var q := b / U32_LIMIT - a / U32_LIMIT;
    assert b - a == q * U32_LIMIT + (b % U32_LIMIT - a % U32_LIMIT);
  }

  // ---- every step keeps the invariant -------------------------------------

  lemma BeginKeeps(s: State, c: nat, l: nat)
    requires Inv(s) && Present(s, c, l) && s.cpus[c].doing.Running? && !BeginAcquire(s, c, l).panicked && !s.panicked
    ensures Inv(BeginAcquire(s, c, l))
  {
    var s', turn := BeginAcquire(s, c, l), s.locks[l].taken;
    forall b: nat, m: nat, t: nat | b < |s.cpus| && m < |s.locks|
      ensures Holds(s'.cpus[b], m, t) == Holds(s.cpus[b], m, t)
      ensures Plays(s'.cpus[b], m, t) <==> Plays(s.cpus[b], m, t) || (b == c && m == l && t == turn)
    {
    }
    forall m: nat, t: nat | m < |s'.locks| && s'.locks[m].served <= t < s'.locks[m].taken
      ensures Owned(s', m, t)
    {
      if m == l && t == turn {
        assert Plays(s'.cpus[c], m, t);
      } else {
        assert Owned(s, m, t);
        var b: nat :| b < |s.cpus| && Plays(s.cpus[b], m, t);
        assert Plays(s'.cpus[b], m, t);
      }
    }
    forall b | 0 <= b < |s'.cpus|
      ensures Ordered(s'.cpus[b], s'.locks)
    {
      assert Ordered(s.cpus[b], s.locks);
    }
  }

  lemma EnterPlays(cpu: Cpu, cpu': Cpu, level: nat)
    requires cpu.doing.Spinning? && cpu' == Cpu(cpu.stack + [Held(level, cpu.doing.lock, cpu.doing.turn)], Running)
    ensures forall m: nat, t: nat :: Plays(cpu', m, t) <==> Plays(cpu, m, t)
    ensures forall m: nat, t: nat :: Holds(cpu', m, t) <==>
      Holds(cpu, m, t) || (m == cpu.doing.lock && t == cpu.doing.turn)
  {
    forall m: nat, t: nat
      ensures Holds(cpu', m, t) <==> Holds(cpu, m, t) || (m == cpu.doing.lock && t == cpu.doing.turn)
    {
      if Holds(cpu, m, t) {
        var i :| 0 <= i < |cpu.stack| && cpu.stack[i].lock == m && cpu.stack[i].turn == t;
        assert cpu'.stack[i] == cpu.stack[i];
      }
      assert cpu'.stack[|cpu.stack|] == Held(level, cpu.doing.lock, cpu.doing.turn);
    }
  }

  lemma EnterKeeps(s: State, c: nat)
    requires Inv(s) && CanEnter(s, c)
    ensures Inv(EnterLock(s, c))
  {
    hide Holds;
    var s', cpu := EnterLock(s, c), s.cpus[c];
    assert Ordered(cpu, s.locks);
    SpinExact(s, c);
    EnterPlays(cpu, s'.cpus[c], s.locks[cpu.doing.lock].level);
    forall b: nat, m: nat, t: nat | b < |s.cpus| && m < |s.locks|
      ensures Plays(s'.cpus[b], m, t) <==> Plays(s.cpus[b], m, t)
    {
    }
    forall m: nat, t: nat | m < |s'.locks| && s'.locks[m].served <= t < s'.locks[m].taken
      ensures Owned(s', m, t)
    {
      assert Owned(s, m, t);
      var b: nat :| b < |s.cpus| && Plays(s.cpus[b], m, t);
      assert Plays(s'.cpus[b], m, t);
    }
    assert Ordered(s'.cpus[c], s'.locks) by {
      assert forall i :: 0 <= i < |cpu.stack| ==> cpu.stack[i].level <= HeldLevel(cpu.stack);
    }
  }

  lemma PopHolds(cpu: Cpu, cpu': Cpu, locks: seq<Lock>)
    requires cpu.stack != [] && Ordered(cpu, locks) && cpu.doing.Running?
             && cpu' == cpu.(stack := cpu.stack[..|cpu.stack| - 1])
    ensures var top := cpu.stack[|cpu.stack| - 1];
      forall m: nat, t: nat :: Plays(cpu', m, t) <==> Plays(cpu, m, t) && !(m == top.lock && t == top.turn)
  {
    var n := |cpu.stack| - 1;
    var top := cpu.stack[n];
    forall m: nat, t: nat
      ensures Holds(cpu', m, t) <==> Holds(cpu, m, t) && !(m == top.lock && t == top.turn)
    {
      if Holds(cpu, m, t) && !(m == top.lock && t == top.turn) {
        var i :| 0 <= i < |cpu.stack| && cpu.stack[i].lock == m && cpu.stack[i].turn == t;
        assert cpu'.stack[i] == cpu.stack[i];
      }
      if Holds(cpu', m, t) {
        var i :| 0 <= i < |cpu'.stack| && cpu'.stack[i].lock == m && cpu'.stack[i].turn == t;
        assert cpu.stack[i] == cpu'.stack[i] && cpu.stack[i].level < top.level;
      }
    }
  }

  lemma ReleaseKeeps(s: State, c: nat, l: nat)
    requires Inv(s) && Present(s, c, l) && s.cpus[c].doing.Running? && !s.panicked && !ReleaseLock(s, c, l).panicked
    requires Disciplined(s, Release(c, l))
    ensures Inv(ReleaseLock(s, c, l))
  {
    hide Holds;
    var s', cpu := ReleaseLock(s, c, l), s.cpus[c];
    assert Ordered(cpu, s.locks);
    var top := cpu.stack[|cpu.stack| - 1];
    PopHolds(cpu, s'.cpus[c], s.locks);
    TopHeld(cpu);
    assert top.turn == s.locks[l].served && Plays(cpu, l, top.turn);
    forall b: nat, m: nat, t: nat | b < |s.cpus| && m < |s.locks|
      ensures Plays(s'.cpus[b], m, t) <==> Plays(s.cpus[b], m, t) && !(m == l && t == top.turn)
    {
    }
    forall m: nat, t: nat | m < |s'.locks| && s'.locks[m].served <= t < s'.locks[m].taken
      ensures Owned(s', m, t)
    {
      assert Owned(s, m, t);
      var b: nat :| b < |s.cpus| && Plays(s.cpus[b], m, t);
      assert Plays(s'.cpus[b], m, t);
    }
    ReleaseWindow(s, s', c, l);
    forall b | 0 <= b < |s'.cpus|
      ensures Ordered(s'.cpus[b], s'.locks)
    {
      assert Ordered(s.cpus[b], s.locks);
    }
  }

  lemma TopHeld(cpu: Cpu)
    requires cpu.stack != []
    ensures var top := cpu.stack[|cpu.stack| - 1]; Holds(cpu, top.lock, top.turn)
  {
  }

  lemma HoldsSubset(cpu: Cpu, cpu': Cpu, m: nat, t: nat)
    requires cpu.stack != [] && cpu'.stack == cpu.stack[..|cpu.stack| - 1] && Holds(cpu', m, t)
    ensures Holds(cpu, m, t)
  {
    var i :| 0 <= i < |cpu'.stack| && cpu'.stack[i].lock == m && cpu'.stack[i].turn == t;
    assert cpu.stack[i] == cpu'.stack[i];
  }

  lemma ReleaseWindow(s: State, s': State, c: nat, l: nat)
    requires Inv(s) && Present(s, c, l) && s.cpus[c].stack != [] && s.cpus[c].stack[|s.cpus[c].stack| - 1].lock == l
    requires HeldLevel(s.cpus[c].stack) == s.locks[l].level && s' == ReleaseLock(s, c, l)
    requires var turn := s.cpus[c].stack[|s.cpus[c].stack| - 1].turn;
      forall b: nat, m: nat, t: nat :: b < |s.cpus| && m < |s.locks| ==>
        (Plays(s'.cpus[b], m, t) <==> Plays(s.cpus[b], m, t) && !(m == l && t == turn))
    ensures InWindow(s') && s'.locks[l].served <= s'.locks[l].taken
  {
    hide Holds;
    TopHeld(s.cpus[c]);
    var turn := s.cpus[c].stack[|s.cpus[c].stack| - 1].turn;
    assert Plays(s.cpus[c], l, turn);
    forall b: nat, m: nat, t: nat | b < |s'.cpus| && m < |s'.locks| && Plays(s'.cpus[b], m, t)
      ensures s'.locks[m].served <= t < s'.locks[m].taken
      ensures Holds(s'.cpus[b], m, t) ==> t == s'.locks[m].served
    {
      assert Plays(s.cpus[b], m, t);
      if Holds(s'.cpus[b], m, t) {
        if b == c {
          HoldsSubset(s.cpus[c], s'.cpus[c], m, t);
        }
        assert Holds(s.cpus[b], m, t);
      }
    }
  }

  // ---- runs ---------------------------------------------------------------

  /** The state after a run, when every action of it was enabled and disciplined. */
  ghost function After(s: State, run: seq<Action>): Option<State>
    decreases |run|
  {
    if run == [] then Some(s)
    else match After(s, run[..|run| - 1])
      case None => None
      case Some(m) =>
        var a := run[|run| - 1];
        if Enabled(m, a) && Disciplined(m, a) then Some(Act(m, a)) else None
  }

  lemma StepKeeps(s: State, a: Action)
    requires Inv(s) && Enabled(s, a) && Disciplined(s, a) && !Act(s, a).panicked
    ensures Inv(Act(s, a))
  {
    match a
    case Begin(c, l) => BeginKeeps(s, c, l);
    case Enter(c) => EnterKeeps(s, c);
    case Release(c, l) => ReleaseKeeps(s, c, l);
  }

  /** Every state a run reaches without a panic satisfies the invariant. */
  lemma {:induction false} RunsKeep(s: State, run: seq<Action>)
    requires Init(s) && After(s, run).Some? && !After(s, run).value.panicked
    ensures Inv(After(s, run).value)
    decreases |run|
  {
    if run == [] {
      InitInv(s);
    } else {
      var m := After(s, run[..|run| - 1]).value;
      RunsKeep(s, run[..|run| - 1]);
      StepKeeps(m, run[|run| - 1]);
    }
  }

  // ---- mutual exclusion and order of service ------------------------------

  ghost predicate HoldsLock(s: State, c: nat, l: nat)
  {
    c < |s.cpus| && exists t: nat :: Holds(s.cpus[c], l, t)
  }

  /** A lock has at most one holder. */
  lemma MutualExclusion(s: State, b: nat, c: nat, l: nat)
    requires Inv(s) && l < |s.locks| && HoldsLock(s, b, l) && HoldsLock(s, c, l)
    ensures b == c
  {
    var t: nat :| Holds(s.cpus[b], l, t);
    var u: nat :| Holds(s.cpus[c], l, u);
    assert Plays(s.cpus[b], l, t) && Plays(s.cpus[c], l, u);
  }

  /** A CPU enters only when the lock is free. */
  lemma EntersFree(s: State, b: nat, c: nat, l: nat)
    requires Inv(s) && CanEnter(s, c) && s.cpus[c].doing.lock == l && b < |s.cpus|
    ensures !HoldsLock(s, b, l)
  {
    SpinExact(s, c);
    if HoldsLock(s, b, l) {
      var t: nat :| Holds(s.cpus[b], l, t);
      assert Plays(s.cpus[b], l, t) && Plays(s.cpus[c], l, s.cpus[c].doing.turn);
      NotAbove(s.cpus[c], s.locks, l);
    }
  }

  /** First come, first served: a later ticket cannot enter while an earlier one spins. */
  lemma NoOvertaking(s: State, b: nat, c: nat)
    requires Inv(s) && b < |s.cpus| && c < |s.cpus| && s.cpus[b].doing.Spinning? && s.cpus[c].doing.Spinning?
    requires s.cpus[b].doing.lock == s.cpus[c].doing.lock && s.cpus[b].doing.turn < s.cpus[c].doing.turn
    ensures !CanEnter(s, c)
  {
    SpinExact(s, c);
    assert Plays(s.cpus[b], s.cpus[b].doing.lock, s.cpus[b].doing.turn);
  }

  // ---- no circular wait ---------------------------------------------------

  /** `b` waits for a turn of `c` that comes before its own, whether `c` holds the lock or spins ahead. */
  ghost predicate WaitsFor(s: State, b: nat, c: nat)
  {
    && b < |s.cpus| && c < |s.cpus| && s.cpus[b].doing.Spinning?
    && exists t: nat :: t < s.cpus[b].doing.turn && Plays(s.cpus[c], s.cpus[b].doing.lock, t)
  }

  function WaitLevel(s: State, c: nat): nat
    requires c < |s.cpus| && s.cpus[c].doing.Spinning? && s.cpus[c].doing.lock < |s.locks|
  {
    s.locks[s.cpus[c].doing.lock].level
  }

  /** Along a wait the level rises, or the lock stays and the turn falls. */
  lemma WaitRises(s: State, b: nat, c: nat)
    requires Inv(s) && WaitsFor(s, b, c) && s.cpus[c].doing.Spinning?
    ensures s.cpus[b].doing.lock < |s.locks| && s.cpus[c].doing.lock < |s.locks|
    ensures WaitLevel(s, b) < WaitLevel(s, c)
            || (s.cpus[b].doing.lock == s.cpus[c].doing.lock && s.cpus[c].doing.turn < s.cpus[b].doing.turn)
  {
    assert Ordered(s.cpus[b], s.locks) && Ordered(s.cpus[c], s.locks);
    var l := s.cpus[b].doing.lock;
    var t: nat :| t < s.cpus[b].doing.turn && Plays(s.cpus[c], l, t);
    if Holds(s.cpus[c], l, t) {
      var i :| 0 <= i < |s.cpus[c].stack| && s.cpus[c].stack[i].lock == l && s.cpus[c].stack[i].turn == t;
      assert s.cpus[c].stack[i].level <= HeldLevel(s.cpus[c].stack);
    }
  }

  /** A chain of CPUs each waiting for the next. */
  ghost predicate WaitChain(s: State, chain: seq<nat>)
  {
    forall i :: 0 <= i < |chain| - 1 ==> WaitsFor(s, chain[i], chain[i + 1])
  }

  lemma {:induction false} ChainRises(s: State, chain: seq<nat>)
    requires Inv(s) && |chain| >= 2 && WaitChain(s, chain)
    requires chain[|chain| - 1] < |s.cpus| && s.cpus[chain[|chain| - 1]].doing.Spinning?
    ensures var b, c := chain[0], chain[|chain| - 1];
      && b < |s.cpus| && s.cpus[b].doing.Spinning? && s.cpus[b].doing.lock < |s.locks|
         && s.cpus[c].doing.lock < |s.locks|
      && (WaitLevel(s, b) < WaitLevel(s, c)
          || (s.cpus[b].doing.lock == s.cpus[c].doing.lock && s.cpus[c].doing.turn < s.cpus[b].doing.turn))
  {
    assert WaitsFor(s, chain[0], chain[1]);
    if |chain| == 2 {
      WaitRises(s, chain[0], chain[1]);
    } else {
      var rest := chain[1..];
      forall i | 0 <= i < |rest| - 1
        ensures WaitsFor(s, rest[i], rest[i + 1])
      {
        assert WaitsFor(s, chain[i + 1], chain[i + 2]);
      }
      ChainRises(s, rest);
      WaitRises(s, chain[0], chain[1]);
    }
  }

  /** No reachable state has a cycle of CPUs waiting on each other. */
  lemma NoCircularWait(s: State, chain: seq<nat>)
    requires Inv(s) && |chain| >= 2 && WaitChain(s, chain)
    ensures chain[0] != chain[|chain| - 1]
  {
    if chain[0] == chain[|chain| - 1] {
      assert WaitsFor(s, chain[0], chain[1]);
      ChainRises(s, chain);
    }
  }

  // ---- progress -----------------------------------------------------------

  /** A spinning CPU no other spinner waits above: the highest level, and there the earliest turn. */
  ghost predicate Foremost(s: State, c: nat)
  {
    && c < |s.cpus| && s.cpus[c].doing.Spinning? && s.cpus[c].doing.lock < |s.locks|
    && forall b: nat :: b < |s.cpus| && s.cpus[b].doing.Spinning? && s.cpus[b].doing.lock < |s.locks| ==>
         && WaitLevel(s, b) <= WaitLevel(s, c)
         && (s.cpus[b].doing.lock == s.cpus[c].doing.lock ==> s.cpus[c].doing.turn <= s.cpus[b].doing.turn)
  }

  /** Ranks spinning CPUs: first by level, then by how early their turn is. */
  function Ahead(s: State, b: nat, c: nat): bool
    requires b < |s.cpus| && s.cpus[b].doing.Spinning? && s.cpus[b].doing.lock < |s.locks|
    requires c < |s.cpus| && s.cpus[c].doing.Spinning? && s.cpus[c].doing.lock < |s.locks|
  {
    WaitLevel(s, b) > WaitLevel(s, c)
    || (s.cpus[b].doing.lock == s.cpus[c].doing.lock && s.cpus[b].doing.turn < s.cpus[c].doing.turn)
  }

  lemma {:induction false} SomeForemost(s: State, c: nat) returns (f: nat)
    requires Inv(s) && c < |s.cpus| && s.cpus[c].doing.Spinning?
    ensures Foremost(s, f)
  {
    f := c;
    assert Ordered(s.cpus[c], s.locks);
    var b := 0;
    while b < |s.cpus|
      invariant 0 <= b <= |s.cpus|
      invariant f < |s.cpus| && s.cpus[f].doing.Spinning? && s.cpus[f].doing.lock < |s.locks|
      invariant forall k: nat :: k < b && s.cpus[k].doing.Spinning? && s.cpus[k].doing.lock < |s.locks| ==>
        !Ahead(s, k, f)
    {
      if s.cpus[b].doing.Spinning? && s.cpus[b].doing.lock < |s.locks| && Ahead(s, b, f) {
        f := b;
      }
      b := b + 1;
    }
  }

  /** Somebody can move: a spinner may enter, or the holder it waits for is running. */
  lemma Progress(s: State, c: nat)
    requires Inv(s) && c < |s.cpus| && s.cpus[c].doing.Spinning?
    ensures exists f: nat :: f < |s.cpus| && (CanEnter(s, f) || (s.cpus[f].doing.Running? && s.cpus[f].stack != []))
  {
    var f := SomeForemost(s, c);
    var l, t := s.cpus[f].doing.lock, s.cpus[f].doing.turn;
    assert Ordered(s.cpus[f], s.locks) && Plays(s.cpus[f], l, t);
    SpinExact(s, f);
    if !CanEnter(s, f) {
      assert Owned(s, l, s.locks[l].served);
      var h: nat :| h < |s.cpus| && Plays(s.cpus[h], l, s.locks[l].served);
      assert Ordered(s.cpus[h], s.locks) && WaitsFor(s, f, h);
      if s.cpus[h].doing.Spinning? {
        WaitRises(s, f, h);
      }
    }
  }

  // ---- what the level check alone does not give ---------------------------

  /** A release the code lets through keeps the invariant exactly when it names the lock taken last. */
  lemma ReleaseExact(s: State, c: nat, l: nat)
    requires Inv(s) && Present(s, c, l) && s.cpus[c].doing.Running? && !s.panicked && !ReleaseLock(s, c, l).panicked
    ensures Inv(ReleaseLock(s, c, l)) <==> Disciplined(s, Release(c, l))
  {
    hide Holds;
    var s', cpu := ReleaseLock(s, c, l), s.cpus[c];
    assert Ordered(cpu, s.locks);
    if Disciplined(s, Release(c, l)) {
      ReleaseKeeps(s, c, l);
    } else {
      var top := cpu.stack[|cpu.stack| - 1];
      var m, t := top.lock, top.turn;
      PopHolds(cpu, s'.cpus[c], s.locks);
      TopHeld(cpu);
      assert Plays(cpu, m, t);
      assert !Owned(s', m, t);
      assert s'.locks[m] == s.locks[m];
    }
  }

  /** Seven moves of three CPUs over two locks of one level; the fifth releases the wrong lock. */
  function Move(i: nat): Action
  {
    match i
    case 0 => Begin(0, 0)
    case 1 => Enter(0)
    case 2 => Begin(1, 1)
    case 3 => Enter(1)
    case 4 => Release(0, 1)
    case 5 => Begin(2, 1)
    case _ => Enter(2)
  }

  function Scene(i: nat): State
  {
    var a := if i == 1 then Cpu([], Spinning(0, 0)) else if 2 <= i <= 4 then Cpu([Held(4, 0, 0)], Running)
      else Cpu([], Running);
    var b := if i == 3 then Cpu([], Spinning(1, 0)) else if i >= 4 then Cpu([Held(4, 1, 0)], Running)
      else Cpu([], Running);
    var c := if i == 6 then Cpu([], Spinning(1, 1)) else if i >= 7 then Cpu([Held(4, 1, 1)], Running)
      else Cpu([], Running);
    var first := Lock(4, if i >= 1 then 1 else 0, 0);
    var second := Lock(4, if i >= 6 then 2 else if i >= 3 then 1 else 0, if i >= 5 then 1 else 0);
    State([a, b, c], [first, second], false)
  }

  lemma SceneMoves(i: nat)
    requires i < 7
    ensures Enabled(Scene(i), Move(i)) && Act(Scene(i), Move(i)) == Scene(i + 1)
  {
    var s := Scene(i);
    var s' := Act(s, Move(i));
    assert |s'.cpus| == 3 && |s'.locks| == 2;
    assert s'.cpus[0] == Scene(i + 1).cpus[0];
    assert s'.cpus[1] == Scene(i + 1).cpus[1];
    assert s'.cpus[2] == Scene(i + 1).cpus[2];
    assert s'.cpus == Scene(i + 1).cpus;
    assert s'.locks == Scene(i + 1).locks;
  }

  lemma {:induction false} Played(i: nat) returns (run: seq<Action>)
    requires i <= 7
    ensures Lax(Scene(0), run) == Some(Scene(i))
  {
    if i == 0 {
      run := [];
    } else {
      run := Played(i - 1);
      SceneMoves(i - 1);
      run := LaxStep(Scene(0), run, Scene(i - 1), Move(i - 1), Scene(i));
    }
  }

  /** With the level check alone, releasing the wrong lock of a level lets a second CPU into a held lock. */
  lemma SharedLevel()
    ensures exists s: State, run: seq<Action> ::
      && Init(s) && Lax(s, run).Some? && !Lax(s, run).value.panicked
      && HoldsLock(Lax(s, run).value, 1, 1) && HoldsLock(Lax(s, run).value, 2, 1)
  {
    hide Lax;
    var run := Played(7);
    var g := Scene(7);
    assert Holds(g.cpus[1], 1, 0) by { assert g.cpus[1].stack[0] == Held(4, 1, 0); }
    assert Holds(g.cpus[2], 1, 1) by { assert g.cpus[2].stack[0] == Held(4, 1, 1); }
    assert Init(Scene(0));
  }

  /** A run of enabled actions, disciplined or not. */
  ghost function Lax(s: State, run: seq<Action>): Option<State>
    decreases |run|
  {
    if run == [] then Some(s)
    else match Lax(s, run[..|run| - 1])
      case None => None
      case Some(m) => if Enabled(m, run[|run| - 1]) then Some(Act(m, run[|run| - 1])) else None
  }

  lemma LaxStep(s: State, run: seq<Action>, m: State, a: Action, m': State) returns (longer: seq<Action>)
    requires Lax(s, run) == Some(m) && Enabled(m, a) && Act(m, a) == m'
    ensures Lax(s, longer) == Some(m')
  {
    longer := run + [a];
    assert longer[..|run|] == run;
  }
}
