/**
 * Spinlocks and the IRQ mask: every interleaving of any number of CPUs, with interrupts landing
 * wherever the mask allows and tasks switched under them.
 */
module SpinLocks {
  import opened Wrappers

  /** Every `Mutex` static in the kernel, by the name its module gives it. */
  datatype Lock =
    | Side | Sched | Ipc | Wait | Heap | Map | Tx | Line | Status | Durable | Touch | Spi0Gate | Display
    | Lease | Controller | Frames | Asids | Names | Store | TaskCaps | IrqCaps | ParkDeadlines | PropertyBuffer

  /** What a thread of control has open, innermost last. */
  datatype Frame =
    // `irq_save` until `irq_restore`, with the mask it found.
    | Saved(found: bool)
    // A spin bit won and not yet released.
    | Held(lock: Lock)
    // Code interrupted: the exception masks, and its return unmasks.
    | Irq

  datatype Thread = Thread(base: bool, stack: seq<Frame>)

  datatype Cpu = Cpu(masked: bool, task: nat, thread: Thread, want: Option<Lock>)

  datatype State = State(cpus: seq<Cpu>, parked: map<nat, Thread>, locked: set<Lock>)

  /** Which lock may be taken while which is held: first held, then taken. */
  type Nesting = set<(Lock, Lock)>

  datatype Step =
    | Save(c: nat)
    | Restore(c: nat)
    // `raw_lock` entered: the CPU spins from here on.
    | Want(c: nat, lock: Lock)
    // The compare-and-exchange that finds the bit clear.
    | Acquire(c: nat)
    // The compare-and-exchange that does not.
    | Spin(c: nat)
    | Release(c: nat)
    | Interrupt(c: nat)
    | Return(c: nat)
    | Spawn(task: nat)
    // `context_switch`, by a task that stays or one that exits.
    | Switch(c: nat, to: nat, exits: bool)

  function Top(t: Thread): Frame
    requires t.stack != []
  {
    t.stack[|t.stack| - 1]
  }

  function Push(t: Thread, f: Frame): Thread
  {
    t.(stack := t.stack + [f])
  }

  function Pop(t: Thread): Thread
    requires t.stack != []
  {
    t.(stack := t.stack[..|t.stack| - 1])
  }

  /** Locks held since the innermost interrupt: all the running code knows of. */
  function Known(t: Thread): set<Lock>
    decreases |t.stack|
  {
    if t.stack == [] then {}
    else match Top(t)
         case Saved(_) => Known(Pop(t))
         case Held(l) => Known(Pop(t)) + {l}
         case Irq => {}
  }

  /** Locks held anywhere in the thread. */
  function HeldBy(t: Thread): set<Lock>
    decreases |t.stack|
  {
    if t.stack == [] then {}
    else HeldBy(Pop(t)) + if Top(t).Held? then {Top(t).lock} else {}
  }

  /** Whether what a thread has open leaves interrupts masked. */
  function Mask(t: Thread): bool
    decreases |t.stack|
  {
    if t.stack == [] then t.base else !Top(t).Held? || Mask(Pop(t))
  }

  /** A CPU executing code, not spinning. */
  predicate Running(s: State, c: nat)
  {
    c < |s.cpus| && s.cpus[c].want.None?
  }

  predicate Enabled(s: State, nest: Nesting, t: Step)
  {
    match t
    case Save(c) => Running(s, c)
    case Restore(c) => Running(s, c) && s.cpus[c].thread.stack != [] && Top(s.cpus[c].thread).Saved?
    // `with` masks first and `lock_masked` is called masked; nesting is what the call sites show.
    case Want(c, l) => Running(s, c) && s.cpus[c].masked && forall h :: h in Known(s.cpus[c].thread) ==> (h, l) in nest
    case Acquire(c) => c < |s.cpus| && s.cpus[c].want.Some? && s.cpus[c].want.value !in s.locked
    case Spin(c) => c < |s.cpus| && s.cpus[c].want.Some? && s.cpus[c].want.value in s.locked
    case Release(c) => Running(s, c) && s.cpus[c].thread.stack != [] && Top(s.cpus[c].thread).Held?
    case Interrupt(c) => c < |s.cpus| && !s.cpus[c].masked
    case Return(c) => Running(s, c) && s.cpus[c].thread.stack != [] && Top(s.cpus[c].thread).Irq?
    case Spawn(task) => task !in s.parked && forall c :: 0 <= c < |s.cpus| ==> s.cpus[c].task != task
    // The spin bit is dropped before the stacks are swapped; the mask is not.
    case Switch(c, to, _) => Running(s, c) && s.cpus[c].masked && to in s.parked && HeldBy(s.cpus[c].thread) == {}
  }

  function Apply(s: State, nest: Nesting, t: Step): State
    requires Enabled(s, nest, t)
  {
    match t
    case Save(c) =>
      var p := s.cpus[c];
      s.(cpus := s.cpus[c := p.(masked := true, thread := Push(p.thread, Saved(p.masked)))])
    case Restore(c) =>
      var p := s.cpus[c];
      s.(cpus := s.cpus[c := p.(masked := Top(p.thread).found, thread := Pop(p.thread))])
    case Want(c, l) => s.(cpus := s.cpus[c := s.cpus[c].(want := Some(l))])
    case Acquire(c) =>
      var p := s.cpus[c];
      s.(cpus := s.cpus[c := p.(thread := Push(p.thread, Held(p.want.value)), want := None)],
         locked := s.locked + {p.want.value})
    case Spin(c) => s
    case Release(c) =>
      var p := s.cpus[c];
      s.(cpus := s.cpus[c := p.(thread := Pop(p.thread))], locked := s.locked - {Top(p.thread).lock})
    case Interrupt(c) =>
      var p := s.cpus[c];
      s.(cpus := s.cpus[c := p.(masked := true, thread := Push(p.thread, Irq))])
    case Return(c) =>
      var p := s.cpus[c];
      s.(cpus := s.cpus[c := p.(masked := false, thread := Pop(p.thread))])
    // A new task starts masked, with nothing to restore but "unmasked".
    case Spawn(task) => s.(parked := s.parked[task := Thread(false, [Saved(false)])])
    case Switch(c, to, exits) =>
      var p := s.cpus[c];
      var rest := s.parked - {to};
      State(s.cpus[c := p.(task := to, thread := s.parked[to])],
            if exits then rest else rest[p.task := p.thread], s.locked)
  }

  predicate Init(s: State)
  {
    && (forall c :: 0 <= c < |s.cpus| ==>
          s.cpus[c].thread == Thread(s.cpus[c].masked, []) && s.cpus[c].want.None?)
    && s.parked == map[] && s.locked == {}
  }

  /** The states a run passes through, the first one given. */
  ghost predicate Reaches(s: State, nest: Nesting, run: seq<Step>, e: State)
    decreases |run|
  {
    if run == [] then e == s
    else Enabled(s, nest, run[0]) && Reaches(Apply(s, nest, run[0]), nest, run[1..], e)
  }

  // ---- What every step keeps ----

  /** Each frame records the mask it found; locks are only held, and only waited for, masked. */
  predicate Tidy(t: Thread)
    decreases |t.stack|
  {
    t.stack == [] || (
      && Tidy(Pop(t))
      && match Top(t)
         case Saved(d) => d == Mask(Pop(t))
         case Held(_) => Mask(Pop(t))
         case Irq => !Mask(Pop(t)))
  }

  /** Locks were taken in a permitted order. */
  predicate InOrder(t: Thread, nest: Nesting)
    decreases |t.stack|
  {
    t.stack == [] || (
      && InOrder(Pop(t), nest)
      && (Top(t).Held? ==> forall h :: h in HeldBy(Pop(t)) ==> (h, Top(t).lock) in nest))
  }

  predicate CpuInv(p: Cpu, nest: Nesting)
  {
    && Tidy(p.thread) && InOrder(p.thread, nest) && Distinct(p.thread)
    && p.masked == Mask(p.thread)
    && (p.want.Some? ==> p.masked && forall h :: h in HeldBy(p.thread) ==> (h, p.want.value) in nest)
  }

  /** No lock is held twice in one thread. */
  predicate Distinct(t: Thread)
    decreases |t.stack|
  {
    t.stack == [] || (Distinct(Pop(t)) && (Top(t).Held? ==> Top(t).lock !in HeldBy(Pop(t))))
  }

  predicate ParkedInv(t: Thread)
  {
    Tidy(t) && Mask(t) && HeldBy(t) == {}
  }

  ghost predicate Inv(s: State, nest: Nesting)
  {
    && (forall c :: 0 <= c < |s.cpus| ==> CpuInv(s.cpus[c], nest))
    && (forall t :: t in s.parked ==> ParkedInv(s.parked[t]))
    && (forall c, d :: 0 <= c < d < |s.cpus| ==> HeldBy(s.cpus[c].thread) !! HeldBy(s.cpus[d].thread))
    && (forall l :: l in s.locked <==> exists c :: 0 <= c < |s.cpus| && l in HeldBy(s.cpus[c].thread))
  }

  lemma PushPop(t: Thread, f: Frame)
    ensures Top(Push(t, f)) == f && Pop(Push(t, f)) == t
  {
    assert (t.stack + [f])[..|t.stack|] == t.stack;
  }

  /** An unmasked thread has nothing open, so an interrupt finds no lock below it. */
  lemma UnmaskedHoldsNothing(t: Thread)
    requires Tidy(t) && !Mask(t)
    ensures t.stack == [] && HeldBy(t) == {}
  {
  }

  /** The locks running code knows of are all its CPU holds, in a handler too. */
  lemma {:induction false} KnownIsHeld(t: Thread)
    requires Tidy(t)
    ensures Known(t) == HeldBy(t)
    decreases |t.stack|
  {
    if t.stack != [] {
      if Top(t).Irq? { UnmaskedHoldsNothing(Pop(t)); } else { KnownIsHeld(Pop(t)); }
    }
  }

  lemma {:induction false} NothingHeldInOrder(t: Thread, nest: Nesting)
    requires HeldBy(t) == {}
    ensures InOrder(t, nest) && Distinct(t)
    decreases |t.stack|
  {
    if t.stack != [] { NothingHeldInOrder(Pop(t), nest); }
  }

  /** A CPU replaced by one holding the same locks leaves the rest of the invariant alone. */
  lemma SameHeld(s: State, nest: Nesting, c: nat, p: Cpu)
    requires Inv(s, nest) && c < |s.cpus| && CpuInv(p, nest) && HeldBy(p.thread) == HeldBy(s.cpus[c].thread)
    ensures Inv(s.(cpus := s.cpus[c := p]), nest)
  {
    var e := s.(cpus := s.cpus[c := p]);
    assert forall d :: 0 <= d < |s.cpus| ==> HeldBy(e.cpus[d].thread) == HeldBy(s.cpus[d].thread);
  }

  /** A CPU that wins the bit it waits for holds one lock more. */
  lemma AcquireCpu(p: Cpu, nest: Nesting)
    requires CpuInv(p, nest) && p.want.Some? && p.want.value !in HeldBy(p.thread)
    ensures var q := p.(thread := Push(p.thread, Held(p.want.value)), want := None);
            CpuInv(q, nest) && HeldBy(q.thread) == HeldBy(p.thread) + {p.want.value}
  {
    PushPop(p.thread, Held(p.want.value));
  }

  lemma AcquireInv(s: State, nest: Nesting, c: nat)
    requires Inv(s, nest) && Enabled(s, nest, Acquire(c))
    ensures Inv(Apply(s, nest, Acquire(c)), nest)
  {
    hide CpuInv, HeldBy, ParkedInv, Push;
    var p, e := s.cpus[c], Apply(s, nest, Acquire(c));
    assert p.want.value !in HeldBy(p.thread);
    AcquireCpu(p, nest);
    assert forall d :: 0 <= d < |s.cpus| && d != c ==> e.cpus[d] == s.cpus[d];
    forall l
      ensures l in e.locked <==> exists d :: 0 <= d < |e.cpus| && l in HeldBy(e.cpus[d].thread)
    {
      if l in s.locked {
        var d :| 0 <= d < |s.cpus| && l in HeldBy(s.cpus[d].thread);
        assert l in HeldBy(e.cpus[d].thread);
      } else if l == p.want.value {
        assert l in HeldBy(e.cpus[c].thread);
      }
    }
  }

  /** A CPU that drops its innermost lock holds the rest. */
  lemma ReleaseCpu(p: Cpu, nest: Nesting)
    requires CpuInv(p, nest) && p.want.None? && p.thread.stack != [] && Top(p.thread).Held?
    ensures var q := p.(thread := Pop(p.thread));
            && CpuInv(q, nest) && HeldBy(p.thread) == HeldBy(q.thread) + {Top(p.thread).lock}
            && Top(p.thread).lock !in HeldBy(q.thread)
  {
  }

  lemma ReleaseInv(s: State, nest: Nesting, c: nat)
    requires Inv(s, nest) && Enabled(s, nest, Release(c))
    ensures Inv(Apply(s, nest, Release(c)), nest)
  {
    hide CpuInv, HeldBy, ParkedInv, Pop, Top;
    var p, e := s.cpus[c], Apply(s, nest, Release(c));
    var l := Top(p.thread).lock;
    ReleaseCpu(p, nest);
    assert forall d :: 0 <= d < |s.cpus| && d != c ==> e.cpus[d] == s.cpus[d];
    forall h
      ensures h in e.locked <==> exists d :: 0 <= d < |e.cpus| && h in HeldBy(e.cpus[d].thread)
    {
      if h in e.locked {
        var d :| 0 <= d < |s.cpus| && h in HeldBy(s.cpus[d].thread);
        assert h in HeldBy(e.cpus[d].thread);
      } else if h == l {
        assert forall d :: 0 <= d < |e.cpus| && d != c ==> l !in HeldBy(s.cpus[d].thread);
      }
    }
  }

  lemma SwitchInv(s: State, nest: Nesting, c: nat, to: nat, exits: bool)
    requires Inv(s, nest) && Enabled(s, nest, Switch(c, to, exits))
    ensures Inv(Apply(s, nest, Switch(c, to, exits)), nest)
  {
    var p := s.cpus[c];
    var q := p.(task := to, thread := s.parked[to]);
    NothingHeldInOrder(q.thread, nest);
    SameHeld(s, nest, c, q);
    var e := Apply(s, nest, Switch(c, to, exits));
    assert e == State(s.cpus[c := q], e.parked, s.locked);
  }

  lemma InvCpu(s: State, nest: Nesting, c: nat)
    requires Inv(s, nest) && c < |s.cpus|
    ensures CpuInv(s.cpus[c], nest)
  {
  }

  lemma SaveInv(s: State, nest: Nesting, c: nat)
    requires Inv(s, nest) && Enabled(s, nest, Save(c))
    ensures Inv(Apply(s, nest, Save(c)), nest)
  {
    hide Inv;
    var p := s.cpus[c];
    InvCpu(s, nest, c);
    PushPop(p.thread, Saved(p.masked));
    SameHeld(s, nest, c, p.(masked := true, thread := Push(p.thread, Saved(p.masked))));
  }

  lemma RestoreInv(s: State, nest: Nesting, c: nat)
    requires Inv(s, nest) && Enabled(s, nest, Restore(c))
    ensures Inv(Apply(s, nest, Restore(c)), nest)
  {
    hide Inv;
    var p := s.cpus[c];
    InvCpu(s, nest, c);
    SameHeld(s, nest, c, p.(masked := Top(p.thread).found, thread := Pop(p.thread)));
  }

  lemma WantInv(s: State, nest: Nesting, c: nat, l: Lock)
    requires Inv(s, nest) && Enabled(s, nest, Want(c, l))
    ensures Inv(Apply(s, nest, Want(c, l)), nest)
  {
    hide Inv, InOrder, Distinct, Mask;
    var p := s.cpus[c];
    InvCpu(s, nest, c);
    KnownIsHeld(p.thread);
    SameHeld(s, nest, c, p.(want := Some(l)));
  }

  lemma InterruptInv(s: State, nest: Nesting, c: nat)
    requires Inv(s, nest) && Enabled(s, nest, Interrupt(c))
    ensures Inv(Apply(s, nest, Interrupt(c)), nest)
  {
    hide Inv;
    var p := s.cpus[c];
    InvCpu(s, nest, c);
    PushPop(p.thread, Irq);
    SameHeld(s, nest, c, p.(masked := true, thread := Push(p.thread, Irq)));
  }

  lemma ReturnInv(s: State, nest: Nesting, c: nat)
    requires Inv(s, nest) && Enabled(s, nest, Return(c))
    ensures Inv(Apply(s, nest, Return(c)), nest)
  {
    hide Inv;
    var p := s.cpus[c];
    InvCpu(s, nest, c);
    SameHeld(s, nest, c, p.(masked := false, thread := Pop(p.thread)));
  }

  lemma SpawnInv(s: State, nest: Nesting, task: nat)
    requires Inv(s, nest) && Enabled(s, nest, Spawn(task))
    ensures Inv(Apply(s, nest, Spawn(task)), nest)
  {
    hide CpuInv, HeldBy;
    FreshIsParked();
  }

  lemma FreshIsParked()
    ensures ParkedInv(Thread(false, [Saved(false)]))
  {
    PushPop(Thread(false, []), Saved(false));
  }

  /** Every step of every CPU keeps the invariant, whatever nesting the code follows. */
  lemma StepInv(s: State, nest: Nesting, t: Step)
    requires Inv(s, nest) && Enabled(s, nest, t)
    ensures Inv(Apply(s, nest, t), nest)
  {
    hide Inv;
    match t {
      case Save(c) => SaveInv(s, nest, c);
      case Restore(c) => RestoreInv(s, nest, c);
      case Want(c, l) => WantInv(s, nest, c, l);
      case Acquire(c) => AcquireInv(s, nest, c);
      case Spin(_) =>
      case Release(c) => ReleaseInv(s, nest, c);
      case Interrupt(c) => InterruptInv(s, nest, c);
      case Return(c) => ReturnInv(s, nest, c);
      case Spawn(task) => SpawnInv(s, nest, task);
      case Switch(c, to, exits) => SwitchInv(s, nest, c, to, exits);
    }
  }

  lemma {:induction false} RunInv(s: State, nest: Nesting, run: seq<Step>, e: State)
    requires Inv(s, nest) && Reaches(s, nest, run, e)
    ensures Inv(e, nest)
    decreases |run|
  {
    if run != [] {
      StepInv(s, nest, run[0]);
      RunInv(Apply(s, nest, run[0]), nest, run[1..], e);
    }
  }

  lemma InitInv(s: State, nest: Nesting)
    requires Init(s)
    ensures Inv(s, nest)
  {
  }

  // ---- Safety ----

  /** At most one CPU, and one place on it, holds a given lock. */
  lemma MutualExclusion(s: State, nest: Nesting, run: seq<Step>, e: State, c: nat, d: nat, l: Lock)
    requires Init(s) && Reaches(s, nest, run, e)
    requires c < |e.cpus| && d < |e.cpus| && l in HeldBy(e.cpus[c].thread) && l in HeldBy(e.cpus[d].thread)
    ensures c == d && Distinct(e.cpus[c].thread) && l in e.locked
  {
    InitInv(s, nest);
    RunInv(s, nest, run, e);
  }

  /** An interrupt lands only on a CPU that holds no lock and waits for none. */
  lemma InterruptFindsNothingHeld(s: State, nest: Nesting, run: seq<Step>, e: State, c: nat)
    requires Init(s) && Reaches(s, nest, run, e) && Enabled(e, nest, Interrupt(c))
    ensures HeldBy(e.cpus[c].thread) == {} && e.cpus[c].want.None?
  {
    InitInv(s, nest);
    RunInv(s, nest, run, e);
    UnmaskedHoldsNothing(e.cpus[c].thread);
  }

  /** A task off the CPU holds nothing, and comes back to the mask it left with. */
  lemma ParkedHoldsNothing(s: State, nest: Nesting, run: seq<Step>, e: State, t: nat)
    requires Init(s) && Reaches(s, nest, run, e) && t in e.parked
    ensures HeldBy(e.parked[t]) == {} && Mask(e.parked[t])
  {
    InitInv(s, nest);
    RunInv(s, nest, run, e);
  }

  /**
   * Balanced regions: whenever a thread is back to what it had open, on whatever CPU and however
   * many switches and interrupts later, the mask is what it was.
   */
  lemma MaskRestored(s: State, nest: Nesting, run: seq<Step>, e: State, more: seq<Step>, f: State, c: nat, d: nat)
    requires Init(s) && Reaches(s, nest, run, e) && Reaches(e, nest, more, f)
    requires c < |e.cpus| && d < |f.cpus| && e.cpus[c].thread == f.cpus[d].thread
    ensures e.cpus[c].masked == f.cpus[d].masked
  {
    InitInv(s, nest);
    RunInv(s, nest, run, e);
    RunInv(e, nest, more, f);
  }

  // ---- Runs put together ----

  lemma {:induction false} ReachesThen(s: State, nest: Nesting, run: seq<Step>, m: State, more: seq<Step>, e: State)
    requires Reaches(s, nest, run, m) && Reaches(m, nest, more, e)
    ensures Reaches(s, nest, run + more, e)
    decreases |run|
  {
    if run == [] {
      assert run + more == more;
    } else {
      ReachesThen(Apply(s, nest, run[0]), nest, run[1..], m, more, e);
      assert (run + more)[1..] == run[1..] + more;
    }
  }

  lemma OneStep(s: State, nest: Nesting, t: Step)
    requires Enabled(s, nest, t)
    ensures Reaches(s, nest, [t], Apply(s, nest, t))
  {
    assert [t][1..] == [];
    assert Reaches(Apply(s, nest, t), nest, [], Apply(s, nest, t));
  }
}
