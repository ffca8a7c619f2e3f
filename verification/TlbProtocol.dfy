/**
 * ASID reuse against the TLB: every interleaving of create, run and teardown steps on any number
 * of CPUs, with a TLB that may fill or evict on its own at any time.
 */
module TlbProtocol {
  import opened Asid

  type Cpu = nat
  /** A space's identity for the proof; the hardware sees only its tag. */
  type SpaceId = nat

  /** How far a teardown has got. `destroy` and `Drop` take the same three steps. */
  datatype Phase = Live | FramesFreed | Invalidated

  datatype Space = Space(asid: nat, phase: Phase)

  /** A non-global TLB entry: where it sits, its tag, and whose translation it caches. */
  datatype Entry = Entry(cpu: Cpu, asid: nat, owner: SpaceId)

  datatype State = State(
    free: set<nat>,
    next: nat,
    spaces: map<SpaceId, Space>,
    installed: map<Cpu, SpaceId>,
    tlb: set<Entry>)

  datatype Step =
    | Create(id: SpaceId, asid: nat)
    | CreateOutOfFrames(asid: nat)
    | Enter(cpu: Cpu, id: SpaceId)
    | Leave(cpu: Cpu)
    | Fill(cpu: Cpu)
    | Evict(e: Entry)
    | FreeFrames(id: SpaceId)
    | Invalidate(id: SpaceId)
    | FreeAsid(id: SpaceId)

  predicate WellFormed(s: State)
  {
    s.next < ASID_COUNT && Tags(s.free)
  }

  predicate Enabled(s: State, t: Step)
    requires WellFormed(s)
  {
    match t
    case Create(id, a) => id !in s.spaces && Nearest(s.free, s.next, a)
                          && (forall e :: e in s.tlb ==> e.owner != id)
    case CreateOutOfFrames(a) => Nearest(s.free, s.next, a)
    case Enter(c, id) => id in s.spaces && s.spaces[id].phase == Live
    case Leave(c) => c in s.installed
    case Fill(c) => c in s.installed && s.installed[c] in s.spaces
    case Evict(e) => e in s.tlb
    // Teardown consumes the space, so no CPU still runs it.
    case FreeFrames(id) => id in s.spaces && s.spaces[id].phase == Live && id !in s.installed.Values
    case Invalidate(id) => id in s.spaces && s.spaces[id].phase == FramesFreed
    case FreeAsid(id) => id in s.spaces && s.spaces[id].phase == Invalidated
  }

  function Apply(s: State, t: Step): State
    requires WellFormed(s) && Enabled(s, t)
  {
    match t
    case Create(id, a) =>
      s.(free := s.free - {a}, next := (a + 1) % ASID_COUNT, spaces := s.spaces[id := Space(a, Live)])
    // The tag goes straight back: nothing ever ran under it.
    case CreateOutOfFrames(a) => s.(next := (a + 1) % ASID_COUNT)
    case Enter(c, id) => s.(installed := s.installed[c := id])
    case Leave(c) => s.(installed := s.installed - {c})
    case Fill(c) => s.(tlb := s.tlb + {Entry(c, s.spaces[s.installed[c]].asid, s.installed[c])})
    case Evict(e) => s.(tlb := s.tlb - {e})
    case FreeFrames(id) => s.(spaces := s.spaces[id := s.spaces[id].(phase := FramesFreed)])
    case Invalidate(id) =>
      s.(tlb := Others(s.tlb, s.spaces[id].asid), spaces := s.spaces[id := s.spaces[id].(phase := Invalidated)])
    case FreeAsid(id) => s.(free := s.free + {s.spaces[id].asid}, spaces := s.spaces - {id})
  }

  /** `tlbi aside1is`: every CPU drops its entries under that tag. */
  function Others(tlb: set<Entry>, asid: nat): set<Entry>
  {
    set e | e in tlb && e.asid != asid
  }

  ghost predicate Init(s: State)
  {
    && (forall a :: a in s.free <==> 0 < a < ASID_COUNT)
    && s.next == 1 && s.spaces == map[] && s.installed == map[] && s.tlb == {}
  }

  // ---- The invariant ----

  /** Live tags are distinct, legal and not free. */
  predicate TagsOwned(s: State)
  {
    && (forall id :: id in s.spaces ==> 0 < s.spaces[id].asid < ASID_COUNT && s.spaces[id].asid !in s.free)
    && (forall x, y :: x in s.spaces && y in s.spaces && x != y ==> s.spaces[x].asid != s.spaces[y].asid)
  }

  /** No tag is lost: each is free or owned. */
  ghost predicate TagsConserved(s: State)
  {
    forall a :: 0 < a < ASID_COUNT ==> a in s.free || exists id :: id in s.spaces && s.spaces[id].asid == a
  }

  /** Only live spaces are installed. */
  predicate InstalledLive(s: State)
  {
    forall c :: c in s.installed ==> s.installed[c] in s.spaces && s.spaces[s.installed[c]].phase == Live
  }

  /** Every cached translation belongs to the space that owns its tag, not yet invalidated. */
  predicate EntriesOwned(s: State)
  {
    forall e :: e in s.tlb ==>
      e.owner in s.spaces && s.spaces[e.owner].asid == e.asid && s.spaces[e.owner].phase != Invalidated
  }

  ghost predicate Inv(s: State)
  {
    WellFormed(s) && TagsOwned(s) && TagsConserved(s) && InstalledLive(s) && EntriesOwned(s)
  }

  lemma InitInv(s: State)
    requires Init(s)
    ensures Inv(s)
  {
  }

  lemma StepWellFormed(s: State, t: Step)
    requires Inv(s) && Enabled(s, t)
    ensures WellFormed(Apply(s, t))
  {
    hide TagsConserved, InstalledLive, EntriesOwned, Others;
  }

  lemma StepTags(s: State, t: Step)
    requires Inv(s) && Enabled(s, t)
    ensures TagsOwned(Apply(s, t))
  {
    hide Distance, TagsConserved, InstalledLive, EntriesOwned, Others;
    match t {
      case Create(id, a) =>
      case CreateOutOfFrames(a) =>
      case FreeFrames(id) => SameTags(s, t, id);
      case Invalidate(id) => SameTags(s, t, id);
      case FreeAsid(id) =>
      case _ =>
    }
  }

  lemma SameTags(s: State, t: Step, id: nat)
    requires WellFormed(s) && TagsOwned(s) && Enabled(s, t) && (t == FreeFrames(id) || t == Invalidate(id))
    ensures TagsOwned(Apply(s, t))
  {
    hide Distance, Others;
    var e := Apply(s, t);
    assert forall x :: x in e.spaces ==> x in s.spaces && e.spaces[x].asid == s.spaces[x].asid;
  }

  lemma StepInstalled(s: State, t: Step)
    requires Inv(s) && Enabled(s, t)
    ensures InstalledLive(Apply(s, t))
  {
    if t.FreeFrames? {
      assert forall c :: c in s.installed ==> s.installed[c] in s.installed.Values;
    }
  }

  lemma StepEntries(s: State, t: Step)
    requires Inv(s) && Enabled(s, t)
    ensures EntriesOwned(Apply(s, t))
  {
    var s' := Apply(s, t);
    forall e | e in s'.tlb
      ensures e.owner in s'.spaces && s'.spaces[e.owner].asid == e.asid && s'.spaces[e.owner].phase != Invalidated
    {
      if t.Fill? && e !in s.tlb {
        assert e == Entry(t.cpu, s.spaces[s.installed[t.cpu]].asid, s.installed[t.cpu]);
      } else {
        assert e in s.tlb;
      }
    }
  }

  lemma StepConserved(s: State, t: Step)
    requires Inv(s) && Enabled(s, t)
    ensures TagsConserved(Apply(s, t))
  {
    var s' := Apply(s, t);
    forall a | 0 < a < ASID_COUNT
      ensures a in s'.free || exists id :: id in s'.spaces && s'.spaces[id].asid == a
    {
      if a !in s.free {
        var id :| id in s.spaces && s.spaces[id].asid == a;
        if !(t.FreeAsid? && t.id == id) {
          assert id in s'.spaces && s'.spaces[id].asid == a;
        }
      } else if t.Create? && t.asid == a {
        assert t.id in s'.spaces && s'.spaces[t.id].asid == a;
      }
    }
  }

  /** Every step of every interleaving keeps the invariant. */
  lemma StepInv(s: State, t: Step)
    requires Inv(s) && Enabled(s, t)
    ensures Inv(Apply(s, t))
  {
    StepWellFormed(s, t);
    StepTags(s, t);
    StepInstalled(s, t);
    StepEntries(s, t);
    StepConserved(s, t);
  }

  // ---- Whole runs ----

  /** A run: its states, each reached from the one before by an enabled step. */
  ghost predicate Run(states: seq<State>, steps: seq<Step>)
  {
    && |states| == |steps| + 1
    && Init(states[0])
    && forall i :: 0 <= i < |steps| ==>
         WellFormed(states[i]) && Enabled(states[i], steps[i]) && states[i + 1] == Apply(states[i], steps[i])
  }

  lemma {:induction false} RunInv(states: seq<State>, steps: seq<Step>, i: nat)
    requires Run(states, steps) && i < |states|
    ensures Inv(states[i])
    decreases i
  {
    if i == 0 {
      InitInv(states[0]);
    } else {
      RunInv(states, steps, i - 1);
      StepInv(states[i - 1], steps[i - 1]);
      assert states[i] == Apply(states[i - 1], steps[i - 1]);
    }
  }

  /** A tag handed out, at any point of any run, has no entry left from a previous owner. */
  lemma NoStaleEntryAtCreate(states: seq<State>, steps: seq<Step>, i: nat)
    requires Run(states, steps) && i < |steps| && steps[i].Create?
    ensures forall e :: e in states[i + 1].tlb ==> e.asid != steps[i].asid
  {
    RunInv(states, steps, i);
    assert Enabled(states[i], steps[i]) && states[i + 1] == Apply(states[i], steps[i]);
  }

  /** Whatever a CPU can hit while it runs a space was cached for that same space. */
  lemma NoForeignTranslation(states: seq<State>, steps: seq<Step>, i: nat, cpu: Cpu, e: Entry)
    requires Run(states, steps) && i < |states|
    requires cpu in states[i].installed && e in states[i].tlb
    requires states[i].installed[cpu] in states[i].spaces
    requires e.asid == states[i].spaces[states[i].installed[cpu]].asid
    ensures e.owner == states[i].installed[cpu]
  {
    RunInv(states, steps, i);
  }

  /** Live spaces hold distinct tags, none of them the kernel's, and free plus owned is every tag. */
  lemma LiveTagsDistinct(states: seq<State>, steps: seq<Step>, i: nat, x: SpaceId, y: SpaceId)
    requires Run(states, steps) && i < |states| && x in states[i].spaces && y in states[i].spaces
    ensures states[i].spaces[x].asid != KERNEL_ASID
    ensures x != y ==> states[i].spaces[x].asid != states[i].spaces[y].asid
    ensures TagsConserved(states[i])
  {
    RunInv(states, steps, i);
  }

  // ---- The order matters ----

  /** Teardown with its last two steps swapped: the tag goes back before the invalidate. */
  function FreeAsidEarly(s: State, id: SpaceId): State
    requires id in s.spaces
  {
    s.(free := s.free + {s.spaces[id].asid}, spaces := s.spaces - {id})
  }

  /** With every other tag in use, the next create inherits the tag and its stale entries. */
  lemma EarlyFreeIsStale(s: State, id: SpaceId, e: Entry, newId: SpaceId)
    requires Inv(s) && s.free == {} && id in s.spaces && s.spaces[id].phase == FramesFreed
    requires e in s.tlb && e.owner == id
    requires newId !in s.spaces && forall x :: x in s.tlb ==> x.owner != newId
    ensures var t := FreeAsidEarly(s, id);
            var step := Create(newId, s.spaces[id].asid);
            && WellFormed(t) && Enabled(t, step)
            && e in Apply(t, step).tlb && e.asid == Apply(t, step).spaces[newId].asid && e.owner != newId
  {
    var a := s.spaces[id].asid;
    assert FreeAsidEarly(s, id).free == {a};
  }

  // ---- Such a state is reached ----

  lemma RunGoesOn(states: seq<State>, steps: seq<Step>, t: Step)
    requires Run(states, steps) && WellFormed(states[|steps|]) && Enabled(states[|steps|], t)
    ensures Run(states + [Apply(states[|steps|], t)], steps + [t])
  {
  }

  /** Spaces 0 to n - 1 live under tags 1 to n, and nothing has run. */
  ghost predicate Crowded(s: State, n: nat)
  {
    && n < ASID_COUNT && s.next == (n + 1) % ASID_COUNT
    && (forall a :: a in s.free <==> n < a < ASID_COUNT)
    && (forall id: nat :: id in s.spaces <==> id < n)
    && (forall id :: id in s.spaces ==> s.spaces[id] == Space(id + 1, Live))
    && s.installed == map[] && s.tlb == {}
  }

  lemma CrowdStep(s: State, n: nat)
    requires Crowded(s, n) && n + 1 < ASID_COUNT
    ensures WellFormed(s) && Enabled(s, Create(n, n + 1)) && Crowded(Apply(s, Create(n, n + 1)), n + 1)
  {
    assert n + 1 in s.free && Distance(s.next, n + 1) == 0;
  }

  lemma {:induction false} CreateMany(s: State, n: nat) returns (states: seq<State>, steps: seq<Step>)
    requires Init(s) && n < ASID_COUNT
    ensures Run(states, steps) && Crowded(states[|steps|], n)
    decreases n
  {
    if n == 0 {
      return [s], [];
    }
    states, steps := CreateMany(s, n - 1);
    CrowdStep(states[|steps|], n - 1);
    RunGoesOn(states, steps, Create(n - 1, n));
    states, steps := states + [Apply(states[|steps|], Create(n - 1, n))], steps + [Create(n - 1, n)];
  }

  /** The run that turns the swapped order into a stale translation, from the start. */
  lemma EarlyFreeReached(s: State) returns (states: seq<State>, steps: seq<Step>, e: Entry)
    requires Init(s)
    ensures Run(states, steps)
    ensures var last := states[|steps|];
            && 0 in last.spaces && last.spaces[0].phase == FramesFreed
            && var t := FreeAsidEarly(last, 0);
            var step := Create(ASID_COUNT, last.spaces[0].asid);
            && WellFormed(t) && Enabled(t, step)
            && e in Apply(t, step).tlb && e.asid == Apply(t, step).spaces[ASID_COUNT].asid && e.owner != ASID_COUNT
  {
    hide Run;
    states, steps := CreateMany(s, ASID_COUNT - 1);
    var s0 := states[|steps|];
    assert s0.spaces[0] == Space(1, Live);
    states, steps := Then(states, steps, Enter(0, 0));
    states, steps := Then(states, steps, Fill(0));
    states, steps := Then(states, steps, Leave(0));
    var s3 := states[|steps|];
    assert s3.installed == map[] && s3.spaces == s0.spaces && s3.tlb == {Entry(0, 1, 0)};
    states, steps := Then(states, steps, FreeFrames(0));
    var last := states[|steps|];
    RunInvLast(states, steps);
    e := Entry(0, 1, 0);
    EarlyFreeIsStale(last, 0, e, ASID_COUNT);
  }

  lemma Then(states: seq<State>, steps: seq<Step>, t: Step) returns (states': seq<State>, steps': seq<Step>)
    requires Run(states, steps) && WellFormed(states[|steps|]) && Enabled(states[|steps|], t)
    ensures Run(states', steps') && states'[|steps'|] == Apply(states[|steps|], t)
  {
    RunGoesOn(states, steps, t);
    states', steps' := states + [Apply(states[|steps|], t)], steps + [t];
  }

  lemma RunInvLast(states: seq<State>, steps: seq<Step>)
    requires Run(states, steps)
    ensures Inv(states[|steps|])
  {
    RunInv(states, steps, |steps|);
  }
}
