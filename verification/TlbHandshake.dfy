/** The agreement between tasks that switch a CPU to a page table and writers that change one: a writer may
    leave out the TLB flush only if the table is loaded on no CPU. One atomic action per step. */
module TlbHandshake {
  import opened Options
  import opened Counters

  /** How far a task has come in activating `table`. Any number of tasks may be under way. */
  datatype Phase =
    | Waiting(table: nat)                        // has incremented the active count
    | Locked(table: nat)                         // has the lock
    | Loading(table: nat, cpu: nat)              // has set the hardware register, with interruptions off
    | Swapped(table: nat, previous: Option<nat>) // has stored its reference and taken the previous one
    | Leaving(table: nat)                        // has given back the previous count

  /** What the hardware uses, the reference that is kept for it, and the task that is between the two. */
  datatype Cpu = Cpu(loaded: Option<nat>, active: Option<nat>, busy: Option<nat>)

  const BOOTED: Cpu := Cpu(None, None, None)

  /** A writer first takes the lock and then decides whether to flush. */
  datatype Holder = Free | Activation(task: nat) | Undecided(writer: nat) | Writer(writer: nat, flush: bool)

  datatype State = State(tasks: map<nat, Phase>, cpus: map<nat, Cpu>, counts: map<nat, nat>, locks: map<nat, Holder>)

  const START: State := State(map[], map[], map[], map[])

  datatype Step =
    | CountActive(k: nat, t: nat) | LockTable(k: nat) | Load(k: nat, c: nat)
    | Swap(k: nat) | GiveBack(k: nat) | UnlockTable(k: nat)
    | LockToWrite(w: nat, t: nat) | Decide(w: nat, t: nat) | UnlockWritten(w: nat, t: nat)

  function CpuOf(s: State, c: nat): Cpu
  {
    if c in s.cpus then s.cpus[c] else BOOTED
  }

  /** The active count has 16 bits. */
  function CountOf(s: State, t: nat): nat
  {
    if t in s.counts then s.counts[t] else 0
  }

  function LockOf(s: State, t: nat): Holder
  {
    if t in s.locks then s.locks[t] else Free
  }

  function WithTask(s: State, k: nat, phase: Phase): State
  {
    s.(tasks := s.tasks[k := phase])
  }

  function WithLock(s: State, t: nat, holder: Holder): State
  {
    s.(locks := s.locks[t := holder])
  }

  /** A step of some task or writer, if it can be taken. */
  function Apply(s: State, step: Step): Option<State>
  {
    match step
    // activate
    case CountActive(k, t) =>
      if k in s.tasks then None
      else Some(WithTask(s, k, Waiting(t)).(counts := s.counts[t := Incremented(CountOf(s, t))]))
    case LockTable(k) =>
      if k !in s.tasks || !s.tasks[k].Waiting? || LockOf(s, s.tasks[k].table) != Free then None
      else Some(WithLock(WithTask(s, k, Locked(s.tasks[k].table)), s.tasks[k].table, Activation(k)))
    case Load(k, c) =>
      if k !in s.tasks || !s.tasks[k].Locked? || CpuOf(s, c).busy.Some? then None
      else
        var t := s.tasks[k].table;
        Some(WithTask(s, k, Loading(t, c)).(cpus := s.cpus[c := CpuOf(s, c).(loaded := Some(t), busy := Some(k))]))
    case Swap(k) =>
      if k !in s.tasks || !s.tasks[k].Loading? then None
      else
        var t, c := s.tasks[k].table, s.tasks[k].cpu;
        var cpu := CpuOf(s, c);
        Some(WithTask(s, k, Swapped(t, cpu.active)).(cpus := s.cpus[c := cpu.(active := Some(t), busy := None)]))
    case GiveBack(k) =>
      if k !in s.tasks || !s.tasks[k].Swapped? then None
      else
        var s' := WithTask(s, k, Leaving(s.tasks[k].table));
        if s.tasks[k].previous.None? then Some(s')
        else
          var t := s.tasks[k].previous.value;
          Some(s'.(counts := s.counts[t := Decremented(CountOf(s, t))]))
    case UnlockTable(k) =>
      if k !in s.tasks || !s.tasks[k].Leaving? then None
      else Some(WithLock(s.(tasks := s.tasks - {k}), s.tasks[k].table, Free))
    // write_when_active
    case LockToWrite(w, t) =>
      if LockOf(s, t) == Free then Some(WithLock(s, t, Undecided(w))) else None
    case Decide(w, t) =>
      if LockOf(s, t) == Undecided(w) then Some(WithLock(s, t, Writer(w, CountOf(s, t) > 0))) else None
    case UnlockWritten(w, t) =>
      if LockOf(s, t).Writer? && LockOf(s, t).writer == w then Some(WithLock(s, t, Free)) else None
  }

  // ---- Invariant ----

  /** What the active count of a table stands for: the tasks on the way to it, the CPUs that keep a reference
      to it, and the tasks that have yet to give one back. */
  ghost function Coming(tasks: map<nat, Phase>, t: nat): set<nat>
  {
    set k | k in tasks && IsComing(tasks[k], t)
  }

  ghost function Returning(tasks: map<nat, Phase>, t: nat): set<nat>
  {
    set k | k in tasks && IsReturning(tasks[k], t)
  }

  ghost function Keeping(cpus: map<nat, Cpu>, t: nat): set<nat>
  {
    set c | c in cpus && IsKeeping(cpus[c], t)
  }

  ghost predicate IsComing(phase: Phase, t: nat)
  {
    (phase.Waiting? || phase.Locked? || phase.Loading?) && phase.table == t
  }

  ghost predicate IsReturning(phase: Phase, t: nat)
  {
    phase.Swapped? && phase.previous == Some(t)
  }

  ghost predicate IsKeeping(cpu: Cpu, t: nat)
  {
    cpu.active == Some(t)
  }

  ghost function Tokens(s: State, t: nat): nat
  {
    |Coming(s.tasks, t)| + |Returning(s.tasks, t)| + |Keeping(s.cpus, t)|
  }

  ghost predicate Counts(s: State)
  {
    forall t: nat :: CountOf(s, t) == Tokens(s, t) % U16
  }

  ghost predicate TaskOk(s: State, k: nat)
    requires k in s.tasks
  {
    && (!s.tasks[k].Waiting? ==> LockOf(s, s.tasks[k].table) == Activation(k))
    && (s.tasks[k].Loading? ==> CpuOf(s, s.tasks[k].cpu).busy == Some(k))
  }

  ghost predicate CpuOk(s: State, c: nat)
    requires c in s.cpus
  {
    var cpu := s.cpus[c];
    match cpu.busy
    case None => cpu.loaded == cpu.active
    case Some(k) => k in s.tasks && s.tasks[k].Loading? && s.tasks[k].cpu == c && cpu.loaded == Some(s.tasks[k].table)
  }

  ghost predicate LoadedAnywhere(s: State, t: nat)
  {
    exists c :: c in s.cpus && s.cpus[c].loaded == Some(t)
  }

  /** A writer that does not flush has a table that is loaded nowhere. */
  ghost predicate NoStaleTlb(s: State)
  {
    forall t: nat :: LockOf(s, t).Writer? && !LockOf(s, t).flush ==> !LoadedAnywhere(s, t)
  }

  ghost predicate Inv(s: State)
  {
    && Counts(s)
    && (forall k :: k in s.tasks ==> TaskOk(s, k))
    && (forall c :: c in s.cpus ==> CpuOk(s, c))
    && NoStaleTlb(s)
  }

  /** A writer decides while the table is loaded and its count has wrapped to zero. */
  ghost predicate Missed(s: State, step: Step)
  {
    step.Decide? && LoadedAnywhere(s, step.t) && Tokens(s, step.t) % U16 == 0
  }

  // ---- Every other step keeps the invariant ----

  ghost function TaskShare(s: State, k: nat, t: nat): nat
  {
    if k in s.tasks then Bit(IsComing(s.tasks[k], t)) + Bit(IsReturning(s.tasks[k], t)) else 0
  }

  ghost function CpuShare(s: State, c: nat, t: nat): nat
  {
    Bit(IsKeeping(CpuOf(s, c), t))
  }

  /** Only task `k` and CPU `c` changed. */
  lemma TokensChange(s: State, s': State, k: nat, c: nat, t: nat)
    requires forall j :: j != k ==> (j in s.tasks <==> j in s'.tasks) && (j in s.tasks ==> s'.tasks[j] == s.tasks[j])
    requires forall d :: d != c ==> (d in s.cpus <==> d in s'.cpus) && (d in s.cpus ==> s'.cpus[d] == s.cpus[d])
    ensures Tokens(s', t) + TaskShare(s, k, t) + CpuShare(s, c, t)
         == Tokens(s, t) + TaskShare(s', k, t) + CpuShare(s', c, t)
  {
    OneDiffers(Coming(s.tasks, t), Coming(s'.tasks, t), k);
    OneDiffers(Returning(s.tasks, t), Returning(s'.tasks, t), k);
    OneDiffers(Keeping(s.cpus, t), Keeping(s'.cpus, t), c);
  }

  lemma TokensShare(s: State, k: nat, c: nat, t: nat)
    ensures Tokens(s, t) >= TaskShare(s, k, t) + CpuShare(s, c, t)
  {
    assert k in s.tasks && IsComing(s.tasks[k], t) ==> k in Coming(s.tasks, t);
    assert k in s.tasks && IsReturning(s.tasks[k], t) ==> k in Returning(s.tasks, t);
    assert c in s.cpus && IsKeeping(s.cpus[c], t) ==> c in Keeping(s.cpus, t);
  }

  /** The CPU that a step touches, if any. */
  ghost function CpuIn(s: State, step: Step): nat
  {
    match step
    case Load(_, c) => c
    case Swap(k) => if k in s.tasks && s.tasks[k].Loading? then s.tasks[k].cpu else 0
    case _ => 0
  }

  /** The invariant survives every step but one in which a writer is misled by a wrapped count. */
  lemma StepKeeps(s: State, step: Step)
    requires Inv(s) && Apply(s, step).Some?
    ensures Inv(Apply(s, step).value) <==> !Missed(s, step)
  {
    hide Apply, Counts, TaskOk, CpuOk, NoStaleTlb, Missed;
    CountsKept(s, step);
    TasksKept(s, step);
    CpusKept(s, step);
    NoStaleKept(s, step);
  }

  /** Counting in adds one, giving back takes one away, and every other step leaves the sum as it is. */
  lemma TokensAfter(s: State, step: Step, t: nat)
    requires Apply(s, step).Some?
    ensures Tokens(Apply(s, step).value, t) + Bit(step.GiveBack? && s.tasks[step.k].previous == Some(t))
         == Tokens(s, t) + Bit(step.CountActive? && step.t == t)
  {
    hide Tokens, Incremented, Decremented;
    var s' := Apply(s, step).value;
    if step.LockToWrite? || step.Decide? || step.UnlockWritten? {
      TokensChange(s, s', 0, 0, t);
    } else {
      SharesAfter(s, step, t);
      TokensChange(s, s', step.k, CpuIn(s, step), t);
    }
  }

  lemma SharesAfter(s: State, step: Step, t: nat)
    requires Apply(s, step).Some? && !step.LockToWrite? && !step.Decide? && !step.UnlockWritten?
    ensures var s', k, c := Apply(s, step).value, step.k, CpuIn(s, step);
            (TaskShare(s', k, t) + CpuShare(s', c, t) + Bit(step.GiveBack? && s.tasks[k].previous == Some(t))
             == TaskShare(s, k, t) + CpuShare(s, c, t) + Bit(step.CountActive? && step.t == t))
  {
    hide Incremented, Decremented;
  }

  lemma CountsAfter(s: State, step: Step, t: nat)
    requires Apply(s, step).Some?
    ensures CountOf(Apply(s, step).value, t) ==
      if step.CountActive? && step.t == t then Incremented(CountOf(s, t))
      else if step.GiveBack? && s.tasks[step.k].previous == Some(t) then Decremented(CountOf(s, t))
      else CountOf(s, t)
  {
    hide Incremented, Decremented;
  }

  lemma CountsKept(s: State, step: Step)
    requires Inv(s) && Apply(s, step).Some?
    ensures Counts(Apply(s, step).value)
  {
    assert step.GiveBack? ==> step.k in s.tasks && s.tasks[step.k].Swapped?;
    hide Apply, Tokens, NoStaleTlb, CpuOk, TaskOk, Incremented, Decremented;
    var s' := Apply(s, step).value;
    forall t: nat
      ensures CountOf(s', t) == Tokens(s', t) % U16
    {
      assert CountOf(s, t) == Tokens(s, t) % U16;
      Wrapped(Tokens(s, t));
      TokensAfter(s, step, t);
      CountsAfter(s, step, t);
      if step.GiveBack? {
        TokensShare(s, step.k, 0, t);
      }
    }
  }

  lemma TasksKept(s: State, step: Step)
    requires Inv(s) && Apply(s, step).Some?
    ensures var s' := Apply(s, step).value; forall k :: k in s'.tasks ==> TaskOk(s', k)
  {
    hide Counts, NoStaleTlb, Incremented, Decremented;
  }

  lemma CpusKept(s: State, step: Step)
    requires Inv(s) && Apply(s, step).Some?
    ensures var s' := Apply(s, step).value; forall c :: c in s'.cpus ==> CpuOk(s', c)
  {
    hide Counts, NoStaleTlb, Incremented, Decremented;
  }

  /** A table that a step loads has its lock with an activation; loading nothing, it is loaded as before. */
  lemma LoadedAfter(s: State, step: Step, t: nat)
    requires Inv(s) && Apply(s, step).Some?
    ensures LoadedAnywhere(Apply(s, step).value, t) ==>
      LoadedAnywhere(s, t) || LockOf(Apply(s, step).value, t).Activation?
    ensures !step.Load? ==> (LoadedAnywhere(Apply(s, step).value, t) <==> LoadedAnywhere(s, t))
  {
    hide Counts, NoStaleTlb, CpuOk, Incremented, Decremented;
    var s' := Apply(s, step).value;
    if c :| c in s'.cpus && s'.cpus[c].loaded == Some(t) {
      assert step.Load? && c == step.c ==> TaskOk(s, step.k);
      assert !(step.Load? && c == step.c) ==> c in s.cpus && s.cpus[c].loaded == Some(t);
    }
    if c :| c in s.cpus && s.cpus[c].loaded == Some(t) {
      assert !step.Load? ==> c in s'.cpus && s'.cpus[c].loaded == Some(t);
    }
  }

  lemma NoStaleKept(s: State, step: Step)
    requires Inv(s) && Apply(s, step).Some?
    ensures NoStaleTlb(Apply(s, step).value) <==> !Missed(s, step)
  {
    hide Tokens, CpuOk, TaskOk, Incremented, Decremented, LoadedAnywhere;
    var s' := Apply(s, step).value;
    forall t: nat
      ensures LoadedAnywhere(s', t) ==> LoadedAnywhere(s, t) || LockOf(s', t).Activation?
      ensures !step.Load? ==> (LoadedAnywhere(s', t) <==> LoadedAnywhere(s, t))
    {
      LoadedAfter(s, step, t);
    }
    if step.Decide? {
      assert CountOf(s, step.t) == Tokens(s, step.t) % U16;
    }
    hide Counts;
  }

  // ---- When no writer is misled ----

  /** Fewer than 2^16 tasks and CPUs stand behind the count that a writer reads. */
  ghost predicate Roomy(s: State, step: Step)
  {
    step.Decide? ==> Tokens(s, step.t) < U16
  }

  lemma RoomSuffices(s: State, step: Step)
    requires Inv(s) && Roomy(s, step)
    ensures !Missed(s, step)
  {
    hide Tokens;
    if step.Decide? && LoadedAnywhere(s, step.t) {
      var c :| c in s.cpus && s.cpus[c].loaded == Some(step.t);
      assert CpuOk(s, c);
      match s.cpus[c].busy {
        case None => TokensShare(s, 0, c, step.t);
        case Some(k) => TokensShare(s, k, c, step.t);
      }
    }
  }

  /** Every task that is activating some table counts at most once, and so does every CPU. */
  lemma TokensBound(s: State, t: nat)
    ensures Tokens(s, t) <= |s.tasks| + |s.cpus|
  {
    var coming, returning := Coming(s.tasks, t), Returning(s.tasks, t);
    assert coming !! returning;
    assert |coming + returning| == |coming| + |returning|;
    SubsetSize(coming + returning, s.tasks.Keys);
    SubsetSize(Keeping(s.cpus, t), s.cpus.Keys);
  }

  // ---- Who can go on ----

  /** A task that activates a table can always go on, but for the lock of the table and a CPU that another task
      is just switching, and that other task can go on. In the end the table is loaded and the lock free. */
  lemma TaskMoves(s: State, k: nat, c: nat)
    requires Inv(s)
    ensures CpuOf(s, c).busy.Some? ==> Apply(s, Swap(CpuOf(s, c).busy.value)).Some?
    ensures k !in s.tasks ==> forall t :: Apply(s, CountActive(k, t)).Some?
    ensures k in s.tasks ==>
      match s.tasks[k]
      case Waiting(t) =>
        && (Apply(s, LockTable(k)).Some? <==> LockOf(s, t) == Free)
        && (LockOf(s, t) == Free ==> LockOf(Apply(s, LockTable(k)).value, t) == Activation(k))
      case Locked(t) =>
        && (Apply(s, Load(k, c)).Some? <==> CpuOf(s, c).busy.None?)
        && (CpuOf(s, c).busy.None? ==> CpuOf(Apply(s, Load(k, c)).value, c).loaded == Some(t))
      case Loading(t, d) =>
        && Apply(s, Swap(k)).Some?
        && CpuOf(Apply(s, Swap(k)).value, d) == Cpu(Some(t), Some(t), None)
        && Apply(s, Swap(k)).value.tasks[k] == Swapped(t, CpuOf(s, d).active)
      case Swapped(t, _) => Apply(s, GiveBack(k)).Some? && Apply(s, GiveBack(k)).value.tasks[k] == Leaving(t)
      case Leaving(t) =>
        && Apply(s, UnlockTable(k)).Some?
        && k !in Apply(s, UnlockTable(k)).value.tasks && LockOf(Apply(s, UnlockTable(k)).value, t) == Free
  {
    hide Counts, NoStaleTlb, Incremented, Decremented;
    if c in s.cpus {
      assert CpuOk(s, c);
    }
    if k in s.tasks {
      assert TaskOk(s, k);
      if s.tasks[k].Loading? {
        assert CpuOk(s, s.tasks[k].cpu);
      }
    }
  }

  /** A writer gets the lock of a table as soon as it is free, flushes exactly if tasks and CPUs stand behind the
      count, but for whole multiples of 2^16, and can always unlock. */
  lemma WriterMoves(s: State, w: nat, t: nat)
    requires Inv(s)
    ensures Apply(s, LockToWrite(w, t)).Some? <==> LockOf(s, t) == Free
    ensures LockOf(s, t) == Free ==> LockOf(Apply(s, LockToWrite(w, t)).value, t) == Undecided(w)
    ensures LockOf(s, t) == Undecided(w) ==>
      && Apply(s, Decide(w, t)).Some?
      && LockOf(Apply(s, Decide(w, t)).value, t) == Writer(w, Tokens(s, t) % U16 != 0)
    ensures LockOf(s, t).Writer? && LockOf(s, t).writer == w ==>
      Apply(s, UnlockWritten(w, t)).Some? && LockOf(Apply(s, UnlockWritten(w, t)).value, t) == Free
  {
    hide Tokens, NoStaleTlb, TaskOk, CpuOk, Incremented, Decremented;
    assert CountOf(s, t) == Tokens(s, t) % U16;
  }

  // ---- Runs ----

  ghost predicate Run(states: seq<State>, steps: seq<Step>)
  {
    && |states| == |steps| + 1 && states[0] == START
    && forall i :: 0 <= i < |steps| ==> Apply(states[i], steps[i]) == Some(states[i + 1])
  }

  lemma StartsIdle()
    ensures Inv(START)
  {
  }

  lemma {:induction false} RunKeeps(states: seq<State>, steps: seq<Step>, i: nat)
    requires Run(states, steps) && i < |states| && forall j :: 0 <= j < i ==> !Missed(states[j], steps[j])
    ensures Inv(states[i])
  {
    hide Apply, Counts, TaskOk, CpuOk, NoStaleTlb, Missed;
    if i == 0 {
      StartsIdle();
    } else {
      var j := i - 1;
      RunKeeps(states, steps, j);
      assert Apply(states[j], steps[j]) == Some(states[j + 1]);
      StepKeeps(states[j], steps[j]);
    }
  }

  /** A run never has a table loaded under a writer that does not flush, if and only if no writer decides
      while the count of a loaded table has wrapped to zero. */
  lemma HandshakeIff(states: seq<State>, steps: seq<Step>)
    requires Run(states, steps)
    ensures (forall i :: 0 <= i < |states| ==> NoStaleTlb(states[i]))
       <==> forall j :: 0 <= j < |steps| ==> !Missed(states[j], steps[j])
  {
    hide Apply, Counts, TaskOk, CpuOk, NoStaleTlb, Missed;
    if forall j :: 0 <= j < |steps| ==> !Missed(states[j], steps[j]) {
      forall i | 0 <= i < |states|
        ensures NoStaleTlb(states[i])
      {
        RunKeeps(states, steps, i);
      }
    } else {
      var j := FirstMissed(states, steps);
      RunKeeps(states, steps, j);
      assert Apply(states[j], steps[j]) == Some(states[j + 1]);
      NoStaleKept(states[j], steps[j]);
      assert !NoStaleTlb(states[j + 1]);
    }
  }

  lemma FirstMissed(states: seq<State>, steps: seq<Step>) returns (j: nat)
    requires |states| == |steps| + 1 && exists i :: 0 <= i < |steps| && Missed(states[i], steps[i])
    ensures j < |steps| && Missed(states[j], steps[j]) && forall i :: 0 <= i < j ==> !Missed(states[i], steps[i])
  {
    hide Missed;
    j := 0;
    while !Missed(states[j], steps[j])
      invariant j < |steps| && exists i :: j <= i < |steps| && Missed(states[i], steps[i])
      invariant forall i :: 0 <= i < j ==> !Missed(states[i], steps[i])
      decreases |steps| - j
    {
      j := j + 1;
    }
  }

  /** As long as fewer than 2^16 tasks and CPUs stand behind a count that is read, in no interleaving is a
      table loaded on a CPU while a writer that decided not to flush has its lock. */
  lemma Handshake(states: seq<State>, steps: seq<Step>, i: nat, c: nat, t: nat)
    requires Run(states, steps) && i < |states|
    requires forall j :: 0 <= j < |steps| ==> Roomy(states[j], steps[j])
    requires LockOf(states[i], t).Writer? && !LockOf(states[i], t).flush
    ensures CpuOf(states[i], c).loaded != Some(t)
  {
    hide Apply, Counts, TaskOk, CpuOk, Missed, Roomy;
    RoomyRun(states, steps, i);
    assert !LoadedAnywhere(states[i], t);
  }

  lemma {:induction false} RoomyRun(states: seq<State>, steps: seq<Step>, i: nat)
    requires Run(states, steps) && i < |states| && forall j :: 0 <= j < |steps| ==> Roomy(states[j], steps[j])
    ensures Inv(states[i])
  {
    hide Apply, Counts, TaskOk, CpuOk, NoStaleTlb, Missed, Roomy;
    if i == 0 {
      StartsIdle();
    } else {
      var j := i - 1;
      RoomyRun(states, steps, j);
      assert Apply(states[j], steps[j]) == Some(states[j + 1]);
      RoomSuffices(states[j], steps[j]);
      StepKeeps(states[j], steps[j]);
    }
  }

  /** The count itself may rise from zero while a writer that does not flush has the lock: a task counts
      itself before it waits for the lock. It is only the loading that waits. */
  lemma CountMayRise(w: nat, k: nat, t: nat)
    ensures exists states, steps :: Run(states, steps) && Rises(states[|states| - 1], w, t)
  {
    var s1 := Apply(START, LockToWrite(w, t)).value;
    var s2 := Apply(s1, Decide(w, t)).value;
    var s3 := Apply(s2, CountActive(k, t)).value;
    var states, steps := [START, s1, s2, s3], [LockToWrite(w, t), Decide(w, t), CountActive(k, t)];
    assert Run(states, steps) && Rises(states[3], w, t);
  }

  ghost predicate Rises(s: State, w: nat, t: nat)
  {
    LockOf(s, t) == Writer(w, false) && CountOf(s, t) == 1
  }

  // ---- One task more ----

  ghost predicate Reached(s: State)
  {
    exists states, steps :: Run(states, steps) && states[|states| - 1] == s
  }

  lemma StartReached()
    ensures Reached(START)
  {
    assert Run([START], []);
    assert [START][|[START]| - 1] == START;
  }

  lemma ReachedStep(s: State, step: Step)
    requires Reached(s) && Apply(s, step).Some?
    ensures Reached(Apply(s, step).value)
  {
    hide Apply;
    var states, steps :| Run(states, steps) && states[|states| - 1] == s;
    var s' := Apply(s, step).value;
    assert Run(states + [s'], steps + [step]);
    assert (states + [s'])[|states|] == s';
  }

  ghost function WaitingFor(t: nat, k: nat): Phase
  {
    Waiting(t)
  }

  /** CPU 0 has the table loaded, and tasks 0 to n - 1 are about to activate it once more. */
  ghost function Crowd(t: nat, n: nat): State
  {
    State(map k: nat | k < n :: WaitingFor(t, k), map[0 := Cpu(Some(t), Some(t), None)],
          map[t := (n + 1) % U16], map[t := Free])
  }

  lemma CanLock(t: nat)
    ensures Reached(State(map[0 := Locked(t)], map[], map[t := 1], map[t := Activation(0)]))
  {
    hide Reached;
    StartReached();
    ReachedStep(START, CountActive(0, t));
    var s := State(map[0 := Waiting(t)], map[], map[t := 1], map[]);
    assert Apply(START, CountActive(0, t)).value == s;
    ReachedStep(s, LockTable(0));
    assert Apply(s, LockTable(0)).value == State(map[0 := Locked(t)], map[], map[t := 1], map[t := Activation(0)]);
  }

  lemma CanSwap(t: nat)
    ensures Reached(State(map[0 := Swapped(t, None)], map[0 := Cpu(Some(t), Some(t), None)],
                          map[t := 1], map[t := Activation(0)]))
  {
    hide Reached, Incremented, Decremented;
    CanLock(t);
    var s := State(map[0 := Locked(t)], map[], map[t := 1], map[t := Activation(0)]);
    ReachedStep(s, Load(0, 0));
    var s1 := s.(tasks := map[0 := Loading(t, 0)], cpus := map[0 := Cpu(Some(t), None, Some(0))]);
    assert Apply(s, Load(0, 0)).value == s1;
    ReachedStep(s1, Swap(0));
    assert Apply(s1, Swap(0)).value
        == s.(tasks := map[0 := Swapped(t, None)], cpus := map[0 := Cpu(Some(t), Some(t), None)]);
  }

  lemma CanLoad(t: nat)
    ensures Reached(Crowd(t, 0))
  {
    hide Reached, Incremented, Decremented;
    CanSwap(t);
    var s := State(map[0 := Swapped(t, None)], map[0 := Cpu(Some(t), Some(t), None)],
                   map[t := 1], map[t := Activation(0)]);
    ReachedStep(s, GiveBack(0));
    var s1 := s.(tasks := map[0 := Leaving(t)]);
    assert Apply(s, GiveBack(0)).value == s1;
    ReachedStep(s1, UnlockTable(0));
    assert Apply(s1, UnlockTable(0)).value == Crowd(t, 0);
  }

  lemma {:induction false} CanWait(t: nat, n: nat)
    ensures Reached(Crowd(t, n))
  {
    hide Reached, Incremented;
    if n == 0 {
      CanLoad(t);
    } else {
      CanWait(t, n - 1);
      Wrapped(n);
      var s := Crowd(t, n - 1);
      ReachedStep(s, CountActive(n - 1, t));
      assert Apply(s, CountActive(n - 1, t)).value == Crowd(t, n);
    }
  }

  lemma {:induction false} CrowdSize(t: nat, n: nat)
    ensures |Crowd(t, n).tasks| == n
  {
    var tasks := Crowd(t, n).tasks;
    if n == 0 {
      assert tasks == map[];
    } else {
      CrowdSize(t, n - 1);
      assert tasks == Crowd(t, n - 1).tasks[n - 1 := WaitingFor(t, n - 1)];
    }
  }

  /** With one loaded CPU and 2^16 - 1 waiting tasks, one more than `Roomy` allows, the count has wrapped to
      zero, and a writer that does not flush gets the lock of a table that is loaded. */
  lemma CountWraps(w: nat, t: nat)
    ensures exists s :: Reached(s) && |s.tasks| == U16 - 1 && |s.cpus| == 1 && Stale(s, w, t)
  {
    hide Reached;
    var n := U16 - 1;
    CanWait(t, n);
    var s := Crowd(t, n);
    CrowdSize(t, n);
    ReachedStep(s, LockToWrite(w, t));
    var s1 := Apply(s, LockToWrite(w, t)).value;
    ReachedStep(s1, Decide(w, t));
    var s2 := Apply(s1, Decide(w, t)).value;
    assert Stale(s2, w, t);
  }

  ghost predicate Stale(s: State, w: nat, t: nat)
  {
    LockOf(s, t) == Writer(w, false) && CpuOf(s, 0).loaded == Some(t)
  }
}
