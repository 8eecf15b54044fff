/** Promises: a cell that is filled once, and the tasks that wait for it on a waiting list. Any number of
    threads may try to complete or cancel it, and any number may wait; one atomic action per step. */
module Promises {
  import opened Options

  /** `Some` for a completed promise, `None` for a cancelled one. */
  type Outcome = Option<nat>

  datatype CellState = Empty | InUse | Complete

  /** How far the thread that won the right to fill the promise has come. */
  datatype Filler =
    | NoFiller
    | Writing(t: nat, outcome: Outcome)
    | Storing(t: nat, outcome: Outcome)
    | ToNotify(t: nat)
    | NotifyingAll(t: nat)
    | Done

  /** Who has the lock of the waiting list, and what for. */
  datatype Holder = Nobody | Checking(t: nat) | Parking(t: nat) | Notifier

  /** `entering` are the getters that are about to take the lock. `fills` are the outcomes of the attempts
      that succeeded and `results` what the getters returned; no thread reads these. */
  datatype State = State(
    cell: CellState, value: Option<Outcome>, filler: Filler,
    waiting: seq<nat>, holder: Holder, entering: set<nat>,
    fills: seq<Outcome>, results: seq<Outcome>)

  const NEW: State := State(Empty, None, NoFiller, [], Nobody, {}, [], [])

  datatype Step =
    | TryFill(t: nat, outcome: Outcome) | Write | Store | LockToNotify | NotifyNext | NotifyEnd
    | BeginGet(t: nat) | LockToWait(t: nat) | Check(t: nat) | Park(t: nat)
    | TryGet

  predicate Outside(s: State, t: nat)
  {
    t !in s.entering && t !in s.waiting && s.holder != Checking(t) && s.holder != Parking(t)
  }

  /** A step of some thread, if it can be taken. Attempts that fail and change nothing are left out. */
  function Apply(s: State, step: Step): Option<State>
  {
    match step
    // complete and cancel
    case TryFill(t, outcome) =>
      if s.cell == Empty then Some(s.(cell := InUse, filler := Writing(t, outcome))) else None
    case Write =>
      if s.filler.Writing?
      then Some(s.(value := Some(s.filler.outcome), filler := Storing(s.filler.t, s.filler.outcome)))
      else None
    case Store =>
      if s.filler.Storing?
      then Some(s.(cell := Complete, filler := ToNotify(s.filler.t), fills := s.fills + [s.filler.outcome]))
      else None
    case LockToNotify =>
      if s.filler.ToNotify? && s.holder == Nobody
      then Some(s.(filler := NotifyingAll(s.filler.t), holder := Notifier))
      else None
    case NotifyNext =>
      if s.filler.NotifyingAll? && s.waiting != []
      then Some(s.(waiting := s.waiting[1..], entering := s.entering + {s.waiting[0]}))
      else None
    case NotifyEnd =>
      if s.filler.NotifyingAll? && s.waiting == []
      then Some(s.(filler := Done, holder := Nobody))
      else None
    // get
    case BeginGet(t) =>
      if Outside(s, t) then Some(s.(entering := s.entering + {t})) else None
    case LockToWait(t) =>
      if t in s.entering && s.holder == Nobody then Some(s.(entering := s.entering - {t}, holder := Checking(t)))
      else None
    case Check(t) =>
      if s.holder != Checking(t) then None
      else if s.cell == Complete && s.value.Some? then
        Some(s.(holder := Nobody, results := s.results + [s.value.value]))
      else if s.cell == Complete then None  // would panic
      else Some(s.(holder := Parking(t)))
    case Park(t) =>
      if s.holder == Parking(t) then Some(s.(holder := Nobody, waiting := s.waiting + [t])) else None
    // try_get of a filled promise
    case TryGet =>
      if s.cell == Complete && s.value.Some? then Some(s.(results := s.results + [s.value.value])) else None
  }

  // ---- Invariant ----

  /** The cell goes from empty through in-use to complete, in step with its one filler. */
  ghost predicate FilledOnce(s: State)
  {
    match s.filler
    case NoFiller => s.cell == Empty && s.value == None && s.fills == []
    case Writing(_, _) => s.cell == InUse && s.value == None && s.fills == []
    case Storing(_, outcome) => s.cell == InUse && s.value == Some(outcome) && s.fills == []
    case _ => s.cell == Complete && s.value.Some? && s.fills == [s.value.value]
  }

  /** Everybody who got a result got the one that was filled in. */
  ghost predicate SameResult(s: State)
  {
    forall i :: 0 <= i < |s.results| ==> s.value == Some(s.results[i])
  }

  /** Whoever is parked, or about to be, will still be notified. */
  ghost predicate NoLostWakeup(s: State)
  {
    && (s.holder.Parking? ==> !s.filler.Done?)
    && (s.waiting != [] ==> !s.filler.Done?)
    && (s.holder == Notifier <==> s.filler.NotifyingAll?)
  }

  /** Every getter is in one place only. */
  ghost predicate Separate(s: State)
  {
    && (forall i :: 0 <= i < |s.waiting| ==> s.waiting[i] !in s.entering)
    && (forall i, j :: 0 <= i < j < |s.waiting| ==> s.waiting[i] != s.waiting[j])
    && (s.holder.Checking? || s.holder.Parking? ==> s.holder.t !in s.entering && s.holder.t !in s.waiting)
  }

  ghost predicate Inv(s: State)
  {
    && FilledOnce(s) && SameResult(s) && NoLostWakeup(s) && Separate(s)
    && (s.results != [] ==> s.cell == Complete)
  }

  lemma StepKeeps(s: State, step: Step)
    requires Inv(s) && Apply(s, step).Some?
    ensures Inv(Apply(s, step).value)
  {
  }

  /** A getter that finds the promise complete finds a value. */
  lemma NeverEmpty(s: State)
    requires Inv(s) && s.cell == Complete
    ensures s.value.Some?
  {
  }

  // ---- Runs ----

  ghost predicate Run(states: seq<State>, steps: seq<Step>)
  {
    && |states| == |steps| + 1 && states[0] == NEW
    && forall i :: 0 <= i < |steps| ==> Apply(states[i], steps[i]) == Some(states[i + 1])
  }

  lemma {:induction false} RunKeeps(states: seq<State>, steps: seq<Step>, i: nat)
    requires Run(states, steps) && i < |states|
    ensures Inv(states[i])
  {
    hide Apply, FilledOnce, SameResult, NoLostWakeup, Separate;
    if i == 0 {
      StartsEmpty();
    } else {
      var j := i - 1;
      RunKeeps(states, steps, j);
      assert Apply(states[j], steps[j]) == Some(states[j + 1]);
      StepKeeps(states[j], steps[j]);
    }
  }

  lemma StartsEmpty()
    ensures Inv(NEW)
  {
  }

  lemma {:induction false} StaysDone(states: seq<State>, steps: seq<Step>, i: nat, j: nat)
    requires Run(states, steps) && i <= j < |states| && states[i].filler.Done?
    ensures states[j].filler.Done? && states[j].value == states[i].value
  {
    if i < j {
      var k := j - 1;
      StaysDone(states, steps, i, k);
      RunKeeps(states, steps, k);
      assert Apply(states[k], steps[k]) == Some(states[k + 1]);
    }
  }

  // ---- What the threads get ----

  /** Once somebody has the right to fill the promise, it stays with that outcome. */
  ghost predicate FilledWith(s: State, o: Outcome)
  {
    && s.filler != NoFiller
    && (s.filler.Writing? || s.filler.Storing? ==> s.filler.outcome == o)
    && (s.value.Some? ==> s.value.value == o)
  }

  lemma {:induction false} StaysFilled(states: seq<State>, steps: seq<Step>, k: nat, j: nat)
    requires Run(states, steps) && k < j < |states| && steps[k].TryFill?
    ensures FilledWith(states[j], steps[k].outcome)
  {
    var i := j - 1;
    RunKeeps(states, steps, i);
    assert Apply(states[i], steps[i]) == Some(states[i + 1]);
    if k < i {
      StaysFilled(states, steps, k, i);
    }
  }

  /** Where there is a filler, some step made it. */
  lemma {:induction false} FilledBy(states: seq<State>, steps: seq<Step>, j: nat)
    requires Run(states, steps) && j < |states| && states[j].filler != NoFiller
    ensures exists k :: 0 <= k < j && steps[k].TryFill?
  {
    if j > 0 {
      var i := j - 1;
      assert Apply(states[i], steps[i]) == Some(states[i + 1]);
      if states[i].filler == NoFiller {
        assert steps[i].TryFill?;
      } else {
        FilledBy(states, steps, i);
      }
    }
  }

  /** The right to fill the promise is for the first who asks, and for nobody else. */
  lemma FirstFills(states: seq<State>, steps: seq<Step>, j: nat, t: nat, o: Outcome)
    requires Run(states, steps) && j < |states|
    ensures Apply(states[j], TryFill(t, o)).Some? <==> forall k :: 0 <= k < j ==> !steps[k].TryFill?
  {
    RunKeeps(states, steps, j);
    if states[j].filler != NoFiller {
      FilledBy(states, steps, j);
    } else if k :| 0 <= k < j && steps[k].TryFill? {
      StaysFilled(states, steps, k, j);
    }
  }

  /** Only one attempt in the whole run succeeds, every result is its outcome, and once its thread has notified
      everybody, no task is parked nor ever will be. */
  lemma Fulfilled(states: seq<State>, steps: seq<Step>, k: nat, j: nat)
    requires Run(states, steps) && k < |steps| && steps[k].TryFill? && j < |states|
    ensures j < |steps| && j != k ==> !steps[j].TryFill?
    ensures states[j].fills in {[], [steps[k].outcome]}
    ensures forall r :: r in states[j].results ==> k < j && r == steps[k].outcome
    ensures forall i :: 0 <= i <= j && states[i].filler.Done? ==> states[j].waiting == [] && !states[j].holder.Parking?
  {
    RunKeeps(states, steps, j);
    if j < |steps| {
      assert Apply(states[j], steps[j]) == Some(states[j + 1]);
    }
    if k < j {
      StaysFilled(states, steps, k, j);
    } else {
      assert Apply(states[k], steps[k]) == Some(states[k + 1]);
      FirstFills(states, steps, k, steps[k].t, steps[k].outcome);
      assert states[j].filler == NoFiller by {
        if states[j].filler != NoFiller {
          FilledBy(states, steps, j);
        }
      }
    }
    forall i | 0 <= i <= j && states[i].filler.Done?
      ensures states[j].waiting == [] && !states[j].holder.Parking?
    {
      StaysDone(states, steps, i, j);
    }
  }

  lemma {:induction false} Stored(states: seq<State>, steps: seq<Step>, j: nat)
    requires Run(states, steps) && j < |states|
    ensures states[j].cell == Complete <==> exists n :: 0 <= n < j && steps[n].Store?
  {
    if j > 0 {
      var i := j - 1;
      Stored(states, steps, i);
      RunKeeps(states, steps, i);
      assert Apply(states[i], steps[i]) == Some(states[i + 1]);
      assert steps[i].Store? ==> exists n :: 0 <= n < j && steps[n].Store?;
    }
  }

  /** A getter that looks after the outcome was stored returns it; one that looks before is parked. */
  lemma GetterLearns(states: seq<State>, steps: seq<Step>, k: nat, j: nat, t: nat)
    requires Run(states, steps) && k < |steps| && steps[k].TryFill? && j < |states|
    ensures states[j].holder == Checking(t) ==>
      (if exists n :: 0 <= n < j && steps[n].Store?
       then Apply(states[j], Check(t)) ==
            Some(states[j].(holder := Nobody, results := states[j].results + [steps[k].outcome]))
       else Apply(states[j], Check(t)) == Some(states[j].(holder := Parking(t))))
    ensures Apply(states[j], TryGet) ==
      if exists n :: 0 <= n < j && steps[n].Store?
      then Some(states[j].(results := states[j].results + [steps[k].outcome])) else None
  {
    hide Run;
    Stored(states, steps, j);
    RunKeeps(states, steps, j);
    if states[j].cell == Complete {
      assert k < j by {
        Fulfilled(states, steps, k, j);
        if j <= k {
          FilledBy(states, steps, j);
          var n :| 0 <= n < j && steps[n].TryFill?;
          Fulfilled(states, steps, k, n);
        }
      }
      StaysFilled(states, steps, k, j);
    }
  }

  // ---- Nobody is stuck ----

  /** The steps can be taken one after the other, and lead to `s'`. */
  ghost predicate Leads(s: State, steps: seq<Step>, s': State)
    decreases |steps|
  {
    if steps == [] then s' == s
    else Apply(s, steps[0]).Some? && Leads(Apply(s, steps[0]).value, steps[1..], s')
  }

  /** Nobody comes who was not there. */
  predicate Continues(step: Step)
  {
    !step.TryFill? && !step.BeginGet? && !step.TryGet?
  }

  /** Getters that have not returned yet. */
  ghost function Getters(s: State): nat
  {
    |s.entering| + |s.waiting| + if s.holder.Checking? || s.holder.Parking? then 1 else 0
  }

  ghost function Left(s: State): nat
  {
    var filling := match s.filler
      case NoFiller => 5
      case Writing(_, _) => 4
      case Storing(_, _) => 3
      case ToNotify(_) => 2
      case NotifyingAll(_) => 1
      case Done => 0;
    filling + 2 * |s.entering| + 3 * |s.waiting| + if s.holder.Checking? then 1 else if s.holder.Parking? then 4 else 0
  }

  /** What somebody who is there does next: the filler comes first, then whoever has the lock. */
  ghost function Next(s: State): Step
    requires Inv(s) && s.filler != NoFiller && (s.filler.Done? ==> s.holder != Nobody || s.entering != {})
  {
    if s.filler.Writing? then Write
    else if s.filler.Storing? then Store
    else match s.holder
      case Checking(t) => Check(t)
      case Parking(t) => Park(t)
      case Notifier => if s.waiting == [] then NotifyEnd else NotifyNext
      case Nobody => if s.filler.ToNotify? then LockToNotify else var t :| t in s.entering; LockToWait(t)
  }

  lemma NextMoves(s: State)
    requires Inv(s) && s.filler != NoFiller && (s.filler.Done? ==> s.holder != Nobody || s.entering != {})
    ensures Continues(Next(s)) && Apply(s, Next(s)).Some?
    ensures var s' := Apply(s, Next(s)).value;
            && Inv(s') && s'.filler != NoFiller && Left(s') < Left(s)
            && Getters(s') + |s'.results| == Getters(s) + |s.results|
  {
    NextCan(s);
    StepKeeps(s, Next(s));
    GettersKept(s, Next(s));
    hide SameResult, Separate, NoLostWakeup, Getters;
  }

  lemma NextCan(s: State)
    requires Inv(s) && s.filler != NoFiller && (s.filler.Done? ==> s.holder != Nobody || s.entering != {})
    ensures Continues(Next(s)) && Apply(s, Next(s)).Some?
  {
    hide SameResult, Separate;
  }

  lemma GettersKept(s: State, step: Step)
    requires Separate(s) && NoLostWakeup(s) && Continues(step) && Apply(s, step).Some?
    ensures var s' := Apply(s, step).value; Getters(s') + |s'.results| == Getters(s) + |s.results|
  {
    if step.NotifyNext? {
      assert s.waiting[0] !in s.entering;
      assert |s.entering + {s.waiting[0]}| == |s.entering| + 1;
    } else if step.LockToWait? {
      assert |s.entering - {step.t}| == |s.entering| - 1;
    }
    hide Separate;
  }

  /** From wherever the threads are, once somebody fills the promise, they can go on by themselves until the
      filler is done and every getter has returned. */
  lemma {:induction false} EverybodyReturns(s: State)
    requires Inv(s) && s.filler != NoFiller
    ensures exists steps, s' :: Leads(s, steps, s') && (forall i :: 0 <= i < |steps| ==> Continues(steps[i]))
              && s'.filler.Done? && Getters(s') == 0 && |s'.results| == |s.results| + Getters(s)
    decreases Left(s)
  {
    hide Apply, FilledOnce, SameResult, Separate;
    if s.filler.Done? && s.holder == Nobody && s.entering == {} {
      assert Leads(s, [], s);
    } else {
      NextMoves(s);
      var step := Next(s);
      EverybodyReturns(Apply(s, step).value);
      var steps, s' :| Leads(Apply(s, step).value, steps, s')
        && (forall i :: 0 <= i < |steps| ==> Continues(steps[i]))
        && s'.filler.Done? && Getters(s') == 0 && |s'.results| == |s.results| + Getters(s);
      assert ([step] + steps)[1..] == steps;
      assert Leads(s, [step] + steps, s');
    }
  }
  /** Whoever is not at it yet can begin to get. */
  lemma AnyoneMayGet(s: State, t: nat)
    requires Inv(s) && Outside(s, t)
    ensures Apply(s, BeginGet(t)).Some?
    ensures var s' := Apply(s, BeginGet(t)).value; !Outside(s', t) && Getters(s') == Getters(s) + 1
  {
  }
}
