/** The blocking queue on top of a waiting list: getters that find it empty are parked on the list,
    and every push wakes one of them. Any number of threads, one atomic action per step. */
module WaitQueues {
  import opened Options

  /** Who has the lock of the waiting list, and what for. */
  datatype Holder =
    | Nobody
    | Checking(t: nat)   // a getter about to look whether the queue is empty
    | Parking(t: nat)    // a getter that saw it empty; the scheduler will put it on the list
    | Notifying(t: nat)  // a pusher about to wake the first on the list

  /** `popping` and `entering` are the getters that are awake outside the lock, `notifiers` the pushers
      that have yet to take the lock. `pushed` and `popped` record all items; no thread reads them. */
  datatype State = State(
    queue: seq<nat>, waiting: seq<nat>, holder: Holder,
    popping: set<nat>, entering: set<nat>, notifiers: set<nat>,
    pushed: seq<nat>, popped: seq<nat>)

  const EMPTY: State := State([], [], Nobody, {}, {}, {}, [], [])

  datatype Step =
    | BeginGet(t: nat) | Pop(t: nat) | LockToWait(t: nat) | Check(t: nat) | Park(t: nat)
    | TakeIfAvailable
    | PushItem(t: nat, item: nat) | LockToNotify(t: nat) | NotifyOne(t: nat)

  /** The thread is neither getting nor pushing. */
  predicate Outside(s: State, t: nat)
  {
    && t !in s.popping && t !in s.entering && t !in s.notifiers && t !in s.waiting
    && (s.holder.Nobody? || s.holder.t != t)
  }

  function TakeFirst(s: State): State
    requires s.queue != []
  {
    s.(queue := s.queue[1..], popped := s.popped + [s.queue[0]])
  }

  /** A step of some thread, if it can be taken. */
  function Apply(s: State, step: Step): Option<State>
  {
    match step
    // get
    case BeginGet(t) =>
      if Outside(s, t) then Some(s.(popping := s.popping + {t})) else None
    case Pop(t) =>
      if t !in s.popping then None
      else if s.queue != [] then Some(TakeFirst(s).(popping := s.popping - {t}))
      else Some(s.(popping := s.popping - {t}, entering := s.entering + {t}))
    case LockToWait(t) =>
      if t in s.entering && s.holder == Nobody then Some(s.(entering := s.entering - {t}, holder := Checking(t)))
      else None
    case Check(t) =>
      if s.holder != Checking(t) then None
      else if s.queue != [] then Some(s.(holder := Nobody, popping := s.popping + {t}))
      else Some(s.(holder := Parking(t)))
    case Park(t) =>
      if s.holder == Parking(t) then Some(s.(holder := Nobody, waiting := s.waiting + [t])) else None
    // get_if_available
    case TakeIfAvailable =>
      if s.queue != [] then Some(TakeFirst(s)) else None
    // push
    case PushItem(t, item) =>
      if Outside(s, t)
      then Some(s.(queue := s.queue + [item], pushed := s.pushed + [item], notifiers := s.notifiers + {t}))
      else None
    case LockToNotify(t) =>
      if t in s.notifiers && s.holder == Nobody then Some(s.(notifiers := s.notifiers - {t}, holder := Notifying(t)))
      else None
    case NotifyOne(t) =>
      if s.holder != Notifying(t) then None
      else if s.waiting == [] then Some(s.(holder := Nobody))
      else Some(s.(holder := Nobody, waiting := s.waiting[1..], entering := s.entering + {s.waiting[0]}))
  }

  // ---- Invariant ----

  /** Pushers that have yet to wake somebody. */
  ghost function Pending(s: State): nat
  {
    |s.notifiers| + if s.holder.Notifying? then 1 else 0
  }

  /** Getters that will look at the queue again. */
  ghost function Awake(s: State): nat
  {
    |s.popping| + |s.entering| + if s.holder.Checking? then 1 else 0
  }

  /** Every thread is in one place only. */
  ghost predicate Separate(s: State)
  {
    && s.popping !! s.entering && s.popping !! s.notifiers && s.entering !! s.notifiers
    && (forall i :: 0 <= i < |s.waiting| ==>
          s.waiting[i] !in s.popping && s.waiting[i] !in s.entering && s.waiting[i] !in s.notifiers)
    && (forall i, j :: 0 <= i < j < |s.waiting| ==> s.waiting[i] != s.waiting[j])
    && (s.holder != Nobody ==>
          && s.holder.t !in s.popping && s.holder.t !in s.entering
          && s.holder.t !in s.notifiers && s.holder.t !in s.waiting)
  }

  /** While anybody is parked, every item has a pusher about to notify or a getter about to look. */
  ghost predicate NotStranded(s: State)
  {
    && (s.waiting != [] ==> |s.queue| <= Pending(s) + Awake(s))
    && (s.holder.Parking? ==> |s.queue| <= Pending(s))
  }

  /** Items leave in the order in which they came. */
  ghost predicate Fifo(s: State)
  {
    s.pushed == s.popped + s.queue
  }

  ghost predicate Inv(s: State)
  {
    Separate(s) && NotStranded(s) && Fifo(s)
  }

  lemma StepKeeps(s: State, step: Step)
    requires Inv(s) && Apply(s, step).Some?
    ensures Inv(Apply(s, step).value)
  {
    hide Apply, Separate, NotStranded, Fifo;
    SeparateKept(s, step);
    NotStrandedKept(s, step);
    FifoKept(s, step);
  }

  lemma SeparateKept(s: State, step: Step)
    requires Separate(s) && Apply(s, step).Some?
    ensures Separate(Apply(s, step).value)
  {
  }

  lemma NotStrandedKept(s: State, step: Step)
    requires Inv(s) && Apply(s, step).Some?
    ensures NotStranded(Apply(s, step).value)
  {
  }

  lemma FifoKept(s: State, step: Step)
    requires Fifo(s) && Apply(s, step).Some?
    ensures Fifo(Apply(s, step).value)
  {
  }

  /** With nobody left to notify or to look, a parked getter means an empty queue. */
  lemma Quiet(s: State)
    requires Inv(s) && s.waiting != [] && Pending(s) == 0 && Awake(s) == 0
    ensures s.queue == [] && s.popped == s.pushed
  {
  }

  // ---- Runs ----

  ghost predicate Run(states: seq<State>, steps: seq<Step>)
  {
    && |states| == |steps| + 1 && states[0] == EMPTY
    && forall i :: 0 <= i < |steps| ==> Apply(states[i], steps[i]) == Some(states[i + 1])
  }

  lemma {:induction false} RunKeeps(states: seq<State>, steps: seq<Step>, i: nat)
    requires Run(states, steps) && i < |states|
    ensures Inv(states[i])
  {
    hide Apply, Separate, NotStranded, Fifo;
    if i == 0 {
      StartsEmpty();
    } else {
      var j := i - 1;
      RunKeeps(states, steps, j);
      assert Apply(states[j], steps[j]) == Some(states[j + 1]);
      StepKeeps(states[j], steps[j]);
    }
  }

  lemma StartsEmpty()
    ensures Inv(EMPTY)
  {
  }
  // ---- What the threads get ----

  /** The items of the pushes among the steps, in order. */
  ghost function Items(steps: seq<Step>): seq<nat>
  {
    if steps == [] then []
    else
      var last := steps[|steps| - 1];
      Items(steps[..|steps| - 1]) + if last.PushItem? then [last.item] else []
  }

  /** How many of the steps took an item, where each takes one if there is one. */
  ghost function Takes(steps: seq<Step>): nat
  {
    if steps == [] then 0
    else
      var before, last := steps[..|steps| - 1], steps[|steps| - 1];
      Takes(before) + if (last.Pop? || last.TakeIfAvailable?) && Takes(before) < |Items(before)| then 1 else 0
  }

  /** What was taken is what was pushed, oldest first and as much of it as was asked for. */
  lemma {:induction false} OldestFirst(states: seq<State>, steps: seq<Step>, i: nat)
    requires Run(states, steps) && i < |states|
    ensures Takes(steps[..i]) <= |Items(steps[..i])|
    ensures states[i].popped == Items(steps[..i])[..Takes(steps[..i])]
    ensures states[i].queue == Items(steps[..i])[Takes(steps[..i])..]
  {
    if i > 0 {
      var j := i - 1;
      OldestFirst(states, steps, j);
      assert Apply(states[j], steps[j]) == Some(states[j + 1]);
      OneMore(steps, j);
      hide Run, Items, Takes;
      QueueAfter(states[j], steps[j]);
    }
  }

  lemma OneMore(steps: seq<Step>, j: nat)
    requires j < |steps|
    ensures Items(steps[..j + 1]) == Items(steps[..j]) + if steps[j].PushItem? then [steps[j].item] else []
    ensures Takes(steps[..j + 1]) ==
      Takes(steps[..j]) +
      if (steps[j].Pop? || steps[j].TakeIfAvailable?) && Takes(steps[..j]) < |Items(steps[..j])| then 1 else 0
  {
    assert steps[..j + 1][..j] == steps[..j] && steps[..j + 1][j] == steps[j];
  }

  lemma QueueAfter(s: State, step: Step)
    requires Apply(s, step).Some?
    ensures var s' := Apply(s, step).value;
            if (step.Pop? || step.TakeIfAvailable?) && s.queue != []
            then s'.queue == s.queue[1..] && s'.popped == s.popped + [s.queue[0]]
            else s'.popped == s.popped && s'.queue == s.queue + if step.PushItem? then [step.item] else []
  {
  }

  /** A getter that looks takes the oldest item if there is one, and goes to wait otherwise; a look without
      waiting does the same but for the waiting. */
  lemma GetsOldest(states: seq<State>, steps: seq<Step>, i: nat, t: nat)
    requires Run(states, steps) && i < |states|
    ensures var s, items, n := states[i], Items(steps[..i]), Takes(steps[..i]);
            && (t in s.popping ==> Apply(s, Pop(t)).Some?)
            && (t in s.popping && n < |items| ==>
                  var s' := Apply(s, Pop(t)).value; s'.popped == s.popped + [items[n]] && Outside(s', t))
            && (t in s.popping && n == |items| ==>
                  var s' := Apply(s, Pop(t)).value; s'.popped == s.popped && t in s'.entering)
            && (Apply(s, TakeIfAvailable).Some? <==> n < |items|)
            && (n < |items| ==> Apply(s, TakeIfAvailable).value.popped == s.popped + [items[n]])
  {
    OldestFirst(states, steps, i);
    RunKeeps(states, steps, i);
    hide NotStranded, Run;
  }

  // ---- Nobody is stuck ----

  /** The steps can be taken one after the other, and lead to `s'`. */
  ghost predicate Leads(s: State, steps: seq<Step>, s': State)
    decreases |steps|
  {
    if steps == [] then s' == s
    else Apply(s, steps[0]).Some? && Leads(Apply(s, steps[0]).value, steps[1..], s')
  }

  /** Nobody comes who was not there. */
  predicate Continues(step: Step)
  {
    !step.BeginGet? && !step.PushItem? && !step.TakeIfAvailable?
  }

  ghost function Getters(s: State): nat
  {
    Awake(s) + |s.waiting| + if s.holder.Parking? then 1 else 0
  }

  /** Everybody who is not parked has left. */
  ghost predicate AtRest(s: State)
  {
    s.popping == {} && s.entering == {} && s.notifiers == {} && s.holder == Nobody
  }

  /** What somebody who is there does next: whoever has the lock comes first. */
  ghost function Next(s: State): Step
    requires !AtRest(s)
  {
    match s.holder
    case Checking(t) => Check(t)
    case Parking(t) => Park(t)
    case Notifying(t) => NotifyOne(t)
    case Nobody =>
      if s.popping != {} then var t :| t in s.popping; Pop(t)
      else if s.notifiers != {} then var t :| t in s.notifiers; LockToNotify(t)
      else var t :| t in s.entering; LockToWait(t)
  }

  ghost function Wakes(s: State): nat
  {
    |s.queue| + 2 * |s.notifiers| + if s.holder.Notifying? then 1 else 0
  }

  /** Getters that find nothing go from looking through waiting for the lock to being parked. */
  ghost function Left(s: State): nat
  {
    (if s.queue == [] then 4 else 1) * |s.popping| + 3 * |s.entering|
    + if s.holder.Checking? then 2 else if s.holder.Parking? then 1 else 0
  }

  lemma NextMoves(s: State)
    requires Inv(s) && !AtRest(s)
    ensures Continues(Next(s)) && Apply(s, Next(s)).Some?
    ensures var s' := Apply(s, Next(s)).value;
            && Inv(s') && (Wakes(s') < Wakes(s) || (Wakes(s') == Wakes(s) && Left(s') < Left(s)))
            && s'.pushed == s.pushed && Getters(s') + |s'.popped| == Getters(s) + |s.popped|
  {
    hide NotStranded, Fifo;
    StepKeeps(s, Next(s));
  }

  /** From wherever the threads are, they can go on by themselves until all have left or are parked, and then
      every getter has an item or there is none left. */
  lemma {:induction false} EverybodyServed(s: State)
    requires Inv(s)
    ensures exists steps, s' :: Leads(s, steps, s') && (forall i :: 0 <= i < |steps| ==> Continues(steps[i]))
              && AtRest(s') && s'.pushed == s.pushed && Served(s, s')
    decreases Wakes(s), Left(s)
  {
    hide Apply, Separate, NotStranded, Fifo;
    if AtRest(s) {
      RestIsServed(s);
      assert Leads(s, [], s);
    } else {
      NextMoves(s);
      var step := Next(s);
      var s1 := Apply(s, step).value;
      EverybodyServed(s1);
      var steps, s' :| Leads(s1, steps, s') && (forall i :: 0 <= i < |steps| ==> Continues(steps[i]))
        && AtRest(s') && s'.pushed == s1.pushed && Served(s1, s');
      assert ([step] + steps)[1..] == steps;
      assert Leads(s, [step] + steps, s');
      MoreServed(s, s1, s');
    }
  }

  /** As many items were handed out as there were getters, or all there were. */
  ghost predicate Served(s: State, s': State)
  {
    |s'.popped| == if Getters(s) + |s.popped| <= |s.pushed| then Getters(s) + |s.popped| else |s.pushed|
  }

  lemma RestIsServed(s: State)
    requires Inv(s) && AtRest(s)
    ensures Served(s, s)
  {
    if s.waiting != [] {
      Quiet(s);
    }
  }

  lemma MoreServed(s: State, s1: State, s': State)
    requires Served(s1, s') && s1.pushed == s.pushed && Getters(s1) + |s1.popped| == Getters(s) + |s.popped|
    ensures Served(s, s')
  {
  }

  /** Whoever is not at it yet can begin to get, or push. */
  lemma AnyoneMayCome(s: State, t: nat, item: nat)
    requires Inv(s) && Outside(s, t)
    ensures Apply(s, BeginGet(t)).Some? && Getters(Apply(s, BeginGet(t)).value) == Getters(s) + 1
    ensures Apply(s, PushItem(t, item)).Some? && Pending(Apply(s, PushItem(t, item)).value) == Pending(s) + 1
  {
  }
}
