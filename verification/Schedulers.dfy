/** The schedulers of all CPUs with their queues, and the waiting lists that tasks are parked on. */
module Schedulers {
  import opened Options

  /** Tasks are told apart by their id. */
  type Task = nat

  datatype Command = PushBack | Terminate | SleepNTicks(ticks: nat) | PushToWaitingList(list: nat)

  datatype Sleeper = Sleeper(task: Task, wakeAt: nat)

  datatype Entry = Entry(task: Task, cpu: nat)

  /** `resuming` is a task that left the run queue but is not current yet. */
  datatype Cpu = Cpu(current: Option<Task>, resuming: Option<Task>, runQueue: seq<Task>,
                     sleeping: seq<Sleeper>, deferredDrop: seq<Task>, ticks: nat)

  // ---- One tick ----

  /** The tasks whose time has come, last sleeper first. */
  function Woken(sleeping: seq<Sleeper>, now: nat): seq<Task>
  {
    if sleeping == [] then []
    else
      var last := sleeping[|sleeping| - 1];
      (if last.wakeAt <= now then [last.task] else []) + Woken(sleeping[..|sleeping| - 1], now)
  }

  function StillAsleep(sleeping: seq<Sleeper>, now: nat): seq<Sleeper>
  {
    if sleeping == [] then []
    else
      var last := sleeping[|sleeping| - 1];
      StillAsleep(sleeping[..|sleeping| - 1], now) + if last.wakeAt <= now then [] else [last]
  }

  /** The last element takes the place of the removed one. */
  function SwapRemoveBack(s: seq<Sleeper>, i: nat): seq<Sleeper>
    requires i < |s|
  {
    s[i := s[|s| - 1]][..|s| - 1]
  }

  lemma SwapShape(s: seq<Sleeper>, i: nat)
    requires i < |s|
    ensures var n := |s| - 1;
            SwapRemoveBack(s, i) == if i == n then s[..n] else s[..i] + [s[n]] + s[i + 1..n]
  {
  }

  lemma SwapRemoved(s: seq<Sleeper>, i: nat)
    requires i < |s|
    ensures multiset(SwapRemoveBack(s, i)) + multiset{s[i]} == multiset(s)
    ensures |SwapRemoveBack(s, i)| >= i && SwapRemoveBack(s, i)[..i] == s[..i]
  {
    SwapPrefix(s, i);
    SwapShape(s, i);
    hide SwapRemoveBack;
    var n := |s| - 1;
    if i == n {
      assert s == s[..n] + [s[n]];
    } else {
      Pieces(s, i);
      Permuted(s[..i], s[i], s[i + 1..n], s[n]);
    }
  }

  lemma Pieces(s: seq<Sleeper>, i: nat)
    requires i < |s| - 1
    ensures var n := |s| - 1; s == s[..i] + ([s[i]] + (s[i + 1..n] + [s[n]]))
  {
  }

  lemma SwapPrefix(s: seq<Sleeper>, i: nat)
    requires i < |s|
    ensures |SwapRemoveBack(s, i)| >= i && SwapRemoveBack(s, i)[..i] == s[..i]
  {
  }

  lemma Permuted(u: seq<Sleeper>, x: Sleeper, v: seq<Sleeper>, y: Sleeper)
    ensures multiset(u + [y] + v) + multiset{x} == multiset(u + ([x] + (v + [y])))
  {
  }

  lemma OneMore(sleeping: seq<Sleeper>, i: nat, now: nat)
    requires i < |sleeping|
    ensures var s := sleeping[i];
            && Woken(sleeping[..i + 1], now) == (if s.wakeAt <= now then [s.task] else []) + Woken(sleeping[..i], now)
            && StillAsleep(sleeping[..i + 1], now)
               == StillAsleep(sleeping[..i], now) + (if s.wakeAt <= now then [] else [s])
  {
    assert sleeping[..i + 1] == sleeping[..i] + [sleeping[i]];
  }

  /** The sleepers from `i` on are dealt with; `rest` are those of them that sleep on. */
  ghost predicate Ticking(sleeping: seq<Sleeper>, runQueue: seq<Task>, now: nat, i: nat,
                          sleeping': seq<Sleeper>, runQueue': seq<Task>, rest: multiset<Sleeper>)
    requires i <= |sleeping|
  {
    && i <= |sleeping'| && sleeping'[..i] == sleeping[..i]
    && multiset(sleeping') == multiset(sleeping[..i]) + rest
    && runQueue' + Woken(sleeping[..i], now) == runQueue + Woken(sleeping, now)
    && multiset(StillAsleep(sleeping[..i], now)) + rest == multiset(StillAsleep(sleeping, now))
  }

  lemma TickStart(sleeping: seq<Sleeper>, runQueue: seq<Task>, now: nat)
    ensures Ticking(sleeping, runQueue, now, |sleeping|, sleeping, runQueue, multiset{})
  {
    assert sleeping[..|sleeping|] == sleeping;
  }

  lemma SamePrefix(sleeping: seq<Sleeper>, sleeping': seq<Sleeper>, i: nat)
    requires i < |sleeping| && i < |sleeping'| && sleeping'[..i + 1] == sleeping[..i + 1]
    ensures sleeping'[i] == sleeping[i] && sleeping'[..i] == sleeping[..i]
    ensures multiset(sleeping[..i + 1]) == multiset(sleeping[..i]) + multiset{sleeping[i]}
  {
    assert sleeping'[i] == sleeping'[..i + 1][i];
    assert sleeping'[..i] == sleeping'[..i + 1][..i];
    assert sleeping[..i] == sleeping[..i + 1][..i];
    assert sleeping[..i + 1] == sleeping[..i] + [sleeping[i]];
  }

  lemma TickWake(sleeping: seq<Sleeper>, runQueue: seq<Task>, now: nat, i: nat,
                 sleeping': seq<Sleeper>, runQueue': seq<Task>, rest: multiset<Sleeper>)
    requires i < |sleeping| && Ticking(sleeping, runQueue, now, i + 1, sleeping', runQueue', rest)
    requires sleeping'[i].wakeAt <= now
    ensures Ticking(sleeping, runQueue, now, i, SwapRemoveBack(sleeping', i), runQueue' + [sleeping'[i].task], rest)
  {
    hide Woken, StillAsleep, SwapRemoveBack;
    OneMore(sleeping, i, now);
    SamePrefix(sleeping, sleeping', i);
    SwapRemoved(sleeping', i);
    var woken := Woken(sleeping[..i], now);
    assert (runQueue' + [sleeping'[i].task]) + woken == runQueue' + ([sleeping'[i].task] + woken);
    assert StillAsleep(sleeping[..i], now) + [] == StillAsleep(sleeping[..i], now);
    Cancel(multiset(SwapRemoveBack(sleeping', i)), multiset(sleeping[..i]), rest, sleeping[i]);
  }

  lemma Cancel(a: multiset<Sleeper>, b: multiset<Sleeper>, c: multiset<Sleeper>, x: Sleeper)
    requires a + multiset{x} == (b + multiset{x}) + c
    ensures a == b + c
  {
    assert a == (a + multiset{x}) - multiset{x};
    assert b + c == ((b + multiset{x}) + c) - multiset{x};
  }

  lemma TickKeep(sleeping: seq<Sleeper>, runQueue: seq<Task>, now: nat, i: nat,
                 sleeping': seq<Sleeper>, runQueue': seq<Task>, rest: multiset<Sleeper>)
    requires i < |sleeping| && Ticking(sleeping, runQueue, now, i + 1, sleeping', runQueue', rest)
    requires sleeping'[i].wakeAt > now
    ensures Ticking(sleeping, runQueue, now, i, sleeping', runQueue', rest + multiset{sleeping'[i]})
  {
    hide Woken, StillAsleep;
    OneMore(sleeping, i, now);
    SamePrefix(sleeping, sleeping', i);
  }

  /** Wake everybody whose time has come. Going backwards, an element that was swapped into a gap has
      been looked at already. */
  method WakeSleepers(sleeping: seq<Sleeper>, runQueue: seq<Task>, now: nat)
    returns (sleeping': seq<Sleeper>, runQueue': seq<Task>)
    ensures runQueue' == runQueue + Woken(sleeping, now)
    ensures multiset(sleeping') == multiset(StillAsleep(sleeping, now))
  {
    sleeping', runQueue' := sleeping, runQueue;
    ghost var rest: multiset<Sleeper> := multiset{};
    TickStart(sleeping, runQueue, now);
    for i := |sleeping| downto 0
      invariant Ticking(sleeping, runQueue, now, i, sleeping', runQueue', rest)
    {
      if sleeping'[i].wakeAt <= now {
        TickWake(sleeping, runQueue, now, i, sleeping', runQueue', rest);
        runQueue' := runQueue' + [sleeping'[i].task];
        sleeping' := SwapRemoveBack(sleeping', i);
      } else {
        TickKeep(sleeping, runQueue, now, i, sleeping', runQueue', rest);
        rest := rest + multiset{sleeping'[i]};
      }
    }
  }

  /** A tick wakes exactly the sleepers whose time has come, each once. */
  lemma {:induction false} WokenExactly(sleeping: seq<Sleeper>, now: nat)
    ensures forall x :: x in StillAsleep(sleeping, now) <==> x in sleeping && x.wakeAt > now
    ensures forall t :: t in Woken(sleeping, now) <==> exists x :: x in sleeping && x.task == t && x.wakeAt <= now
    ensures |Woken(sleeping, now)| + |StillAsleep(sleeping, now)| == |sleeping|
  {
    if sleeping != [] {
      var n := |sleeping| - 1;
      WokenExactly(sleeping[..n], now);
      assert sleeping == sleeping[..n] + [sleeping[n]];
    }
  }

  // ---- Where the tasks are ----

  datatype Place = Current(cpu: nat) | Resuming(cpu: nat) | Queued(cpu: nat) | Asleep(cpu: nat) | Waiting(list: nat)

  function OneOrNone(task: Option<Task>): seq<Task>
  {
    if task.Some? then [task.value] else []
  }

  ghost function SleepingTasks(sleeping: seq<Sleeper>): seq<Task>
  {
    seq(|sleeping|, i requires 0 <= i < |sleeping| => sleeping[i].task)
  }

  ghost function WaitingTasks(list: seq<Entry>): seq<Task>
  {
    seq(|list|, i requires 0 <= i < |list| => list[i].task)
  }

  ghost predicate InRange(p: Place, cpus: nat, lists: nat)
  {
    if p.Waiting? then p.list < lists else p.cpu < cpus
  }

  /** The tasks at a place. */
  ghost function Container(cpus: seq<Cpu>, lists: seq<seq<Entry>>, p: Place): seq<Task>
    requires InRange(p, |cpus|, |lists|)
  {
    match p
    case Current(c) => OneOrNone(cpus[c].current)
    case Resuming(c) => OneOrNone(cpus[c].resuming)
    case Queued(c) => cpus[c].runQueue
    case Asleep(c) => SleepingTasks(cpus[c].sleeping)
    case Waiting(l) => WaitingTasks(lists[l])
  }

  predicate IsAt(places: map<Task, Place>, t: Task, p: Place)
  {
    t in places && places[t] == p
  }

  /** The sequence has no duplicates, and its members are the tasks at `p`. */
  ghost predicate Holds(tasks: seq<Task>, places: map<Task, Place>, p: Place)
  {
    && (forall i, j :: 0 <= i < j < |tasks| ==> tasks[i] != tasks[j])
    && (forall t: Task :: t in tasks <==> IsAt(places, t, p))
  }

  /** Every task is in the container of its place, once, and in no other. */
  ghost predicate Placed(cpus: seq<Cpu>, lists: seq<seq<Entry>>, places: map<Task, Place>)
  {
    && (forall p :: InRange(p, |cpus|, |lists|) ==> Holds(Container(cpus, lists, p), places, p))
    && (forall t :: t in places ==> InRange(places[t], |cpus|, |lists|))
  }

  /** Two sequences with one element more and less. */
  ghost predicate Without(tasks: seq<Task>, t: Task, tasks': seq<Task>)
  {
    exists i :: 0 <= i < |tasks| && tasks[i] == t && tasks' == tasks[..i] + tasks[i + 1..]
  }

  lemma HoldsWithout(tasks: seq<Task>, t: Task, tasks': seq<Task>, places: map<Task, Place>, places': map<Task, Place>,
                     p: Place)
    requires Holds(tasks, places, p) && Without(tasks, t, tasks')
    requires forall u: Task :: IsAt(places', u, p) <==> IsAt(places, u, p) && u != t
    ensures Holds(tasks', places', p)
  {
  }

  lemma HoldsWith(tasks: seq<Task>, t: Task, places: map<Task, Place>, places': map<Task, Place>, p: Place)
    requires Holds(tasks, places, p) && !IsAt(places, t, p)
    requires forall u: Task :: IsAt(places', u, p) <==> IsAt(places, u, p) || u == t
    ensures Holds(tasks + [t], places', p)
  {
  }

  lemma HoldsSame(tasks: seq<Task>, places: map<Task, Place>, places': map<Task, Place>, p: Place)
    requires Holds(tasks, places, p)
    requires forall u: Task :: IsAt(places', u, p) <==> IsAt(places, u, p)
    ensures Holds(tasks, places', p)
  {
  }

  /** How the containers change when `t` goes to `q`, or away for good. */
  ghost predicate Moves(cpus: seq<Cpu>, lists: seq<seq<Entry>>, cpus': seq<Cpu>, lists': seq<seq<Entry>>,
                        t: Task, from: Option<Place>, to: Option<Place>)
  {
    && |cpus'| == |cpus| && |lists'| == |lists| && from != to
    && (to.Some? ==> InRange(to.value, |cpus|, |lists|))
    && (forall p :: InRange(p, |cpus|, |lists|) ==>
          if Some(p) == from then Without(Container(cpus, lists, p), t, Container(cpus', lists', p))
          else if Some(p) == to then Container(cpus', lists', p) == Container(cpus, lists, p) + [t]
          else Container(cpus', lists', p) == Container(cpus, lists, p))
  }

  ghost function PlaceOf(places: map<Task, Place>, t: Task): Option<Place>
  {
    if t in places then Some(places[t]) else None
  }

  ghost function Replaced(places: map<Task, Place>, t: Task, to: Option<Place>): map<Task, Place>
  {
    if to.Some? then places[t := to.value] else places - {t}
  }

  lemma MoveKeeps(cpus: seq<Cpu>, lists: seq<seq<Entry>>, cpus': seq<Cpu>, lists': seq<seq<Entry>>,
                  places: map<Task, Place>, t: Task, to: Option<Place>)
    requires Placed(cpus, lists, places) && Moves(cpus, lists, cpus', lists', t, PlaceOf(places, t), to)
    ensures Placed(cpus', lists', Replaced(places, t, to))
  {
    hide Container, Without;
    var places' := Replaced(places, t, to);
    forall p | InRange(p, |cpus'|, |lists'|)
      ensures Holds(Container(cpus', lists', p), places', p)
    {
      var tasks := Container(cpus, lists, p);
      assert Holds(tasks, places, p);
      hide Holds;
      if PlaceOf(places, t) == Some(p) {
        HoldsWithout(tasks, t, Container(cpus', lists', p), places, places', p);
      } else if to == Some(p) {
        HoldsWith(tasks, t, places, places', p);
      } else {
        HoldsSame(tasks, places, places', p);
      }
    }
  }

  // ---- What a tick does to the places ----

  ghost predicate DistinctTasks(s: seq<Sleeper>)
  {
    forall i, j :: 0 <= i < j < |s| ==> s[i].task != s[j].task
  }

  lemma {:induction false} AtMostOnce(s: seq<Sleeper>, x: Sleeper)
    requires DistinctTasks(s)
    ensures multiset(s)[x] <= 1
  {
    if s != [] {
      var n := |s| - 1;
      assert s == s[..n] + [s[n]];
      AtMostOnce(s[..n], x);
      assert x in s[..n] ==> x != s[n];
    }
  }

  lemma AtLeastTwice(s: seq<Sleeper>, i: nat, j: nat)
    requires i < j < |s| && s[i] == s[j]
    ensures multiset(s)[s[i]] >= 2
  {
    assert s == s[..j] + [s[j]] + s[j + 1..];
    assert s[i] == s[..j][i];
    assert s[i] in multiset(s[..j]);
  }

  /** Shuffling keeps tasks distinct. */
  lemma DistinctShuffled(s: seq<Sleeper>, s': seq<Sleeper>)
    requires DistinctTasks(s) && multiset(s') == multiset(s)
    ensures DistinctTasks(s')
  {
    forall i, j | 0 <= i < j < |s'|
      ensures s'[i].task != s'[j].task
    {
      if s'[i] == s'[j] {
        AtLeastTwice(s', i, j);
        AtMostOnce(s, s'[i]);
      } else {
        assert s'[i] in multiset(s) && s'[j] in multiset(s);
        var k :| 0 <= k < |s| && s[k] == s'[i];
        var m :| 0 <= m < |s| && s[m] == s'[j];
      }
    }
  }

  lemma {:induction false} StillDistinct(s: seq<Sleeper>, now: nat)
    requires DistinctTasks(s)
    ensures DistinctTasks(StillAsleep(s, now))
  {
    if s != [] {
      var n := |s| - 1;
      StillDistinct(s[..n], now);
      WokenExactly(s[..n], now);
      forall x | x in StillAsleep(s[..n], now)
        ensures x.task != s[n].task
      {
        var k :| 0 <= k < n && s[k] == x;
      }
    }
  }

  lemma {:induction false} WokenDistinct(s: seq<Sleeper>, now: nat)
    requires DistinctTasks(s)
    ensures forall i, j :: 0 <= i < j < |Woken(s, now)| ==> Woken(s, now)[i] != Woken(s, now)[j]
  {
    if s != [] {
      var n := |s| - 1;
      WokenDistinct(s[..n], now);
      WokenExactly(s[..n], now);
      forall x | x in s[..n]
        ensures x.task != s[n].task
      {
        var k :| 0 <= k < n && s[k] == x;
      }
      assert s[n].task !in Woken(s[..n], now);
    }
  }

  ghost function AfterTick(places: map<Task, Place>, c: nat, woken: seq<Task>): map<Task, Place>
  {
    map t | t in places :: if t in woken then Queued(c) else places[t]
  }

  /** The tasks of the sleepers, as a set. */
  lemma SleepingIff(s: seq<Sleeper>, t: Task)
    ensures t in SleepingTasks(s) <==> exists x :: x in s && x.task == t
  {
    if t in SleepingTasks(s) {
      var i :| 0 <= i < |s| && SleepingTasks(s)[i] == t;
      assert s[i] in s;
    }
    if x :| x in s && x.task == t {
      var i :| 0 <= i < |s| && s[i] == x;
      assert SleepingTasks(s)[i] == t;
    }
  }

  /** A sleeper was woken or sleeps on, not both. */
  lemma WokenOrAsleep(s: seq<Sleeper>, s': seq<Sleeper>, now: nat, t: Task)
    requires DistinctTasks(s) && multiset(s') == multiset(StillAsleep(s, now))
    ensures t in SleepingTasks(s') <==> t in SleepingTasks(s) && t !in Woken(s, now)
    ensures t in Woken(s, now) ==> t in SleepingTasks(s)
  {
    SleepingIff(s, t);
    SleepingIff(s', t);
    WokenExactly(s, now);
    forall x
      ensures x in s' <==> x in s && x.wakeAt > now
    {
      assert x in multiset(s') <==> x in multiset(StillAsleep(s, now));
    }
    hide SleepingTasks, Woken, StillAsleep;
    forall x, y | x in s && y in s && x.task == t == y.task
      ensures x == y
    {
      SameTask(s, x, y);
    }
  }

  lemma SameTask(s: seq<Sleeper>, x: Sleeper, y: Sleeper)
    requires DistinctTasks(s) && x in s && y in s && x.task == y.task
    ensures x == y
  {
  }

  lemma TickKeeps(cpus: seq<Cpu>, lists: seq<seq<Entry>>, places: map<Task, Place>, c: nat, now: nat,
                  sleeping': seq<Sleeper>)
    requires Placed(cpus, lists, places) && c < |cpus|
    requires multiset(sleeping') == multiset(StillAsleep(cpus[c].sleeping, now))
    ensures var woken := Woken(cpus[c].sleeping, now);
            var cpu := cpus[c].(sleeping := sleeping', runQueue := cpus[c].runQueue + woken, ticks := now);
            Placed(cpus[c := cpu], lists, AfterTick(places, c, woken))
  {
    hide Placed, Holds, Woken, AfterTick, StillAsleep, SleepingTasks, WaitingTasks;
    var sleeping, woken := cpus[c].sleeping, Woken(cpus[c].sleeping, now);
    var cpu := cpus[c].(sleeping := sleeping', runQueue := cpus[c].runQueue + woken, ticks := now);
    var cpus', places' := cpus[c := cpu], AfterTick(places, c, woken);
    PlacedAt(cpus, lists, places, Asleep(c));
    PlacedAt(cpus, lists, places, Queued(c));
    TickQueue(cpus[c].runQueue, sleeping, sleeping', places, c, now);
    TickSleep(sleeping, sleeping', places, c, now);
    forall p | InRange(p, |cpus'|, |lists|)
      ensures Holds(Container(cpus', lists, p), places', p)
    {
      if p != Queued(c) && p != Asleep(c) {
        PlacedAt(cpus, lists, places, p);
        TickOther(sleeping, sleeping', places, c, now, p);
        HoldsSame(Container(cpus, lists, p), places, places', p);
      }
    }
    TickInRange(cpus, lists, places, c, woken);
    PlacedBy(cpus', lists, places');
  }

  lemma PlacedAt(cpus: seq<Cpu>, lists: seq<seq<Entry>>, places: map<Task, Place>, p: Place)
    requires Placed(cpus, lists, places) && InRange(p, |cpus|, |lists|)
    ensures Holds(Container(cpus, lists, p), places, p)
  {
  }

  lemma PlacedBy(cpus: seq<Cpu>, lists: seq<seq<Entry>>, places: map<Task, Place>)
    requires forall p :: InRange(p, |cpus|, |lists|) ==> Holds(Container(cpus, lists, p), places, p)
    requires forall t :: t in places ==> InRange(places[t], |cpus|, |lists|)
    ensures Placed(cpus, lists, places)
  {
  }

  lemma TickInRange(cpus: seq<Cpu>, lists: seq<seq<Entry>>, places: map<Task, Place>, c: nat, woken: seq<Task>)
    requires Placed(cpus, lists, places) && c < |cpus|
    ensures forall t :: t in AfterTick(places, c, woken) ==> InRange(AfterTick(places, c, woken)[t], |cpus|, |lists|)
  {
  }

  lemma AsleepDistinct(sleeping: seq<Sleeper>, places: map<Task, Place>, p: Place)
    requires Holds(SleepingTasks(sleeping), places, p)
    ensures DistinctTasks(sleeping)
  {
    forall i, j | 0 <= i < j < |sleeping|
      ensures sleeping[i].task != sleeping[j].task
    {
      assert SleepingTasks(sleeping)[i] != SleepingTasks(sleeping)[j];
    }
  }

  lemma TickQueue(runQueue: seq<Task>, sleeping: seq<Sleeper>, sleeping': seq<Sleeper>, places: map<Task, Place>,
                  c: nat, now: nat)
    requires Holds(runQueue, places, Queued(c)) && Holds(SleepingTasks(sleeping), places, Asleep(c))
    requires multiset(sleeping') == multiset(StillAsleep(sleeping, now))
    ensures Holds(runQueue + Woken(sleeping, now), AfterTick(places, c, Woken(sleeping, now)), Queued(c))
  {
    AsleepDistinct(sleeping, places, Asleep(c));
    WokenDistinct(sleeping, now);
    forall t: Task
      ensures t in Woken(sleeping, now) ==> IsAt(places, t, Asleep(c))
    {
      WokenOrAsleep(sleeping, sleeping', now, t);
    }
    hide Woken, SleepingTasks;
    var woken := Woken(sleeping, now);
    forall t: Task
      ensures t in runQueue + woken <==> IsAt(AfterTick(places, c, woken), t, Queued(c))
    {
      assert t in runQueue <==> IsAt(places, t, Queued(c));
    }
    forall i, j | 0 <= i < j < |runQueue + woken|
      ensures (runQueue + woken)[i] != (runQueue + woken)[j]
    {
      if i < |runQueue| <= j {
        assert runQueue[i] in runQueue && woken[j - |runQueue|] in woken;
      }
    }
  }

  lemma TickSleep(sleeping: seq<Sleeper>, sleeping': seq<Sleeper>, places: map<Task, Place>, c: nat, now: nat)
    requires Holds(SleepingTasks(sleeping), places, Asleep(c))
    requires multiset(sleeping') == multiset(StillAsleep(sleeping, now))
    ensures Holds(SleepingTasks(sleeping'), AfterTick(places, c, Woken(sleeping, now)), Asleep(c))
  {
    AsleepDistinct(sleeping, places, Asleep(c));
    StillDistinct(sleeping, now);
    DistinctShuffled(StillAsleep(sleeping, now), sleeping');
    forall t: Task
      ensures t in SleepingTasks(sleeping') <==> IsAt(AfterTick(places, c, Woken(sleeping, now)), t, Asleep(c))
    {
      WokenOrAsleep(sleeping, sleeping', now, t);
    }
  }

  lemma TickOther(sleeping: seq<Sleeper>, sleeping': seq<Sleeper>, places: map<Task, Place>, c: nat, now: nat, p: Place)
    requires Holds(SleepingTasks(sleeping), places, Asleep(c))
    requires multiset(sleeping') == multiset(StillAsleep(sleeping, now))
    requires p != Queued(c) && p != Asleep(c)
    ensures forall t: Task :: IsAt(AfterTick(places, c, Woken(sleeping, now)), t, p) <==> IsAt(places, t, p)
  {
    AsleepDistinct(sleeping, places, Asleep(c));
    forall t: Task
      ensures IsAt(AfterTick(places, c, Woken(sleeping, now)), t, p) <==> IsAt(places, t, p)
    {
      WokenOrAsleep(sleeping, sleeping', now, t);
    }
  }

  /** Every task that was not terminated is at exactly one place. */
  lemma OnePlace(cpus: seq<Cpu>, lists: seq<seq<Entry>>, places: map<Task, Place>, t: Task)
    requires Placed(cpus, lists, places)
    ensures t in places <==> exists p :: InRange(p, |cpus|, |lists|) && t in Container(cpus, lists, p)
    ensures forall p, q ::
      && InRange(p, |cpus|, |lists|) && InRange(q, |cpus|, |lists|)
      && t in Container(cpus, lists, p) && t in Container(cpus, lists, q) ==>
        p == q
    ensures forall p, i, j ::
      InRange(p, |cpus|, |lists|) && 0 <= i < j < |Container(cpus, lists, p)| ==>
        !(Container(cpus, lists, p)[i] == t == Container(cpus, lists, p)[j])
  {
  }

  // ---- Containers under the single operations ----

  lemma WithoutOnly(t: Task)
    ensures Without([t], t, [])
  {
    assert [t][..0] + [t][1..] == [];
  }

  lemma WithoutFirst(tasks: seq<Task>)
    requires tasks != []
    ensures Without(tasks, tasks[0], tasks[1..])
  {
  }

  lemma PushedTasks(sleeping: seq<Sleeper>, x: Sleeper, list: seq<Entry>, e: Entry)
    ensures SleepingTasks(sleeping + [x]) == SleepingTasks(sleeping) + [x.task]
    ensures WaitingTasks(list + [e]) == WaitingTasks(list) + [e.task]
    ensures list != [] ==> WaitingTasks(list)[0] == list[0].task && WaitingTasks(list[1..]) == WaitingTasks(list)[1..]
  {
  }

  lemma AtPlace(cpus: seq<Cpu>, lists: seq<seq<Entry>>, places: map<Task, Place>, p: Place, t: Task)
    requires Placed(cpus, lists, places) && InRange(p, |cpus|, |lists|) && t in Container(cpus, lists, p)
    ensures IsAt(places, t, p)
  {
  }

  class Scheduler {
    var cpus: seq<Cpu>
    var lists: seq<seq<Entry>>
    /** Where every task is that was not terminated. */
    ghost var places: map<Task, Place>

    ghost predicate Valid()
      reads this
    {
      && Placed(cpus, lists, places)
      && forall l, i :: 0 <= l < |lists| && 0 <= i < |lists[l]| ==> lists[l][i].cpu < |cpus|
    }

    /** Idle CPUs and empty lists. */
    constructor (n: nat, m: nat)
      ensures Valid() && |cpus| == n && |lists| == m && places == map[]
    {
      cpus := seq(n, _ => Cpu(None, None, [], [], [], 0));
      lists := seq(m, _ => []);
      places := map[];
    }

    /** Make the boot task of a CPU its current task. */
    method Boot(c: nat, task: Task)
      requires Valid() && c < |cpus| && cpus[c].current == None && task !in places
      modifies this
      ensures Valid() && places == old(places)[task := Current(c)]
      ensures cpus == old(cpus)[c := old(cpus)[c].(current := Some(task))]
      ensures lists == old(lists)
    {
      hide Placed;
      var cpus' := cpus[c := cpus[c].(current := Some(task))];
      MoveKeeps(cpus, lists, cpus', lists, places, task, Some(Current(c)));
      cpus, places := cpus', places[task := Current(c)];
    }

    /** Put a new task into a run queue. */
    method PushTask(c: nat, task: Task)
      requires Valid() && c < |cpus| && task !in places
      modifies this
      ensures Valid() && places == old(places)[task := Queued(c)]
      ensures cpus == old(cpus)[c := old(cpus)[c].(runQueue := old(cpus)[c].runQueue + [task])] && lists == old(lists)
    {
      hide Placed;
      var cpus' := cpus[c := cpus[c].(runQueue := cpus[c].runQueue + [task])];
      MoveKeeps(cpus, lists, cpus', lists, places, task, Some(Queued(c)));
      cpus, places := cpus', places[task := Queued(c)];
    }

    /** Where the command sends the current task. */
    ghost function Destination(c: nat, command: Command): Option<Place>
    {
      match command
      case PushBack => Some(Queued(c))
      case Terminate => None
      case SleepNTicks(_) => Some(Asleep(c))
      case PushToWaitingList(l) => Some(Waiting(l))
    }

    /** The current task of a CPU gives up the CPU. */
    method Suspend(c: nat, command: Command)
      requires Valid() && c < |cpus| && cpus[c].current.Some?
      requires command.PushToWaitingList? ==> command.list < |lists|
      modifies this
      ensures Valid() && places == Replaced(old(places), old(cpus)[c].current.value, Destination(c, command))
      ensures var cpu, task := old(cpus)[c].(current := None), old(cpus)[c].current.value;
              match command
              case PushBack => cpus == old(cpus)[c := cpu.(runQueue := cpu.runQueue + [task])] && lists == old(lists)
              case Terminate => cpus == old(cpus)[c := cpu.(deferredDrop := [task])] && lists == old(lists)
              case SleepNTicks(ticks) =>
                && cpus == old(cpus)[c := cpu.(sleeping := cpu.sleeping + [Sleeper(task, cpu.ticks + ticks)])]
                && lists == old(lists)
              case PushToWaitingList(l) =>
                cpus == old(cpus)[c := cpu] && lists == old(lists)[l := old(lists)[l] + [Entry(task, c)]]
    {
      hide Placed, Without, SleepingTasks, WaitingTasks;
      var task := cpus[c].current.value;
      AtPlace(cpus, lists, places, Current(c), task);
      WithoutOnly(task);
      var cpu := cpus[c].(current := None);
      var lists' := lists;
      match command {
        case Terminate =>
          cpu := cpu.(deferredDrop := [task]);
          assert Moves(cpus, lists, cpus[c := cpu], lists', task, Some(Current(c)), None);
        case SleepNTicks(ticks) =>
          PushedTasks(cpu.sleeping, Sleeper(task, cpu.ticks + ticks), [], Entry(task, c));
          cpu := cpu.(sleeping := cpu.sleeping + [Sleeper(task, cpu.ticks + ticks)]);
          assert Moves(cpus, lists, cpus[c := cpu], lists', task, Some(Current(c)), Some(Asleep(c)));
        case PushToWaitingList(l) =>
          PushedTasks([], Sleeper(task, 0), lists[l], Entry(task, c));
          lists' := lists[l := lists[l] + [Entry(task, c)]];
          assert Moves(cpus, lists, cpus[c := cpu], lists', task, Some(Current(c)), Some(Waiting(l)));
        case PushBack =>
          cpu := cpu.(runQueue := cpu.runQueue + [task]);
          assert Moves(cpus, lists, cpus[c := cpu], lists', task, Some(Current(c)), Some(Queued(c)));
      }
      hide Moves;
      MoveKeeps(cpus, lists, cpus[c := cpu], lists', places, task, Destination(c, command));
      places := Replaced(places, task, Destination(c, command));
      cpus, lists := cpus[c := cpu], lists';
    }

    /** Take the next task off the run queue, if there is one. */
    method PickNext(c: nat) returns (picked: bool)
      requires Valid() && c < |cpus| && cpus[c].resuming == None
      modifies this
      ensures Valid() && lists == old(lists) && picked == (old(cpus)[c].runQueue != [])
      ensures !picked ==> cpus == old(cpus) && places == old(places)
      ensures picked ==>
        && cpus == old(cpus)[c := old(cpus)[c].(runQueue := old(cpus)[c].runQueue[1..],
                                                resuming := Some(old(cpus)[c].runQueue[0]))]
        && places == old(places)[old(cpus)[c].runQueue[0] := Resuming(c)]
    {
      hide Placed;
      if cpus[c].runQueue == [] {
        return false;
      }
      var task := cpus[c].runQueue[0];
      var cpus' := cpus[c := cpus[c].(runQueue := cpus[c].runQueue[1..], resuming := Some(task))];
      AtPlace(cpus, lists, places, Queued(c), task);
      WithoutFirst(cpus[c].runQueue);
      hide Without;
      MoveKeeps(cpus, lists, cpus', lists, places, task, Some(Resuming(c)));
      cpus, places := cpus', places[task := Resuming(c)];
      return true;
    }

    /** The stack is switched, and the task becomes the current one. */
    method Resumed(c: nat)
      requires Valid() && c < |cpus| && cpus[c].resuming.Some? && cpus[c].current == None
      modifies this
      ensures Valid() && lists == old(lists) && places == old(places)[old(cpus)[c].resuming.value := Current(c)]
      ensures cpus == old(cpus)[c := old(cpus)[c].(resuming := None, current := old(cpus)[c].resuming)]
    {
      hide Placed;
      var task := cpus[c].resuming.value;
      var cpus' := cpus[c := cpus[c].(resuming := None, current := Some(task))];
      AtPlace(cpus, lists, places, Resuming(c), task);
      WithoutOnly(task);
      hide Without;
      MoveKeeps(cpus, lists, cpus', lists, places, task, Some(Current(c)));
      cpus, places := cpus', places[task := Current(c)];
    }

    /** Wake the first on a waiting list: it goes to the run queue of the CPU it came from. */
    method NotifyOne(l: nat) returns (woke: bool)
      requires Valid() && l < |lists|
      modifies this
      ensures Valid() && |cpus| == |old(cpus)| && |lists| == |old(lists)| && woke == (old(lists)[l] != [])
      ensures !woke ==> cpus == old(cpus) && lists == old(lists) && places == old(places)
      ensures woke ==>
        var e := old(lists)[l][0];
        && lists == old(lists)[l := old(lists)[l][1..]]
        && e.cpu < |old(cpus)|
        && cpus == old(cpus)[e.cpu := old(cpus)[e.cpu].(runQueue := old(cpus)[e.cpu].runQueue + [e.task])]
        && IsAt(old(places), e.task, Waiting(l)) && places == old(places)[e.task := Queued(e.cpu)]
    {
      hide Placed;
      if lists[l] == [] {
        return false;
      }
      var e := lists[l][0];
      var cpus' := cpus[e.cpu := cpus[e.cpu].(runQueue := cpus[e.cpu].runQueue + [e.task])];
      var lists' := lists[l := lists[l][1..]];
      PushedTasks([], Sleeper(e.task, 0), lists[l], e);
      AtPlace(cpus, lists, places, Waiting(l), e.task);
      WithoutFirst(WaitingTasks(lists[l]));
      hide Without, SleepingTasks, WaitingTasks;
      MoveKeeps(cpus, lists, cpus', lists', places, e.task, Some(Queued(e.cpu)));
      cpus, lists, places := cpus', lists', places[e.task := Queued(e.cpu)];
      return true;
    }

    /** Wake everybody on a waiting list. */
    method NotifyAll(l: nat)
      requires Valid() && l < |lists|
      modifies this
      ensures Valid() && |cpus| == |old(cpus)| && lists == old(lists)[l := []] && places.Keys == old(places).Keys
      ensures forall t :: t in places ==>
        if IsAt(old(places), t, Waiting(l)) then places[t].Queued? else places[t] == old(places)[t]
    {
      hide Placed;
      var woke := NotifyOne(l);
      while woke
        invariant Valid() && |cpus| == |old(cpus)| && |lists| == |old(lists)| && lists == old(lists)[l := lists[l]]
        invariant !woke ==> lists[l] == []
        invariant places.Keys == old(places).Keys
        invariant forall t :: t in places ==>
                    places[t] == old(places)[t] || (IsAt(old(places), t, Waiting(l)) && places[t].Queued?)
        decreases |lists[l]|, woke
      {
        woke := NotifyOne(l);
      }
      PlacedAt(cpus, lists, places, Waiting(l));
      assert Container(cpus, lists, Waiting(l)) == [];
      assert forall t :: t in places ==> !IsAt(places, t, Waiting(l));
    }

    /** Advance the clock of a CPU by one tick. */
    method Tick(c: nat)
      requires Valid() && c < |cpus|
      modifies this
      ensures Valid() && lists == old(lists) && |cpus| == |old(cpus)|
      ensures var now := old(cpus)[c].ticks + 1;
              var woken := Woken(old(cpus)[c].sleeping, now);
              && cpus == old(cpus)[c := old(cpus)[c].(ticks := now, runQueue := old(cpus)[c].runQueue + woken,
                                                      sleeping := cpus[c].sleeping)]
              && multiset(cpus[c].sleeping) == multiset(StillAsleep(old(cpus)[c].sleeping, now))
              && places == AfterTick(old(places), c, woken)
    {
      hide Placed;
      var now := cpus[c].ticks + 1;
      var sleeping, runQueue := WakeSleepers(cpus[c].sleeping, cpus[c].runQueue, now);
      TickKeeps(cpus, lists, places, c, now, sleeping);
      places := AfterTick(places, c, Woken(cpus[c].sleeping, now));
      cpus := cpus[c := cpus[c].(sleeping := sleeping, runQueue := runQueue, ticks := now)];
    }
  }
}
