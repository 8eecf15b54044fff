/** The reader, writer and upgrader lock in one atomic word, used by any number of threads. */
module RwLocks {
  import opened Options
  import opened Layout

  const WRITER: nat := 0x100_0000_0000_0000
  const UPGRADER: nat := 0x1_0000_0000_0000
  const EXCLUSIVE_THRESHOLD: nat := 0x100_0000_0000

  /** The word, and who holds the lock in which way. A thread in a `leaving` set has failed to get the
      lock and has yet to take back what it added. */
  datatype Lock = Lock(word: nat, readers: set<nat>, leavingReaders: set<nat>,
                       upgraders: set<nat>, leavingUpgraders: set<nat>, writers: set<nat>)

  const UNLOCKED: Lock := Lock(0, {}, {}, {}, {}, {})

  datatype Step =
    | TryShared(t: nat) | BackOutShared(t: nat) | UnlockShared(t: nat)
    | TryExclusive(t: nat) | UnlockExclusive(t: nat)
    | TryUpgradable(t: nat) | BackOutUpgradable(t: nat) | UnlockUpgradable(t: nat)
    | TryUpgrade(t: nat)
    | Downgrade(t: nat) | DowngradeUpgradable(t: nat) | DowngradeToUpgradable(t: nat)

  function Add(x: nat, y: nat): nat
  {
    (x + y) % WORD
  }

  function Sub(x: nat, y: nat): nat
    requires y <= WORD
  {
    (x + (WORD - y)) % WORD
  }

  /** The thread is not using the lock at all. */
  predicate Outside(s: Lock, t: nat)
  {
    t !in s.readers && t !in s.leavingReaders && t !in s.upgraders && t !in s.leavingUpgraders && t !in s.writers
  }

  /** A step of some thread, if it can be taken. Attempts that fail and change nothing are left out. */
  function Apply(s: Lock, step: Step): Option<Lock>
  {
    match step
    case TryShared(t) =>
      if !Outside(s, t) then None
      else
        var s' := s.(word := Add(s.word, 1));
        Some(if s.word >= EXCLUSIVE_THRESHOLD then s'.(leavingReaders := s.leavingReaders + {t})
             else s'.(readers := s.readers + {t}))
    case BackOutShared(t) =>
      if t !in s.leavingReaders then None
      else Some(s.(word := Sub(s.word, 1), leavingReaders := s.leavingReaders - {t}))
    case UnlockShared(t) =>
      if t !in s.readers then None
      else Some(s.(word := Sub(s.word, 1), readers := s.readers - {t}))
    case TryExclusive(t) =>
      if !Outside(s, t) || s.word != 0 then None
      else Some(s.(word := WRITER, writers := s.writers + {t}))
    case UnlockExclusive(t) =>
      if t !in s.writers then None
      else Some(s.(word := Sub(s.word, WRITER), writers := s.writers - {t}))
    case TryUpgradable(t) =>
      if !Outside(s, t) then None
      else
        var s' := s.(word := Add(s.word, UPGRADER));
        Some(if s.word >= EXCLUSIVE_THRESHOLD then s'.(leavingUpgraders := s.leavingUpgraders + {t})
             else s'.(upgraders := s.upgraders + {t}))
    case BackOutUpgradable(t) =>
      if t !in s.leavingUpgraders then None
      else Some(s.(word := Sub(s.word, UPGRADER), leavingUpgraders := s.leavingUpgraders - {t}))
    case UnlockUpgradable(t) =>
      if t !in s.upgraders then None
      else Some(s.(word := Sub(s.word, UPGRADER), upgraders := s.upgraders - {t}))
    case TryUpgrade(t) =>
      if t !in s.upgraders || s.word != UPGRADER then None
      else Some(s.(word := WRITER, upgraders := s.upgraders - {t}, writers := s.writers + {t}))
    case Downgrade(t) =>
      if t !in s.writers then None
      else Some(s.(word := Sub(s.word, WRITER - 1), writers := s.writers - {t}, readers := s.readers + {t}))
    case DowngradeUpgradable(t) =>
      if t !in s.upgraders then None
      else Some(s.(word := Sub(s.word, UPGRADER - 1), upgraders := s.upgraders - {t}, readers := s.readers + {t}))
    case DowngradeToUpgradable(t) =>
      if t !in s.writers then None
      else Some(s.(word := Sub(s.word, WRITER - UPGRADER), writers := s.writers - {t}, upgraders := s.upgraders + {t}))
  }

  // ---- Invariant ----

  ghost function Readers(s: Lock): nat
  {
    |s.readers| + |s.leavingReaders|
  }

  ghost function Upgraders(s: Lock): nat
  {
    |s.upgraders| + |s.leavingUpgraders|
  }

  /** The word is the sum of what everybody added, and never more than fits. */
  ghost predicate Counted(s: Lock)
  {
    && s.word == Readers(s) + UPGRADER * Upgraders(s) + WRITER * |s.writers|
    && Readers(s) <= EXCLUSIVE_THRESHOLD - 1 && Upgraders(s) <= 0x7FFF
  }

  /** One writer alone, or at most one upgradable reader among readers. */
  ghost predicate Exclusive(s: Lock)
  {
    && (s.writers != {} ==> |s.writers| == 1 && s.readers == {} && s.upgraders == {})
    && (s.upgraders != {} ==> |s.upgraders| == 1)
  }

  /** Nobody is in two places. */
  ghost predicate Separate(s: Lock)
  {
    && s.readers !! s.leavingReaders && s.readers !! s.upgraders
    && s.readers !! s.leavingUpgraders && s.readers !! s.writers
    && s.leavingReaders !! s.upgraders && s.leavingReaders !! s.leavingUpgraders && s.leavingReaders !! s.writers
    && s.upgraders !! s.leavingUpgraders && s.upgraders !! s.writers
    && s.leavingUpgraders !! s.writers
  }

  ghost predicate Inv(s: Lock)
  {
    Counted(s) && Exclusive(s) && Separate(s)
  }

  /** Fewer than 2^40 readers and fewer than 2^15 upgraders are at it at once. */
  ghost predicate Bounded(s: Lock, step: Step)
  {
    && (step.TryShared? || step.Downgrade? || step.DowngradeUpgradable? ==> Readers(s) + 1 < EXCLUSIVE_THRESHOLD)
    && (step.TryUpgradable? || step.DowngradeToUpgradable? ==> Upgraders(s) + 1 < 0x8000)
  }

  lemma Singleton(s: set<nat>, t: nat)
    requires |s| == 1 && t in s
    ensures s == {t}
  {
    assert |s - {t}| == 0;
    assert s == (s - {t}) + {t};
  }

  lemma AddSub(x: nat, y: nat)
    requires x < WORD && y <= WORD
    ensures x + y < WORD ==> Add(x, y) == x + y
    ensures y <= x ==> Sub(x, y) == x - y
  {
  }

  /** What a thread learns from the word. */
  lemma WordMeans(s: Lock)
    requires Counted(s) && |s.writers| <= 1
    ensures s.word < WORD
    ensures s.word >= EXCLUSIVE_THRESHOLD <==> Upgraders(s) > 0 || s.writers != {}
    ensures s.word == 0 <==> Readers(s) == 0 && Upgraders(s) == 0 && s.writers == {}
    ensures s.word == UPGRADER <==> Readers(s) == 0 && Upgraders(s) == 1 && s.writers == {}
    ensures s.word % EXCLUSIVE_THRESHOLD == Readers(s)
  {
    assert |s.writers| == 0 <==> s.writers == {};
    hide Readers, Upgraders;
    SumMeans(Readers(s), Upgraders(s), |s.writers|);
  }

  lemma SumMeans(r: nat, u: nat, w: nat)
    requires r < EXCLUSIVE_THRESHOLD && u < 0x8000 && w <= 1
    ensures var word := r + UPGRADER * u + WRITER * w;
            && word < WORD
            && (word >= EXCLUSIVE_THRESHOLD <==> u > 0 || w > 0)
            && (word == 0 <==> r == 0 && u == 0 && w == 0)
            && (word == UPGRADER <==> r == 0 && u == 1 && w == 0)
            && word % EXCLUSIVE_THRESHOLD == r
  {
    DivUniqueSum(r + UPGRADER * u + WRITER * w, EXCLUSIVE_THRESHOLD, 0x100 * u + 0x1_0000 * w, r);
  }

  lemma StepKeeps(s: Lock, step: Step)
    requires Inv(s) && Bounded(s, step) && Apply(s, step).Some?
    ensures Inv(Apply(s, step).value)
  {
    hide Counted, Exclusive, Separate, Apply, Bounded;
    ExclusiveKept(s, step);
    SeparateKept(s, step);
    CountedKept(s, step);
  }

  lemma WriterAlone(s: Lock)
    requires Inv(s)
    ensures |s.writers| <= 1 && |s.upgraders| <= 1
  {
  }

  lemma SeparateKept(s: Lock, step: Step)
    requires Inv(s) && Apply(s, step).Some?
    ensures Separate(Apply(s, step).value)
  {
    hide Add, Sub, Counted, Exclusive;
  }

  lemma ExclusiveKept(s: Lock, step: Step)
    requires Inv(s) && Apply(s, step).Some?
    ensures Exclusive(Apply(s, step).value)
  {
    hide Add, Sub, Counted, Separate;
    WriterAlone(s);
    WordMeans(s);
    match step
    case UnlockExclusive(t) => Singleton(s.writers, t);
    case UnlockUpgradable(t) => Singleton(s.upgraders, t);
    case TryUpgrade(t) => Singleton(s.upgraders, t);
    case Downgrade(t) => Singleton(s.writers, t);
    case DowngradeUpgradable(t) => Singleton(s.upgraders, t);
    case DowngradeToUpgradable(t) => Singleton(s.writers, t);
    case _ =>
  }

  /** By how much a step changes the numbers of readers, upgraders and writers. */
  ghost function Change(s: Lock, step: Step): (int, int, int)
  {
    match step
    case TryShared(_) => (1, 0, 0)
    case BackOutShared(_) => (-1, 0, 0)
    case UnlockShared(_) => (-1, 0, 0)
    case TryExclusive(_) => (0, 0, 1)
    case UnlockExclusive(_) => (0, 0, -1)
    case TryUpgradable(_) => (0, 1, 0)
    case BackOutUpgradable(_) => (0, -1, 0)
    case UnlockUpgradable(_) => (0, -1, 0)
    case TryUpgrade(_) => (0, -1, 1)
    case Downgrade(_) => (1, 0, -1)
    case DowngradeUpgradable(_) => (1, -1, 0)
    case DowngradeToUpgradable(_) => (0, 1, -1)
  }

  lemma Plus(s: set<nat>, t: nat)
    ensures t !in s ==> |s + {t}| == |s| + 1
    ensures t in s ==> |s - {t}| == |s| - 1
  {
  }

  lemma Changes(s: Lock, step: Step)
    requires Inv(s) && Apply(s, step).Some?
    ensures var s', c := Apply(s, step).value, Change(s, step);
            Readers(s') == Readers(s) + c.0 && Upgraders(s') == Upgraders(s) + c.1 && |s'.writers| == |s.writers| + c.2
  {
    hide Add, Sub, Counted, Exclusive, Separate;
    OnlyHere(s, step.t);
    match step
    case TryShared(t) =>
      Plus(s.readers, t);
      Plus(s.leavingReaders, t);
    case BackOutShared(t) => Plus(s.leavingReaders, t);
    case UnlockShared(t) => Plus(s.readers, t);
    case TryExclusive(t) => Plus(s.writers, t);
    case UnlockExclusive(t) => Plus(s.writers, t);
    case TryUpgradable(t) =>
      Plus(s.upgraders, t);
      Plus(s.leavingUpgraders, t);
    case BackOutUpgradable(t) => Plus(s.leavingUpgraders, t);
    case UnlockUpgradable(t) => Plus(s.upgraders, t);
    case TryUpgrade(t) =>
      Plus(s.upgraders, t);
      Plus(s.writers, t);
    case Downgrade(t) =>
      Plus(s.writers, t);
      Plus(s.readers, t);
    case DowngradeUpgradable(t) =>
      Plus(s.upgraders, t);
      Plus(s.readers, t);
    case DowngradeToUpgradable(t) =>
      Plus(s.writers, t);
      Plus(s.upgraders, t);
  }

  lemma OnlyHere(s: Lock, t: nat)
    requires Separate(s)
    ensures t in s.writers ==> t !in s.readers && t !in s.upgraders
    ensures t in s.upgraders ==> t !in s.readers && t !in s.writers
  {
  }

  lemma WordChanges(s: Lock, step: Step)
    requires Inv(s) && Bounded(s, step) && Apply(s, step).Some?
    ensures var s', c := Apply(s, step).value, Change(s, step);
            s'.word == s.word + c.0 + UPGRADER * c.1 + WRITER * c.2
  {
    hide Add, Sub, Separate, Exclusive;
    WriterAlone(s);
    WordMeans(s);
    SomeMember(s.readers);
    SomeMember(s.leavingReaders);
    SomeMember(s.upgraders);
    SomeMember(s.leavingUpgraders);
    SomeMember(s.writers);
    match step
    case TryShared(t) => AddSub(s.word, 1);
    case BackOutShared(t) => AddSub(s.word, 1);
    case UnlockShared(t) => AddSub(s.word, 1);
    case TryExclusive(t) =>
    case UnlockExclusive(t) => AddSub(s.word, WRITER);
    case TryUpgradable(t) => AddSub(s.word, UPGRADER);
    case BackOutUpgradable(t) => AddSub(s.word, UPGRADER);
    case UnlockUpgradable(t) => AddSub(s.word, UPGRADER);
    case TryUpgrade(t) =>
    case Downgrade(t) => AddSub(s.word, WRITER - 1);
    case DowngradeUpgradable(t) => AddSub(s.word, UPGRADER - 1);
    case DowngradeToUpgradable(t) => AddSub(s.word, WRITER - UPGRADER);
  }

  lemma SomeMember(s: set<nat>)
    ensures forall t :: t in s ==> |s| >= 1
  {
  }

  lemma CountedKept(s: Lock, step: Step)
    requires Inv(s) && Bounded(s, step) && Apply(s, step).Some?
    ensures Counted(Apply(s, step).value)
  {
    hide Apply, Exclusive, Separate, Readers, Upgraders;
    Changes(s, step);
    WordChanges(s, step);
  }

  // ---- What the lock promises ----

  /** The count that is passed on when a reader leaves, or backs out, does not underflow: it is the
      number of readers that remain. */
  lemma ReadersRemaining(s: Lock, t: nat)
    requires Inv(s) && t in s.readers + s.leavingReaders
    ensures var x := s.word; x % EXCLUSIVE_THRESHOLD >= 1 && x % EXCLUSIVE_THRESHOLD - 1 == Readers(s) - 1
    ensures t in s.readers ==> Readers(Apply(s, UnlockShared(t)).value) == s.word % EXCLUSIVE_THRESHOLD - 1
    ensures t in s.leavingReaders ==> Readers(Apply(s, BackOutShared(t)).value) == s.word % EXCLUSIVE_THRESHOLD - 1
  {
    WriterAlone(s);
    WordMeans(s);
    SomeMember(s.readers);
    SomeMember(s.leavingReaders);
    hide Add, Sub, Counted, Exclusive, Separate;
  }

  /** When an attempt succeeds, the thread has what it wanted and nobody is in its way. */
  lemma Granted(s: Lock, step: Step)
    requires Inv(s) && Bounded(s, step) && Apply(s, step).Some?
    ensures var s' := Apply(s, step).value;
            && (step.TryShared? ==> (step.t in s'.readers <==> s.writers == {} && Upgraders(s) == 0))
            && (step.TryUpgradable? ==> (step.t in s'.upgraders <==> s.writers == {} && Upgraders(s) == 0))
            && (step.TryExclusive? || step.TryUpgrade? ==>
                  s'.writers == {step.t} && s'.readers == {} && s'.upgraders == {})
  {
    WriterAlone(s);
    WordMeans(s);
    if step.TryUpgrade? {
      Singleton(s.upgraders, step.t);
    }
    hide Add, Sub, Counted, Separate, Upgraders;
  }

  // ---- Who gets the lock ----

  /** What a thread has to do with the lock. */
  datatype Place = Out | Reading | LeavingShared | Upgradable | LeavingUpgradable | Writing

  ghost function PlaceOf(s: Lock, t: nat): Place
  {
    if t in s.readers then Reading
    else if t in s.leavingReaders then LeavingShared
    else if t in s.upgraders then Upgradable
    else if t in s.leavingUpgraders then LeavingUpgradable
    else if t in s.writers then Writing
    else Out
  }

  /** Nobody has, or tried for, more than shared access. */
  ghost predicate OnlyReaders(s: Lock)
  {
    s.upgraders == {} && s.leavingUpgraders == {} && s.writers == {}
  }

  /** The lock as its users see it: who may take a step, told by who is where and without the word. */
  ghost predicate Entitled(s: Lock, step: Step)
  {
    match step
    case TryShared(t) => PlaceOf(s, t) == Out
    case BackOutShared(t) => PlaceOf(s, t) == LeavingShared
    case UnlockShared(t) => PlaceOf(s, t) == Reading
    case TryExclusive(t) => OnlyReaders(s) && s.readers == {} && s.leavingReaders == {}
    case UnlockExclusive(t) => PlaceOf(s, t) == Writing
    case TryUpgradable(t) => PlaceOf(s, t) == Out
    case BackOutUpgradable(t) => PlaceOf(s, t) == LeavingUpgradable
    case UnlockUpgradable(t) => PlaceOf(s, t) == Upgradable
    case TryUpgrade(t) =>
      s.upgraders == {t} && s.leavingUpgraders == {} && s.readers == {} && s.leavingReaders == {}
    case Downgrade(t) => PlaceOf(s, t) == Writing
    case DowngradeUpgradable(t) => PlaceOf(s, t) == Upgradable
    case DowngradeToUpgradable(t) => PlaceOf(s, t) == Writing
  }

  /** And where it takes the thread. */
  ghost function Target(s: Lock, step: Step): Place
  {
    match step
    case TryShared(_) => if OnlyReaders(s) then Reading else LeavingShared
    case TryExclusive(_) => Writing
    case TryUpgradable(_) => if OnlyReaders(s) then Upgradable else LeavingUpgradable
    case TryUpgrade(_) => Writing
    case Downgrade(_) => Reading
    case DowngradeUpgradable(_) => Reading
    case DowngradeToUpgradable(_) => Upgradable
    case _ => Out
  }

  lemma NoMembers(s: Lock)
    ensures Readers(s) == 0 <==> s.readers == {} && s.leavingReaders == {}
    ensures Upgraders(s) == 0 <==> s.upgraders == {} && s.leavingUpgraders == {}
  {
  }

  lemma OneUpgrader(s: Lock, t: nat)
    requires Exclusive(s) && t in s.upgraders
    ensures Upgraders(s) == 1 <==> s.upgraders == {t} && s.leavingUpgraders == {}
    ensures s.writers == {}
  {
    Singleton(s.upgraders, t);
  }

  /** The word decides as the users see it: a step can be taken exactly by a thread that is entitled to it. */
  lemma TakenIff(s: Lock, step: Step)
    requires Inv(s)
    ensures Apply(s, step).Some? <==> Entitled(s, step)
  {
    WriterAlone(s);
    WordMeans(s);
    NoMembers(s);
    if step.TryUpgrade? && step.t in s.upgraders {
      OneUpgrader(s, step.t);
    }
    hide Add, Sub, Counted, Exclusive, Readers, Upgraders;
  }

  lemma OthersStay(s: Lock, step: Step, u: nat)
    requires Apply(s, step).Some? && u != step.t
    ensures PlaceOf(Apply(s, step).value, u) == PlaceOf(s, u)
  {
    hide Add, Sub, Outside;
    var s' := Apply(s, step).value;
    assert && (u in s'.readers <==> u in s.readers) && (u in s'.leavingReaders <==> u in s.leavingReaders)
           && (u in s'.upgraders <==> u in s.upgraders) && (u in s'.leavingUpgraders <==> u in s.leavingUpgraders)
           && (u in s'.writers <==> u in s.writers);
    hide Apply;
  }

  lemma TakerMoves(s: Lock, step: Step)
    requires Inv(s) && Apply(s, step).Some?
    ensures PlaceOf(Apply(s, step).value, step.t) == Target(s, step)
  {
    if step.TryShared? || step.TryUpgradable? {
      WriterAlone(s);
      WordMeans(s);
      NoMembers(s);
    }
    hide Add, Sub, Counted, Exclusive, Readers, Upgraders;
  }

  /** It takes that thread where it should be, and moves nobody else. */
  lemma MovesOne(s: Lock, step: Step, u: nat)
    requires Inv(s) && Apply(s, step).Some?
    ensures PlaceOf(Apply(s, step).value, u) == if u == step.t then Target(s, step) else PlaceOf(s, u)
  {
    hide *;
    if u == step.t {
      TakerMoves(s, step);
    } else {
      OthersStay(s, step, u);
    }
  }

  /** With one reader too many, the count of those that remain would underflow. */
  lemma BoundIsNeeded(s: Lock, t: nat)
    requires Inv(s) && Outside(s, t) && Readers(s) == EXCLUSIVE_THRESHOLD - 1
    ensures Apply(s, TryShared(t)).value.word % EXCLUSIVE_THRESHOLD == 0
  {
    hide Readers, Upgraders, Exclusive, Separate;
    WriterAlone(s);
    WordMeans(s);
    var above := 0x100 * Upgraders(s) + 0x1_0000 * |s.writers|;
    assert s.word + 1 == (above + 1) * EXCLUSIVE_THRESHOLD + 0;
    AddSub(s.word, 1);
    DivUniqueSum(s.word + 1, EXCLUSIVE_THRESHOLD, above + 1, 0);
  }

  // ---- Runs ----

  ghost predicate Run(states: seq<Lock>, steps: seq<Step>)
  {
    && |states| == |steps| + 1 && states[0] == UNLOCKED
    && forall i :: 0 <= i < |steps| ==>
      Bounded(states[i], steps[i]) && Apply(states[i], steps[i]) == Some(states[i + 1])
  }

  lemma {:induction false} RunKeeps(states: seq<Lock>, steps: seq<Step>, i: nat)
    requires Run(states, steps) && i < |states|
    ensures Inv(states[i])
  {
    hide Apply, Counted, Exclusive, Separate;
    if i == 0 {
      StartsUnlocked();
    } else {
      var j := i - 1;
      RunKeeps(states, steps, j);
      assert Apply(states[j], steps[j]) == Some(states[j + 1]);
      StepKeeps(states[j], steps[j]);
    }
  }

  lemma StartsUnlocked()
    ensures Inv(UNLOCKED)
  {
  }

  /** Never a reader beside a writer, never two writers, never two upgradable readers. */
  lemma MutualExclusion(states: seq<Lock>, steps: seq<Step>, i: nat, t: nat, u: nat)
    requires Run(states, steps) && i < |states|
    ensures t in states[i].writers ==> u !in states[i].readers && u !in states[i].upgraders
    ensures t in states[i].writers && u in states[i].writers ==> t == u
    ensures t in states[i].upgraders && u in states[i].upgraders ==> t == u
  {
    RunKeeps(states, steps, i);
    var s := states[i];
    if t in s.writers {
      Singleton(s.writers, t);
    }
    if t in s.upgraders {
      Singleton(s.upgraders, t);
    }
  }
}
