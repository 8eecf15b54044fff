/** One slot of the descriptor table with its two reference counts, used by any number of threads.
    Every step is one atomic action; whoever holds or is after a reference is a token. */
module DescriptorSlots {
  import opened Options
  import opened Counters

  /** What the owner of a token does with it next. */
  datatype Status =
    | HandleA                 // an A-handle
    | HandleB                 // a B-handle
    | TestB                   // has counted itself in rc_a, is about to look at rc_b
    | CloningB(source: nat)   // has counted itself in rc_a for a copy of a borrowed B-handle
    | ClearB                  // took rc_b to zero and has to drop slot B
    | LeaveA                  // has only its count in rc_a left to give back

  /** `id` is the descriptor the token is for. */
  datatype Token = Token(status: Status, id: nat)

  /** What the thread that owns a reserved slot does next. */
  datatype Phase =
    | Idle                    // nobody owns the slot
    | ResetB(newId: nat)
    | StoreId(newId: nat)
    | FillingA                // holds the initialiser
    | FillingB
    | CountingB
    | Opening
    | EmptyingA
    | Freeing

  /** `fills` and `clears` count how often a value was put into and taken out of the slots since the
      slot was reserved; no thread reads these. */
  datatype Slot = Slot(
    rcA: nat, rcB: nat, id: nat, slotA: Option<nat>, slotB: Option<nat>,
    phase: Phase, tokens: map<nat, Token>,
    fillsA: nat, fillsB: nat, clearsA: nat, clearsB: nat)

  datatype Step =
    | Reserve(newId: nat) | ResetCountB | StoreTheId
    | FillA(value: nat) | FillB(value: nat) | CountB | Open(k: nat)
    | Abort | EmptyA | Free
    | AcquireA(k: nat) | AcquireB(k: nat) | TestCountB(k: nat)
    | CloneA(k: nat, source: nat) | CloneB(k: nat, source: nat) | CloneCountB(k: nat)
    | DropB(k: nat) | EmptyB(k: nat) | LeaveCountA(k: nat)

  predicate Has(s: Slot, k: nat, status: Status)
  {
    k in s.tokens && s.tokens[k].status == status
  }

  predicate IsHandle(s: Slot, k: nat)
  {
    Has(s, k, HandleA) || Has(s, k, HandleB)
  }

  /** A handle from which a copy is being made cannot be given up. */
  predicate Borrowed(s: Slot, k: nat)
  {
    exists j :: j in s.tokens && s.tokens[j].status == CloningB(k)
  }

  function Become(s: Slot, k: nat, status: Status): map<nat, Token>
  {
    s.tokens[k := Token(status, s.id)]
  }

  function WithoutA(s: Slot): Slot
  {
    s.(slotA := None, clearsA := s.clearsA + if s.slotA.Some? then 1 else 0)
  }

  function WithoutB(s: Slot): Slot
  {
    s.(slotB := None, clearsB := s.clearsB + if s.slotB.Some? then 1 else 0)
  }

  /** A step of some thread, if it can be taken. Attempts that fail and change nothing are left out. */
  function Apply(s: Slot, step: Step): Option<Slot>
  {
    match step
    // reserve
    case Reserve(newId) =>
      if s.rcA == 0 && s.phase == Idle
      then Some(s.(rcA := 1, phase := ResetB(newId), fillsA := 0, fillsB := 0, clearsA := 0, clearsB := 0))
      else None
    case ResetCountB =>
      if s.phase.ResetB? then Some(s.(rcB := 0, phase := StoreId(s.phase.newId))) else None
    case StoreTheId =>
      if s.phase.StoreId? then Some(s.(id := s.phase.newId, phase := FillingA)) else None
    // commit
    case FillA(value) =>
      if s.phase == FillingA
      then Some(s.(slotA := Some(value), fillsA := s.fillsA + 1, phase := FillingB))
      else None
    case FillB(value) =>
      if s.phase == FillingB
      then Some(s.(slotB := Some(value), fillsB := s.fillsB + 1, phase := CountingB))
      else None
    case CountB =>
      if s.phase == CountingB then Some(s.(rcB := Incremented(s.rcB), phase := Opening)) else None
    case Open(k) =>
      if s.phase == Opening && k !in s.tokens
      then Some(s.(rcA := Incremented(s.rcA), tokens := Become(s, k, HandleB), phase := Idle))
      else None
    // the initialiser is dropped, or the last reference is gone
    case Abort =>
      if s.phase == FillingA then Some(WithoutB(s).(phase := EmptyingA)) else None
    case EmptyA =>
      if s.phase == EmptyingA then Some(WithoutA(s).(phase := Freeing)) else None
    case Free =>
      if s.phase == Freeing then Some(s.(rcA := 0, phase := Idle)) else None
    // acquire_ref
    case AcquireA(k) =>
      if s.rcA >= 2 && k !in s.tokens
      then Some(s.(rcA := Incremented(s.rcA), tokens := Become(s, k, HandleA)))
      else None
    case AcquireB(k) =>
      if s.rcA >= 2 && k !in s.tokens
      then Some(s.(rcA := Incremented(s.rcA), tokens := Become(s, k, TestB)))
      else None
    case TestCountB(k) =>
      if !Has(s, k, TestB) then None
      else if s.rcB >= 1 then Some(s.(rcB := Incremented(s.rcB), tokens := Become(s, k, HandleB)))
      else Some(s.(tokens := Become(s, k, LeaveA)))
    // copies
    case CloneA(k, source) =>
      if IsHandle(s, source) && k !in s.tokens
      then Some(s.(rcA := Incremented(s.rcA), tokens := Become(s, k, HandleA)))
      else None
    case CloneB(k, source) =>
      if Has(s, source, HandleB) && k !in s.tokens
      then Some(s.(rcA := Incremented(s.rcA), tokens := Become(s, k, CloningB(source))))
      else None
    case CloneCountB(k) =>
      if k in s.tokens && s.tokens[k].status.CloningB?
      then Some(s.(rcB := Incremented(s.rcB), tokens := Become(s, k, HandleB)))
      else None
    // drop
    case DropB(k) =>
      if Has(s, k, HandleB) && !Borrowed(s, k)
      then Some(s.(rcB := Decremented(s.rcB), tokens := Become(s, k, if s.rcB == 1 then ClearB else LeaveA)))
      else None
    case EmptyB(k) =>
      if Has(s, k, ClearB) then Some(WithoutB(s).(tokens := Become(s, k, LeaveA))) else None
    case LeaveCountA(k) =>
      if Has(s, k, HandleA) || Has(s, k, LeaveA)
      then Some(s.(rcA := Decremented(s.rcA), tokens := s.tokens - {k},
                   phase := if s.rcA == 2 then EmptyingA else s.phase))
      else None
  }

  const EMPTY: Slot := Slot(0, 0, 0, None, None, Idle, map[], 0, 0, 0, 0)

  // ---- Invariant ----

  ghost function With(tokens: map<nat, Token>, status: Status): set<nat>
  {
    set k | k in tokens && tokens[k].status == status
  }

  /** The counts are the references and attempts they stand for. */
  ghost predicate Counted(s: Slot)
  {
    && s.rcA == (if s.phase != Idle then 1 else if s.tokens == map[] then 0 else 1 + |s.tokens|)
    && s.rcA < U16
    && (s.phase != Idle ==> s.tokens == map[])
    && s.rcB == |With(s.tokens, HandleB)| + if s.phase == Opening then 1 else 0
  }

  ghost predicate Tokens(s: Slot)
  {
    && (forall k :: k in s.tokens ==> s.tokens[k].id == s.id)
    && (forall k :: k in s.tokens && s.tokens[k].status.CloningB? ==> Has(s, s.tokens[k].status.source, HandleB))
    && (forall j, k :: Has(s, j, ClearB) && Has(s, k, ClearB) ==> j == k)
    && (forall j, k :: Has(s, j, ClearB) ==> !Has(s, k, HandleB))
  }

  ghost predicate NeedsB(s: Slot)
  {
    exists k :: Has(s, k, HandleB) || Has(s, k, ClearB)
  }

  /** Slot A holds its value as long as there is a token, slot B as long as it is counted. */
  ghost predicate Filled(s: Slot)
  {
    && (s.slotA.Some? <==>
          s.tokens != map[] || s.phase in {FillingB, CountingB, Opening} || (s.phase == EmptyingA && s.fillsA == 1))
    && (s.slotB.Some? <==> NeedsB(s) || s.phase in {CountingB, Opening})
    && s.fillsA == s.clearsA + (if s.slotA.Some? then 1 else 0) && s.fillsA <= 1
    && s.fillsB == s.clearsB + (if s.slotB.Some? then 1 else 0) && s.fillsB <= 1
    && (s.phase.ResetB? || s.phase.StoreId? || s.phase == FillingA ==> s.fillsA == 0)
    && (s.phase.ResetB? || s.phase.StoreId? || s.phase == FillingA || s.phase == FillingB ==> s.fillsB == 0)
  }

  ghost predicate Inv(s: Slot)
  {
    Counted(s) && Tokens(s) && Filled(s)
  }

  /** There is room for one more reference in the counters. */
  ghost predicate Room(s: Slot)
  {
    |s.tokens| + 2 < U16
  }

  /** The steps that add a reference. */
  predicate AddsReference(step: Step)
  {
    step.AcquireA? || step.AcquireB? || step.CloneA? || step.CloneB?
  }

  ghost predicate Bounded(s: Slot, step: Step)
  {
    AddsReference(step) ==> Room(s)
  }

  // ---- Every step keeps the invariant ----

  lemma WithBecome(tokens: map<nat, Token>, k: nat, token: Token, status: Status)
    ensures With(tokens[k := token], status) ==
      if token.status == status then With(tokens, status) + {k} else With(tokens, status) - {k}
    ensures With(tokens - {k}, status) == With(tokens, status) - {k}
  {
  }

  lemma TokenCount(tokens: map<nat, Token>, k: nat, token: Token)
    ensures |tokens[k := token]| == |tokens| + if k in tokens then 0 else 1
    ensures k in tokens ==> |tokens - {k}| == |tokens| - 1
    ensures tokens == map[] <==> |tokens| == 0
  {
  }

  /** How the counted numbers change when one token changes. */
  lemma BecomeCount(s: Slot, k: nat, status: Status)
    ensures |Become(s, k, status)| == |s.tokens| + if k in s.tokens then 0 else 1
    ensures |With(Become(s, k, status), HandleB)| ==
      |With(s.tokens, HandleB)| + (if status == HandleB then 1 else 0) - if Has(s, k, HandleB) then 1 else 0
    ensures Become(s, k, status) != map[]
  {
    TokenCount(s.tokens, k, Token(status, s.id));
    WithBecome(s.tokens, k, Token(status, s.id), HandleB);
    WithSome(s, k, HandleB);
    assert k in Become(s, k, status);
  }

  lemma LeaveCount(s: Slot, k: nat)
    requires k in s.tokens && !Has(s, k, HandleB)
    ensures |s.tokens - {k}| == |s.tokens| - 1
    ensures |With(s.tokens - {k}, HandleB)| == |With(s.tokens, HandleB)|
    ensures s.tokens - {k} == map[] <==> |s.tokens| == 1
  {
    TokenCount(s.tokens, k, s.tokens[k]);
    TokenCount(s.tokens - {k}, k, s.tokens[k]);
    WithBecome(s.tokens, k, s.tokens[k], HandleB);
    WithSome(s, k, HandleB);
    assert With(s.tokens, HandleB) - {k} == With(s.tokens, HandleB);
  }

  lemma WithSome(s: Slot, k: nat, status: Status)
    ensures Has(s, k, status) <==> k in With(s.tokens, status)
    ensures Has(s, k, status) ==> |With(s.tokens, status)| >= 1
  {
  }

  lemma WithAtMost(tokens: map<nat, Token>, status: Status)
    ensures |With(tokens, status)| <= |tokens|
  {
    SubsetSize(With(tokens, status), tokens.Keys);
  }

  lemma StepKeeps(s: Slot, step: Step)
    requires Inv(s) && Bounded(s, step) && Apply(s, step).Some?
    ensures Inv(Apply(s, step).value)
  {
    hide Apply, Counted, Tokens, Filled;
    CountedKept(s, step);
    TokensKept(s, step);
    FilledKept(s, step);
  }

  lemma CountedKept(s: Slot, step: Step)
    requires Inv(s) && Bounded(s, step) && Apply(s, step).Some?
    ensures Counted(Apply(s, step).value)
  {
    hide Apply, Bounded, Tokens, Filled, Counted;
    if s.phase == Idle && !step.Reserve? {
      CountedByTokens(s, step);
    } else {
      CountedByOwner(s, step);
    }
  }

  lemma CountedByOwner(s: Slot, step: Step)
    requires Counted(s) && Apply(s, step).Some? && (s.phase != Idle || step.Reserve?)
    ensures Counted(Apply(s, step).value)
  {
    hide With, Become, Borrowed, Incremented, Decremented, Counted;
    InUse(s);
    NoWrap(s.rcA);
    NoWrap(s.rcB);
    var s' := Apply(s, step).value;
    if step.Open? {
      CountedBecome(s, s', step.k, HandleB);
    } else {
      CountedAlone(s, s');
    }
  }

  lemma CountedByTokens(s: Slot, step: Step)
    requires Counted(s) && Bounded(s, step) && Apply(s, step).Some? && s.phase == Idle && !step.Reserve?
    ensures Counted(Apply(s, step).value)
  {
    hide Apply, Counted, Room;
    if AddsReference(step) {
      CountedJoins(s, step);
    } else {
      CountedGoesOn(s, step);
    }
  }

  lemma CountedJoins(s: Slot, step: Step)
    requires Counted(s) && Room(s) && AddsReference(step) && Apply(s, step).Some? && s.phase == Idle
    ensures Counted(Apply(s, step).value)
  {
    hide With, Become, Incremented, Counted;
    InUse(s);
    NoWrap(s.rcA);
    var s' := Apply(s, step).value;
    assert step.k !in s.tokens && s.tokens != map[];
    match step
    case AcquireA(k) => CountedBecome(s, s', k, HandleA);
    case AcquireB(k) => CountedBecome(s, s', k, TestB);
    case CloneA(k, source) => CountedBecome(s, s', k, HandleA);
    case CloneB(k, source) => CountedBecome(s, s', k, CloningB(source));
  }

  lemma CountedGoesOn(s: Slot, step: Step)
    requires Counted(s) && Apply(s, step).Some? && s.phase == Idle && !step.Reserve? && !AddsReference(step)
    ensures Counted(Apply(s, step).value)
  {
    hide With, Become, Borrowed, Incremented, Decremented, Counted;
    InUse(s);
    NoWrap(s.rcA);
    NoWrap(s.rcB);
    var s' := Apply(s, step).value;
    match step
    case TestCountB(k) =>
      RoomForB(s, k);
      CountedBecome(s, s', k, if s.rcB >= 1 then HandleB else LeaveA);
    case CloneCountB(k) =>
      RoomForB(s, k);
      CountedBecome(s, s', k, HandleB);
    case DropB(k) =>
      WithSome(s, k, HandleB);
      CountedBecome(s, s', k, if s.rcB == 1 then ClearB else LeaveA);
    case EmptyB(k) => CountedBecome(s, s', k, LeaveA);
    case LeaveCountA(k) => CountedLeave(s, s', k);
  }

  /** A token appears or changes, and the counts follow. */
  lemma CountedBecome(s: Slot, s': Slot, k: nat, status: Status)
    requires Counted(s) && s'.tokens == Become(s, k, status) && s'.phase == Idle
    requires s.phase == Idle || s.phase == Opening
    requires s'.rcA == s.rcA + (if k in s.tokens then 0 else 1) < U16 && s.rcA >= 1
    requires s'.rcB + (if Has(s, k, HandleB) || s.phase == Opening then 1 else 0)
          == s.rcB + if status == HandleB then 1 else 0
    ensures Counted(s')
  {
    hide With, Become;
    TokenCount(s.tokens, 0, Token(HandleA, 0));
    BecomeCount(s, k, status);
  }

  lemma CountedLeave(s: Slot, s': Slot, k: nat)
    requires Counted(s) && s'.tokens == s.tokens - {k} && k in s.tokens && !Has(s, k, HandleB)
    requires s'.rcA == s.rcA - 1 && s'.rcB == s.rcB && s'.phase == if s.rcA == 2 then EmptyingA else Idle
    ensures Counted(s')
  {
    hide With;
    InUse(s);
    LeaveCount(s, k);
  }

  /** Nobody else has a reference, neither before nor after. */
  lemma CountedAlone(s: Slot, s': Slot)
    requires Counted(s) && s.tokens == s'.tokens == map[]
    requires s'.rcA == if s'.phase == Idle then 0 else 1
    requires || s'.rcB + (if s.phase == Opening then 1 else 0) == s.rcB + (if s'.phase == Opening then 1 else 0)
             || (s'.rcB == 0 && s'.phase != Opening)
    ensures Counted(s')
  {
  }

  lemma RoomForB(s: Slot, k: nat)
    requires k in s.tokens && !Has(s, k, HandleB)
    ensures |With(s.tokens, HandleB)| < |s.tokens|
  {
    LeaveCount(s, k);
    WithAtMost(s.tokens - {k}, HandleB);
  }

  lemma TokensKept(s: Slot, step: Step)
    requires Inv(s) && Bounded(s, step) && Apply(s, step).Some?
    ensures Tokens(Apply(s, step).value)
  {
    hide With, Filled, Become, Tokens, Counted, Room;
    InUse(s);
    var s' := Apply(s, step).value;
    match step
    case StoreTheId => NoTokens(s');
    case Open(k) => TokensBecome(s, s', k, HandleB);
    case AcquireA(k) => TokensBecome(s, s', k, HandleA);
    case AcquireB(k) => TokensBecome(s, s', k, TestB);
    case TestCountB(k) =>
      ClearingB(s);
      TokensBecome(s, s', k, if s.rcB >= 1 then HandleB else LeaveA);
    case CloneA(k, source) => TokensBecome(s, s', k, HandleA);
    case CloneB(k, source) => TokensBecome(s, s', k, CloningB(source));
    case CloneCountB(k) =>
      SourceHolds(s, k);
      TokensBecome(s, s', k, HandleB);
    case DropB(k) =>
      LastB(s, k);
      NoneClearing(s, k);
      TokensBecome(s, s', k, if s.rcB == 1 then ClearB else LeaveA);
    case EmptyB(k) => TokensBecome(s, s', k, LeaveA);
    case LeaveCountA(k) => TokensLeave(s, s', k);
    case _ => SameTokens(s, s');
  }

  lemma NoTokens(s: Slot)
    requires s.tokens == map[]
    ensures Tokens(s)
  {
  }

  lemma SameTokens(s: Slot, s': Slot)
    requires Tokens(s) && s'.tokens == s.tokens && s'.id == s.id
    ensures Tokens(s')
  {
    assert forall k, status :: Has(s', k, status) <==> Has(s, k, status);
  }

  lemma SourceHolds(s: Slot, k: nat)
    requires Tokens(s) && k in s.tokens && s.tokens[k].status.CloningB?
    ensures Has(s, s.tokens[k].status.source, HandleB) && forall j :: !Has(s, j, ClearB)
  {
  }

  lemma NoneClearing(s: Slot, k: nat)
    requires Tokens(s) && Has(s, k, HandleB)
    ensures forall j :: !Has(s, j, ClearB)
  {
  }

  /** What a token may become without disturbing the others. */
  lemma TokensBecome(s: Slot, s': Slot, k: nat, status: Status)
    requires Tokens(s) && s'.tokens == Become(s, k, status) && s'.id == s.id
    requires status.CloningB? ==> status.source != k && Has(s, status.source, HandleB)
    requires Has(s, k, HandleB) && status != HandleB ==> !Borrowed(s, k)
    requires status == HandleB ==> forall j :: !Has(s, j, ClearB)
    requires status == ClearB ==> forall j :: j != k ==> !Has(s, j, ClearB) && !Has(s, j, HandleB)
    ensures Tokens(s')
  {
    assert forall j, st :: Has(s', j, st) <==> if j == k then st == status else Has(s, j, st);
    forall j | j in s'.tokens && s'.tokens[j].status.CloningB?
      ensures Has(s', s'.tokens[j].status.source, HandleB)
    {
      if j != k {
        assert Has(s, s.tokens[j].status.source, HandleB);
      }
    }
  }

  lemma TokensLeave(s: Slot, s': Slot, k: nat)
    requires Tokens(s) && s'.tokens == s.tokens - {k} && s'.id == s.id && !Has(s, k, HandleB)
    ensures Tokens(s')
  {
    assert forall j, st :: Has(s', j, st) <==> j != k && Has(s, j, st);
  }

  /** While slot B is about to be dropped, its count is zero. */
  lemma ClearingB(s: Slot)
    requires Counted(s) && Tokens(s)
    ensures (exists k :: Has(s, k, ClearB)) ==> s.rcB == 0
  {
    if j :| Has(s, j, ClearB) {
      forall k
        ensures k !in With(s.tokens, HandleB)
      {
        assert !Has(s, k, HandleB);
      }
    }
  }

  /** A count of one means that there is no other. */
  lemma LastB(s: Slot, k: nat)
    requires Counted(s) && Has(s, k, HandleB)
    ensures s.rcB == 1 ==> forall j :: Has(s, j, HandleB) ==> j == k
  {
    forall j | Has(s, j, HandleB) && j != k
      ensures s.rcB >= 2
    {
      SubsetSize({j, k}, With(s.tokens, HandleB));
    }
  }

  lemma FilledKept(s: Slot, step: Step)
    requires Inv(s) && Bounded(s, step) && Apply(s, step).Some?
    ensures Filled(Apply(s, step).value)
  {
    hide Apply, Inv, Filled, Bounded;
    if s.phase == Idle && !step.Reserve? {
      FilledByTokens(s, step);
    } else {
      FilledByOwner(s, step);
    }
  }

  /** The steps of those who hold or want a reference. */
  lemma FilledByTokens(s: Slot, step: Step)
    requires Inv(s) && Apply(s, step).Some? && s.phase == Idle && !step.Reserve?
    ensures Filled(Apply(s, step).value)
  {
    hide Counted, Tokens, With, Become, NeedsB, Borrowed, Incremented, Decremented, Filled;
    var s' := Apply(s, step).value;
    InUse(s);
    match step
    case AcquireA(k) =>
      NeedsBecome(s, s', k, HandleA);
      FilledSame(s, s');
    case AcquireB(k) =>
      NeedsBecome(s, s', k, TestB);
      FilledSame(s, s');
    case TestCountB(k) =>
      SomeB(s);
      NeedsBecome(s, s', k, if s.rcB >= 1 then HandleB else LeaveA);
      FilledSame(s, s');
    case CloneA(k, source) =>
      NeedsBecome(s, s', k, HandleA);
      FilledSame(s, s');
    case CloneB(k, source) =>
      NeedsBecome(s, s', k, CloningB(source));
      FilledSame(s, s');
    case CloneCountB(k) =>
      SourceHolds(s, k);
      NeedsBecome(s, s', k, HandleB);
      FilledSame(s, s');
    case DropB(k) =>
      OtherB(s, k);
      NeedsBecome(s, s', k, if s.rcB == 1 then ClearB else LeaveA);
      FilledSame(s, s');
    case EmptyB(k) =>
      EmptyBFilled(s, s', k);
    case LeaveCountA(k) =>
      LeaveFilled(s, s', k);
  }

  /** Neither slot nor the need for them changed. */
  lemma FilledSame(s: Slot, s': Slot)
    requires Filled(s) && s' == s.(rcA := s'.rcA, rcB := s'.rcB, tokens := s'.tokens)
    requires s.tokens != map[] && s'.tokens != map[] && (NeedsB(s') <==> NeedsB(s))
    ensures Filled(s')
  {
  }

  lemma EmptyBFilled(s: Slot, s': Slot, k: nat)
    requires Inv(s) && s.phase == Idle && Apply(s, EmptyB(k)) == Some(s')
    ensures Filled(s')
  {
    hide Counted, Tokens, With, Become, NeedsB;
    OnlyClearing(s, k);
    NeedsBecome(s, s', k, LeaveA);
  }

  lemma LeaveFilled(s: Slot, s': Slot, k: nat)
    requires Inv(s) && s.phase == Idle && Apply(s, LeaveCountA(k)) == Some(s')
    ensures Filled(s')
  {
    hide Tokens, With, NeedsB, Counted;
    InUse(s);
    LeaveCount(s, k);
    NeedsLeave(s, s', k);
    NeedsSame(s', s');
  }

  /** The steps of the thread that owns the reserved slot. */
  lemma FilledByOwner(s: Slot, step: Step)
    requires Inv(s) && Apply(s, step).Some? && (s.phase != Idle || step.Reserve?)
    ensures Filled(Apply(s, step).value)
  {
    hide Counted, Tokens, With, Become, NeedsB, Borrowed, Incremented;
    var s' := Apply(s, step).value;
    InUse(s);
    NeedsSame(s, s');
    match step
    case Open(k) => NeedsBecome(s, s', k, HandleB);
    case _ =>
  }

  lemma InUse(s: Slot)
    requires Counted(s)
    ensures s.phase != Idle ==> s.tokens == map[] && s.rcA == 1
    ensures s.rcA >= 2 <==> s.tokens != map[]
    ensures s.rcA >= 2 ==> s.rcA == 1 + |s.tokens|
    ensures s.rcB == |With(s.tokens, HandleB)| + (if s.phase == Opening then 1 else 0) <= |s.tokens| + 1
    ensures s.rcA < U16 && (s.phase == CountingB ==> s.rcB == 0)
  {
    hide With;
    WithAtMost(s.tokens, HandleB);
    TokenCount(s.tokens, 0, Token(HandleA, 0));
  }

  lemma OnlyClearing(s: Slot, k: nat)
    requires Tokens(s) && Has(s, k, ClearB)
    ensures forall j :: j != k ==> !Has(s, j, HandleB) && !Has(s, j, ClearB)
  {
  }

  lemma NeedsSame(s: Slot, s': Slot)
    ensures s'.tokens == s.tokens ==> (NeedsB(s') <==> NeedsB(s))
    ensures s.tokens == map[] ==> !NeedsB(s)
  {
    assert s'.tokens == s.tokens ==> forall k, st :: Has(s', k, st) <==> Has(s, k, st);
  }

  lemma NeedsBecome(s: Slot, s': Slot, k: nat, status: Status)
    requires s'.tokens == Become(s, k, status)
    ensures s'.tokens != map[]
    ensures NeedsB(s') <==>
      status in {HandleB, ClearB} || exists j :: j != k && (Has(s, j, HandleB) || Has(s, j, ClearB))
    ensures NeedsB(s) <==>
      Has(s, k, HandleB) || Has(s, k, ClearB) || exists j :: j != k && (Has(s, j, HandleB) || Has(s, j, ClearB))
  {
    assert k in s'.tokens;
    assert forall j, st :: Has(s', j, st) <==> if j == k then st == status else Has(s, j, st);
    assert status in {HandleB, ClearB} ==> Has(s', k, status);
  }

  lemma NeedsLeave(s: Slot, s': Slot, k: nat)
    requires s'.tokens == s.tokens - {k} && !Has(s, k, HandleB) && !Has(s, k, ClearB)
    ensures NeedsB(s') <==> NeedsB(s)
  {
    assert forall j, st :: Has(s', j, st) <==> j != k && Has(s, j, st);
  }

  lemma SomeB(s: Slot)
    requires Counted(s) && s.phase == Idle
    ensures s.rcB >= 1 ==> NeedsB(s)
  {
    if s.rcB >= 1 {
      var k :| k in With(s.tokens, HandleB);
      assert Has(s, k, HandleB);
    }
  }

  lemma OtherB(s: Slot, k: nat)
    requires Counted(s) && Has(s, k, HandleB)
    ensures s.rcB != 1 ==> exists j :: j != k && Has(s, j, HandleB)
  {
    if s.rcB != 1 {
      WithSome(s, k, HandleB);
      assert |With(s.tokens, HandleB) - {k}| == |With(s.tokens, HandleB)| - 1;
      var j :| j in With(s.tokens, HandleB) - {k};
      assert Has(s, j, HandleB);
    }
  }

  // ---- What the invariant gives to the holders of handles ----

  /** A handle always finds a value, and the slot still has the handle's id. */
  lemma HandleReads(s: Slot, k: nat)
    requires Inv(s) && IsHandle(s, k)
    ensures s.slotA.Some? && s.id == s.tokens[k].id && s.rcA >= 2 && s.phase == Idle
    ensures Has(s, k, HandleB) ==> s.slotB.Some? && s.rcB >= 1
  {
    WithSome(s, k, HandleB);
    assert s.tokens != map[];
  }

  /** Slot A is only dropped when there is no token at all, and slot B when there is no B-handle and
      none can appear; and each of them at most once since the slot was reserved. */
  lemma DropsAreSafe(s: Slot, step: Step)
    requires Inv(s) && Bounded(s, step) && Apply(s, step).Some?
    ensures var s' := Apply(s, step).value;
            && (s.slotA.Some? && s'.slotA.None? ==> s.tokens == map[] && s.rcA == 1)
            && (s.slotB.Some? && s'.slotB.None? ==>
                  s.rcB == 0 && forall k :: !Has(s, k, HandleB) && !(k in s.tokens && s.tokens[k].status.CloningB?))
            && s'.clearsA <= 1 && s'.clearsB <= 1
  {
    StepKeeps(s, step);
    ClearingB(s);
    if k :| k in s.tokens && s.tokens[k].status.CloningB? {
      SourceHolds(s, k);
    }
    hide With, Counted, Become, Borrowed;
  }

  /** When a slot becomes free, both values have been dropped exactly as often as they were put in. */
  lemma FreedIsEmpty(s: Slot)
    requires Inv(s) && s.rcA == 0
    ensures s.slotA.None? && s.slotB.None? && s.clearsA == s.fillsA && s.clearsB == s.fillsB && s.rcB == 0
    ensures s.tokens == map[]
  {
  }

  /** The bound on references is exactly what is needed: one more and `rc_a` wraps around. */
  lemma RoomIsNeeded(s: Slot, step: Step)
    requires Inv(s) && AddsReference(step) && Apply(s, step).Some?
    ensures Inv(Apply(s, step).value) <==> Room(s)
    ensures !Room(s) ==> Apply(s, step).value.rcA == 0 && Apply(s, step).value.tokens != map[]
  {
    hide With, Become, Tokens, Filled, Borrowed;
    if Room(s) {
      StepKeeps(s, step);
    } else {
      Wraps(s, step);
    }
  }

  lemma Wraps(s: Slot, step: Step)
    requires Counted(s) && !Room(s) && AddsReference(step) && Apply(s, step).Some?
    ensures var s' := Apply(s, step).value; s'.rcA == 0 && s'.tokens != map[] && !Counted(s')
  {
  }

  // ---- Runs ----

  /** Steps of any number of threads in any order, from an empty slot. */
  ghost predicate Run(states: seq<Slot>, steps: seq<Step>)
  {
    && |states| == |steps| + 1 && states[0] == EMPTY
    && forall i :: 0 <= i < |steps| ==>
      Bounded(states[i], steps[i]) && Apply(states[i], steps[i]) == Some(states[i + 1])
  }

  lemma {:induction false} RunKeeps(states: seq<Slot>, steps: seq<Step>, i: nat)
    requires Run(states, steps) && i < |states|
    ensures Inv(states[i])
  {
    hide Apply, Counted, Tokens, Filled;
    if i == 0 {
      StartsEmpty();
    } else {
      var n := i - 1;
      RunKeeps(states, steps, n);
      assert Apply(states[n], steps[n]) == Some(states[n + 1]);
      StepKeeps(states[n], steps[n]);
    }
  }

  lemma StartsEmpty()
    ensures Inv(EMPTY)
  {
  }

  /** As long as a handle is held, its slot keeps the id that the handle was acquired for. */
  lemma {:induction false} IdStable(states: seq<Slot>, steps: seq<Step>, i: nat, j: nat, k: nat)
    requires Run(states, steps) && i <= j < |states|
    requires forall n :: i <= n <= j ==> k in states[n].tokens
    ensures states[i].id == states[i].tokens[k].id == states[j].tokens[k].id == states[j].id
  {
    hide Apply, Counted, Filled;
    RunKeeps(states, steps, j);
    if i < j {
      var n := j - 1;
      IdStable(states, steps, i, n, k);
      RunKeeps(states, steps, n);
      assert Apply(states[n], steps[n]) == Some(states[n + 1]);
      SameId(states[n], steps[n], k);
    }
  }

  lemma SameId(s: Slot, step: Step, k: nat)
    requires Inv(s) && Apply(s, step).Some? && k in s.tokens && k in Apply(s, step).value.tokens
    ensures Apply(s, step).value.tokens[k].id == s.tokens[k].id
  {
  }
  // ---- What was committed is what the handles find ----

  /** The slot is past the filling of A and of B. */
  predicate PastA(phase: Phase)
  {
    !phase.ResetB? && !phase.StoreId? && phase != FillingA
  }

  predicate PastB(phase: Phase)
  {
    PastA(phase) && phase != FillingB
  }

  /** No step from `i` on and before `j` reserves the slot anew. */
  ghost predicate NoReserve(steps: seq<Step>, i: nat, j: nat)
  {
    forall n :: i <= n < j && n < |steps| ==> !steps[n].Reserve?
  }

  lemma ValueStays(s: Slot, step: Step)
    requires Apply(s, step).Some? && !step.Reserve?
    ensures var s' := Apply(s, step).value;
            && (PastA(s.phase) ==> PastA(s'.phase) && (s'.slotA == s.slotA || s'.slotA == None))
            && (PastB(s.phase) ==> PastB(s'.phase) && (s'.slotB == s.slotB || s'.slotB == None))
  {
    hide Become, Borrowed, Incremented, Decremented;
  }

  lemma {:induction false} StaysA(states: seq<Slot>, steps: seq<Step>, i: nat, j: nat)
    requires Run(states, steps) && i < j < |states| && steps[i].FillA? && NoReserve(steps, i, j)
    ensures PastA(states[j].phase) && states[j].slotA in {None, Some(steps[i].value)}
  {
    var n := j - 1;
    assert Apply(states[n], steps[n]) == Some(states[n + 1]);
    if i < n {
      StaysA(states, steps, i, n);
      ValueStays(states[n], steps[n]);
    }
  }

  lemma {:induction false} StaysB(states: seq<Slot>, steps: seq<Step>, i: nat, j: nat)
    requires Run(states, steps) && i < j < |states| && steps[i].FillB? && NoReserve(steps, i, j)
    ensures PastB(states[j].phase) && states[j].slotB in {None, Some(steps[i].value)}
  {
    var n := j - 1;
    assert Apply(states[n], steps[n]) == Some(states[n + 1]);
    if i < n {
      StaysB(states, steps, i, n);
      ValueStays(states[n], steps[n]);
    }
  }

  /** The slot has the id, or its owner is about to store it. */
  predicate IsFor(s: Slot, id: nat)
  {
    if s.phase.ResetB? || s.phase.StoreId? then s.phase.newId == id else s.id == id
  }

  lemma IdStays(s: Slot, step: Step, id: nat)
    requires Inv(s) && Apply(s, step).Some? && !step.Reserve? && IsFor(s, id)
    ensures IsFor(Apply(s, step).value, id)
  {
    InUse(s);
    hide Become, Borrowed, Incremented, Decremented, Inv;
  }

  lemma {:induction false} StaysId(states: seq<Slot>, steps: seq<Step>, i: nat, j: nat)
    requires Run(states, steps) && i < j < |states| && steps[i].Reserve? && NoReserve(steps, i + 1, j)
    ensures IsFor(states[j], steps[i].newId)
  {
    var n := j - 1;
    assert Apply(states[n], steps[n]) == Some(states[n + 1]);
    if i < n {
      hide Apply;
      RunKeeps(states, steps, n);
      StaysId(states, steps, i, n);
      IdStays(states[n], steps[n], steps[i].newId);
    }
  }

  /** Until the slot is reserved again, every handle finds the values that `commit` was given and the id that
      the slot was reserved for. */
  lemma CommittedIsRead(states: seq<Slot>, steps: seq<Step>, i: nat, j: nat, k: nat)
    requires Run(states, steps) && i < j < |states| && NoReserve(steps, i + 1, j) && IsHandle(states[j], k)
    ensures steps[i].FillA? ==> states[j].slotA == Some(steps[i].value)
    ensures steps[i].FillB? && Has(states[j], k, HandleB) ==> states[j].slotB == Some(steps[i].value)
    ensures steps[i].Reserve? ==> states[j].id == steps[i].newId == states[j].tokens[k].id
  {
    RunKeeps(states, steps, j);
    HandleReads(states[j], k);
    hide Inv, Run, Apply;
    if steps[i].FillA? {
      StaysA(states, steps, i, j);
    } else if steps[i].FillB? {
      StaysB(states, steps, i, j);
    } else if steps[i].Reserve? {
      StaysId(states, steps, i, j);
    }
  }

  /** A value that is in a slot was put there by a step since the slot was reserved. */
  ghost predicate PutA(steps: seq<Step>, j: nat, value: nat)
  {
    exists i :: 0 <= i < j && i < |steps| && steps[i] == FillA(value) && NoReserve(steps, i, j)
  }

  ghost predicate PutB(steps: seq<Step>, j: nat, value: nat)
  {
    exists i :: 0 <= i < j && i < |steps| && steps[i] == FillB(value) && NoReserve(steps, i, j)
  }

  /** And a handle never finds anything that was not put there since the slot was reserved last. */
  lemma {:induction false} ReadWasPut(states: seq<Slot>, steps: seq<Step>, j: nat)
    requires Run(states, steps) && j < |states|
    ensures states[j].slotA.Some? ==> PutA(steps, j, states[j].slotA.value)
    ensures states[j].slotB.Some? ==> PutB(steps, j, states[j].slotB.value)
  {
    if j > 0 {
      var n := j - 1;
      ReadWasPut(states, steps, n);
      RunKeeps(states, steps, n);
      assert Apply(states[n], steps[n]) == Some(states[n + 1]);
      PutStep(states[n], steps, n);
    }
  }

  lemma PutStep(s: Slot, steps: seq<Step>, n: nat)
    requires Inv(s) && n < |steps| && Apply(s, steps[n]).Some?
    requires s.slotA.Some? ==> PutA(steps, n, s.slotA.value)
    requires s.slotB.Some? ==> PutB(steps, n, s.slotB.value)
    ensures var s' := Apply(s, steps[n]).value;
            && (s'.slotA.Some? ==> PutA(steps, n + 1, s'.slotA.value))
            && (s'.slotB.Some? ==> PutB(steps, n + 1, s'.slotB.value))
  {
    var s' := Apply(s, steps[n]).value;
    if steps[n].Reserve? {
      FreedIsEmpty(s);
    }
    hide Inv;
    if s'.slotA.Some? && !steps[n].FillA? {
      assert s'.slotA == s.slotA;
      var i :| 0 <= i < n && i < |steps| && steps[i] == FillA(s.slotA.value) && NoReserve(steps, i, n);
      assert NoReserve(steps, i, n + 1);
    }
    if s'.slotB.Some? && !steps[n].FillB? {
      assert s'.slotB == s.slotB;
      var i :| 0 <= i < n && i < |steps| && steps[i] == FillB(s.slotB.value) && NoReserve(steps, i, n);
      assert NoReserve(steps, i, n + 1);
    }
    assert NoReserve(steps, n, n + 1) || steps[n].Reserve?;
  }
  // ---- Who gets a reference ----

  /** A reference can be had exactly as long as somebody has one, and a B-handle as long as somebody has a
      B-handle; a slot can be reserved exactly if nobody has anything to do with it. */
  lemma AcquirableIff(s: Slot, k: nat, id: nat)
    requires Inv(s)
    ensures Apply(s, Reserve(id)).Some? <==> s.phase == Idle && s.tokens == map[]
    ensures k !in s.tokens ==> (Apply(s, AcquireA(k)).Some? <==> s.tokens != map[])
    ensures k !in s.tokens ==> (Apply(s, AcquireB(k)).Some? <==> s.tokens != map[])
    ensures Has(s, k, TestB) ==>
      && Apply(s, TestCountB(k)).Some?
      && Has(Apply(s, TestCountB(k)).value, k, if exists j :: Has(s, j, HandleB) then HandleB else LeaveA)
  {
    hide Tokens, Filled, Incremented;
    InUse(s);
    CountOfB(s);
  }

  lemma CountOfB(s: Slot)
    requires Counted(s)
    ensures s.phase == Idle ==> (s.rcB >= 1 <==> exists j :: Has(s, j, HandleB))
  {
    if j :| Has(s, j, HandleB) {
      WithSome(s, j, HandleB);
    }
    if s.phase == Idle && s.rcB >= 1 {
      var k :| k in With(s.tokens, HandleB);
      assert Has(s, k, HandleB);
    }
  }

  /** What the step is to give to the thread that takes it, if it is about a reference. */
  ghost function Wanted(s: Slot, step: Step): Option<Status>
  {
    match step
    case Open(k) => Some(HandleB)
    case AcquireA(k) => Some(HandleA)
    case AcquireB(k) => Some(TestB)
    case CloneA(k, _) => Some(HandleA)
    case CloneB(k, source) => Some(CloningB(source))
    case CloneCountB(k) => Some(HandleB)
    case DropB(k) => Some(if exists j :: j != k && Has(s, j, HandleB) then LeaveA else ClearB)
    case EmptyB(k) => Some(LeaveA)
    case _ => None
  }

  /** A thread that takes a step gets what it wanted, and nobody else's reference is touched. */
  lemma OnlyOwnToken(s: Slot, step: Step, j: nat)
    requires Inv(s) && Apply(s, step).Some?
    ensures Wanted(s, step).Some? ==> Has(Apply(s, step).value, step.k, Wanted(s, step).value)
    ensures step.LeaveCountA? ==> step.k !in Apply(s, step).value.tokens
    ensures j in s.tokens && !OwnToken(s, step, j) ==>
      j in Apply(s, step).value.tokens && Apply(s, step).value.tokens[j] == s.tokens[j]
  {
    GetsWanted(s, step);
    if j in s.tokens && !OwnToken(s, step, j) {
      OthersKept(s, step, j);
    }
    hide Inv, Apply, Wanted;
  }

  /** The step is about token `j`. */
  ghost predicate OwnToken(s: Slot, step: Step, j: nat)
  {
    (Wanted(s, step).Some? || step.TestCountB? || step.LeaveCountA?) && j == step.k
  }

  lemma GetsWanted(s: Slot, step: Step)
    requires Inv(s) && Apply(s, step).Some?
    ensures Wanted(s, step).Some? ==> Has(Apply(s, step).value, step.k, Wanted(s, step).value)
    ensures step.LeaveCountA? ==> step.k !in Apply(s, step).value.tokens
  {
    if step.DropB? {
      LastB(s, step.k);
      OtherB(s, step.k);
    }
    hide Inv, Borrowed, Incremented, Decremented;
  }

  lemma OthersKept(s: Slot, step: Step, j: nat)
    requires Apply(s, step).Some? && j in s.tokens && !OwnToken(s, step, j)
    ensures j in Apply(s, step).value.tokens && Apply(s, step).value.tokens[j] == s.tokens[j]
  {
    hide Borrowed, Incremented, Decremented;
  }

  /** Every handle can be copied and given up, unless a copy is being made from it. */
  lemma HandlesAreUsable(s: Slot, k: nat, source: nat)
    requires Inv(s)
    ensures IsHandle(s, source) && k !in s.tokens ==> Apply(s, CloneA(k, source)).Some?
    ensures Has(s, source, HandleB) && k !in s.tokens ==> Apply(s, CloneB(k, source)).Some?
    ensures Has(s, k, HandleB) ==>
      (Apply(s, DropB(k)).Some? <==> forall j :: j in s.tokens ==> s.tokens[j].status != CloningB(k))
  {
  }

  // ---- Everything can be given back ----

  /** The steps can be taken one after the other, and lead to `s'`. */
  ghost predicate Leads(s: Slot, steps: seq<Step>, s': Slot)
    decreases |steps|
  {
    if steps == [] then s' == s
    else Apply(s, steps[0]).Some? && Leads(Apply(s, steps[0]).value, steps[1..], s')
  }

  /** Nobody asks for anything new. */
  predicate Continues(step: Step)
  {
    !step.Reserve? && !AddsReference(step)
  }

  ghost function Entering(s: Slot): set<nat>
  {
    set k | k in s.tokens && (s.tokens[k].status == TestB || s.tokens[k].status.CloningB?)
  }

  ghost function Committing(phase: Phase): nat
  {
    if phase == FillingB then 3 else if phase == CountingB then 2 else if phase == Opening then 1 else 0
  }

  ghost function Closing(phase: Phase): nat
  {
    match phase
    case ResetB(_) => 5
    case StoreId(_) => 4
    case FillingA => 3
    case EmptyingA => 2
    case Freeing => 1
    case _ => 0
  }

  /** What the owner of a reserved slot does next; an initialiser that has nothing yet is dropped. */
  ghost function OwnerNext(s: Slot): Step
    requires s.phase != Idle
  {
    match s.phase
    case ResetB(_) => ResetCountB
    case StoreId(_) => StoreTheId
    case FillingA => Abort
    case FillingB => FillB(0)
    case CountingB => CountB
    case Opening => Open(0)
    case EmptyingA => EmptyA
    case Freeing => Free
  }

  /** What somebody with a reference does next: attempts are finished first, then B-handles are dropped. */
  ghost function HolderNext(s: Slot): Step
    requires s.tokens != map[]
  {
    if k :| k in Entering(s) then if s.tokens[k].status == TestB then TestCountB(k) else CloneCountB(k)
    else if k :| k in With(s.tokens, HandleB) then DropB(k)
    else if k :| k in With(s.tokens, ClearB) then EmptyB(k)
    else var k :| k in s.tokens; LeaveCountA(k)
  }
  /** Less is left to do: in this order of weight, committing, attempts, B-handles, dropping of slot B, tokens
      and closing. */
  ghost predicate Fewer(s': Slot, s: Slot)
  {
    var c', c := Committing(s'.phase), Committing(s.phase);
    var e', e := |Entering(s')|, |Entering(s)|;
    var b', b := |With(s'.tokens, HandleB)|, |With(s.tokens, HandleB)|;
    var d', d := |With(s'.tokens, ClearB)|, |With(s.tokens, ClearB)|;
    var n', n := |s'.tokens|, |s.tokens|;
    c' < c || (c' == c && (e' < e || (e' == e && (b' < b || (b' == b && (d' < d || (d' == d && (n' < n || (n' == n
    && Closing(s'.phase) < Closing(s.phase))))))))))
  }

  lemma OwnerMoves(s: Slot)
    requires Inv(s) && s.phase != Idle
    ensures Continues(OwnerNext(s)) && Apply(s, OwnerNext(s)).Some? && Fewer(Apply(s, OwnerNext(s)).value, s)
  {
    InUse(s);
    hide Inv, Incremented, Become, Fewer;
    var s' := Apply(s, OwnerNext(s)).value;
    if s.phase == Opening {
      FewerToCommit(s, s');
    } else {
      FewerToClose(s, s');
    }
  }

  lemma FewerToCommit(s: Slot, s': Slot)
    requires Committing(s'.phase) < Committing(s.phase)
    ensures Fewer(s', s)
  {
    hide Entering, With;
  }

  lemma FewerToClose(s: Slot, s': Slot)
    requires s'.tokens == s.tokens && Committing(s'.phase) <= Committing(s.phase)
    requires Committing(s'.phase) < Committing(s.phase) || Closing(s'.phase) < Closing(s.phase)
    ensures Fewer(s', s)
  {
    assert Entering(s') == Entering(s);
    hide Entering, With;
  }

  lemma EnteringEnds(s: Slot, s': Slot, k: nat, status: Status)
    requires s'.tokens == Become(s, k, status) && status != TestB && !status.CloningB?
    ensures Entering(s') == Entering(s) - {k}
    ensures With(s'.tokens, HandleB) == if status == HandleB then With(s.tokens, HandleB) + {k}
                                        else With(s.tokens, HandleB) - {k}
    ensures With(s'.tokens, ClearB) == if status == ClearB then With(s.tokens, ClearB) + {k}
                                       else With(s.tokens, ClearB) - {k}
  {
  }

  lemma HolderCan(s: Slot)
    requires Inv(s) && s.tokens != map[]
    ensures Continues(HolderNext(s)) && Apply(s, HolderNext(s)).Some?
  {
    hide Inv, Incremented, Decremented, WithoutB;
    var step := HolderNext(s);
    assert step.k in s.tokens;
    assert forall j :: j in s.tokens && s.tokens[j].status.CloningB? ==> j in Entering(s);
    if step.LeaveCountA? {
      assert step.k !in Entering(s) && step.k !in With(s.tokens, HandleB) && step.k !in With(s.tokens, ClearB);
    }
  }

  lemma BecomeFewer(s: Slot, s': Slot, k: nat, status: Status)
    requires s.phase == s'.phase && s'.tokens == Become(s, k, status) && status in {HandleB, ClearB, LeaveA}
    requires || k in Entering(s)
             || (k in With(s.tokens, HandleB) && status != HandleB)
             || (k in With(s.tokens, ClearB) && status == LeaveA)
    ensures Fewer(s', s)
  {
    EnteringEnds(s, s', k, status);
    assert k in Entering(s) ==> |Entering(s')| == |Entering(s)| - 1;
    assert k !in Entering(s) ==> Entering(s') == Entering(s);
    assert k in With(s.tokens, HandleB) && status != HandleB ==>
      |With(s'.tokens, HandleB)| == |With(s.tokens, HandleB)| - 1;
    assert k in With(s.tokens, ClearB) ==>
      && k !in Entering(s) && k !in With(s.tokens, HandleB)
      && |With(s.tokens, ClearB) - {k}| == |With(s.tokens, ClearB)| - 1;
    assert k in With(s.tokens, HandleB) ==> k !in Entering(s);
    assert k !in With(s.tokens, HandleB) ==> With(s.tokens, HandleB) - {k} == With(s.tokens, HandleB);
    hide Entering, With, Become;
  }

  lemma LeaveFewer(s: Slot, s': Slot, k: nat)
    requires s'.tokens == s.tokens - {k} && k in s.tokens && Committing(s'.phase) == Committing(s.phase)
    requires k !in Entering(s) && k !in With(s.tokens, HandleB) && k !in With(s.tokens, ClearB)
    ensures Fewer(s', s)
  {
    TokenCount(s.tokens, k, s.tokens[k]);
    assert Entering(s') == Entering(s);
    assert With(s'.tokens, HandleB) == With(s.tokens, HandleB) && With(s'.tokens, ClearB) == With(s.tokens, ClearB);
    hide Entering, With;
  }

  lemma HolderMoves(s: Slot)
    requires Inv(s) && s.phase == Idle && s.tokens != map[]
    ensures Continues(HolderNext(s)) && Apply(s, HolderNext(s)).Some? && Fewer(Apply(s, HolderNext(s)).value, s)
  {
    HolderCan(s);
    hide Inv, Incremented, Decremented, Fewer, Continues, Entering, With, Become, Borrowed;
    var step := HolderNext(s);
    var s', k := Apply(s, step).value, step.k;
    match step
    case TestCountB(_) => BecomeFewer(s, s', k, if s.rcB >= 1 then HandleB else LeaveA);
    case CloneCountB(_) => BecomeFewer(s, s', k, HandleB);
    case DropB(_) => BecomeFewer(s, s', k, if s.rcB == 1 then ClearB else LeaveA);
    case EmptyB(_) => BecomeFewer(s, s', k, LeaveA);
    case LeaveCountA(_) => LeaveFewer(s, s', k);
  }

  /** From wherever the threads are, they can go on until all references are given back and the slot is free. */
  lemma {:induction false} CanBeFreed(s: Slot)
    requires Inv(s)
    ensures exists steps, s' ::
              Leads(s, steps, s') && (forall i :: 0 <= i < |steps| ==> Continues(steps[i])) && Inv(s') && s'.rcA == 0
    decreases Committing(s.phase), |Entering(s)|, |With(s.tokens, HandleB)|, |With(s.tokens, ClearB)|, |s.tokens|,
              Closing(s.phase)
  {
    hide Apply, Counted, Tokens, Filled, Entering, With, Committing, Closing;
    if s.phase == Idle && s.tokens == map[] {
      FreeWhenUnused(s);
      assert Leads(s, [], s);
    } else {
      var step := if s.phase != Idle then OwnerNext(s) else HolderNext(s);
      if s.phase != Idle {
        OwnerMoves(s);
      } else {
        HolderMoves(s);
      }
      StepKeeps(s, step);
      CanBeFreed(Apply(s, step).value);
      var steps, s' :| Leads(Apply(s, step).value, steps, s')
        && (forall i :: 0 <= i < |steps| ==> Continues(steps[i])) && Inv(s') && s'.rcA == 0;
      LeadsOn(s, step, steps, s');
    }
  }

  lemma FreeWhenUnused(s: Slot)
    requires Counted(s) && s.phase == Idle && s.tokens == map[]
    ensures s.rcA == 0
  {
  }
  /** A slot that nobody uses can be reserved. */
  lemma CanBeReserved(s: Slot, id: nat) returns (s': Slot)
    requires Inv(s) && s.phase == Idle && s.tokens == map[]
    ensures Leads(s, [Reserve(id), ResetCountB, StoreTheId], s')
    ensures s'.phase == FillingA && s'.id == id && s'.tokens == map[]
  {
    FreeWhenUnused(s);
    hide Leads, Inv;
    var s1 := Apply(s, Reserve(id)).value;
    var s2 := Apply(s1, ResetCountB).value;
    s' := Apply(s2, StoreTheId).value;
    LeadsNowhere(s');
    LeadsOn(s2, StoreTheId, [], s');
    assert [StoreTheId] + [] == [StoreTheId];
    LeadsOn(s1, ResetCountB, [StoreTheId], s');
    assert [ResetCountB] + [StoreTheId] == [ResetCountB, StoreTheId];
    assert [Reserve(id)] + [ResetCountB, StoreTheId] == [Reserve(id), ResetCountB, StoreTheId];
    LeadsOn(s, Reserve(id), [ResetCountB, StoreTheId], s');
  }

  /** Committing a reserved slot makes a handle that finds the values there. */
  lemma CanBeCommitted(s: Slot, a: nat, b: nat, k: nat) returns (s': Slot)
    requires s.phase == FillingA && s.tokens == map[]
    ensures Leads(s, [FillA(a), FillB(b), CountB, Open(k)], s')
    ensures Has(s', k, HandleB) && s'.id == s.id && s'.slotA == Some(a) && s'.slotB == Some(b)
  {
    hide Leads, Incremented;
    var s1 := Apply(s, FillA(a)).value;
    var s2 := Apply(s1, FillB(b)).value;
    var s3 := Apply(s2, CountB).value;
    s' := Apply(s3, Open(k)).value;
    LeadsNowhere(s');
    LeadsOn(s3, Open(k), [], s');
    assert [Open(k)] + [] == [Open(k)];
    LeadsOn(s2, CountB, [Open(k)], s');
    assert [CountB] + [Open(k)] == [CountB, Open(k)];
    assert [FillB(b)] + [CountB, Open(k)] == [FillB(b), CountB, Open(k)];
    assert [FillA(a)] + [FillB(b), CountB, Open(k)] == [FillA(a), FillB(b), CountB, Open(k)];
    LeadsOn(s1, FillB(b), [CountB, Open(k)], s');
    LeadsOn(s, FillA(a), [FillB(b), CountB, Open(k)], s');
  }

  lemma LeadsNowhere(s: Slot)
    ensures Leads(s, [], s)
  {
  }

  lemma LeadsOn(s: Slot, step: Step, steps: seq<Step>, s': Slot)
    requires Apply(s, step).Some? && Leads(Apply(s, step).value, steps, s')
    ensures Leads(s, [step] + steps, s')
  {
    hide Apply;
    assert ([step] + steps)[1..] == steps;
  }
}
