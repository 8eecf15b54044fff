/** The per-CPU stack of guards that keep interrupts and yielding disabled; guards may be dropped in
    any order. */
module Interruptions {

  datatype Saved = Saved(active: bool, interruptsEnabled: bool, yieldDisabled: bool)

  class NoInterruptions {
    var interruptsEnabled: bool
    var yieldDisabled: bool
    var stack: seq<Saved>
    /** The indices of the guards that were not dropped yet, and what the first of them found. */
    ghost var live: set<nat>
    ghost var found: (bool, bool)

    ghost predicate Valid()
      reads this
    {
      && (forall i :: i in live <==> 0 <= i < |stack| && stack[i].active)
      && (forall i :: 0 < i < |stack| ==> !stack[i].interruptsEnabled && stack[i].yieldDisabled)
      && (stack != [] ==>
            && stack[|stack| - 1].active
            && (stack[0].interruptsEnabled, stack[0].yieldDisabled) == found
            && !interruptsEnabled && yieldDisabled)
    }

    /** A CPU without guards, in whatever state. */
    constructor (interruptsEnabled: bool, yieldDisabled: bool)
      ensures Valid() && live == {} && stack == []
      ensures this.interruptsEnabled == interruptsEnabled && this.yieldDisabled == yieldDisabled
    {
      this.interruptsEnabled, this.yieldDisabled := interruptsEnabled, yieldDisabled;
      stack, live := [], {};
      found := (interruptsEnabled, yieldDisabled);
    }

    /** Take a guard: afterwards neither interrupts nor yields can happen. */
    method Disable() returns (index: nat)
      requires Valid()
      modifies this
      ensures Valid() && live == old(live) + {index} && index !in old(live)
      ensures !interruptsEnabled && yieldDisabled
      ensures found == if old(live) == {} then old((interruptsEnabled, yieldDisabled)) else old(found)
    {
      assert stack != [] ==> |stack| - 1 in live;
      var saved := Saved(true, interruptsEnabled, yieldDisabled);
      interruptsEnabled := false;
      yieldDisabled := true;
      index := |stack|;
      if stack == [] {
        found := (saved.interruptsEnabled, saved.yieldDisabled);
      }
      stack := stack + [saved];
      live := live + {index};
    }

    /** Drop a guard. As long as another one lives everything stays disabled, and every other guard keeps
        its index; the last one restores what the first one found. */
    method Enable(index: nat)
      requires Valid() && index in live
      modifies this
      ensures Valid() && live == old(live) - {index} && found == old(found)
      ensures live != {} ==> !interruptsEnabled && yieldDisabled
      ensures live == {} ==> stack == [] && (interruptsEnabled, yieldDisabled) == found
    {
      var interruptState := interruptsEnabled;
      interruptsEnabled := false;
      stack := stack[index := stack[index].(active := false)];
      live := live - {index};
      while stack != [] && !stack[|stack| - 1].active
        invariant !interruptsEnabled && live == old(live) - {index} && found == old(found)
        invariant forall i :: i in live <==> 0 <= i < |stack| && stack[i].active
        invariant forall i :: 0 < i < |stack| ==> !stack[i].interruptsEnabled && stack[i].yieldDisabled
        invariant stack != [] ==>
          (stack[0].interruptsEnabled, stack[0].yieldDisabled) == found && !interruptState && yieldDisabled
        invariant stack == [] ==> (interruptState, yieldDisabled) == found
      {
        var restored := stack[|stack| - 1];
        stack := stack[..|stack| - 1];
        yieldDisabled := restored.yieldDisabled;
        interruptState := restored.interruptsEnabled;
      }
      if interruptState {
        interruptsEnabled := true;
      }
      assert stack != [] ==> |stack| - 1 in live;
    }
  }
}
