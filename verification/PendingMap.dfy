/** `pending_map` (transfer_impl.cpp): who owns a libusb transfer, over every
    interleaving of attach, the two halves of submit, completions and cancel. */
module PendingMap {
  import opened Prelude

  /** A transfer is known by its allocation; an address used again is a new Id. */
  type Id = nat

  type Callback = nat

  datatype Status = Finished | TimedOut | Aborted

  /** The thread in `cancel`: `Drained` has seen an empty map and not cleared it yet. */
  datatype Canceller = Idle | Waiting | Drained

  /** The map, and apart from it where the threads are that hold a transfer: the map
      can be cleared under a thread that is yet to call submit. */
  datatype State = State(
    pending: set<Id>,                 // keys of pending_transfers_
    canceled: bool,                   // transfers_canceled_
    canceller: Canceller,
    mock: set<Id>,                    // transfers without a device handle: never submitted
    held: set<Id>,                    // mock transfers a plugin has and may complete
    unchecked: set<Id>,               // attached, submit has not looked at the flag yet
    passed: set<Id>,                  // submit found the flag clear, libusb not called yet
    flying: set<Id>,                  // with libusb
    calling: multiset<Id>,            // taken out, callback running
    dying: multiset<Id>,              // taken out, about to be freed
    called: multiset<Id>,             // history: freed after its callback
    discarded: multiset<Id>,          // history: freed without a callback
    attached: set<Id>,                // history: every transfer ever attached
    lost: multiset<Id>,               // history: cleared from the map, and nobody's to free
    missed: multiset<Id>)             // history: completed, and not found in the map
  {
    /** Mock transfers in the map: it is for the map to free them. */
    function Mocks(): set<Id> { pending * mock }
  }

  function Init(): State {
    State({}, false, Idle, {}, {}, {}, {}, {}, multiset{}, multiset{}, multiset{}, multiset{}, {}, multiset{}, multiset{})
  }

  datatype Step =
    | Attach(id: Id, mock: bool)
    | SubmitCheck(id: Id)                 // submit, under the lock
    | SubmitAct(id: Id)                   // libusb_submit_transfer
    | Complete(id: Id, status: Status)    // on_transfer_completed_impl, under the lock
    | Callback(id: Id)                    // callback_func(give_away_transfer(..)) returns
    | Free(id: Id)                        // give_away_transfer(..), the pointer dropped at once
    | Sweep                               // cancel, the first locked block
    | SeeEmpty                            // wait_for_canceled_transfers returns
    | Clear                               // cancel, the last locked block

  predicate Enabled(s: State, step: Step) {
    match step
    case Attach(id, _) => id !in s.attached
    case SubmitCheck(id) => id in s.unchecked
    case SubmitAct(id) => id in s.passed
    case Complete(id, status) => id in s.flying || (id in s.held && status == Finished)
    case Callback(id) => id in s.calling
    case Free(id) => id in s.dying
    case Sweep => s.canceller == Idle
    case SeeEmpty => s.canceller == Waiting && s.pending == {}
    case Clear => s.canceller == Drained
  }

  function Next(s: State, step: Step): State
    requires Enabled(s, step)
  {
    match step
    case Attach(id, mock) =>
      var t := s.(pending := s.pending + {id}, attached := s.attached + {id});
      if mock then t.(mock := s.mock + {id}, held := s.held + {id}) else t.(unchecked := s.unchecked + {id})
    case SubmitCheck(id) =>
      if s.canceled then
        s.(pending := s.pending - {id}, unchecked := s.unchecked - {id}, dying := s.dying + multiset{id})
      else s.(unchecked := s.unchecked - {id}, passed := s.passed + {id})
    case SubmitAct(id) => s.(passed := s.passed - {id}, flying := s.flying + {id})
    case Complete(id, status) =>
      var t := s.(pending := s.pending - {id}, flying := s.flying - {id}, held := s.held - {id});
      if id !in s.pending then t.(missed := s.missed + multiset{id})
      else if status == Finished then t.(calling := s.calling + multiset{id}) else t.(dying := s.dying + multiset{id})
    case Callback(id) => s.(calling := s.calling - multiset{id}, called := s.called + multiset{id})
    case Free(id) => s.(dying := s.dying - multiset{id}, discarded := s.discarded + multiset{id})
    case Sweep =>
      s.(pending := s.pending - s.mock, held := s.held - s.Mocks(), canceled := true, canceller := Waiting,
         discarded := s.discarded + multiset(s.Mocks()))
    case SeeEmpty => s.(canceller := Drained)
    case Clear => s.(pending := {}, canceller := Idle, lost := s.lost + multiset(s.Mocks()))
  }

  predicate Run(s: State, steps: seq<Step>, t: State)
    decreases |steps|
  {
    if steps == [] then s == t else Enabled(s, steps[0]) && Run(Next(s, steps[0]), steps[1..], t)
  }

  // ---------------------------------------------------------------- linear ownership

  function In(ids: set<Id>, id: Id): nat { if id in ids then 1 else 0 }

  /** In how many hands a transfer is. */
  function Owners(s: State, id: Id): nat {
    In(s.Mocks(), id) + In(s.unchecked, id) + In(s.passed, id) + In(s.flying, id)
    + s.calling[id] + s.dying[id] + s.called[id] + s.discarded[id] + s.lost[id]
  }

  ghost predicate Linear(s: State) {
    forall id :: Owners(s, id) == In(s.attached, id)
  }

  /** How the map relates to the threads. */
  ghost predicate Tracked(s: State) {
    && s.mock <= s.attached
    && s.passed + s.flying <= s.pending <= s.mock + s.unchecked + s.passed + s.flying
    && s.mock !! s.unchecked + s.passed + s.flying
    && (!s.canceled ==> s.unchecked <= s.pending)
    && (s.canceller != Idle ==> s.canceled)
    && (s.canceller == Drained ==> s.passed + s.flying == {})
  }

  /** How it relates to the plugins: they hold what is mock in it, and what was lost. */
  ghost predicate Holding(s: State) {
    && s.Mocks() <= s.held <= s.mock
    && (forall id :: id in s.held ==> (id in s.pending <==> id !in s.lost))
    && (forall id :: id in s.lost ==> id in s.mock)
    && (forall id :: id in s.missed ==> id in s.lost)
  }

  ghost predicate Inv(s: State) { Linear(s) && Tracked(s) && Holding(s) }

  lemma OwnersAfterComplete(s: State, step: Step, id: Id)
    requires Inv(s) && Enabled(s, step) && step.Complete?
    ensures Owners(Next(s, step), id) == Owners(s, id)
  {
    assert Owners(s, step.id) == In(s.attached, step.id);
  }

  lemma OwnersAfterOther(s: State, step: Step, id: Id)
    requires Inv(s) && Enabled(s, step) && !step.Complete? && !step.Attach?
    ensures Owners(Next(s, step), id) == Owners(s, id)
  {
    hide Holding;
  }

  lemma OwnersAfterAttach(s: State, step: Step, id: Id)
    requires Inv(s) && Enabled(s, step) && step.Attach?
    ensures Owners(Next(s, step), id) == In(s.attached + {step.id}, id)
  {
    assert Owners(s, id) == In(s.attached, id);
  }

  lemma StepKeepsLinear(s: State, step: Step)
    requires Inv(s) && Enabled(s, step)
    ensures Linear(Next(s, step))
  {
    hide Owners, Tracked, Holding;
    var t := Next(s, step);
    forall id ensures Owners(t, id) == In(t.attached, id) {
      assert Owners(s, id) == In(s.attached, id);
      if step.Complete? {
        OwnersAfterComplete(s, step, id);
      } else if step.Attach? {
        OwnersAfterAttach(s, step, id);
      } else {
        OwnersAfterOther(s, step, id);
      }
    }
  }

  lemma StepKeepsTracked(s: State, step: Step)
    requires Inv(s) && Enabled(s, step)
    ensures Tracked(Next(s, step))
  {
    if step.Attach? || step.SubmitCheck? || step.SubmitAct? || step.Complete? {
      assert Owners(s, step.id) == In(s.attached, step.id);
    }
  }

  lemma StepKeepsHolding(s: State, step: Step)
    requires Inv(s) && Enabled(s, step)
    ensures Holding(Next(s, step))
  {
    if step.Attach? || step.SubmitCheck? || step.Complete? {
      assert Owners(s, step.id) == In(s.attached, step.id);
    }
    if step.Sweep? || step.Clear? {
      forall id | id in s.Mocks() ensures id !in s.lost { assert Owners(s, id) == In(s.attached, id); }
    }
  }

  lemma StepKeeps(s: State, step: Step)
    requires Inv(s) && Enabled(s, step)
    ensures Inv(Next(s, step))
  {
    hide Linear, Tracked, Holding, Next, Enabled;
    StepKeepsLinear(s, step);
    StepKeepsTracked(s, step);
    StepKeepsHolding(s, step);
  }

  lemma {:induction false} RunKeeps(s: State, steps: seq<Step>, t: State)
    requires Inv(s) && Run(s, steps, t)
    ensures Inv(t)
    decreases |steps|
  {
    hide Linear, Tracked, Holding, Next, Enabled;
    if steps != [] {
      StepKeeps(s, steps[0]);
      RunKeeps(Next(s, steps[0]), steps[1..], t);
    }
  }

  lemma InitHolds()
    ensures Inv(Init())
  {
  }

  /** Over every run, every transfer attached is in exactly one hand; it is freed at
      most once, its callback runs at most once, and never if it was swept, refused,
      timed out or cancelled. Only a mock transfer can be lost. */
  lemma OwnershipIsLinear(steps: seq<Step>, t: State, id: Id)
    requires Run(Init(), steps, t)
    ensures Owners(t, id) == In(t.attached, id)
    ensures t.called[id] + t.discarded[id] <= 1
    ensures id in t.Mocks() + t.unchecked + t.passed + t.flying ==>
      t.called[id] == t.discarded[id] == t.calling[id] == t.dying[id] == t.lost[id] == 0
    ensures t.discarded[id] == 1 || t.dying[id] == 1 ==> t.called[id] == t.calling[id] == 0
    ensures id in t.lost ==> id in t.mock
  {
    InitHolds();
    RunKeeps(Init(), steps, t);
    assert Owners(t, id) <= 1;
  }

  /** A completion finds its transfer in the map if and only if no clear has lost it; so
      every completion from libusb does. */
  lemma CompletionFindsIff(steps: seq<Step>, t: State, id: Id, status: Status)
    requires Run(Init(), steps, t) && Enabled(t, Complete(id, status))
    ensures id in t.pending <==> id !in t.lost
    ensures id in t.flying ==> id in t.pending
  {
    InitHolds();
    RunKeeps(Init(), steps, t);
    assert Owners(t, id) <= 1;
  }

  // --------------------------------------------------- what becomes of a transfer

  // Its callback is running or has run; or it is being freed without it or has been.

  predicate CalledBack(s: State, id: Id) { id in s.calling || id in s.called }

  predicate Dropped(s: State, id: Id) { id in s.dying || id in s.discarded }

  /** It ended, while the map held it, in the way that calls for its callback. */
  predicate Finishes(s: State, step: Step, id: Id) { step == Complete(id, Finished) && id in s.pending }

  /** It ended, while the map held it, in another way; or its submit was refused; or cancel
      swept it. */
  predicate Fails(s: State, step: Step, id: Id) {
    || ((step == Complete(id, TimedOut) || step == Complete(id, Aborted)) && id in s.pending)
    || (step == SubmitCheck(id) && s.canceled)
    || (step == Sweep && id in s.pending && id in s.mock)
  }

  /** At some point of the run. */
  ghost predicate Once(s: State, steps: seq<Step>, id: Id, event: (State, Step, Id) -> bool)
    decreases |steps|
  {
    steps != [] && Enabled(s, steps[0]) && (event(s, steps[0], id) || Once(Next(s, steps[0]), steps[1..], id, event))
  }

  lemma CalledBackStep(s: State, step: Step, id: Id)
    requires Enabled(s, step)
    ensures CalledBack(Next(s, step), id) <==> CalledBack(s, id) || Finishes(s, step, id)
    ensures id in s.called ==> id in Next(s, step).called
  {
  }

  lemma DroppedStep(s: State, step: Step, id: Id)
    requires Enabled(s, step)
    ensures Dropped(Next(s, step), id) <==> Dropped(s, id) || Fails(s, step, id)
    ensures id in s.discarded ==> id in Next(s, step).discarded
  {
    hide Next, Enabled, Dropped, Fails;
    if step.Sweep? {
      DroppedBySweep(s, id);
    } else if step.Complete? {
      DroppedByComplete(s, step, id);
    } else {
      DroppedByOther(s, step, id);
    }
  }

  lemma DroppedByComplete(s: State, step: Step, id: Id)
    requires Enabled(s, step) && step.Complete?
    ensures Dropped(Next(s, step), id) <==> Dropped(s, id) || Fails(s, step, id)
    ensures id in s.discarded ==> id in Next(s, step).discarded
  {
  }

  lemma DroppedByOther(s: State, step: Step, id: Id)
    requires Enabled(s, step) && !step.Complete? && !step.Sweep?
    ensures Dropped(Next(s, step), id) <==> Dropped(s, id) || Fails(s, step, id)
    ensures id in s.discarded ==> id in Next(s, step).discarded
  {
  }

  lemma DroppedBySweep(s: State, id: Id)
    requires Enabled(s, Sweep)
    ensures Dropped(Next(s, Sweep), id) <==> Dropped(s, id) || Fails(s, Sweep, id)
    ensures id in s.discarded ==> id in Next(s, Sweep).discarded
  {
    assert id in s.Mocks() <==> id in s.pending && id in s.mock;
  }

  lemma FateStep(s: State, step: Step, id: Id)
    requires Enabled(s, step)
    ensures CalledBack(Next(s, step), id) <==> CalledBack(s, id) || Finishes(s, step, id)
    ensures Dropped(Next(s, step), id) <==> Dropped(s, id) || Fails(s, step, id)
    ensures (id in s.called ==> id in Next(s, step).called) && (id in s.discarded ==> id in Next(s, step).discarded)
  {
    hide *;
    CalledBackStep(s, step, id);
    DroppedStep(s, step, id);
  }

  /** What can still be refused or completed has met no end yet. */
  lemma NotEnded(s: State, id: Id)
    requires Inv(s) && (id in s.Mocks() || id in s.unchecked || id in s.passed || id in s.flying || id in s.lost)
    ensures !CalledBack(s, id) && !Dropped(s, id)
  {
    assert Owners(s, id) <= 1;
  }

  lemma {:induction false} FateRun(s: State, steps: seq<Step>, t: State, id: Id)
    requires Inv(s) && Run(s, steps, t)
    ensures CalledBack(t, id) <==> CalledBack(s, id) || Once(s, steps, id, Finishes)
    ensures Dropped(t, id) <==> Dropped(s, id) || Once(s, steps, id, Fails)
    ensures (id in s.called ==> id in t.called) && (id in s.discarded ==> id in t.discarded)
    decreases |steps|
  {
    hide Inv, Next, Enabled, CalledBack, Dropped, Finishes, Fails;
    if steps != [] {
      StepKeeps(s, steps[0]);
      FateStep(s, steps[0], id);
      FateRun(Next(s, steps[0]), steps[1..], t, id);
    }
  }

  /** Over every run: the callback of a transfer runs if and only if a completion found it
      that was neither a timeout nor a cancellation; it is freed without it if and only if
      one that was found it, or its submit was refused, or cancel swept it; never both. */
  lemma CallbackIff(steps: seq<Step>, t: State, id: Id)
    requires Run(Init(), steps, t)
    ensures id in t.calling + t.called <==> Once(Init(), steps, id, Finishes)
    ensures id in t.dying + t.discarded <==> Once(Init(), steps, id, Fails)
    ensures !(id in t.calling + t.called && id in t.dying + t.discarded)
    ensures id in t.calling + t.called ==> Complete(id, Finished) in steps
  {
    InitHolds();
    RunKeeps(Init(), steps, t);
    FateRun(Init(), steps, t, id);
    assert Owners(t, id) <= 1;
    if CalledBack(t, id) { OnceIsThere(Init(), steps, id); }
  }

  lemma {:induction false} OnceIsThere(s: State, steps: seq<Step>, id: Id)
    requires Once(s, steps, id, Finishes)
    ensures Complete(id, Finished) in steps
    decreases |steps|
  {
    if steps[0] != Complete(id, Finished) { OnceIsThere(Next(s, steps[0]), steps[1..], id); }
  }

  /** So from any point of any run on: what the step makes of a transfer is final. */
  lemma FateIsFinal(before: seq<Step>, s: State, step: Step, after: seq<Step>, t: State, id: Id)
    requires Run(Init(), before, s) && Enabled(s, step) && Run(Next(s, step), after, t)
    ensures step == Complete(id, Finished) && id in s.pending ==>
      id in t.calling + t.called && id !in t.dying + t.discarded
    ensures (step == Complete(id, TimedOut) || step == Complete(id, Aborted)) && id in s.pending ==>
      id in t.dying + t.discarded && id !in t.calling + t.called
    ensures step == SubmitCheck(id) && s.canceled ==> id in t.dying + t.discarded && id !in t.calling + t.called
    ensures step == Sweep && id in s.pending && id in s.mock ==> id in t.discarded && id !in t.calling + t.called
  {
    InitHolds();
    RunKeeps(Init(), before, s);
    StepKeeps(s, step);
    FateStep(s, step, id);
    FateRun(Next(s, step), after, t, id);
    RunKeeps(Next(s, step), after, t);
    assert Owners(t, id) <= 1;
  }

  /** A run for each way to end: the callback runs only after a finished transfer. */
  lemma EndsWithIts(status: Status)
    ensures exists t ::
      && Run(Init(), [Attach(1, false), SubmitCheck(1), SubmitAct(1), Complete(1, status),
                      if status == Finished then Callback(1) else Free(1)], t)
      && t.called == (if status == Finished then multiset{1} else multiset{})
      && t.discarded == (if status == Finished then multiset{} else multiset{1}) && t.pending == {}
  {
    hide Run, Next, Enabled;
    var s0, s4 := Init(), Ending(status);
    var last, t := if status == Finished then Callback(1) else Free(1), Ended(status);
    FirstSteps(status);
    LastStep(status);
    RunNone(t);
    RunCons(s4, last, [], t);
    RunCons(Submitted(), Complete(1, status), [last] + [], t);
    var s2 := Submitted().(flying := {}, passed := {1});
    RunCons(s2, SubmitAct(1), [Complete(1, status)] + ([last] + []), t);
    var s1 := s2.(passed := {}, unchecked := {1});
    RunCons(s1, SubmitCheck(1), [SubmitAct(1)] + ([Complete(1, status)] + ([last] + [])), t);
    RunCons(s0, Attach(1, false), [SubmitCheck(1)] + ([SubmitAct(1)] + ([Complete(1, status)] + ([last] + []))), t);
    assert [Attach(1, false)] + ([SubmitCheck(1)] + ([SubmitAct(1)] + ([Complete(1, status)] + ([last] + []))))
        == [Attach(1, false), SubmitCheck(1), SubmitAct(1), Complete(1, status), last];
  }

  // The states of that run, from the one in which libusb has the transfer.

  function Submitted(): State { Init().(pending := {1}, attached := {1}, flying := {1}) }

  function Ending(status: Status): State {
    var s := Submitted().(pending := {}, flying := {});
    if status == Finished then s.(calling := multiset{1}) else s.(dying := multiset{1})
  }

  function Ended(status: Status): State {
    var s := Submitted().(pending := {}, flying := {});
    if status == Finished then s.(called := multiset{1}) else s.(discarded := multiset{1})
  }

  lemma FirstSteps(status: Status)
    ensures var s2 := Submitted().(flying := {}, passed := {1}); var s1 := s2.(passed := {}, unchecked := {1});
      && Enabled(Init(), Attach(1, false)) && Next(Init(), Attach(1, false)) == s1
      && Enabled(s1, SubmitCheck(1)) && Next(s1, SubmitCheck(1)) == s2
      && Enabled(s2, SubmitAct(1)) && Next(s2, SubmitAct(1)) == Submitted()
  {
  }

  lemma LastStep(status: Status)
    ensures Enabled(Submitted(), Complete(1, status)) && Next(Submitted(), Complete(1, status)) == Ending(status)
    ensures var last := if status == Finished then Callback(1) else Free(1);
      Enabled(Ending(status), last) && Next(Ending(status), last) == Ended(status)
  {
  }

  // How much the threads and libusb have still to do.

  function ToDo(s: State): nat { 4 * |s.unchecked| + 3 * |s.passed| + 2 * |s.flying| + |s.calling| + |s.dying| }

  /** The step that is due. */
  lemma DueStep(s: State) returns (step: Step)
    requires Inv(s) && ToDo(s) > 0
    ensures Enabled(s, step) && !step.Attach? && ToDo(Next(s, step)) < ToDo(s)
    ensures Next(s, step).attached == s.attached
  {
    if s.unchecked != {} {
      var id :| id in s.unchecked;
      step := SubmitCheck(id);
      Without(s.unchecked, id);
      assert Owners(s, id) == In(s.attached, id);
    } else if s.passed != {} {
      var id :| id in s.passed;
      step := SubmitAct(id);
      Without(s.passed, id);
      assert Owners(s, id) == In(s.attached, id);
    } else if s.flying != {} {
      var id :| id in s.flying;
      step := Complete(id, Finished);
      Without(s.flying, id);
    } else if s.calling != multiset{} {
      var id :| id in s.calling;
      step := Callback(id);
      assert |s.calling - multiset{id}| == |s.calling| - 1;
    } else {
      var id :| id in s.dying;
      step := Free(id);
      assert |s.dying - multiset{id}| == |s.dying| - 1;
    }
  }

  /** Nothing ever blocks for good: from every state of every run the threads and libusb
      can go on to one in which every transfer for the device has been freed. */
  lemma {:induction false} AllCanBeFreed(s: State) returns (steps: seq<Step>, t: State)
    requires Inv(s)
    ensures Run(s, steps, t) && Inv(t) && t.attached == s.attached
    ensures t.unchecked == t.passed == t.flying == {} && t.calling == t.dying == multiset{}
    ensures forall id :: id in t.attached && id !in t.mock ==> t.called[id] + t.discarded[id] == 1
    decreases ToDo(s)
  {
    if ToDo(s) == 0 {
      steps, t := [], s;
      forall id | id in t.attached && id !in t.mock ensures t.called[id] + t.discarded[id] == 1 {
        assert Owners(t, id) == In(t.attached, id);
      }
    } else {
      hide Next, Enabled, Run, Inv;
      var step := DueStep(s);
      StepKeeps(s, step);
      steps, t := AllCanBeFreed(Next(s, step));
      RunCons(s, step, steps, t);
      steps := [step] + steps;
    }
  }

  // ------------------------------------------------------------------ what is lost

  /** No `clear` of the run finds a mock transfer in the map. */
  predicate CleanClears(s: State, steps: seq<Step>)
    decreases |steps|
  {
    steps == [] ||
    (Enabled(s, steps[0]) && (steps[0].Clear? ==> s.Mocks() == {}) && CleanClears(Next(s, steps[0]), steps[1..]))
  }

  lemma {:induction false} LostBy(s: State, steps: seq<Step>, t: State)
    requires Run(s, steps, t)
    ensures |t.lost| >= |s.lost|
    ensures |t.lost| == |s.lost| <==> CleanClears(s, steps)
    decreases |steps|
  {
    if steps != [] {
      LostBy(Next(s, steps[0]), steps[1..], t);
      if steps[0].Clear? { assert |s.lost + multiset(s.Mocks())| == |s.lost| + |s.Mocks()|; }
    }
  }

  /** When every thread has done its part, every transfer has been freed exactly once,
      unless a plugin still holds it or it was lost; and nothing was lost if and only if
      no final `clear` found a mock transfer in the map. A transfer for the device is
      freed whenever it was attached: its submit frees it even after the map has been
      cleared. */
  lemma EveryTransferFreed(steps: seq<Step>, t: State, id: Id)
    requires Run(Init(), steps, t) && id in t.attached
    requires t.unchecked == t.passed == t.flying == {} && t.calling == t.dying == multiset{}
    ensures t.called[id] + t.discarded[id] + t.lost[id] + In(t.Mocks(), id) == 1
    ensures id !in t.mock ==> t.called[id] + t.discarded[id] == 1
    ensures t.lost == multiset{} <==> CleanClears(Init(), steps)
  {
    OwnershipIsLinear(steps, t, id);
    LostBy(Init(), steps, t);
    assert |t.lost| == 0 <==> t.lost == multiset{};
  }

  lemma {:induction false} AttachedOnce(s: State, steps: seq<Step>, t: State, id: Id)
    requires Run(s, steps, t) && id in s.attached
    ensures forall mock :: Attach(id, mock) !in steps
    decreases |steps|
  {
    if steps != [] { AttachedOnce(Next(s, steps[0]), steps[1..], t, id); }
  }

  /** Between the end of the wait and the clear: the mock transfers in the map are those
      that were there or have been attached, and have not been completed. */
  lemma {:induction false} MocksSince(s: State, since: seq<Step>, t: State, id: Id)
    requires Inv(s) && s.canceller == Drained && Run(s, since, t) && Clear !in since
    ensures t.canceller == Drained && t.pending <= s.pending + (t.attached - s.attached) && s.attached <= t.attached
    ensures id in t.Mocks() <==>
      (id in s.Mocks() || Attach(id, true) in since) && forall status :: Complete(id, status) !in since
    decreases |since|
  {
    hide Linear, Tracked, Holding;
    if since != [] {
      var step, rest := since[0], since[1..];
      var m := Next(s, step);
      StepKeeps(s, step);
      hide Next, Enabled, Run;
      assert since == [step] + rest && step != Clear;
      MocksSince(m, rest, t, id);
      MocksStep(s, step, id);
      OneStepMore(step, rest, id);
      if id in m.attached { AttachedOnce(m, rest, t, id); }
    }
  }

  lemma OneStepMore(step: Step, rest: seq<Step>, id: Id)
    ensures Attach(id, true) in [step] + rest <==> step == Attach(id, true) || Attach(id, true) in rest
    ensures (forall status :: Complete(id, status) !in [step] + rest) <==>
      (forall status :: step != Complete(id, status)) && forall status :: Complete(id, status) !in rest
  {
    assert forall x :: x in [step] + rest <==> x == step || x in rest;
  }

  lemma MocksStep(s: State, step: Step, id: Id)
    requires Inv(s) && s.canceller == Drained && Enabled(s, step) && step != Clear
    ensures var m := Next(s, step);
      && m.canceller == Drained && m.pending <= s.pending + (m.attached - s.attached)
      && (id in m.Mocks() <==> (id in s.Mocks() || step == Attach(id, true)) && forall status :: step != Complete(id, status))
      && (id in m.Mocks() || id in s.Mocks() || (step.Attach? && step.id == id) ==> id in m.attached)
      && ((exists status :: step == Complete(id, status)) ==> id in m.attached) && s.attached <= m.attached
  {
    assert Owners(s, id) == In(s.attached, id);
    if step.Complete? { assert step == Complete(step.id, step.status); }
  }

  /** The exact condition, in terms of what the threads did: the clear of a cancel loses
      a transfer if and only if it is a mock one, attached since the wait ended and not
      completed since. */
  lemma ClearLosesIff(before: seq<Step>, s: State, since: seq<Step>, t: State, id: Id)
    requires Run(Init(), before, s) && Enabled(s, SeeEmpty)
    requires Run(Next(s, SeeEmpty), since, t) && Clear !in since
    ensures Enabled(t, Clear) && t.pending <= t.attached - s.attached
    ensures Next(t, Clear).lost[id] > t.lost[id] <==>
      Attach(id, true) in since && forall status :: Complete(id, status) !in since
  {
    InitHolds();
    RunKeeps(Init(), before, s);
    StepKeeps(s, SeeEmpty);
    MocksSince(Next(s, SeeEmpty), since, t, id);
  }

  lemma RunCons(s: State, step: Step, steps: seq<Step>, t: State)
    requires Enabled(s, step) && Run(Next(s, step), steps, t)
    ensures Run(s, [step] + steps, t)
  {
    assert ([step] + steps)[1..] == steps;
  }

  /** Attached too late, a mock transfer leaks; and its plugin can still complete it, which
      then finds nothing in the map. */
  lemma LateAttachLeaks()
    ensures exists steps, t ::
      && Run(Init(), steps, t) && t.lost == multiset{7} && t.pending == {} && t.mock == {7}
      && Enabled(t, Complete(7, Finished)) && Next(t, Complete(7, Finished)).missed == multiset{7}
  {
    var s0 := Init();
    var s1 := Next(s0, Sweep);
    var s2 := Next(s1, SeeEmpty);
    var s3 := Next(s2, Attach(7, true));
    var s4 := Next(s3, Clear);
    RunCons(s3, Clear, [], s4);
    RunCons(s2, Attach(7, true), [Clear] + [], s4);
    RunCons(s1, SeeEmpty, [Attach(7, true)] + ([Clear] + []), s4);
    RunCons(s0, Sweep, [SeeEmpty] + ([Attach(7, true)] + ([Clear] + [])), s4);
    assert s3.Mocks() == {7};
  }

  /** The map cleared under a thread that is yet to call submit. */
  function Cleared(): State { Init().(canceled := true, unchecked := {7}, attached := {7}) }

  lemma RunToCleared()
    ensures Run(Init(), [Sweep, SeeEmpty, Attach(7, false), Clear], Cleared())
  {
    hide Run;
    var s0 := Init();
    var s1 := s0.(canceled := true, canceller := Waiting);
    var s2 := s1.(canceller := Drained);
    var s3 := s2.(pending := {7}, unchecked := {7}, attached := {7});
    assert Next(s0, Sweep) == s1 && Next(s1, SeeEmpty) == s2 && Next(s2, Attach(7, false)) == s3;
    assert Next(s3, Clear) == Cleared();
    RunNone(Cleared());
    RunCons(s3, Clear, [], Cleared());
    RunCons(s2, Attach(7, false), [Clear] + [], Cleared());
    RunCons(s1, SeeEmpty, [Attach(7, false)] + ([Clear] + []), Cleared());
    RunCons(s0, Sweep, [SeeEmpty] + ([Attach(7, false)] + ([Clear] + [])), Cleared());
    assert [Sweep] + ([SeeEmpty] + ([Attach(7, false)] + ([Clear] + []))) == [Sweep, SeeEmpty, Attach(7, false), Clear];
  }

  /** Attached as late, a transfer for the device does not: its submit finds it gone from
      the map, against the assertion there, and frees it. */
  lemma LateSubmitFrees()
    ensures exists steps, m, t ::
      && Run(Init(), steps, m) && Enabled(m, SubmitCheck(7)) && m.canceled && 7 !in m.pending
      && Run(m, [SubmitCheck(7), Free(7)], t) && t.discarded == multiset{7} && t.lost == multiset{}
  {
    hide Run;
    var m := Cleared();
    var t := m.(unchecked := {}, discarded := multiset{7});
    RunToCleared();
    var m' := m.(unchecked := {}, dying := multiset{7});
    assert Next(m, SubmitCheck(7)) == m' && Next(m', Free(7)) == t;
    RunNone(t);
    RunCons(m', Free(7), [], t);
    RunCons(m, SubmitCheck(7), [Free(7)] + [], t);
    assert [SubmitCheck(7)] + ([Free(7)] + []) == [SubmitCheck(7), Free(7)];
  }

  lemma RunNone(s: State)
    ensures Run(s, [], s)
  {
  }

  // ----------------------------------------------------------------- cancel terminates

  /** A step that takes a transfer closer to being freed. */
  predicate Drains(step: Step) { step.SubmitCheck? || step.SubmitAct? || step.Complete? }

  function DrainCount(steps: seq<Step>): nat {
    if steps == [] then 0 else (if Drains(steps[0]) then 1 else 0) + DrainCount(steps[1..])
  }

  function AttachCount(steps: seq<Step>): nat {
    if steps == [] then 0 else (if steps[0].Attach? then 1 else 0) + AttachCount(steps[1..])
  }

  /** How many draining steps are left once submit refuses: a refusal or a completion
      takes one, handing over to libusb one and the completion after it another. */
  function Work(s: State): nat { |s.held| + |s.unchecked| + 2 * |s.passed| + |s.flying| }

  lemma Without(ids: set<Id>, id: Id)
    requires id in ids
    ensures |ids - {id}| == |ids| - 1
  {
  }

  /** A transfer that a thread or a plugin holds is in no other hand. */
  lemma InOneHand(s: State, id: Id)
    requires Inv(s)
    ensures In(s.held, id) + In(s.unchecked, id) + In(s.passed, id) + In(s.flying, id) <= In(s.attached, id)
    ensures s.held <= s.mock <= s.attached && (id in s.unchecked + s.passed + s.flying ==> id !in s.mock)
  {
    assert Owners(s, id) == In(s.attached, id);
  }

  lemma WorkOfAttach(s: State, id: Id, mock: bool)
    requires Inv(s) && Enabled(s, Attach(id, mock))
    ensures Work(Next(s, Attach(id, mock))) == Work(s) + 1
  {
    hide Linear, Tracked, Holding;
    InOneHand(s, id);
    assert Next(s, Attach(id, mock)).held == if mock then s.held + {id} else s.held;
  }

  lemma WorkOfCheck(s: State, id: Id)
    requires Inv(s) && s.canceled && Enabled(s, SubmitCheck(id))
    ensures Work(Next(s, SubmitCheck(id))) == Work(s) - 1
  {
    hide Linear, Tracked, Holding;
    InOneHand(s, id);
    Without(s.unchecked, id);
  }

  lemma WorkOfAct(s: State, id: Id)
    requires Inv(s) && Enabled(s, SubmitAct(id))
    ensures Work(Next(s, SubmitAct(id))) == Work(s) - 1
  {
    hide Linear, Tracked, Holding;
    InOneHand(s, id);
    Without(s.passed, id);
    assert |s.flying + {id}| == |s.flying| + 1;
  }

  lemma WorkOfComplete(s: State, id: Id, status: Status)
    requires Inv(s) && Enabled(s, Complete(id, status))
    ensures Work(Next(s, Complete(id, status))) == Work(s) - 1
  {
    hide Linear, Tracked, Holding;
    InOneHand(s, id);
    var t := Next(s, Complete(id, status));
    if id in s.flying {
      Without(s.flying, id);
      assert t.held == s.held;
    } else {
      Without(s.held, id);
      assert t.flying == s.flying;
    }
  }

  lemma StillWaiting(s: State, step: Step)
    requires Tracked(s) && s.canceller == Waiting && Enabled(s, step) && step != SeeEmpty
    ensures s.canceled && Next(s, step).canceller == Waiting && !step.Sweep? && !step.Clear?
  {
  }

  /** While cancel waits, a draining step takes one piece of work away, attaching a
      transfer adds one, and nothing else changes how much there is. */
  lemma DrainingStep(s: State, step: Step)
    requires Inv(s) && s.canceller == Waiting && Enabled(s, step) && step != SeeEmpty
    ensures Next(s, step).canceller == Waiting
    ensures (if Drains(step) then 1 else 0) + Work(Next(s, step)) == Work(s) + (if step.Attach? then 1 else 0)
  {
    StillWaiting(s, step);
    hide Linear, Tracked, Holding, Enabled;
    match step
    case Attach(id, mock) => WorkOfAttach(s, id, mock);
    case SubmitCheck(id) => WorkOfCheck(s, id);
    case SubmitAct(id) => WorkOfAct(s, id);
    case Complete(id, status) => WorkOfComplete(s, id, status);
    case _ =>
  }

  lemma {:induction false} DrainingIsExact(s: State, steps: seq<Step>, t: State)
    requires Inv(s) && s.canceller == Waiting && Run(s, steps, t) && SeeEmpty !in steps
    ensures Inv(t) && t.canceller == Waiting
    ensures DrainCount(steps) + Work(t) == Work(s) + AttachCount(steps)
    decreases |steps|
  {
    hide Linear, Tracked, Holding, Next, Enabled, Work;
    if steps != [] {
      assert steps[0] != SeeEmpty;
      DrainingStep(s, steps[0]);
      StepKeeps(s, steps[0]);
      DrainingIsExact(Next(s, steps[0]), steps[1..], t);
    }
  }

  /** While a transfer is in the map, there is a refusal, a hand-over or a completion to
      take. */
  lemma DrainingNeverStuck(s: State)
    requires Inv(s) && s.pending != {}
    ensures exists step :: Drains(step) && Enabled(s, step)
  {
    var id :| id in s.pending;
    if id in s.mock || id in s.flying {
      assert Enabled(s, Complete(id, Finished));
    } else if id in s.unchecked {
      assert Enabled(s, SubmitCheck(id));
    } else {
      assert Enabled(s, SubmitAct(id));
    }
  }

  /** Cancel terminates: in every run of its wait, whatever the other threads do, the
      draining steps taken and those left are exactly the work there was and one for each
      transfer attached meanwhile; and once none is left to take, the wait ends. */
  lemma CancelTerminates(before: seq<Step>, s: State, steps: seq<Step>, t: State)
    requires Run(Init(), before, s) && s.canceller == Waiting
    requires Run(s, steps, t) && SeeEmpty !in steps
    ensures DrainCount(steps) + Work(t) == Work(s) + AttachCount(steps)
    ensures (forall step :: Drains(step) ==> !Enabled(t, step)) ==> Enabled(t, SeeEmpty)
    ensures Work(t) == 0 ==> Enabled(t, SeeEmpty)
  {
    InitHolds();
    RunKeeps(Init(), before, s);
    DrainingIsExact(s, steps, t);
    if t.pending != {} { DrainingNeverStuck(t); }
  }

  // ---------------------------------------------------------------------- the object

  class PendingTransfers {
    var pending: map<Id, Callback>
    var canceled: bool
    var mock: set<Id>                 // the transfers whose device handle is null

    // The same, with the threads, the plugins and the history of the run.
    ghost var now: State

    ghost predicate Valid()
      reads this
    {
      now.pending == pending.Keys && now.canceled == canceled && now.mock == mock && Inv(now)
    }

    /** The state is the one the step leads to, and stays valid. */
    twostate predicate Takes(step: Step)
      reads this
    {
      Enabled(old(now), step) && now == Next(old(now), step) && Valid()
    }

    constructor ()
      ensures Valid() && now == Init()
    {
      pending, canceled, mock, now := map[], false, {}, Init();
    }

    method AttachTransfer(id: Id, isMock: bool, callback: Callback)
      requires Valid() && id !in now.attached
      modifies this
      ensures Takes(Attach(id, isMock)) && pending == old(pending)[id := callback]
    {
      hide Inv;
      StepKeeps(now, Attach(id, isMock));
      now := Next(now, Attach(id, isMock));
      pending := pending[id := callback];
      if isMock { mock := mock + {id}; }
    }

    /** `submit` up to the end of its locked block; true when libusb is to be called. */
    method CheckSubmit(id: Id) returns (go: bool)
      requires Valid() && id in now.unchecked
      modifies this
      ensures Takes(SubmitCheck(id)) && go == !old(canceled)
      ensures pending == if go then old(pending) else old(pending) - {id}
      ensures go <==> id !in now.dying
    {
      NotEnded(now, id);
      hide Inv;
      StepKeeps(now, SubmitCheck(id));
      now := Next(now, SubmitCheck(id));
      if canceled {
        pending := pending - {id};
        go := false;
      } else {
        go := true;
      }
    }

    /** The rest of it: `libusb_submit_transfer`. The map does not change. */
    method HandOver(id: Id)
      requires Valid() && id in now.passed
      modifies this`now
      ensures Takes(SubmitAct(id))
    {
      hide Inv;
      StepKeeps(now, SubmitAct(id));
      now := Next(now, SubmitAct(id));
    }

    /** `on_transfer_completed_impl` under the lock: the callback to run, which is the one
        attached with the transfer. When a plugin completes a transfer that has been
        cleared there is none to find; what the C++ does from there on is undefined. */
    method TakeCompleted(id: Id, status: Status) returns (found: bool, call: Option<Callback>)
      requires Valid() && Enabled(now, Complete(id, status))
      modifies this
      ensures Takes(Complete(id, status)) && pending == old(pending) - {id}
      ensures found == (id in old(pending)) == (id !in old(now).lost)
      ensures call == if found && status == Finished then Some(old(pending)[id]) else None
      ensures call.Some? <==> id in now.calling
      ensures found && call == None <==> id in now.dying
    {
      hide Inv, Next;
      FoundIff(now, id, status);
      StepKeeps(now, Complete(id, status));
      now := Next(now, Complete(id, status));
      found, call := id in pending, None;
      if found {
        if status != TimedOut && status != Aborted { call := Some(pending[id]); }
      }
      pending := pending - {id};
    }

    static lemma FoundIff(s: State, id: Id, status: Status)
      requires Inv(s) && Enabled(s, Complete(id, status))
      ensures id in s.pending <==> id !in s.lost
      ensures var t := Next(s, Complete(id, status));
        && t.pending == s.pending - {id} && t.canceled == s.canceled && t.mock == s.mock
        && (id in t.calling <==> id in s.pending && status == Finished)
        && (id in t.dying <==> id in s.pending && status != Finished)
    {
      assert Owners(s, id) == In(s.attached, id);
      NotEnded(s, id);
    }

    /** The `erase_if` of cancel: erase and free what is mock, ask libusb to cancel
        the rest. */
    method EraseMocks() returns (asked: set<Id>)
      modifies this`pending
      ensures pending == old(pending) - mock
      ensures asked == pending.Keys
    {
      ghost var was := pending;
      var todo := pending.Keys;
      asked := {};
      while todo != {}
        invariant todo <= was.Keys && asked == was.Keys - mock - todo
        invariant pending == was - (mock * (was.Keys - todo))
        decreases |todo|
      {
        var id :| id in todo;
        if id in mock {
          pending := pending - {id};
        } else {
          asked := asked + {id};
        }
        todo := todo - {id};
      }
      assert mock * was.Keys == mock * (was.Keys - todo);
    }

    /** The first block of `cancel`, under the lock. */
    method SweepTransfers() returns (asked: set<Id>)
      requires Valid() && now.canceller == Idle
      modifies this
      ensures Takes(Sweep) && asked == pending.Keys && pending == old(pending) - mock
      ensures forall id :: id in old(pending) ==> (id in now.discarded <==> id in mock)
    {
      hide Inv, Next;
      SweptAre(now);
      StepKeeps(now, Sweep);
      now := Next(now, Sweep);
      asked := EraseMocks();
      canceled := true;
    }

    static lemma SweptAre(s: State)
      requires Inv(s) && Enabled(s, Sweep)
      ensures var t := Next(s, Sweep); t.pending == s.pending - s.mock && t.canceled && t.mock == s.mock
      ensures forall id :: id in s.pending ==> (id in Next(s, Sweep).discarded <==> id in s.mock)
    {
      forall id | id in s.pending ensures id in Next(s, Sweep).discarded <==> id in s.mock {
        NotEnded(s, id);
        assert id in s.Mocks() <==> id in s.mock;
      }
    }

    /** `wait_for_canceled_transfers` looks once more and finds the map empty or not. */
    method EndWait() returns (done: bool)
      requires Valid() && now.canceller == Waiting
      modifies this`now
      ensures done == (pending == map[])
      ensures if done then Takes(SeeEmpty) else Valid() && now == old(now)
    {
      hide Inv;
      done := pending == map[];
      if done {
        StepKeeps(now, SeeEmpty);
        now := Next(now, SeeEmpty);
      }
    }

    method ClearTransfers()
      requires Valid() && now.canceller == Drained
      modifies this
      ensures Takes(Clear) && pending == map[]
    {
      hide Inv;
      StepKeeps(now, Clear);
      now := Next(now, Clear);
      pending := map[];
    }
  }
}
