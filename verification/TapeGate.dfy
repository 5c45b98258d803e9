/** The gate to the tape device, as interleaved steps of any number of request handlers and
    of the goroutines of background tasks (internal/iface/web/tapegate.go,
    internal/iface/web/handler_tasks.go:169-190, internal/iface/web/taskregistry.go:361-422).
    One step is one critical section, one lock or unlock, or one move of a thread's own. */
module TapeGates {
  import opened Domain

  // Where a thread stands. A handler that started a task answers its request and is done;
  // its place is taken by the goroutine of the task.
  datatype Place =
    // withOp
    | OpCheck | OpLock | OpRecheck | OpBody | OpUnlock(ran: bool) | OpDone(ran: bool)
    // probe
    | ProbeCheck | ProbeTry | ProbeRecheck | ProbeBody | ProbeUnlock | ProbeDone
    // startTapeTask
    | Reserve | Register | Unreserve | Refused
    // the goroutine of the task: waitShortOps, the body, releaseTask
    | TaskWait | TaskBody(finished: bool) | TaskUnlock | TaskClear | TaskDone

  // taskHeld and the holder of shortMu; active are the threads whose task the registry
  // counts as running or awaiting a tape.
  datatype State = State(places: seq<Place>, taskHeld: bool, holder: Option<nat>, active: set<nat>)

  ghost predicate Start(s: State) {
    && s.holder.None? && !s.taskHeld && s.active == {}
    && forall i :: 0 <= i < |s.places| ==> s.places[i].OpCheck? || s.places[i].ProbeCheck? || s.places[i].Reserve?
  }

  function At(s: State, i: nat, p: Place): State
    requires i < |s.places|
  {
    s.(places := s.places[i := p])
  }

  /** One step of thread i; None if it is blocked or done. */
  function Next(s: State, i: nat): Option<State>
    requires i < |s.places|
  {
    match s.places[i]
    case OpCheck => Some(At(s, i, if s.taskHeld then OpDone(false) else OpLock))
    case OpLock => if s.holder.None? then Some(At(s, i, OpRecheck).(holder := Some(i))) else None
    case OpRecheck => Some(At(s, i, if s.taskHeld then OpUnlock(false) else OpBody))
    case OpBody => Some(At(s, i, OpUnlock(true)))
    case OpUnlock(ran) => Some(At(s, i, OpDone(ran)).(holder := None))
    case OpDone(_) => None
    case ProbeCheck => Some(At(s, i, if s.taskHeld then ProbeDone else ProbeTry))
    case ProbeTry => Some(if s.holder.None? then At(s, i, ProbeRecheck).(holder := Some(i)) else At(s, i, ProbeDone))
    case ProbeRecheck => Some(At(s, i, if s.taskHeld then ProbeUnlock else ProbeBody))
    case ProbeBody => Some(At(s, i, ProbeUnlock))
    case ProbeUnlock => Some(At(s, i, ProbeDone).(holder := None))
    case ProbeDone => None
    case Reserve => Some(if s.taskHeld then At(s, i, Refused) else At(s, i, Register).(taskHeld := true))
    case Register => Some(if s.active != {} then At(s, i, Unreserve) else At(s, i, TaskWait).(active := s.active + {i}))
    case Unreserve => Some(At(s, i, Refused).(taskHeld := false))
    case Refused => None
    case TaskWait => if s.holder.None? then Some(At(s, i, TaskBody(false)).(holder := Some(i))) else None
    case TaskBody(finished) =>
      if !finished then Some(At(s, i, TaskBody(true)).(active := s.active - {i})) else Some(At(s, i, TaskUnlock))
    case TaskUnlock => Some(At(s, i, TaskClear).(holder := None))
    case TaskClear => Some(At(s, i, TaskDone).(taskHeld := false))
    case TaskDone => None
  }

  /** The state after the threads named in the schedule took a step each. */
  function Run(s: State, schedule: seq<nat>): Option<State> {
    if schedule == [] then Some(s)
    else match Run(s, schedule[..|schedule| - 1])
      case None => None
      case Some(t) =>
        var i := schedule[|schedule| - 1];
        if i < |t.places| then Next(t, i) else None
  }

  // ----- The invariant ------------------------------------------------------------------

  predicate UsesDevice(p: Place) { p.OpBody? || p.ProbeBody? || p.TaskBody? }

  // Stands between lock and unlock of shortMu.
  predicate Locks(p: Place) {
    || p.OpRecheck? || p.OpBody? || p.OpUnlock? || p.ProbeRecheck? || p.ProbeBody? || p.ProbeUnlock?
    || p.TaskBody? || p.TaskUnlock?
  }

  // Stands between a successful reserve and the release.
  predicate OwnsTape(p: Place) {
    p.Register? || p.TaskWait? || p.TaskBody? || p.TaskUnlock? || p.TaskClear?
  }

  // Its task is registered and not finished.
  predicate IsActive(p: Place) {
    p.TaskWait? || (p.TaskBody? && !p.finished)
  }

  // shortMu is held by whoever stands between its lock and its unlock.
  ghost predicate LocksOK(s: State) {
    && (forall i :: 0 <= i < |s.places| ==> (Locks(s.places[i]) <==> s.holder == Some(i)))
    && (s.holder.Some? ==> s.holder.value < |s.places|)
  }

  // taskHeld says that one thread owns the tape; there is never a second one.
  ghost predicate OwnersOK(s: State) {
    && (forall i :: 0 <= i < |s.places| && OwnsTape(s.places[i]) ==> s.taskHeld)
    && (forall i, j :: 0 <= i < j < |s.places| ==> !(OwnsTape(s.places[i]) && OwnsTape(s.places[j])))
    && (s.taskHeld ==> exists i :: 0 <= i < |s.places| && OwnsTape(s.places[i]))
  }

  ghost predicate ActiveOK(s: State) {
    forall i: nat :: i in s.active <==> i < |s.places| && IsActive(s.places[i])
  }

  ghost predicate NobodyUnreserves(s: State) {
    forall i :: 0 <= i < |s.places| ==> !s.places[i].Unreserve?
  }

  ghost predicate Inv(s: State) {
    LocksOK(s) && OwnersOK(s) && ActiveOK(s) && NobodyUnreserves(s)
  }

  lemma StartHolds(s: State)
    requires Start(s)
    ensures Inv(s)
  {
  }

  lemma StepKeepsLocks(s: State, i: nat)
    requires LocksOK(s) && i < |s.places| && Next(s, i).Some?
    ensures LocksOK(Next(s, i).value)
  {
  }

  // A step of a thread that owns nothing before and after leaves the owners alone.
  lemma OwnersMove(s: State, i: nat, p: Place)
    requires OwnersOK(s) && i < |s.places|
    requires OwnsTape(p) ==> OwnsTape(s.places[i]) || !s.taskHeld
    ensures var held := if OwnsTape(p) then true else if OwnsTape(s.places[i]) then false else s.taskHeld;
      OwnersOK(At(s, i, p).(taskHeld := held))
  {
    hide OwnsTape;
    var held := if OwnsTape(p) then true else if OwnsTape(s.places[i]) then false else s.taskHeld;
    var t := At(s, i, p).(taskHeld := held);
    if held {
      if OwnsTape(p) {
        assert OwnsTape(t.places[i]);
      } else {
        var k :| 0 <= k < |s.places| && OwnsTape(s.places[k]);
        assert OwnsTape(t.places[k]);
      }
    }
  }

  lemma OwnersDependOn(s: State, t: State)
    requires OwnersOK(s) && t.places == s.places && t.taskHeld == s.taskHeld
    ensures OwnersOK(t)
  {
  }

  lemma OnePlaceChanges(s: State, i: nat)
    requires i < |s.places| && Next(s, i).Some?
    ensures |Next(s, i).value.places| == |s.places|
    ensures Next(s, i).value.places == s.places[i := Next(s, i).value.places[i]]
  {
  }

  // The flag follows the thread: set on the way into ownership, cleared on the way out.
  lemma FlagFollows(s: State, i: nat)
    requires i < |s.places| && Next(s, i).Some? && !s.places[i].Unreserve?
    requires s.places[i].Register? ==> s.active == {}
    requires OwnsTape(s.places[i]) ==> s.taskHeld
    ensures |Next(s, i).value.places| == |s.places|
    ensures var t := Next(s, i).value;
      && (OwnsTape(t.places[i]) ==> t.taskHeld && (OwnsTape(s.places[i]) || !s.taskHeld))
      && (!OwnsTape(t.places[i]) ==> t.taskHeld == (s.taskHeld && !OwnsTape(s.places[i])))
  {
  }

  lemma StepKeepsOwners(s: State, i: nat)
    requires OwnersOK(s) && NobodyUnreserves(s) && i < |s.places| && Next(s, i).Some?
    requires s.places[i].Register? ==> s.active == {}
    ensures OwnersOK(Next(s, i).value)
  {
    hide OwnersOK, Next, OwnsTape;
    HeldByOwner(s, i);
    FlagFollows(s, i);
    OnePlaceChanges(s, i);
    var t := Next(s, i).value;
    var p := t.places[i];
    OwnersMove(s, i, p);
    var held := if OwnsTape(p) then true else if OwnsTape(s.places[i]) then false else s.taskHeld;
    OwnersDependOn(At(s, i, p).(taskHeld := held), t);
  }

  lemma HeldByOwner(s: State, i: nat)
    requires OwnersOK(s) && i < |s.places|
    ensures OwnsTape(s.places[i]) ==> s.taskHeld
  {
  }

  lemma ActiveMoves(s: State, i: nat, t: State)
    requires ActiveOK(s) && i < |s.places| && |t.places| == |s.places|
    requires forall j :: 0 <= j < |s.places| && j != i ==> t.places[j] == s.places[j]
    requires t.active == if IsActive(t.places[i]) then s.active + {i} else s.active - {i}
    ensures ActiveOK(t)
  {
    hide IsActive;
  }

  lemma StepKeepsActive(s: State, i: nat)
    requires ActiveOK(s) && i < |s.places| && Next(s, i).Some?
    ensures ActiveOK(Next(s, i).value)
  {
    hide ActiveOK;
    var t := Next(s, i).value;
    ActiveHere(s, i);
    assert t.active == if IsActive(t.places[i]) then s.active + {i} else s.active - {i};
    ActiveMoves(s, i, t);
  }

  lemma ActiveHere(s: State, i: nat)
    requires ActiveOK(s) && i < |s.places|
    ensures i in s.active <==> IsActive(s.places[i])
  {
  }

  lemma StepKeeps(s: State, i: nat)
    requires Inv(s) && i < |s.places| && Next(s, i).Some?
    ensures Inv(Next(s, i).value)
  {
    hide LocksOK, OwnersOK, ActiveOK;
    if s.places[i].Register? {
      NobodyIsActive(s, i);
    }
    StepKeepsLocks(s, i);
    StepKeepsOwners(s, i);
    StepKeepsActive(s, i);
  }

  // Whoever is about to register is the only owner, so no task is active.
  lemma NobodyIsActive(s: State, i: nat)
    requires Inv(s) && i < |s.places| && s.places[i].Register?
    ensures s.active == {}
  {
    assert OwnsTape(s.places[i]);
    forall j | j in s.active
      ensures false
    {
      assert OwnsTape(s.places[j]);
    }
  }

  lemma {:induction false} RunsOn(s: State, schedule: seq<nat>)
    requires Inv(s)
    ensures Run(s, schedule).Some? ==> Inv(Run(s, schedule).value) && |Run(s, schedule).value.places| == |s.places|
  {
    hide Inv, Next;
    if schedule != [] {
      var last := |schedule| - 1;
      RunsOn(s, schedule[..last]);
      if Run(s, schedule).Some? {
        StepKeeps(Run(s, schedule[..last]).value, schedule[last]);
        NextKeepsThreads(Run(s, schedule[..last]).value, schedule[last]);
      }
    }
  }

  /** Every interleaving keeps the invariant. */
  lemma RunKeeps(s: State, schedule: seq<nat>)
    requires Start(s)
    ensures Run(s, schedule).Some? ==> Inv(Run(s, schedule).value) && |Run(s, schedule).value.places| == |s.places|
  {
    hide Inv, Run;
    StartHolds(s);
    RunsOn(s, schedule);
  }

  lemma NextKeepsThreads(s: State, i: nat)
    requires i < |s.places| && Next(s, i).Some?
    ensures |Next(s, i).value.places| == |s.places|
  {
  }

  // ----- What the gate promises ---------------------------------------------------------

  /** Under every interleaving at most one thread uses the device. */
  lemma DeviceIsExclusive(s: State, schedule: seq<nat>, i: nat, j: nat)
    requires Start(s) && Run(s, schedule).Some?
    requires i < |s.places| && j < |s.places|
    ensures var t := Run(s, schedule).value;
      |t.places| == |s.places| && (UsesDevice(t.places[i]) && UsesDevice(t.places[j]) ==> i == j)
  {
    hide Run, Start;
    RunKeeps(s, schedule);
    var t := Run(s, schedule).value;
    assert UsesDevice(t.places[i]) ==> Locks(t.places[i]);
    assert UsesDevice(t.places[j]) ==> Locks(t.places[j]);
  }

  /** A task the registry counts as active holds the gate; so whoever reserved the gate is
      never refused by the registry, and the reservation is never taken back. */
  lemma ReservedIsRegistered(s: State, schedule: seq<nat>, i: nat)
    requires Start(s) && Run(s, schedule).Some? && i < |s.places|
    ensures var t := Run(s, schedule).value;
      && |t.places| == |s.places|
      && (t.active != {} ==> t.taskHeld)
      && (t.places[i].Register? ==> Next(t, i).Some? && Next(t, i).value.places[i] == TaskWait)
      && t.places[i] != Unreserve
  {
    hide Run, Start;
    RunKeeps(s, schedule);
    var t := Run(s, schedule).value;
    if t.active != {} {
      var k :| k in t.active;
      assert OwnsTape(t.places[k]);
    }
    if t.places[i].Register? {
      NobodyIsActive(t, i);
    }
  }

  // Has reserved the gate at some time: the way back to a reservation is closed.
  predicate HasReserved(p: Place) {
    OwnsTape(p) || p.Unreserve? || p.Refused? || p.TaskDone?
  }

  // While thread i owns the tape, a step brings no other thread into a body.
  lemma StepBringsNobodyIn(s: State, i: nat, k: nat)
    requires Inv(s) && i < |s.places| && k < |s.places| && Next(s, k).Some?
    requires HasReserved(s.places[i])
    ensures var t := Next(s, k).value;
      && |t.places| == |s.places| && HasReserved(t.places[i])
      && (OwnsTape(t.places[i]) ==> OwnsTape(s.places[i]))
      && (OwnsTape(t.places[i]) ==> forall j :: 0 <= j < |s.places| && j != i && UsesDevice(t.places[j]) ==>
            t.places[j] == s.places[j])
  {
    hide Inv;
    OnlyOwner(s, i);
    var t := Next(s, k).value;
    assert forall j :: 0 <= j < |s.places| && j != k ==> t.places[j] == s.places[j];
  }

  lemma OnlyOwner(s: State, i: nat)
    requires Inv(s) && i < |s.places|
    ensures OwnsTape(s.places[i]) ==>
      s.taskHeld && forall j :: 0 <= j < |s.places| && j != i ==> !OwnsTape(s.places[j])
  {
  }

  /** From its reservation to its release no operation, no probe and no other task begins to
      use the device: whoever uses it then besides the owner was already at it, in the same
      place, when the gate was reserved. `before` leads to any state in which thread i owns
      the tape, `later` on to any state in which it still does. */
  lemma {:induction false} NoNewOperation(s: State, before: seq<nat>, later: seq<nat>, i: nat)
    requires Start(s) && i < |s.places|
    requires Run(s, before).Some? && |Run(s, before).value.places| == |s.places|
    requires OwnsTape(Run(s, before).value.places[i])
    requires Run(Run(s, before).value, later).Some?
    ensures var t, u := Run(s, before).value, Run(Run(s, before).value, later).value;
      && |u.places| == |t.places|
      && (OwnsTape(u.places[i]) ==> forall j :: 0 <= j < |u.places| && j != i && UsesDevice(u.places[j]) ==>
            u.places[j] == t.places[j])
  {
    hide Run, Start;
    RunKeeps(s, before);
    StaysOut(Run(s, before).value, later, i);
  }

  lemma {:induction false} StaysOut(t: State, later: seq<nat>, i: nat)
    requires Inv(t) && i < |t.places| && OwnsTape(t.places[i]) && Run(t, later).Some?
    ensures var u := Run(t, later).value;
      && |u.places| == |t.places| && HasReserved(u.places[i])
      && (OwnsTape(u.places[i]) ==> forall j :: 0 <= j < |u.places| && j != i && UsesDevice(u.places[j]) ==>
            u.places[j] == t.places[j])
  {
    hide Inv, Next, OwnsTape, HasReserved, UsesDevice;
    if later == [] {
      OwnerHasReserved(t.places[i]);
    } else {
      var last := |later| - 1;
      StaysOut(t, later[..last], i);
      RunsOn(t, later[..last]);
      StepBringsNobodyIn(Run(t, later[..last]).value, i, later[last]);
    }
  }

  lemma OwnerHasReserved(p: Place)
    requires OwnsTape(p)
    ensures HasReserved(p)
  {
  }

  // Stands before one of the checks of taskHeld.
  predicate Asks(p: Place) {
    p.OpCheck? || p.OpRecheck? || p.ProbeCheck? || p.ProbeRecheck? || p.Reserve?
  }

  // Was turned away by a check.
  predicate TurnedAway(p: Place) {
    p == OpDone(false) || p == OpUnlock(false) || p.ProbeDone? || p.ProbeUnlock? || p.Refused?
  }

  /** In every reachable state a request is turned away if and only if some thread owns the
      tape, and a probe also while somebody else uses the device for a moment. */
  lemma OnlyOwnersTurnAway(s: State, schedule: seq<nat>, i: nat)
    requires Start(s) && Run(s, schedule).Some? && i < |s.places|
    ensures var t := Run(s, schedule).value;
      && |t.places| == |s.places|
      && (Asks(t.places[i]) ==>
          && Next(t, i).Some?
          && (TurnedAway(Next(t, i).value.places[i]) <==> exists j :: 0 <= j < |t.places| && OwnsTape(t.places[j])))
      && (t.places[i].ProbeTry? ==>
          && Next(t, i).Some?
          && (TurnedAway(Next(t, i).value.places[i]) <==> exists j :: 0 <= j < |t.places| && Locks(t.places[j])))
  {
    hide Run, Start, OwnsTape, Locks;
    RunKeeps(s, schedule);
    var t := Run(s, schedule).value;
    if t.places[i].ProbeTry? && t.holder.Some? {
      assert Locks(t.places[t.holder.value]);
    }
  }

  predicate Finished(p: Place) { p.OpDone? || p.ProbeDone? || p.Refused? || p.TaskDone? }

  /** No deadlock: as long as one thread is not done, some thread can take a step. */
  lemma SomebodyMoves(s: State, schedule: seq<nat>)
    requires Start(s) && Run(s, schedule).Some?
    requires var t := Run(s, schedule).value; exists i :: 0 <= i < |t.places| && !Finished(t.places[i])
    ensures var t := Run(s, schedule).value; exists i :: 0 <= i < |t.places| && Next(t, i).Some?
  {
    hide Run, Start;
    RunKeeps(s, schedule);
    var t := Run(s, schedule).value;
    var i :| 0 <= i < |t.places| && !Finished(t.places[i]);
    if t.holder.Some? {
      assert Locks(t.places[t.holder.value]);
      assert Next(t, t.holder.value).Some?;
    } else {
      assert Next(t, i).Some?;
    }
  }

  // Steps a thread has ahead of it, at most.
  function Ahead(p: Place): nat {
    match p
    case OpCheck => 5 case OpLock => 4 case OpRecheck => 3 case OpBody => 2 case OpUnlock(_) => 1
    case ProbeCheck => 5 case ProbeTry => 4 case ProbeRecheck => 3 case ProbeBody => 2 case ProbeUnlock => 1
    case Reserve => 7 case Register => 6 case Unreserve => 1
    case TaskWait => 5 case TaskBody(finished) => if finished then 3 else 4
    case TaskUnlock => 2 case TaskClear => 1
    case _ => 0
  }

  function AllAhead(places: seq<Place>): nat {
    if places == [] then 0 else AllAhead(places[..|places| - 1]) + Ahead(places[|places| - 1])
  }

  lemma {:induction false} AheadChanges(places: seq<Place>, i: nat, p: Place)
    requires i < |places|
    ensures AllAhead(places[i := p]) == AllAhead(places) - Ahead(places[i]) + Ahead(p)
  {
    var last := |places| - 1;
    if i < last {
      assert places[i := p][..last] == places[..last][i := p];
      AheadChanges(places[..last], i, p);
    } else {
      assert places[i := p][..last] == places[..last];
    }
  }

  /** Every schedule is shorter than the threads have steps ahead of them. */
  lemma {:induction false} RunsAreFinite(s: State, schedule: seq<nat>)
    requires Run(s, schedule).Some?
    ensures AllAhead(Run(s, schedule).value.places) + |schedule| <= AllAhead(s.places)
  {
    hide AllAhead, Ahead;
    if schedule != [] {
      var last := |schedule| - 1;
      RunsAreFinite(s, schedule[..last]);
      var t, i := Run(s, schedule[..last]).value, schedule[last];
      StepsRunOut(t, i);
    }
  }

  lemma StepsRunOut(t: State, i: nat)
    requires i < |t.places| && Next(t, i).Some?
    ensures AllAhead(Next(t, i).value.places) < AllAhead(t.places)
  {
    hide AllAhead;
    OnePlaceChanges(t, i);
    AheadChanges(t.places, i, Next(t, i).value.places[i]);
  }

  lemma NoneActive(t: State)
    requires ActiveOK(t) && forall i :: 0 <= i < |t.places| ==> Finished(t.places[i])
    ensures t.active == {}
  {
    assert forall i: nat :: i < |t.places| ==> !IsActive(t.places[i]);
  }

  /** A run that can go no further has ended well: every request is answered, every task is
      done, and the gate is open. */
  lemma RunsEndOpen(s: State, schedule: seq<nat>)
    requires Start(s) && Run(s, schedule).Some?
    requires var t := Run(s, schedule).value; forall i :: 0 <= i < |t.places| ==> Next(t, i).None?
    ensures var t := Run(s, schedule).value;
      && (forall i :: 0 <= i < |t.places| ==> Finished(t.places[i]))
      && !t.taskHeld && t.holder.None? && t.active == {}
  {
    hide Run, Start, Next;
    RunKeeps(s, schedule);
    var t := Run(s, schedule).value;
    if exists i :: 0 <= i < |t.places| && !Finished(t.places[i]) {
      SomebodyMoves(s, schedule);
    }
    NoneActive(t);
  }
}
