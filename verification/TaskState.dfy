/** A background task as the daemon keeps it: its states, the wait for the operator, the
    bounded log (internal/iface/web/taskregistry.go:54-303). Each method runs under the
    task's mutex. */
module Tasks {
  import opened Domain

  const MAX_TASK_LOGS: nat := 50

  const LOG_CONTINUED := "оператор: продолжение на кассете "
  const LOG_SUCCESS := "задача завершена успешно"
  const LOG_ERROR := "задача завершена ошибкой: "

  datatype TaskPhase = Running | AwaitingTape | Success | Error {
    predicate Active() { this == Running || this == AwaitingTape }
  }

  // A Go channel with room for `capacity` values; a send to a full one would block.
  class Channel {
    const capacity: nat
    var buffer: seq<string>

    ghost predicate Valid()
      reads this
    {
      |buffer| <= capacity
    }

    constructor (capacity: nat)
      ensures Valid() && this.capacity == capacity && buffer == []
    {
      this.capacity := capacity;
      buffer := [];
    }

    method Send(v: string)
      requires Valid() && |buffer| < capacity
      modifies this
      ensures Valid() && buffer == old(buffer) + [v]
    {
      buffer := buffer + [v];
    }
  }

  /** The last n lines. */
  function LastLines(lines: seq<string>, n: nat): seq<string> {
    if |lines| <= n then lines else lines[|lines| - n..]
  }

  lemma LastLinesSnoc(lines: seq<string>, line: string, n: nat)
    requires n > 0
    ensures LastLines(LastLines(lines, n) + [line], n) == LastLines(lines + [line], n)
  {
  }

  class Task {
    var state: TaskPhase
    var message: string
    var suggested: string
    var continueCh: Channel?
    var errText: string
    var logs: seq<string>

    ghost var history: seq<string>       // every line ever logged
    ghost var notified: nat              // calls of onFinish

    ghost predicate Valid()
      reads this, continueCh
    {
      && logs == LastLines(history, MAX_TASK_LOGS)
      && (state == AwaitingTape <==> continueCh != null)
      && (continueCh != null ==> continueCh.Valid() && continueCh.capacity == 1 && continueCh.buffer == [])
      && notified == if state.Active() then 0 else 1
    }

    constructor ()
      ensures Valid() && state == Running && logs == []
    {
      state, message, suggested, continueCh, errText, logs := Running, "", "", null, "", [];
      history, notified := [], 0;
    }

    method AppendLog(line: string)
      requires logs == LastLines(history, MAX_TASK_LOGS)
      modifies this`logs, this`history
      ensures history == old(history) + [line] && logs == LastLines(history, MAX_TASK_LOGS)
    {
      LastLinesSnoc(history, line, MAX_TASK_LOGS);
      logs := logs + [line];
      if |logs| > MAX_TASK_LOGS {
        logs := logs[|logs| - MAX_TASK_LOGS..];
      }
      history := history + [line];
    }

    /** Waits for the operator: only a running task can, and it gets a new, empty channel. */
    method EnterAwaiting(text: string, name: string) returns (ch: Channel?)
      requires Valid()
      modifies this
      ensures Valid() && notified == old(notified)
      ensures ch == null <==> old(state) != Running
      ensures (state, ch != null) == After(old(state), Await)
      ensures ch == null ==> unchanged(this)
      ensures ch != null ==> fresh(ch) && ch == continueCh && state == AwaitingTape
      ensures ch != null ==> message == text && suggested == name && history == old(history) + [text]
    {
      if state != Running {
        return null;
      }
      state, message, suggested := AwaitingTape, text, name;
      continueCh := new Channel(1);
      ch := continueCh;
      AppendLog(text);
    }

    /** The operator's answer. It is refused unless the task waits for it; otherwise it is
        delivered, without blocking, on the channel of this wait, and the task runs again. */
    method Continue(tapeName: string) returns (name: Option<string>)
      requires Valid()
      modifies this, continueCh
      ensures Valid() && notified == old(notified)
      ensures name.None? <==> old(state) != AwaitingTape
      ensures (state, name.Some?) == After(old(state), Answer(tapeName))
      ensures name.None? ==> unchanged(this)
      ensures name.Some? ==>
        && name.value == (if tapeName == "" then old(suggested) else tapeName)
        && old(continueCh).buffer == [name.value]
        && state == Running && suggested == "" && continueCh == null && message == old(message)
        && history == old(history) + [LOG_CONTINUED + name.value]
    {
      if state != AwaitingTape || continueCh == null {
        return None;
      }
      var chosen := if tapeName == "" then suggested else tapeName;
      state, suggested := Running, "";
      AppendLog(LOG_CONTINUED + chosen);
      var ch := continueCh;
      continueCh := null;
      ch.Send(chosen);
      name := Some(chosen);
    }

    /** The end of the task; a finished task stays as it is and is announced once. */
    method FinishSuccess()
      requires Valid()
      modifies this
      ensures Valid() && notified == 1
      ensures state == After(old(state), Succeed).0
      ensures !old(state).Active() ==> unchanged(this)
      ensures old(state).Active() ==>
        && errText == old(errText) && message == old(message) && suggested == old(suggested)
        && history == old(history) + [LOG_SUCCESS]
    {
      if !state.Active() {
        return;
      }
      state, continueCh := Success, null;
      AppendLog(LOG_SUCCESS);
      notified := notified + 1;
    }

    method FinishError(text: string)
      requires Valid()
      modifies this
      ensures Valid() && notified == 1
      ensures state == After(old(state), Fail).0
      ensures !old(state).Active() ==> unchanged(this)
      ensures old(state).Active() ==>
        && errText == text && message == old(message) && suggested == old(suggested)
        && history == old(history) + [LOG_ERROR + text]
    {
      if !state.Active() {
        return;
      }
      state, continueCh, errText := Error, null, text;
      AppendLog(LOG_ERROR + text);
      notified := notified + 1;
    }
  }

  // ----- Any sequence of calls ------------------------------------------------------------

  datatype Call = Await | Answer(name: string) | Succeed | Fail

  /** Where a call leads, and whether it had an effect. */
  function After(state: TaskPhase, call: Call): (TaskPhase, bool) {
    match call
    case Await => if state == Running then (AwaitingTape, true) else (state, false)
    case Answer(_) => if state == AwaitingTape then (Running, true) else (state, false)
    case Succeed => if state.Active() then (Success, true) else (state, false)
    case Fail => if state.Active() then (Error, true) else (state, false)
  }

  function Play(state: TaskPhase, calls: seq<Call>): TaskPhase {
    if calls == [] then state else After(Play(state, calls[..|calls| - 1]), calls[|calls| - 1]).0
  }

  // Whether call k of the sequence had an effect.
  function Effective(calls: seq<Call>, k: nat): bool
    requires k < |calls|
  {
    After(Play(Running, calls[..k]), calls[k]).1
  }

  /** Terminal states are final, whatever is called afterwards. */
  lemma {:induction false} FinishedStaysFinished(calls: seq<Call>, k: nat)
    requires k <= |calls| && !Play(Running, calls[..k]).Active()
    ensures Play(Running, calls) == Play(Running, calls[..k])
    decreases |calls|
  {
    if k < |calls| {
      var last := |calls| - 1;
      assert calls[..last][..k] == calls[..k];
      FinishedStaysFinished(calls[..last], k);
    } else {
      assert calls[..k] == calls;
    }
  }

  /** However many finishing calls there are, exactly one of them has an effect if there is
      one at all, and the task ends as that first one says. */
  lemma OnlyTheFirstFinishCounts(calls: seq<Call>, j: nat, k: nat)
    requires j < |calls| && k < |calls|
    requires (calls[j].Succeed? || calls[j].Fail?) && (calls[k].Succeed? || calls[k].Fail?)
    requires Effective(calls, j) && Effective(calls, k)
    ensures j == k
    ensures Play(Running, calls) == if calls[j].Succeed? then Success else Error
  {
    FinishIsFinal(calls, j);
    FinishIsFinal(calls, k);
    if j < k {
      assert calls[..k][..j + 1] == calls[..j + 1];
      FinishedStaysFinished(calls[..k], j + 1);
    } else if k < j {
      assert calls[..j][..k + 1] == calls[..k + 1];
      FinishedStaysFinished(calls[..j], k + 1);
    }
  }

  /** The first finishing call takes effect, whatever came before it, and decides how the
      task ends. */
  lemma TheFirstFinishTakesEffect(calls: seq<Call>, k: nat)
    requires k < |calls| && (calls[k].Succeed? || calls[k].Fail?)
    requires forall j :: 0 <= j < k ==> !calls[j].Succeed? && !calls[j].Fail?
    ensures Effective(calls, k)
    ensures Play(Running, calls) == if calls[k].Succeed? then Success else Error
  {
    ActiveUntilFinish(calls, k);
    FinishIsFinal(calls, k);
  }

  // Without a finishing call a task stays active.
  lemma {:induction false} ActiveUntilFinish(calls: seq<Call>, k: nat)
    requires k <= |calls| && forall j :: 0 <= j < k ==> !calls[j].Succeed? && !calls[j].Fail?
    ensures Play(Running, calls[..k]).Active()
  {
    if k > 0 {
      ActiveUntilFinish(calls, k - 1);
      assert calls[..k][..k - 1] == calls[..k - 1];
    }
  }

  lemma FinishIsFinal(calls: seq<Call>, j: nat)
    requires j < |calls| && (calls[j].Succeed? || calls[j].Fail?) && Effective(calls, j)
    ensures !Play(Running, calls[..j + 1]).Active()
    ensures Play(Running, calls) == Play(Running, calls[..j + 1]) == if calls[j].Succeed? then Success else Error
  {
    assert calls[..j + 1][..j] == calls[..j];
    FinishedStaysFinished(calls, j + 1);
  }

  /** The task waits since call w: nothing had an effect between it and call k. */
  ghost predicate WaitsSince(calls: seq<Call>, w: nat, k: nat) {
    && w < k <= |calls| && calls[w].Await? && Effective(calls, w)
    && forall i :: w < i < k ==> !Effective(calls, i)
  }

  /** An answer is delivered exactly if the task waits since some call; so each wait gets
      at most one answer. */
  lemma AnswersMatchWaits(calls: seq<Call>, k: nat)
    requires k < |calls| && calls[k].Answer?
    ensures Effective(calls, k) <==> exists w :: WaitsSince(calls, w, k)
  {
    hide WaitsSince;
    WaitingIsSince(calls, k);
  }

  lemma WaitGoesOn(calls: seq<Call>, w: nat, k: nat)
    requires k < |calls|
    ensures WaitsSince(calls, w, k + 1) <==>
      (w == k && calls[k].Await? && Effective(calls, k)) || (WaitsSince(calls, w, k) && !Effective(calls, k))
  {
    hide Effective;
  }

  lemma {:induction false} WaitingIsSince(calls: seq<Call>, k: nat)
    requires k <= |calls|
    ensures Play(Running, calls[..k]) == AwaitingTape <==> exists w :: WaitsSince(calls, w, k)
  {
    hide WaitsSince;
    if k == 0 {
      NoWaitYet(calls);
      return;
    }
    var m := k - 1;
    WaitingIsSince(calls, m);
    assert calls[..k][..m] == calls[..m];
    forall w
      ensures WaitsSince(calls, w, k) <==>
        (w == m && calls[m].Await? && Effective(calls, m)) || (WaitsSince(calls, w, m) && !Effective(calls, m))
    {
      WaitGoesOn(calls, w, m);
    }
    assert WaitsSince(calls, m, k) <==>
      (calls[m].Await? && Effective(calls, m)) || (WaitsSince(calls, m, m) && !Effective(calls, m));
  }

  lemma NoWaitYet(calls: seq<Call>)
    ensures Play(Running, calls[..0]) == Running && !exists w :: WaitsSince(calls, w, 0)
  {
  }
}
