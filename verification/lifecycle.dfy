/**
 Connecting, pairing, rejecting and reconnecting one account
 (internal/service/account.go:163-399, 1728-1912). Each mutex-protected section is one
 step, and sections, events and background tasks interleave freely. The reply of the
 WhatsApp client is a parameter of the step that asks for it.
 */
module Lifecycle {
  import opened Text

  /** One `autoReconnect` task: rounds begun, the client read in this round, connect calls made. */
  datatype Task = Task(round: nat, holding: Option<nat>, calls: nat)

  /** The delays of `autoReconnect`, one per round. */
  const ROUNDS := 5

  /**
   `client` is `a.client`, numbered in order of creation. `rejects` counts reject tasks
   spawned and not yet run, `spawns` the handlers that read `rejected` as false and have not
   yet started their reconnect task; `started` numbers those tasks.
   */
  datatype State = State(
    client: Option<nat>, created: nat, rejected: bool,
    rejects: nat, spawns: nat, tasks: map<nat, Task>, started: nat)

  datatype Step =
    | Connect(alive: bool, prepared: bool)
    | GetQR(prepared: bool)
    | Disconnect
    | Logout
    | LoggedOut
    | PairSuccess(matches: bool)
    | Connected(matches: bool)
    | RunReject
    | Dropped
    | StartTask
    | Wake(task: nat)
    | Attempt(task: nat, alive: bool, succeeds: bool)

  /** Events reach the handler of a client that was made. */
  predicate IsEvent(step: Step) {
    step.PairSuccess? || step.Connected? || step.LoggedOut? || step.Dropped?
  }

  predicate Enabled(s: State, step: Step) {
    (IsEvent(step) ==> 0 < s.created) &&
    match step
    case RunReject => 0 < s.rejects
    case StartTask => 0 < s.spawns
    case Wake(t) => t in s.tasks && s.tasks[t].holding.None?
    case Attempt(t, _, _) => t in s.tasks && s.tasks[t].holding.Some?
    case _ => true
  }

  /** `prepareClient`: a fresh client, or nothing new when the session store cannot be opened. */
  function Prepare(s: State, prepared: bool): State {
    if prepared then s.(client := Some(s.created), created := s.created + 1) else s
  }

  function Next(s: State, step: Step): State
    requires Enabled(s, step)
  {
    match step
    case Connect(alive, prepared) =>
      var cleared := s.(rejected := false);
      if s.client.Some? && alive then cleared else Prepare(cleared, prepared)
    case GetQR(prepared) => Prepare(s.(client := None), prepared)
    case Disconnect => s.(client := None)
    case Logout => s.(client := None)
    case LoggedOut => s.(client := None)
    case PairSuccess(matches) => if matches then s else s.(rejects := s.rejects + 1)
    case Connected(matches) => if s.client.None? || matches then s else s.(rejects := s.rejects + 1)
    case RunReject => s.(rejected := true, client := None, rejects := s.rejects - 1)
    case Dropped => if s.rejected then s else s.(spawns := s.spawns + 1)
    case StartTask =>
      s.(spawns := s.spawns - 1, tasks := s.tasks[s.started := Task(0, None, 0)], started := s.started + 1)
    case Wake(t) =>
      if s.client.None? then s.(tasks := s.tasks - {t})
      else s.(tasks := s.tasks[t := s.tasks[t].(round := s.tasks[t].round + 1, holding := s.client)])
    case Attempt(t, alive, succeeds) =>
      if alive || succeeds || s.tasks[t].round == ROUNDS then s.(tasks := s.tasks - {t})
      else s.(tasks := s.tasks[t := s.tasks[t].(holding := None, calls := s.tasks[t].calls + 1)])
  }

  const START := State(None, 0, false, 0, 0, map[], 0)

  // ---- The sections as the program runs them ----

  class Account {
    var client: Option<nat>
    var created: nat
    var rejected: bool
    var rejects: nat
    var spawns: nat
    var tasks: map<nat, Task>
    var started: nat

    function View(): State
      reads this
    {
      State(client, created, rejected, rejects, spawns, tasks, started)
    }

    constructor ()
      ensures View() == START
    {
      client, created, rejected := None, 0, false;
      rejects, spawns, tasks, started := 0, 0, map[], 0;
    }

    /** Gives the session store's error when it cannot be opened. */
    method PrepareClient(prepared: bool) returns (ok: bool)
      modifies this
      ensures View() == Prepare(old(View()), prepared) && ok == prepared
    {
      if !prepared {
        return false;
      }
      client := Some(created);
      created := created + 1;
      return true;
    }

    /** A failing `client.Connect` is reported but leaves the new client in place. */
    method ConnectAccount(alive: bool, prepared: bool, reachable: bool) returns (ok: bool)
      modifies this
      ensures View() == Next(old(View()), Connect(alive, prepared))
      ensures ok <==> (old(client).Some? && alive) || (prepared && reachable)
    {
      rejected := false;
      if client.Some? && alive {
        return true;
      }
      ok := PrepareClient(prepared);
      if !ok {
        return;
      }
      ok := reachable;
    }

    /** An already linked device, a refused QR channel or a failed connect keep the new client. */
    method GetQRChannel(prepared: bool, linked: bool, channel: bool, reachable: bool) returns (ok: bool)
      modifies this
      ensures View() == Next(old(View()), GetQR(prepared))
      ensures ok <==> prepared && !linked && channel && reachable
    {
      if client.Some? {
        client := None;
      }
      ok := PrepareClient(prepared);
      if !ok {
        return;
      }
      ok := !linked && channel && reachable;
    }

    method DisconnectAccount()
      modifies this
      ensures View() == Next(old(View()), Disconnect)
    {
      if client.Some? {
        client := None;
      }
    }

    /** A live client is logged out at the server; otherwise the local session is wiped. */
    method LogoutAccount(alive: bool, serverOk: bool, wipeOk: bool) returns (ok: bool)
      modifies this
      ensures View() == Next(old(View()), Logout)
      ensures ok == if old(client).Some? && alive then serverOk else wipeOk
    {
      if client.Some? {
        if alive {
          client := None;
          return serverOk;
        }
        client := None;
      }
      return wipeOk;
    }

    /** The background half of `rejectMismatch`. */
    method RejectMismatch()
      requires 0 < rejects
      modifies this
      ensures View() == Next(old(View()), RunReject)
    {
      rejects := rejects - 1;
      rejected := true;
      if client.Some? {
        client := None;
      }
    }

    /** The lifecycle cases of `handleEvent`. */
    method HandleEvent(event: Step)
      requires IsEvent(event) && 0 < created
      modifies this
      ensures View() == Next(old(View()), event)
    {
      match event {
        case PairSuccess(matches) =>
          if !matches {
            rejects := rejects + 1;
          }
        case Connected(matches) =>
          var read := client;
          if read.Some? && !matches {
            rejects := rejects + 1;
          }
        case LoggedOut =>
          if client.Some? {
            client := None;
          }
        case Dropped =>
          var read := rejected;
          if !read {
            spawns := spawns + 1;
          }
      }
    }

    /** `go a.autoReconnect()`. */
    method StartReconnect() returns (task: nat)
      requires 0 < spawns
      modifies this
      ensures View() == Next(old(View()), Step.StartTask) && task == old(started)
    {
      task := started;
      tasks := tasks[task := Task(0, None, 0)];
      started := started + 1;
      spawns := spawns - 1;
    }

    /** A round of `autoReconnect` begins, after its delay, by reading `a.client`. */
    method BeginRound(task: nat) returns (goesOn: bool)
      requires task in tasks && tasks[task].holding.None?
      modifies this
      ensures View() == Next(old(View()), Wake(task)) && goesOn == client.Some?
    {
      var read := client;
      if read.None? {
        tasks := tasks - {task};
        return false;
      }
      tasks := tasks[task := tasks[task].(round := tasks[task].round + 1, holding := read)];
      return true;
    }

    /** The round ends on the client it read, which may have been detached since. */
    method EndRound(task: nat, alive: bool, succeeds: bool) returns (goesOn: bool)
      requires task in tasks && tasks[task].holding.Some?
      modifies this
      ensures View() == Next(old(View()), Attempt(task, alive, succeeds))
      ensures goesOn <==> task in tasks
    {
      if alive || succeeds || tasks[task].round == ROUNDS {
        tasks := tasks - {task};
        return false;
      }
      tasks := tasks[task := tasks[task].(holding := None, calls := tasks[task].calls + 1)];
      return true;
    }
  }

  // ---- Runs ----

  ghost predicate Run(states: seq<State>, steps: seq<Step>) {
    && |states| == |steps| + 1 && states[0] == START
    && forall i :: 0 <= i < |steps| ==> Enabled(states[i], steps[i]) && states[i + 1] == Next(states[i], steps[i])
  }

  predicate Attaches(step: Step) {
    step.Connect? || step.GetQR?
  }

  /** The sections that leave `a.client` nil. */
  predicate Detaches(step: Step) {
    step.RunReject? || step.Logout? || step.LoggedOut? || step.Disconnect?
  }

  ghost predicate NoneOf(steps: seq<Step>, from: nat, to: nat, p: Step -> bool)
    requires from <= to <= |steps|
  {
    forall k :: from <= k < to ==> !p(steps[k])
  }

  /** Only `Connect` and `GetQR` ever set `a.client`, and what they set is a fresh client. */
  lemma ClientComesFromAttaching(states: seq<State>, steps: seq<Step>, i: nat)
    requires Run(states, steps) && i < |steps|
    requires states[i + 1].client.Some? && states[i + 1].client != states[i].client
    ensures Attaches(steps[i]) && states[i + 1].client.value == states[i].created
  {
    assert states[i + 1] == Next(states[i], steps[i]);
  }

  /** Whatever client is attached was made by a `Connect` or `GetQR` since which nothing replaced or detached it. */
  lemma {:induction false} AttachedBy(states: seq<State>, steps: seq<Step>, j: nat) returns (i: nat)
    requires Run(states, steps) && j <= |steps| && states[j].client.Some?
    ensures i < j && Attaches(steps[i]) && states[j].client == Some(states[i].created)
    ensures forall k :: i < k <= j ==> states[k].client == states[j].client
  {
    assert j > 0 ==> states[j] == Next(states[j - 1], steps[j - 1]);
    if states[j - 1].client == states[j].client {
      i := AttachedBy(states, steps, j - 1);
    } else {
      ClientComesFromAttaching(states, steps, j - 1);
      i := j - 1;
    }
  }

  /** After a detaching section `a.client` stays nil until the next `Connect` or `GetQR`. */
  lemma {:induction false} DetachedStaysDetached(states: seq<State>, steps: seq<Step>, i: nat, j: nat)
    requires Run(states, steps) && i < j <= |steps|
    requires Detaches(steps[i]) && NoneOf(steps, i + 1, j, Attaches)
    ensures states[j].client.None?
    decreases j
  {
    assert states[j] == Next(states[j - 1], steps[j - 1]);
    if i + 1 < j {
      DetachedStaysDetached(states, steps, i, j - 1);
      assert !Attaches(steps[j - 1]);
    }
  }

  /** A rejected account stays rejected until `Connect`; `GetQR` does not clear it. */
  lemma {:induction false} RejectedUntilConnect(states: seq<State>, steps: seq<Step>, i: nat, j: nat)
    requires Run(states, steps) && i < j <= |steps|
    requires steps[i].RunReject? && NoneOf(steps, i + 1, j, (s: Step) => s.Connect?)
    ensures states[j].rejected
    decreases j
  {
    assert states[j] == Next(states[j - 1], steps[j - 1]);
    if i + 1 < j {
      RejectedUntilConnect(states, steps, i, j - 1);
      assert !steps[j - 1].Connect?;
    }
  }

  // ---- Reconnect tasks ----

  /** How many of the first `n` steps are drops seen while not rejected. */
  ghost function Licences(states: seq<State>, steps: seq<Step>, n: nat): nat
    requires n <= |steps| && |states| == |steps| + 1
  {
    if n == 0 then 0
    else Licences(states, steps, n - 1) + (if steps[n - 1].Dropped? && !states[n - 1].rejected then 1 else 0)
  }

  /** Tasks start on a licence read as not rejected, one each, and on nothing else. */
  lemma {:induction false} EveryTaskIsLicensed(states: seq<State>, steps: seq<Step>, n: nat)
    requires Run(states, steps) && n <= |steps|
    ensures states[n].started + states[n].spawns == Licences(states, steps, n)
  {
    if n > 0 {
      EveryTaskIsLicensed(states, steps, n - 1);
      assert states[n] == Next(states[n - 1], steps[n - 1]);
    }
  }

  lemma {:induction false} NoLicenceWhileRejected(states: seq<State>, steps: seq<Step>, i: nat, j: nat)
    requires Run(states, steps) && i < j <= |steps|
    requires steps[i].RunReject? && NoneOf(steps, i + 1, j, (s: Step) => s.Connect?)
    ensures Licences(states, steps, j) == Licences(states, steps, i)
    decreases j
  {
    if i + 1 < j {
      NoLicenceWhileRejected(states, steps, i, j - 1);
      RejectedUntilConnect(states, steps, i, j - 1);
    }
  }

  /**
   After a reject, and until `Connect`, no new task is licensed: only handlers that had
   already read the flag can still start theirs.
   */
  lemma NoNewTasksAfterReject(states: seq<State>, steps: seq<Step>, i: nat, j: nat)
    requires Run(states, steps) && i < j <= |steps|
    requires steps[i].RunReject? && NoneOf(steps, i + 1, j, (s: Step) => s.Connect?)
    ensures states[j].started <= states[i].started + states[i].spawns
    ensures states[i].spawns == 0 ==> states[j].started == states[i].started
  {
    NoLicenceWhileRejected(states, steps, i, j);
    EveryTaskIsLicensed(states, steps, i);
    EveryTaskIsLicensed(states, steps, j);
    StartedGrows(states, steps, i, j);
  }

  lemma {:induction false} StartedGrows(states: seq<State>, steps: seq<Step>, i: nat, j: nat)
    requires Run(states, steps) && i <= j <= |steps|
    ensures states[i].started <= states[j].started
    decreases j
  {
    if i < j {
      StartedGrows(states, steps, i, j - 1);
      assert states[j] == Next(states[j - 1], steps[j - 1]);
    }
  }

  /** A run that goes on from another without a `Connect` and starts `k` more tasks. */
  ghost predicate StartsMore(states: seq<State>, steps: seq<Step>, states': seq<State>, steps': seq<Step>, k: nat) {
    && Run(states, steps) && Run(states', steps')
    && |steps| <= |steps'| && steps'[..|steps|] == steps && states'[..|states|] == states
    && NoneOf(steps', |steps|, |steps'|, (s: Step) => s.Connect?)
    && states'[|steps'|].started == states[|steps|].started + k
  }

  /**
   After a reject and before the next `Connect`, `k` more tasks can start if and only if at least
   `k` handlers had read the flag and not yet started theirs.
   */
  lemma TasksAfterRejectIff(states: seq<State>, steps: seq<Step>, k: nat)
    requires Run(states, steps) && steps != [] && steps[|steps| - 1].RunReject?
    ensures (exists states', steps' :: StartsMore(states, steps, states', steps', k))
       <==> k <= states[|steps|].spawns
  {
    var i := |steps| - 1;
    assert states[i + 1] == Next(states[i], steps[i]);
    forall states', steps' | StartsMore(states, steps, states', steps', k)
      ensures k <= states[|steps|].spawns
    {
      assert states'[i] == states'[..|states|][i] && states'[i + 1] == states'[..|states|][i + 1];
      assert steps'[i] == steps'[..|steps|][i];
      NoNewTasksAfterReject(states', steps', i, |steps'|);
    }
    hide Next;
    if k <= states[|steps|].spawns {
      var states', steps' := StartPending(states, steps, k);
    }
  }

  /** Pending handlers can start their tasks one after the other. */
  lemma {:induction false} StartPending(states: seq<State>, steps: seq<Step>, k: nat)
    returns (states': seq<State>, steps': seq<Step>)
    requires Run(states, steps) && k <= states[|steps|].spawns
    ensures StartsMore(states, steps, states', steps', k)
    ensures states'[|steps'|].spawns == states[|steps|].spawns - k
  {
    if k == 0 {
      states', steps' := states, steps;
    } else {
      var before, done := StartPending(states, steps, k - 1);
      var now := before[|done|];
      states', steps' := before + [Next(now, StartTask)], done + [StartTask];
      assert states'[..|states|] == before[..|states|] && steps'[..|steps|] == done[..|steps|];
      assert NoneOf(steps', |steps|, |steps'|, (s: Step) => s.Connect?);
    }
  }

  /**
   The gap between reading the flag and starting the task is real: a task can start while
   the account is rejected.
   */
  lemma TaskMayStartRejected() returns (states: seq<State>, steps: seq<Step>)
    ensures Run(states, steps) && |steps| == 5
    ensures states[4].rejected && steps[4].StartTask? && states[5].tasks == map[0 := Task(0, None, 0)]
  {
    hide Next, Enabled, Run;
    var made := START.(client := Some(0), created := 1);
    var read := made.(spawns := 1);
    var spawned := read.(rejects := 1);
    var rejected := read.(rejected := true, client := None);
    var started := rejected.(spawns := 0, tasks := map[0 := Task(0, None, 0)], started := 1);
    StartIsARun();
    ConnectStep(START);
    DroppedStep(made);
    MismatchStep(read);
    RejectStep(spawned);
    StartStep(rejected);
    states, steps := [START], [];
    states, steps := RunOn(states, steps, Connect(false, true), made);
    states, steps := RunOn(states, steps, Dropped, read);
    states, steps := RunOn(states, steps, PairSuccess(false), spawned);
    states, steps := RunOn(states, steps, RunReject, rejected);
    states, steps := RunOn(states, steps, StartTask, started);
  }

  lemma StartIsARun()
    ensures Run([START], [])
  {
  }

  lemma RunOn(states: seq<State>, steps: seq<Step>, step: Step, next: State)
    returns (states': seq<State>, steps': seq<Step>)
    requires Run(states, steps) && Enabled(states[|steps|], step) && next == Next(states[|steps|], step)
    ensures Run(states', steps') && states' == states + [next] && steps' == steps + [step]
  {
    hide Next, Enabled;
    states', steps' := states + [next], steps + [step];
  }

  lemma ConnectStep(s: State)
    requires s.client.None?
    ensures Enabled(s, Connect(false, true))
    ensures Next(s, Connect(false, true)) == s.(rejected := false, client := Some(s.created), created := s.created + 1)
  {
  }

  lemma DroppedStep(s: State)
    requires !s.rejected && 0 < s.created
    ensures Enabled(s, Dropped) && Next(s, Dropped) == s.(spawns := s.spawns + 1)
  {
  }

  lemma MismatchStep(s: State)
    requires 0 < s.created
    ensures Enabled(s, PairSuccess(false)) && Next(s, PairSuccess(false)) == s.(rejects := s.rejects + 1)
  {
  }

  lemma RejectStep(s: State)
    requires 0 < s.rejects
    ensures Enabled(s, RunReject)
    ensures Next(s, RunReject) == s.(rejected := true, client := None, rejects := s.rejects - 1)
  {
  }

  lemma StartStep(s: State)
    requires 0 < s.spawns && s.tasks == map[]
    ensures Enabled(s, StartTask)
    ensures Next(s, StartTask)
         == s.(spawns := s.spawns - 1, tasks := map[s.started := Task(0, None, 0)], started := s.started + 1)
  {
  }

  /** Task `t` calls `client.Connect`. */
  predicate IsCall(step: Step, t: nat) {
    step.Attempt? && step.task == t && !step.alive
  }

  /** How many of the first `n` steps are connect calls by task `t`. */
  ghost function Calls(steps: seq<Step>, t: nat, n: nat): nat
    requires n <= |steps|
  {
    if n == 0 then 0 else Calls(steps, t, n - 1) + (if IsCall(steps[n - 1], t) then 1 else 0)
  }

  /** The task's own count agrees with its connect calls, and each call uses up a round. */
  ghost predicate Counted(s: State, t: nat, calls: nat) {
    && (t in s.tasks ==>
          && t < s.started && calls == s.tasks[t].calls
          && if s.tasks[t].holding.Some? then calls + 1 == s.tasks[t].round <= ROUNDS
             else calls == s.tasks[t].round < ROUNDS)
    && (s.started <= t ==> calls == 0)
    && calls <= ROUNDS
  }

  lemma StepKeepsCount(s: State, step: Step, t: nat, calls: nat)
    requires Enabled(s, step) && Counted(s, t, calls)
    ensures Counted(Next(s, step), t, calls + (if IsCall(step, t) then 1 else 0))
  {
  }

  /** No reconnect task makes more than five connect calls. */
  lemma {:induction false} AtMostFiveCalls(states: seq<State>, steps: seq<Step>, t: nat, n: nat)
    requires Run(states, steps) && n <= |steps|
    ensures Calls(steps, t, n) <= 5 && Counted(states[n], t, Calls(steps, t, n))
  {
    if n > 0 {
      AtMostFiveCalls(states, steps, t, n - 1);
      assert states[n] == Next(states[n - 1], steps[n - 1]);
      StepKeepsCount(states[n - 1], steps[n - 1], t, Calls(steps, t, n - 1));
    }
  }

  predicate Concerns(step: Step, t: nat) {
    (step.Wake? || step.Attempt?) && step.task == t
  }

  /**
   A client a task holds is one it read from `a.client` in this round: step `j` is its
   wake-up, it found that client attached, and the task has done nothing since.
   */
  lemma {:induction false} HeldWasReadThisRound(states: seq<State>, steps: seq<Step>, t: nat, n: nat) returns (j: nat)
    requires Run(states, steps) && n <= |steps|
    requires t in states[n].tasks && states[n].tasks[t].holding.Some?
    ensures j < n && steps[j] == Wake(t) && states[j].client == states[n].tasks[t].holding
    ensures forall k :: j < k < n ==> !Concerns(steps[k], t)
  {
    assert n > 0;
    assert states[n] == Next(states[n - 1], steps[n - 1]);
    if steps[n - 1] == Wake(t) {
      j := n - 1;
    } else {
      j := HeldWasReadThisRound(states, steps, t, n - 1);
    }
  }

  /** A task that reads nil is over: no later step is its own. */
  lemma {:induction false} NilEndsTask(states: seq<State>, steps: seq<Step>, t: nat, i: nat, j: nat)
    requires Run(states, steps) && i < j <= |steps|
    requires steps[i] == Wake(t) && states[i].client.None?
    ensures t !in states[j].tasks && t < states[j].started
    ensures j < |steps| ==> !Concerns(steps[j], t)
    decreases j
  {
    assert states[j] == Next(states[j - 1], steps[j - 1]);
    AtMostFiveCalls(states, steps, t, j - 1);
    if i + 1 < j {
      NilEndsTask(states, steps, t, i, j - 1);
    }
  }

  /** Whether a task still has a call in hand. */
  function InHand(s: State, t: nat): nat {
    if t in s.tasks && s.tasks[t].holding.Some? then 1 else 0
  }

  /**
   Once detached, and until someone attaches a client again, a task makes at most the one
   connect call it already held a client for.
   */
  lemma {:induction false} DetachedTasksDieOut(states: seq<State>, steps: seq<Step>, t: nat, i: nat, j: nat)
    requires Run(states, steps) && i < j <= |steps|
    requires Detaches(steps[i]) && NoneOf(steps, i + 1, j, Attaches)
    ensures Calls(steps, t, j) + InHand(states[j], t) <= Calls(steps, t, i) + InHand(states[i], t)
    ensures Calls(steps, t, j) <= Calls(steps, t, i) + 1
    decreases j
  {
    assert states[j] == Next(states[j - 1], steps[j - 1]);
    if i + 1 < j {
      DetachedTasksDieOut(states, steps, t, i, j - 1);
      DetachedStaysDetached(states, steps, i, j - 1);
      assert !Attaches(steps[j - 1]);
    }
  }
}
