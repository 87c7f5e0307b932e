/**
 What a reconnect task and a reject do get to: the other half of the bounds in `Lifecycle`
 (internal/service/account.go:163-186, 284-328, 1728-1912).
 */
module Reconnect {
  import opened Text
  import opened Lifecycle

  /** A run that goes on from another with steps of task `t` alone. */
  ghost predicate GoesOnAlone(states: seq<State>, steps: seq<Step>, states': seq<State>, steps': seq<Step>, t: nat) {
    && Run(states, steps) && Run(states', steps')
    && |steps| <= |steps'| && steps'[..|steps|] == steps && states'[..|states|] == states
    && forall i :: |steps| <= i < |steps'| ==>
         steps'[i] == Wake(t) || (steps'[i].Attempt? && steps'[i].task == t)
  }

  /**
   A task that has just started while a client is attached can by itself make `k` connect calls if
   and only if `k` is at most five.
   */
  lemma CallsReachableIff(states: seq<State>, steps: seq<Step>, t: nat, k: nat)
    requires Run(states, steps) && states[|steps|].client.Some?
    requires t in states[|steps|].tasks && states[|steps|].tasks[t] == Task(0, None, 0)
    ensures (exists states', steps' ::
               GoesOnAlone(states, steps, states', steps', t) && Calls(steps', t, |steps'|) == k)
       <==> k <= 5
  {
    forall states', steps' | GoesOnAlone(states, steps, states', steps', t) && Calls(steps', t, |steps'|) == k
      ensures k <= 5
    {
      AtMostFiveCalls(states', steps', t, |steps'|);
    }
    hide Run, Calls;
    if k <= 5 {
      var states', steps' := MakeCalls(states, steps, t, k);
    }
  }

  /** Round by round: wake up, read the client, fail to connect. */
  lemma {:induction false} MakeCalls(states: seq<State>, steps: seq<Step>, t: nat, k: nat)
    returns (states': seq<State>, steps': seq<Step>)
    requires Run(states, steps) && states[|steps|].client.Some? && k <= 5
    requires t in states[|steps|].tasks && states[|steps|].tasks[t] == Task(0, None, 0)
    ensures GoesOnAlone(states, steps, states', steps', t) && Calls(steps', t, |steps'|) == k
    ensures states'[|steps'|].client == states[|steps|].client
    ensures k < 5 ==> t in states'[|steps'|].tasks && states'[|steps'|].tasks[t] == Task(k, None, k)
  {
    if k == 0 {
      states', steps' := states, steps;
      AtMostFiveCalls(states, steps, t, |steps|);
      assert states'[..|states|] == states && steps'[..|steps|] == steps;
    } else {
      var before, done := MakeCalls(states, steps, t, k - 1);
      var now := before[|done|];
      WakeStep(now, t);
      var woken := Next(now, Wake(t));
      FailStep(woken, t);
      var failed := Next(woken, Attempt(t, false, false));
      hide Next, Enabled, Run;
      var between, and_ := RunOn(before, done, Wake(t), woken);
      states', steps' := RunOn(between, and_, Attempt(t, false, false), failed);
      assert states'[..|states|] == before[..|states|] && steps'[..|steps|] == done[..|steps|];
      TwoMoreCalls(done, t);
    }
  }

  lemma TwoMoreCalls(done: seq<Step>, t: nat)
    ensures var steps := done + [Wake(t)] + [Attempt(t, false, false)];
      Calls(steps, t, |steps|) == Calls(done, t, |done|) + 1
  {
    var steps := done + [Wake(t)] + [Attempt(t, false, false)];
    SameCalls(done, steps, t, |done|);
    assert steps[|done|] == Wake(t) && steps[|done| + 1] == Attempt(t, false, false);
    assert Calls(steps, t, |done| + 1) == Calls(steps, t, |done|);
  }

  lemma {:induction false} SameCalls(one: seq<Step>, two: seq<Step>, t: nat, n: nat)
    requires n <= |one| <= |two| && forall i :: 0 <= i < n ==> one[i] == two[i]
    ensures Calls(one, t, n) == Calls(two, t, n)
  {
    if n > 0 {
      SameCalls(one, two, t, n - 1);
    }
  }

  lemma WakeStep(s: State, t: nat)
    requires s.client.Some? && t in s.tasks && s.tasks[t].holding.None?
    ensures Enabled(s, Wake(t))
    ensures Next(s, Wake(t)) == s.(tasks := s.tasks[t := s.tasks[t].(round := s.tasks[t].round + 1, holding := s.client)])
  {
  }

  lemma FailStep(s: State, t: nat)
    requires t in s.tasks && s.tasks[t].holding.Some?
    ensures Enabled(s, Attempt(t, false, false))
    ensures var next := Next(s, Attempt(t, false, false));
      && next.client == s.client
      && (s.tasks[t].round < 5 ==> t in next.tasks && next.tasks[t] == Task(s.tasks[t].round, None, s.tasks[t].calls + 1))
  {
  }

  /** A failed call before the fifth leaves its task waiting for the next round; the fifth ends it. */
  lemma FailedCallGoesOn(states: seq<State>, steps: seq<Step>, t: nat, i: nat)
    requires Run(states, steps) && i < |steps| && steps[i] == Attempt(t, false, false)
    ensures Calls(steps, t, i) < 4 ==>
      t in states[i + 1].tasks && states[i + 1].tasks[t].holding == None && Enabled(states[i + 1], Wake(t))
    ensures Calls(steps, t, i) == 4 ==> t !in states[i + 1].tasks
  {
    AtMostFiveCalls(states, steps, t, i);
    assert Enabled(states[i], steps[i]) && states[i + 1] == Next(states[i], steps[i]);
    hide Run, Calls;
  }

  /** A client found connected, and a call that succeeds, end the task. */
  lemma ConnectedEndsTask(states: seq<State>, steps: seq<Step>, i: nat)
    requires Run(states, steps) && i < |steps| && steps[i].Attempt? && (steps[i].alive || steps[i].succeeds)
    ensures steps[i].task !in states[i + 1].tasks
  {
    assert Enabled(states[i], steps[i]) && states[i + 1] == Next(states[i], steps[i]);
    hide Run;
  }

  // ---- Connect and GetQR ----

  /** `Connect` allows reconnecting again, and keeps a live client; otherwise a fresh one is attached, if it can be. */
  lemma AfterConnect(states: seq<State>, steps: seq<Step>, i: nat)
    requires Run(states, steps) && i < |steps| && steps[i].Connect?
    ensures !states[i + 1].rejected
    ensures states[i + 1].client ==
      if states[i].client.Some? && steps[i].alive then states[i].client
      else if steps[i].prepared then Some(states[i].created)
      else states[i].client
  {
    assert states[i + 1] == Next(states[i], steps[i]);
    hide Run;
  }

  /** `GetQR` drops the client there was, and attaches a fresh one if it can be. */
  lemma AfterGetQR(states: seq<State>, steps: seq<Step>, i: nat)
    requires Run(states, steps) && i < |steps| && steps[i].GetQR?
    ensures states[i + 1].client == if steps[i].prepared then Some(states[i].created) else None
    ensures states[i + 1].rejected == states[i].rejected
  {
    assert states[i + 1] == Next(states[i], steps[i]);
    hide Run;
  }

  // ---- Rejects ----

  /** How many of the first `n` events told of a number that is not the account's. */
  ghost function Mismatches(states: seq<State>, steps: seq<Step>, n: nat): nat
    requires n <= |steps| && |states| == |steps| + 1
  {
    if n == 0 then 0
    else
      Mismatches(states, steps, n - 1)
      + (if steps[n - 1] == PairSuccess(false) || (steps[n - 1] == Connected(false) && states[n - 1].client.Some?)
         then 1 else 0)
  }

  ghost function Rejects(steps: seq<Step>, n: nat): nat
    requires n <= |steps|
  {
    if n == 0 then 0 else Rejects(steps, n - 1) + (if steps[n - 1].RunReject? then 1 else 0)
  }

  /** Every mismatch is rejected, or waits to be; and nothing else is. */
  lemma {:induction false} EveryMismatchIsRejected(states: seq<State>, steps: seq<Step>, n: nat)
    requires Run(states, steps) && n <= |steps|
    ensures states[n].rejects + Rejects(steps, n) == Mismatches(states, steps, n)
  {
    if n > 0 {
      EveryMismatchIsRejected(states, steps, n - 1);
      assert Enabled(states[n - 1], steps[n - 1]) && states[n] == Next(states[n - 1], steps[n - 1]);
      hide Run;
    }
  }

  /** An event is only handled after a `Connect` or `GetQR` made a client. */
  lemma {:induction false} NothingBeforeAClient(states: seq<State>, steps: seq<Step>, n: nat)
    requires Run(states, steps) && n < |steps|
    requires steps[n].PairSuccess? || steps[n].Connected? || steps[n].LoggedOut? || steps[n].Dropped?
    ensures exists i :: 0 <= i < n && (steps[i].Connect? || steps[i].GetQR?) && steps[i].prepared
  {
    ClientsAreMade(states, steps, n);
  }

  lemma {:induction false} ClientsAreMade(states: seq<State>, steps: seq<Step>, n: nat)
    requires Run(states, steps) && n <= |steps| && 0 < states[n].created
    ensures exists i :: 0 <= i < n && (steps[i].Connect? || steps[i].GetQR?) && steps[i].prepared
  {
    assert n > 0 ==> states[n] == Next(states[n - 1], steps[n - 1]);
    if 0 < states[n - 1].created {
      ClientsAreMade(states, steps, n - 1);
    }
  }
}
