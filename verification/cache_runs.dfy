/**
 What runs of the cache lead to: whose answer a read is served, what comes back after a clearing
 (internal/service/account.go:1733-1739, 1881-1883), and what atomic operations would keep.
 */
module CacheRuns {
  import opened Text
  import opened CacheKeys
  import opened ReadCache

  // ---- Finishing a read ----

  /** The rest of a read: one query for each outcome, then the set. */
  function Finish<S>(r: nat, oks: seq<bool>): seq<Step<S>>
    decreases |oks|
  {
    if oks == [] then [SetEntry(r)] else [Query(r, oks[0])] + Finish(r, oks[1..])
  }

  /** The answers so far, then one more for each outcome, all of the current version. */
  function Filled<S, P>(sys: System<S, P>, s: State<S, P>, f: Fill<P>, oks: seq<bool>): Fill<P>
    requires s.stores != []
    decreases |oks|
  {
    if oks == [] then f else Filled(sys, s, Answered(sys, s, f, oks[0]), oks[1..])
  }

  /** Each query is one the read lacks, and after the last it is complete. */
  predicate Suffices<S, P>(sys: System<S, P>, s: State<S, P>, f: Fill<P>, oks: seq<bool>)
    requires s.stores != []
    decreases |oks|
  {
    if oks == [] then Complete(sys, f)
    else Lacks(sys, f) && Suffices(sys, s, Answered(sys, s, f, oks[0]), oks[1..])
  }

  lemma {:induction false} FilledKeeps<S, P>(sys: System<S, P>, s: State<S, P>, f: Fill<P>, oks: seq<bool>)
    requires s.stores != []
    ensures var g := Filled(sys, s, f, oks);
      && g.request == f.request && g.askedAt == f.askedAt && |g.parts| == |f.parts| + |oks|
      && (forall i :: 0 <= i < |f.parts| ==> g.parts[i] == f.parts[i])
      && forall i :: |f.parts| <= i < |g.parts| ==> g.parts[i].version == |s.stores| - 1
    decreases |oks|
  {
    if oks != [] {
      FilledKeeps(sys, s, Answered(sys, s, f, oks[0]), oks[1..]);
    }
  }

  /** A read that has not failed can be completed by queries that succeed. */
  lemma {:induction false} CanBeCompleted<S(!new), P(!new)>(sys: System<S, P>, s: State<S, P>, f: Fill<P>) returns (oks: seq<bool>)
    requires Ends(sys) && s.stores != [] && !Failed(f)
    ensures Suffices(sys, s, f, oks)
    ensures Lacks(sys, f) ==> oks != []
    decreases if Complete(sys, f) then 0 else sys.most(f.request) - |f.parts|
  {
    if Complete(sys, f) {
      oks := [];
    } else {
      var g := Answered(sys, s, f, true);
      assert g.parts[0] == if f.parts == [] then g.parts[|f.parts|] else f.parts[0];
      hide Suffices;
      var rest := CanBeCompleted(sys, s, g);
      oks := [true] + rest;
      assert oks[1..] == rest;
      SufficesNext(sys, s, f, rest);
    }
  }

  lemma SufficesNext<S, P>(sys: System<S, P>, s: State<S, P>, f: Fill<P>, rest: seq<bool>)
    requires s.stores != [] && Lacks(sys, f) && Suffices(sys, s, Answered(sys, s, f, true), rest)
    ensures Suffices(sys, s, f, [true] + rest)
  {
    assert ([true] + rest)[1..] == rest;
    hide Answered, Lacks;
  }

  /** A read that has begun can go on to its set, exactly when it makes the queries it lacks. */
  lemma {:induction false} FinishRuns<S, P>(sys: System<S, P>, s: State<S, P>, r: nat, oks: seq<bool>)
    requires s.stores != [] && r in s.fills
    ensures Runs(sys, s, Finish(r, oks)) <==> Suffices(sys, s, s.fills[r], oks)
    ensures Runs(sys, s, Finish(r, oks)) ==>
      var f := s.fills[r];
      Exec(sys, s, Finish(r, oks)) ==
        s.(slots := Put(s.slots, KeyOf(sys.account, f.request), Entry(Filled(sys, s, f, oks), s.now),
                        Ttl(f.request), s.now),
           fills := s.fills - {r})
    decreases |oks|
  {
    hide KeyOf, Put, Runs, Exec, Lacks, Complete;
    var last: Step<S> := SetEntry(r);
    if oks == [] {
      if Enabled(sys, s, SetEntry(r)) {
        ExecNone(sys, Next(sys, s, SetEntry(r)));
        ExecNext(sys, s, SetEntry(r), []);
        assert [last] + [] == [last];
      } else {
        NotEnabled(sys, s, SetEntry(r), []);
        assert [last] + [] == [last];
      }
    } else if Enabled(sys, s, Query(r, oks[0])) {
      var next := Next(sys, s, Query(r, oks[0]));
      ExecNext(sys, s, Query(r, oks[0]), Finish(r, oks[1..]));
      FinishRuns(sys, next, r, oks[1..]);
      SameAnswers(sys, s, next, next.fills[r], oks[1..]);
      FilledKeeps(sys, s, s.fills[r], oks);
      assert next.fills - {r} == s.fills - {r};
    } else {
      NotEnabled(sys, s, Query(r, oks[0]), Finish(r, oks[1..]));
    }
  }

  lemma NotEnabled<S, P>(sys: System<S, P>, s: State<S, P>, step: Step<S>, rest: seq<Step<S>>)
    requires !Enabled(sys, s, step)
    ensures !Runs(sys, s, [step] + rest)
  {
  }

  lemma {:induction false} SameAnswers<S, P>(sys: System<S, P>, s: State<S, P>, t: State<S, P>, f: Fill<P>, oks: seq<bool>)
    requires s.stores == t.stores && s.stores != [] && s.now == t.now
    ensures Filled(sys, s, f, oks) == Filled(sys, t, f, oks)
    ensures Suffices(sys, s, f, oks) == Suffices(sys, t, f, oks)
    decreases |oks|
  {
    if oks != [] {
      SameAnswers(sys, s, t, Answered(sys, s, f, oks[0]), oks[1..]);
    }
  }

  // ---- What is never cached ----

  /** A page is only cached if its first query succeeded, and only once its read was done. */
  lemma {:induction false} FailedPagesAreNotCached<S, P>(sys: System<S, P>, store: S, t: real, steps: seq<Step<S>>, key: string)
    requires Runs(sys, Start(store, t), steps) && key in Exec(sys, Start(store, t), steps).slots
    ensures var f := Exec(sys, Start(store, t), steps).slots[key].value.fill;
      && (f.request.Messages? && f.parts != [] ==> f.parts[0].answer.Some?)
      && sys.done(f.request, seq(|f.parts|, i requires 0 <= i < |f.parts| => f.parts[i].answer))
  {
    RunKeepsHonest(sys, Start(store, t), steps);
    var s := Exec(sys, Start(store, t), steps);
    assert HonestSlot(sys, s, key, s.slots[key]);
    hide Runs, Exec, KeyOf, HonestFill, HonestLog;
    var f := s.slots[key].value.fill;
    assert Answers(f) == seq(|f.parts|, i requires 0 <= i < |f.parts| => f.parts[i].answer);
  }

  // ---- For how long ----

  /** What a read has set is served for eight seconds as a chat list and for five as a page, and then no more. */
  lemma ServedUntilExpiry<S, P>(sys: System<S, P>, s: State<S, P>, r: nat, elapsed: real)
    requires s.stores != [] && Enabled(sys, s, SetEntry(r)) && 0.0 <= elapsed
    ensures var q := s.fills[r].request;
      var t := Next(sys, Next(sys, s, SetEntry(r)), Tick(elapsed));
      && (Served(sys, t, q).Some? <==> elapsed < if q.ChatList? then 8.0 else 5.0)
      && (Served(sys, t, q).Some? ==> Served(sys, t, q).value == Entry(s.fills[r], s.now))
  {
    hide KeyOf, Complete, Lacks;
  }

  // ---- Whose answer is served ----

  ghost predicate CursorIn(q: Request, cursors: iset<string>) {
    q.Messages? ==> q.page.before in cursors
  }

  /** Every read asks with one of these cursors. */
  ghost predicate AsksWith<S>(steps: seq<Step<S>>, cursors: iset<string>) {
    forall i :: 0 <= i < |steps| && steps[i].Begin? ==> CursorIn(steps[i].request, cursors)
  }

  ghost predicate Separate(cursors: iset<string>) {
    forall b, c :: b in cursors && c in cursors ==> !Extends(b, c)
  }

  lemma {:induction false} RunKeepsCursors<S, P>(sys: System<S, P>, s: State<S, P>, steps: seq<Step<S>>, cursors: iset<string>)
    requires Runs(sys, s, steps) && AsksWith(steps, cursors)
    requires forall r :: r in s.fills ==> CursorIn(s.fills[r].request, cursors)
    requires forall k :: k in s.slots ==> CursorIn(s.slots[k].value.fill.request, cursors)
    ensures forall k :: k in Exec(sys, s, steps).slots ==>
              CursorIn(Exec(sys, s, steps).slots[k].value.fill.request, cursors)
    decreases |steps|
  {
    hide CursorIn, KeyOf;
    if steps != [] {
      RunKeepsCursors(sys, Next(sys, s, steps[0]), steps[1..], cursors);
    }
  }

  /** In this run a read of `q` is served nothing, or the answer to `q` itself. */
  ghost predicate ServesOwn<S, P>(sys: System<S, P>, store: S, t: real, steps: seq<Step<S>>, q: Request)
    requires Runs(sys, Start(store, t), steps)
  {
    var served := Served(sys, Exec(sys, Start(store, t), steps), q);
    served.Some? ==> served.value.fill.request == q
  }

  lemma SeparateServeOwn<S, P>(sys: System<S, P>, store: S, t: real, steps: seq<Step<S>>, q: Request, cursors: iset<string>)
    requires Runs(sys, Start(store, t), steps) && AsksWith(steps, cursors) && CursorIn(q, cursors)
    requires Separate(cursors)
    ensures ServesOwn(sys, store, t, steps, q)
  {
    var s := Exec(sys, Start(store, t), steps);
    if Served(sys, s, q).Some? {
      BoundedStaleness(sys, store, t, steps, q);
      RunKeepsCursors(sys, Start(store, t), steps, cursors);
      var asked := Served(sys, s, q).value.fill.request;
      hide Runs, Exec, Extends, PageKey;
      if q.Messages? {
        MessagesKeyIsInjective(sys.account, q.page, asked.page);
      }
    }
  }

  /** A read, done and set, is served to every request with its key. */
  lemma ReadIsServed<S(!new), P(!new)>(sys: System<S, P>, store: S, t: real, q: Request) returns (steps: seq<Step<S>>)
    requires Ends(sys)
    ensures Runs(sys, Start(store, t), steps)
    ensures forall cursors :: CursorIn(q, cursors) ==> AsksWith(steps, cursors)
    ensures var s := Exec(sys, Start(store, t), steps);
      && KeyOf(sys.account, q) in s.slots && s.slots[KeyOf(sys.account, q)].value.fill.request == q
      && s.now < s.slots[KeyOf(sys.account, q)].expires
  {
    var s: State<S, P> := Start(store, t);
    var next := Next(sys, s, Begin(0, q));
    var oks := CanBeCompleted(sys, next, next.fills[0]);
    steps := [Begin(0, q)] + Finish(0, oks);
    FinishAsksNothing<S>(0, oks);
    FinishRuns(sys, next, 0, oks);
    FilledKeeps(sys, next, next.fills[0], oks);
    ExecNext(sys, s, Begin(0, q), Finish(0, oks));
    hide Runs, Exec, KeyOf, Filled, Finish, Ends;
  }

  lemma {:induction false} FinishAsksNothing<S>(r: nat, oks: seq<bool>)
    ensures forall i :: 0 <= i < |Finish<S>(r, oks)| ==> !Finish<S>(r, oks)[i].Begin?
    decreases |oks|
  {
    if oks != [] {
      FinishAsksNothing<S>(r, oks[1..]);
    }
  }

  /**
   Over every run with these cursors each read is served its own answer, if and only if no cursor
   among them extends another.
   */
  lemma ServesOwnIffSeparate<S(!new), P(!new)>(sys: System<S, P>, store: S, t: real, cursors: iset<string>)
    requires Ends(sys)
    ensures (forall steps: seq<Step<S>>, q: Request ::
               Runs(sys, Start(store, t), steps) && AsksWith(steps, cursors) && CursorIn(q, cursors) ==>
                 ServesOwn(sys, store, t, steps, q))
       <==> Separate(cursors)
  {
    hide Runs, ServesOwn, AsksWith, CursorIn, Extends, Ends;
    forall steps: seq<Step<S>>, q: Request |
      Separate(cursors) && Runs(sys, Start(store, t), steps) && AsksWith(steps, cursors) && CursorIn(q, cursors)
      ensures ServesOwn(sys, store, t, steps, q)
    {
      SeparateServeOwn(sys, store, t, steps, q, cursors);
    }
    forall b, c | b in cursors && c in cursors && Extends(b, c)
      ensures exists steps: seq<Step<S>>, q: Request ::
        Runs(sys, Start(store, t), steps) && AsksWith(steps, cursors) && CursorIn(q, cursors)
        && !ServesOwn(sys, store, t, steps, q)
    {
      var steps, q := ExtendingServesOther(sys, store, t, b, c, cursors);
    }
  }

  lemma ExtendingServesOther<S(!new), P(!new)>(sys: System<S, P>, store: S, t: real, b: string, c: string, cursors: iset<string>)
    returns (steps: seq<Step<S>>, q: Request)
    requires b in cursors && c in cursors && Extends(b, c) && Ends(sys)
    ensures Runs(sys, Start(store, t), steps) && AsksWith(steps, cursors) && CursorIn(q, cursors)
    ensures !ServesOwn(sys, store, t, steps, q)
  {
    var one, two := Collision(sys.account, "c", b, c);
    steps := ReadIsServed(sys, store, t, Messages(one));
    q := Messages(two);
    hide Runs, Exec, Extends, PageKey, AsksWith, Ends;
  }

  // ---- Late sets ----

  /** Some part is of a store version below `v`. */
  ghost predicate Older<P>(f: Fill<P>, v: nat) {
    exists i :: 0 <= i < |f.parts| && f.parts[i].version < v
  }

  /** A read under way holds such a part and has not failed. */
  ghost predicate HoldsOlder<S, P>(sys: System<S, P>, f: Fill<P>, key: string, v: nat) {
    KeyOf(sys.account, f.request) == key && !Failed(f) && Older(f, v)
  }

  /** Nothing older than version `v` is cached, or being fetched, under the key. */
  ghost predicate NoneOlder<S, P>(sys: System<S, P>, s: State<S, P>, key: string, v: nat) {
    && v < |s.stores|
    && (key in s.slots ==> !Older(s.slots[key].value.fill, v))
    && forall r :: r in s.fills ==> !HoldsOlder(sys, s.fills[r], key, v)
  }

  lemma StepAddsNoneOlder<S, P>(sys: System<S, P>, s: State<S, P>, key: string, v: nat, step: Step<S>)
    requires NoneOlder(sys, s, key, v) && Enabled(sys, s, step)
    ensures NoneOlder(sys, Next(sys, s, step), key, v)
  {
    hide KeyOf;
    if step.Query? {
      var f := s.fills[step.reader];
      var g := Answered(sys, s, f, step.ok);
      assert forall i :: 0 <= i < |f.parts| ==> g.parts[i] == f.parts[i];
      assert g.parts[|f.parts|].version == |s.stores| - 1;
      assert !Older(f, v) ==> !Older(g, v);
      assert !HoldsOlder(sys, f, key, v);
    } else if step.SetEntry? {
      assert !HoldsOlder(sys, s.fills[step.reader], key, v);
    }
  }

  lemma {:induction false} RunAddsNoneOlder<S, P>(sys: System<S, P>, s: State<S, P>, key: string, v: nat, steps: seq<Step<S>>)
    requires NoneOlder(sys, s, key, v) && Runs(sys, s, steps)
    ensures NoneOlder(sys, Exec(sys, s, steps), key, v)
    decreases |steps|
  {
    hide NoneOlder, Next, Enabled;
    if steps != [] {
      StepAddsNoneOlder(sys, s, key, v, steps[0]);
      RunAddsNoneOlder(sys, Next(sys, s, steps[0]), key, v, steps[1..]);
    }
  }

  /** The run leaves something older than version `v` cached under the key. */
  ghost predicate LeavesOlder<S, P>(sys: System<S, P>, s: State<S, P>, key: string, v: nat, steps: seq<Step<S>>) {
    Runs(sys, s, steps)
    && key in Exec(sys, s, steps).slots && Older(Exec(sys, s, steps).slots[key].value.fill, v)
  }

  /**
   Once a key is cleared at store version `v`, some continuation caches an older answer under it
   if and only if a read of that key that has not failed already holds an answer older than `v`.
   */
  lemma OlderReturnsIff<S(!new), P(!new)>(sys: System<S, P>, s: State<S, P>, key: string, v: nat)
    requires Ends(sys) && v < |s.stores| && key !in s.slots
    ensures (exists steps :: LeavesOlder(sys, s, key, v, steps)) <==>
      exists r :: r in s.fills && HoldsOlder(sys, s.fills[r], key, v)
  {
    hide KeyOf, Older, Ends;
    if r :| r in s.fills && HoldsOlder(sys, s.fills[r], key, v) {
      var oks := CanBeCompleted(sys, s, s.fills[r]);
      FinishRuns(sys, s, r, oks);
      FilledIsOlder(sys, s, s.fills[r], oks, v);
      hide Runs, Exec, Filled, Finish;
      assert LeavesOlder(sys, s, key, v, Finish(r, oks));
    } else {
      assert NoneOlder(sys, s, key, v);
      hide NoneOlder;
      forall steps | Runs(sys, s, steps)
        ensures !LeavesOlder(sys, s, key, v, steps)
      {
        RunAddsNoneOlder(sys, s, key, v, steps);
        NoneOlderMeans(sys, Exec(sys, s, steps), key, v);
      }
    }
  }

  lemma NoneOlderMeans<S, P>(sys: System<S, P>, s: State<S, P>, key: string, v: nat)
    requires NoneOlder(sys, s, key, v)
    ensures key in s.slots ==> !Older(s.slots[key].value.fill, v)
  {
  }

  lemma FilledIsOlder<S, P>(sys: System<S, P>, s: State<S, P>, f: Fill<P>, oks: seq<bool>, v: nat)
    requires s.stores != [] && Older(f, v)
    ensures Older(Filled(sys, s, f, oks), v)
  {
    FilledKeeps(sys, s, f, oks);
    var i :| 0 <= i < |f.parts| && f.parts[i].version < v;
    hide Filled;
    assert Filled(sys, s, f, oks).parts[i] == f.parts[i];
  }

  // ---- Atomic operations ----

  /** What the account does, each as one uninterrupted sequence of steps. */
  datatype Action<S> =
    | Wait(elapsed: real)
    | Read(request: Request, oks: seq<bool>)
    | Heard(next: S)
    | Sent(next: S)
    | Synced(next: S)

  /** A hit changes nothing; a miss queries and sets; only history sync clears nothing. */
  function Steps<S, P>(sys: System<S, P>, s: State<S, P>, action: Action<S>): seq<Step<S>> {
    match action
    case Wait(elapsed) => [Tick(elapsed)]
    case Read(q, oks) => if Served(sys, s, q).Some? then [] else [Begin(0, q)] + Finish(0, oks)
    case Heard(next) =>
      var chats := {ChatsKey(sys.account)};
      [Insert(next), Delete(chats), Delete(Matching(s.slots - chats, sys.account))]
    case Sent(next) => [Insert(next), Delete({ChatsKey(sys.account)})]
    case Synced(next) => [Insert(next)]
  }

  /** `heard` and `handled` are the versions left by the last live, and live or sent, message. */
  datatype Tracked<S, P> = Tracked(state: State<S, P>, heard: nat, handled: nat)

  ghost predicate Acts<S, P>(sys: System<S, P>, t: Tracked<S, P>, actions: seq<Action<S>>)
    decreases |actions|
  {
    t.state.stores != [] && (actions != [] ==>
      && Runs(sys, t.state, Steps(sys, t.state, actions[0]))
      && Acts(sys, Track(sys, t, actions[0]), actions[1..]))
  }

  ghost function Track<S, P>(sys: System<S, P>, t: Tracked<S, P>, action: Action<S>): Tracked<S, P>
    requires Runs(sys, t.state, Steps(sys, t.state, action))
  {
    var after := Exec(sys, t.state, Steps(sys, t.state, action));
    match action
    case Heard(_) => Tracked(after, |t.state.stores|, |t.state.stores|)
    case Sent(_) => Tracked(after, t.heard, |t.state.stores|)
    case _ => t.(state := after)
  }

  ghost function Perform<S, P>(sys: System<S, P>, t: Tracked<S, P>, actions: seq<Action<S>>): Tracked<S, P>
    requires Acts(sys, t, actions)
    decreases |actions|
  {
    if actions == [] then t else Perform(sys, Track(sys, t, actions[0]), actions[1..])
  }

  /** No cached part is older than the last message handled for its key family. */
  ghost predicate FreshSlots<S, P>(s: State<S, P>, heard: nat, handled: nat) {
    forall k :: k in s.slots ==>
      var f := s.slots[k].value.fill;
      !Older(f, if f.request.ChatList? then handled else heard)
  }

  ghost predicate Fresh<S, P>(t: Tracked<S, P>) {
    t.state.fills == map[] && t.heard < |t.state.stores| && t.handled < |t.state.stores|
    && FreshSlots(t.state, t.heard, t.handled)
  }

  lemma ReadKeepsFresh<S, P>(sys: System<S, P>, s: State<S, P>, heard: nat, handled: nat, q: Request, oks: seq<bool>)
    requires s.fills == map[] && heard < |s.stores| && handled < |s.stores| && FreshSlots(s, heard, handled)
    requires Runs(sys, s, [Begin(0, q)] + Finish(0, oks))
    ensures var next := Exec(sys, s, [Begin(0, q)] + Finish(0, oks));
      next.fills == map[] && next.stores == s.stores && FreshSlots(next, heard, handled)
  {
    ExecNext(sys, s, Begin(0, q), Finish(0, oks));
    var began := Next(sys, s, Begin(0, q));
    FinishRuns(sys, began, 0, oks);
    FilledKeeps(sys, began, began.fills[0], oks);
    hide Runs, Exec, KeyOf, Filled, Finish;
  }

  /** Both clearings of a live message together leave the account nothing cached. */
  lemma HeardClearsAll<S, P>(sys: System<S, P>, s: State<S, P>)
    requires Honest(sys, s)
    ensures var chats := {ChatsKey(sys.account)};
      s.slots - chats - Matching(s.slots - chats, sys.account) == map[]
  {
    hide MatchesPattern, ChatsKey, PageKey, HonestFill, HonestLog;
    forall k | k in s.slots
      ensures k == ChatsKey(sys.account) || MatchesPattern(k, sys.account)
    {
      assert HonestSlot(sys, s, k, s.slots[k]);
      var q := s.slots[k].value.fill.request;
      if q.Messages? {
        OwnPagesMatch(sys.account, q.page);
      }
    }
  }

  lemma ActionKeepsFresh<S, P>(sys: System<S, P>, t: Tracked<S, P>, action: Action<S>)
    requires Honest(sys, t.state) && Fresh(t) && Runs(sys, t.state, Steps(sys, t.state, action))
    ensures Honest(sys, Track(sys, t, action).state) && Fresh(Track(sys, t, action))
    ensures |Track(sys, t, action).state.stores|
         == |t.state.stores| + (if action.Wait? || action.Read? then 0 else 1)
  {
    RunKeepsHonest(sys, t.state, Steps(sys, t.state, action));
    match action {
      case Read(q, oks) => ReadActionKeepsFresh(sys, t, q, oks);
      case Heard(next) => HeardActionKeepsFresh(sys, t, next);
      case _ => OtherActionKeepsFresh(sys, t, action);
    }
    hide *;
  }

  lemma ReadActionKeepsFresh<S, P>(sys: System<S, P>, t: Tracked<S, P>, q: Request, oks: seq<bool>)
    requires Fresh(t) && Runs(sys, t.state, Steps(sys, t.state, Read(q, oks)))
    ensures Fresh(Track(sys, t, Read(q, oks)))
    ensures |Track(sys, t, Read(q, oks)).state.stores| == |t.state.stores|
  {
    hide Next, KeyOf, FreshSlots, Finish;
    if Served(sys, t.state, q).None? {
      ReadKeepsFresh(sys, t.state, t.heard, t.handled, q, oks);
      hide Runs, Exec, Served;
    } else {
      ExecNone(sys, t.state);
    }
  }

  lemma HeardActionKeepsFresh<S, P>(sys: System<S, P>, t: Tracked<S, P>, next: S)
    requires Honest(sys, t.state) && Fresh(t) && Runs(sys, t.state, Steps(sys, t.state, Heard(next)))
    ensures Fresh(Track(sys, t, Heard(next)))
    ensures |Track(sys, t, Heard(next)).state.stores| == |t.state.stores| + 1
  {
    var s, chats := t.state, {ChatsKey(sys.account)};
    HeardClearsAll(sys, s);
    ExecThree(sys, s, Insert(next), Delete(chats), Delete(Matching(s.slots - chats, sys.account)));
    hide Honest, Matching, ChatsKey, Runs, Exec, Older;
  }

  lemma OtherActionKeepsFresh<S, P>(sys: System<S, P>, t: Tracked<S, P>, action: Action<S>)
    requires action.Wait? || action.Sent? || action.Synced?
    requires Honest(sys, t.state) && Fresh(t) && Runs(sys, t.state, Steps(sys, t.state, action))
    ensures Fresh(Track(sys, t, action))
    ensures |Track(sys, t, action).state.stores| == |t.state.stores| + (if action.Wait? then 0 else 1)
  {
    var s := t.state;
    hide Honest, KeyOf, ChatsKey, Older, Runs, Exec;
    match action {
      case Wait(elapsed) => ExecOne(sys, s, Tick(elapsed));
      case Sent(next) =>
        ExecTwo(sys, s, Insert(next), Delete({ChatsKey(sys.account)}));
        SentKeepsFresh(sys, s, t.heard, t.handled);
      case Synced(next) => ExecOne(sys, s, Insert(next));
    }
  }

  lemma SentKeepsFresh<S, P>(sys: System<S, P>, s: State<S, P>, heard: nat, handled: nat)
    requires Honest(sys, s) && FreshSlots(s, heard, handled)
    ensures FreshSlots(s.(slots := s.slots - {ChatsKey(sys.account)}), heard, |s.stores|)
  {
    hide PageKey, HonestFill, HonestLog, Older;
    forall k | k in s.slots && s.slots[k].value.fill.request.ChatList?
      ensures k == ChatsKey(sys.account)
    {
      assert HonestSlot(sys, s, k, s.slots[k]);
    }
  }

  lemma ExecOne<S, P>(sys: System<S, P>, s: State<S, P>, one: Step<S>)
    requires Runs(sys, s, [one])
    ensures Enabled(sys, s, one) && Exec(sys, s, [one]) == Next(sys, s, one)
  {
    hide Next, Enabled;
    assert [one][1..] == [];
  }

  lemma ExecTwo<S, P>(sys: System<S, P>, s: State<S, P>, one: Step<S>, two: Step<S>)
    requires Runs(sys, s, [one, two])
    ensures Enabled(sys, s, one) && var m := Next(sys, s, one);
      m.stores != [] && Enabled(sys, m, two) && Exec(sys, s, [one, two]) == Next(sys, m, two)
  {
    hide Next, Enabled;
    assert [one, two][1..] == [two];
    ExecOne(sys, Next(sys, s, one), two);
  }

  lemma ExecThree<S, P>(sys: System<S, P>, s: State<S, P>, one: Step<S>, two: Step<S>, three: Step<S>)
    requires Runs(sys, s, [one, two, three])
    ensures Enabled(sys, s, one) && var m := Next(sys, s, one);
      m.stores != [] && Enabled(sys, m, two) && var n := Next(sys, m, two);
      n.stores != [] && Enabled(sys, n, three) && Exec(sys, s, [one, two, three]) == Next(sys, n, three)
  {
    hide Next, Enabled;
    assert [one, two, three][1..] == [two, three];
    ExecTwo(sys, Next(sys, s, one), two, three);
  }

  lemma {:induction false} PerformKeepsFresh<S, P>(sys: System<S, P>, t: Tracked<S, P>, actions: seq<Action<S>>)
    requires Honest(sys, t.state) && Fresh(t) && Acts(sys, t, actions)
    ensures Honest(sys, Perform(sys, t, actions).state) && Fresh(Perform(sys, t, actions))
    ensures (forall a :: a in actions ==> !a.Synced?) && t.handled == |t.state.stores| - 1 ==>
      Perform(sys, t, actions).handled == |Perform(sys, t, actions).state.stores| - 1
    decreases |actions|
  {
    hide Honest, Fresh;
    if actions != [] {
      ActionKeepsFresh(sys, t, actions[0]);
      PerformKeepsFresh(sys, Track(sys, t, actions[0]), actions[1..]);
    }
  }

  /**
   With atomic operations no part of a cached chat list predates a message handled live or sent,
   and no part of a cached page one handled live. Without history sync a cached chat list is of
   the current version throughout.
   */
  lemma NeverPredatesHandled<S, P>(sys: System<S, P>, store: S, now: real, actions: seq<Action<S>>)
    requires Acts(sys, Tracked(Start(store, now), 0, 0), actions)
    ensures var r := Perform(sys, Tracked(Start(store, now), 0, 0), actions);
      forall k, i | k in r.state.slots && 0 <= i < |r.state.slots[k].value.fill.parts| ::
        var f := r.state.slots[k].value.fill;
        var p := f.parts[i];
        && k == KeyOf(sys.account, f.request)
        && (if f.request.ChatList? then r.handled else r.heard) <= p.version < |r.state.stores|
        && (p.answer.Some? ==> p.answer.value == sys.ask(r.state.stores[p.version], f.request, Answers(f)[..i]))
        && ((forall a :: a in actions ==> !a.Synced?) && f.request.ChatList? ==>
              p.version == |r.state.stores| - 1)
  {
    PerformKeepsFresh(sys, Tracked(Start(store, now), 0, 0), actions);
    var r := Perform(sys, Tracked(Start(store, now), 0, 0), actions);
    hide Acts, Perform, KeyOf, Answers, Complete;
    forall k, i | k in r.state.slots && 0 <= i < |r.state.slots[k].value.fill.parts|
      ensures HonestSlot(sys, r.state, k, r.state.slots[k])
      ensures var e := r.state.slots[k].value;
        HonestPart(sys, r.state, e.fill.request, Answers(e.fill)[..i], e.fill.parts[i], e.fill.askedAt, e.setAt)
      ensures var f := r.state.slots[k].value.fill;
        (if f.request.ChatList? then r.handled else r.heard) <= f.parts[i].version
    {
      assert HonestSlot(sys, r.state, k, r.state.slots[k]);
      var f := r.state.slots[k].value.fill;
      assert !Older(f, if f.request.ChatList? then r.handled else r.heard);
    }
  }

  // ---- What interleaving can do ----

  /**
   A read that has queried before a message is inserted and both key families are cleared, and
   queries again and sets after, leaves an answer that mixes the two versions; one that made all
   its queries before leaves an outdated one.
   */
  lemma {:induction false} LateSetPredates<S(!new), P(!new)>(sys: System<S, P>, store: S, next: S, now: real,
                                                           q: Request, k: nat)
    returns (steps: seq<Step<S>>)
    requires Ends(sys) && 1 <= k && forall i :: 0 <= i < k ==> !sys.done(q, Uncached(sys, store, q, i))
    ensures Runs(sys, Start(store, now), steps)
    ensures var s := Exec(sys, Start(store, now), steps);
      && s.stores == [store, next] && Served(sys, s, q).Some?
      && var parts := Served(sys, s, q).value.fill.parts;
         && k <= |parts| && (!sys.done(q, Uncached(sys, store, q, k)) ==> k < |parts|)
         && forall i :: 0 <= i < |parts| ==> parts[i].version == if i < k then 0 else 1
  {
    hide Runs, Exec, Filled, Finish, Queries, ChatsKey, PageKey, Ends, Suffices, Uncached, Matching, Failed, Answers;
    var s: State<S, P> := Start(store, now);
    var a := Next(sys, s, Begin(0, q));
    AllLacked(sys, a, q, k);
    var f := Filled(sys, a, a.fills[0], AllOk(k));
    var b := a.(fills := a.fills[0 := f]);
    var chats: Step<S>, pages: Step<S> := Delete({ChatsKey(sys.account)}), Delete(Matching(s.slots, sys.account));
    var c := Next(sys, b, Insert(next));
    var d := Next(sys, Next(sys, c, chats), pages);
    assert c.slots == map[] && d.slots == map[];
    var oks := CanBeCompleted(sys, d, f);
    var late := Finish<S>(0, oks);
    var clear := [Insert(next)] + ([chats] + ([pages] + late));
    QueriesRun(sys, a, 0, k, clear);
    FilledKeeps(sys, a, a.fills[0], AllOk(k));
    FinishRuns(sys, d, 0, oks);
    FilledKeeps(sys, d, f, oks);
    steps := [Begin(0, q)] + (Queries(0, k) + clear);
    ExecNext(sys, s, Begin(0, q), Queries(0, k) + clear);
    ExecNext(sys, b, Insert(next), [chats] + ([pages] + late));
    ExecNext(sys, c, chats, [pages] + late);
    ExecNext(sys, Next(sys, c, chats), pages, late);
  }

  function AllOk(n: nat): (oks: seq<bool>)
    ensures |oks| == n
  {
    seq(n, _ => true)
  }

  function Queries<S>(r: nat, k: nat): seq<Step<S>> {
    if k == 0 then [] else [Query(r, true)] + Queries(r, k - 1)
  }

  /** The read lacks each of its next `k` queries. */
  predicate LacksAll<S, P>(sys: System<S, P>, s: State<S, P>, f: Fill<P>, k: nat)
    requires s.stores != []
    decreases k
  {
    k == 0 || (Lacks(sys, f) && LacksAll(sys, s, Answered(sys, s, f, true), k - 1))
  }

  /** On a store that does not change a read gets the uncached answers. */
  lemma {:induction false} LacksFrom<S, P>(sys: System<S, P>, s: State<S, P>, f: Fill<P>, n: nat, k: nat)
    requires s.stores != [] && |f.parts| == n && (n > 0 ==> f.parts[0].answer.Some?)
    requires var store := s.stores[|s.stores| - 1];
      && Answers(f) == Uncached(sys, store, f.request, n)
      && forall i :: n <= i < n + k ==> !sys.done(f.request, Uncached(sys, store, f.request, i))
    ensures LacksAll(sys, s, f, k)
    ensures var g := Filled(sys, s, f, AllOk(k));
      Answers(g) == Uncached(sys, s.stores[|s.stores| - 1], f.request, n + k) && !Failed(g)
    decreases k
  {
    if k > 0 {
      var g := Answered(sys, s, f, true);
      assert Answers(g) == Answers(f) + [g.parts[n].answer];
      assert AllOk(k)[1..] == AllOk(k - 1);
      hide Answers;
      LacksFrom(sys, s, g, n + 1, k - 1);
    }
  }

  lemma AllLacked<S, P>(sys: System<S, P>, s: State<S, P>, q: Request, k: nat)
    requires |s.stores| == 1 && 0 in s.fills && s.fills[0].request == q && s.fills[0].parts == []
    requires forall i :: 0 <= i < k ==> !sys.done(q, Uncached(sys, s.stores[0], q, i))
    ensures LacksAll(sys, s, s.fills[0], k)
    ensures var g := Filled(sys, s, s.fills[0], AllOk(k));
      !Failed(g) && (!sys.done(q, Uncached(sys, s.stores[0], q, k)) ==> Lacks(sys, g))
  {
    LacksFrom(sys, s, s.fills[0], 0, k);
    FilledKeeps(sys, s, s.fills[0], AllOk(k));
    hide Filled, LacksAll, Uncached;
  }

  /** After `k` queries of a read the run goes on from the state that holds their answers. */
  lemma {:induction false} QueriesRun<S, P>(sys: System<S, P>, s: State<S, P>, r: nat, k: nat, rest: seq<Step<S>>)
    requires s.stores != [] && r in s.fills && LacksAll(sys, s, s.fills[r], k)
    ensures var after := s.(fills := s.fills[r := Filled(sys, s, s.fills[r], AllOk(k))]);
      && (Runs(sys, s, Queries(r, k) + rest) <==> Runs(sys, after, rest))
      && (Runs(sys, s, Queries(r, k) + rest) ==> Exec(sys, s, Queries(r, k) + rest) == Exec(sys, after, rest))
    decreases k
  {
    hide Runs, Exec, Lacks;
    if k == 0 {
      assert AllOk(0) == [] && Queries<S>(r, 0) + rest == rest;
      assert s.fills[r := s.fills[r]] == s.fills;
    } else {
      var next := Next(sys, s, Query(r, true));
      assert AllOk(k)[1..] == AllOk(k - 1);
      assert Queries(r, k) + rest == [Query(r, true)] + (Queries(r, k - 1) + rest);
      ExecNext(sys, s, Query(r, true), Queries(r, k - 1) + rest);
      SameLacks(sys, s, next, next.fills[r], k - 1);
      QueriesRun(sys, next, r, k - 1, rest);
      SameAnswers(sys, s, next, next.fills[r], AllOk(k - 1));
      assert next.fills[r := Filled(sys, next, next.fills[r], AllOk(k - 1))]
          == s.fills[r := Filled(sys, s, s.fills[r], AllOk(k))];
    }
  }

  lemma {:induction false} SameLacks<S, P>(sys: System<S, P>, s: State<S, P>, t: State<S, P>, f: Fill<P>, k: nat)
    requires s.stores == t.stores && s.stores != [] && s.now == t.now
    ensures LacksAll(sys, s, f, k) == LacksAll(sys, t, f, k)
    decreases k
  {
    if k > 0 {
      SameLacks(sys, s, t, Answered(sys, s, f, true), k - 1);
    }
  }
}
