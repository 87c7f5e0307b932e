/**
 The opt-in cache in front of `ListMessages` and `ListChats`: the store itself
 (internal/cache/cache.go:39-127), the read-through path and the two clearings
 (internal/service/account.go:1417-1423, 1483-1485, 1508-1514, 1689-1691, 1733-1739,
 1881-1883), and every interleaving of readers, inserts, clearings and time. The store and
 the interleavings share their keys (`CacheKeys`) and their operations.
 */
module ReadCache {
  import opened Text
  import opened CacheKeys

  // ---- The store ----

  datatype Slot<V> = Slot(value: V, expires: real)

  type Slots<V> = map<string, Slot<V>>

  function Lookup<V>(slots: Slots<V>, key: string, now: real): Option<V> {
    if key in slots && now < slots[key].expires then Some(slots[key].value) else None
  }

  function Put<V>(slots: Slots<V>, key: string, value: V, ttl: real, now: real): Slots<V> {
    slots[key := Slot(value, now + ttl)]
  }

  function Matching<V>(slots: Slots<V>, account: string): set<string> {
    set k | k in slots && MatchesPattern(k, account)
  }

  class Cache<V> {
    const enabled: bool
    var slots: Slots<V>

    constructor (enabled: bool)
      ensures this.enabled == enabled && slots == map[]
    {
      this.enabled := enabled;
      slots := map[];
    }

    function Hit(key: string, now: real): Option<V>
      reads this
    {
      if enabled then Lookup(slots, key, now) else None
    }

    method GetJSON(key: string, now: real) returns (r: Option<V>)
      ensures r == Hit(key, now)
      ensures r.Some? <==> enabled && key in slots && now < slots[key].expires
    {
      if !enabled {
        return None;
      }
      if key in slots && now < slots[key].expires {
        return Some(slots[key].value);
      }
      return None;
    }

    method SetJSON(key: string, value: V, ttl: real, now: real)
      modifies this
      ensures slots == if enabled then Put(old(slots), key, value, ttl, now) else old(slots)
    {
      if enabled {
        slots := slots[key := Slot(value, now + ttl)];
      }
    }

    method Del(keys: set<string>)
      modifies this
      ensures slots == if enabled then old(slots) - keys else old(slots)
    {
      if enabled && keys != {} {
        slots := slots - keys;
      }
    }

    /** `Keys("msgs:ID:*")`. */
    method Keys(account: string) returns (keys: set<string>)
      ensures keys == if enabled then Matching(slots, account) else {}
    {
      if !enabled {
        return {};
      }
      return set k | k in slots && MatchesPattern(k, account);
    }

    /**
     The read-through path. `answered` is what the database answers from `askedAt` on and is
     stored at `setAt`; a hit at `askedAt` is returned as it stands.
     */
    method Read(key: string, ttl: real, answered: V, askedAt: real, setAt: real) returns (r: V)
      modifies this
      ensures r == if old(Hit(key, askedAt)).Some? then old(Hit(key, askedAt)).value else answered
      ensures slots == if enabled && old(Hit(key, askedAt)).None?
                       then Put(old(slots), key, answered, ttl, setAt) else old(slots)
    {
      var cached := GetJSON(key, askedAt);
      if cached.Some? {
        return cached.value;
      }
      SetJSON(key, answered, ttl, setAt);
      return answered;
    }

    /** After a live message: both key families of the account go, and nothing else. */
    method ClearAfterLive(account: string)
      modifies this
      ensures slots == if enabled then old(slots) - {ChatsKey(account)} - Matching(old(slots), account) else old(slots)
      ensures enabled ==>
        ChatsKey(account) !in slots && forall p: Page :: PageKey(account, p) !in slots
      ensures ':' !in account ==> forall other, p: Page ::
        ':' !in other && other != account && PageKey(other, p) in old(slots) ==> PageKey(other, p) in slots
    {
      Del({ChatsKey(account)});
      var keys := Keys(account);
      Del(keys);
      hide MessagesKey, MatchesPattern, ChatsKey, PageKey;
      forall p: Page
        ensures MatchesPattern(PageKey(account, p), account)
      {
        OwnPagesMatch(account, p);
      }
      if ':' !in account {
        forall other, p: Page | ':' !in other && other != account
          ensures !MatchesPattern(PageKey(other, p), account)
          ensures PageKey(other, p) != ChatsKey(account)
        {
          OtherPagesStay(account, other, p);
        }
      }
    }

    /** After a sent message: only the chat list goes. */
    method ClearAfterSent(account: string)
      modifies this
      ensures slots == if enabled then old(slots) - {ChatsKey(account)} else old(slots)
    {
      Del({ChatsKey(account)});
    }
  }

  lemma OwnPagesMatch(account: string, p: Page)
    ensures MatchesPattern(PageKey(account, p), account)
    ensures PageKey(account, p) != ChatsKey(account)
  {
    KeyParts(account, p.chat, p.limit, p.before);
    assert PageKey(account, p)[0] == 'm' && ChatsKey(account)[0] == 'c';
    hide MessagesKey, Tail, Decimal;
    var prefix := "msgs:" + account + ":";
    assert (prefix + Tail(p.chat, p.limit, p.before))[..|prefix|] == prefix;
  }

  lemma OtherPagesStay(account: string, other: string, p: Page)
    requires ':' !in account && ':' !in other && other != account
    ensures !MatchesPattern(PageKey(other, p), account)
    ensures PageKey(other, p) != ChatsKey(account)
  {
    PatternIsOneAccount(account, other, p.chat, p.limit, p.before);
    PatternIsOneAccount(other, other, p.chat, p.limit, p.before);
    PatternIsOneAccount(other, account, p.chat, p.limit, p.before);
    hide MessagesKey, MatchesPattern, ChatsKey;
  }

  // ---- Interleavings ----

  /** One account's cached reads. */
  datatype Request = ChatList | Messages(page: AskedPage)

  function KeyOf(account: string, q: Request): string {
    match q
    case ChatList => ChatsKey(account)
    case Messages(p) => PageKey(account, p)
  }

  function Ttl(q: Request): real {
    if q.ChatList? then 8.0 else 5.0
  }

  /**
   One account in front of a changing store. A read asks the store one question after the other:
   a query for each alias of a chat, or for the summaries, groups, contacts and settings of the
   chat list. `ask` is what the store answers next, given the answers so far, with `None` for a
   failed query; `done` says whether they suffice, which after `most` of them they do.
   */
  datatype System<!S, !P> = System(
    account: string,
    ask: (S, Request, seq<Option<P>>) -> P,
    done: (Request, seq<Option<P>>) -> bool,
    most: Request -> nat)

  ghost predicate Ends<S(!new), P(!new)>(sys: System<S, P>) {
    forall q, answers :: sys.most(q) <= |answers| ==> sys.done(q, answers)
  }

  /** One answer, with the version of the store that gave it, and when. */
  datatype Part<P> = Part(answer: Option<P>, version: nat, at: real)

  /** A read after its miss at `askedAt`, with the answers so far. */
  datatype Fill<P> = Fill(request: Request, askedAt: real, parts: seq<Part<P>>)

  datatype Entry<P> = Entry(fill: Fill<P>, setAt: real)

  function Answers<P>(f: Fill<P>): (answers: seq<Option<P>>)
    ensures |answers| == |f.parts|
  {
    seq(|f.parts|, i requires 0 <= i < |f.parts| => f.parts[i].answer)
  }

  /** `ListMessages` returns an error when its first query fails; later failures are passed over. */
  predicate Failed<P>(f: Fill<P>) {
    f.request.Messages? && f.parts != [] && f.parts[0].answer.None?
  }

  /** `stores` logs every store state so far, the last being current; `since` when each began. */
  datatype State<S, P> = State(
    now: real, stores: seq<S>, since: seq<real>, slots: Slots<Entry<P>>, fills: map<nat, Fill<P>>)

  datatype Step<S> =
    | Tick(elapsed: real)
    | Begin(reader: nat, request: Request)
    | Query(reader: nat, ok: bool)
    | SetEntry(reader: nat)
    | GiveUp(reader: nat)
    | Insert(next: S)
    | Delete(keys: set<string>)

  predicate Complete<S, P>(sys: System<S, P>, f: Fill<P>) {
    !Failed(f) && sys.done(f.request, Answers(f))
  }

  predicate Lacks<S, P>(sys: System<S, P>, f: Fill<P>) {
    !Failed(f) && !sys.done(f.request, Answers(f))
  }

  predicate Enabled<S, P>(sys: System<S, P>, s: State<S, P>, step: Step<S>) {
    match step
    case Tick(elapsed) => 0.0 <= elapsed
    case Begin(r, _) => r !in s.fills
    case Query(r, _) => r in s.fills && Lacks(sys, s.fills[r])
    case SetEntry(r) => r in s.fills && Complete(sys, s.fills[r])
    case GiveUp(r) => r in s.fills
    case _ => true
  }

  /** What the store answers next, at its current version. */
  function Answered<S, P>(sys: System<S, P>, s: State<S, P>, f: Fill<P>, ok: bool): Fill<P>
    requires s.stores != []
  {
    var version := |s.stores| - 1;
    var answer := if ok then Some(sys.ask(s.stores[version], f.request, Answers(f))) else None;
    f.(parts := f.parts + [Part(answer, version, s.now)])
  }

  function Next<S, P>(sys: System<S, P>, s: State<S, P>, step: Step<S>): State<S, P>
    requires s.stores != [] && Enabled(sys, s, step)
  {
    match step
    case Tick(elapsed) => s.(now := s.now + elapsed)
    case Begin(r, q) => s.(fills := s.fills[r := Fill(q, s.now, [])])
    case Query(r, ok) => s.(fills := s.fills[r := Answered(sys, s, s.fills[r], ok)])
    case SetEntry(r) =>
      var f := s.fills[r];
      s.(slots := Put(s.slots, KeyOf(sys.account, f.request), Entry(f, s.now), Ttl(f.request), s.now),
         fills := s.fills - {r})
    case GiveUp(r) => s.(fills := s.fills - {r})
    case Insert(next) => s.(stores := s.stores + [next], since := s.since + [s.now])
    case Delete(keys) => s.(slots := s.slots - keys)
  }

  function Start<S, P>(store: S, now: real): State<S, P> {
    State(now, [store], [now], map[], map[])
  }

  ghost predicate Runs<S, P>(sys: System<S, P>, s: State<S, P>, steps: seq<Step<S>>)
    decreases |steps|
  {
    s.stores != [] && (steps != [] ==>
      Enabled(sys, s, steps[0]) && Runs(sys, Next(sys, s, steps[0]), steps[1..]))
  }

  ghost function Exec<S, P>(sys: System<S, P>, s: State<S, P>, steps: seq<Step<S>>): State<S, P>
    requires Runs(sys, s, steps)
    decreases |steps|
  {
    if steps == [] then s else Exec(sys, Next(sys, s, steps[0]), steps[1..])
  }

  lemma ExecNone<S, P>(sys: System<S, P>, s: State<S, P>)
    requires s.stores != []
    ensures Runs(sys, s, []) && Exec(sys, s, []) == s
  {
  }

  lemma ExecNext<S, P>(sys: System<S, P>, s: State<S, P>, step: Step<S>, rest: seq<Step<S>>)
    requires s.stores != [] && Enabled(sys, s, step)
    ensures Runs(sys, s, [step] + rest) <==> Runs(sys, Next(sys, s, step), rest)
    ensures Runs(sys, s, [step] + rest) ==> Exec(sys, s, [step] + rest) == Exec(sys, Next(sys, s, step), rest)
  {
    assert ([step] + rest)[1..] == rest;
    hide Next, Enabled;
  }

  // ---- What every interleaving keeps ----

  /** Store version `v` was the current one at time `t`. */
  ghost predicate CurrentAt<S, P>(s: State<S, P>, v: nat, t: real) {
    v < |s.since| && s.since[v] <= t <= s.now && (v + 1 < |s.since| ==> t <= s.since[v + 1])
  }

  ghost predicate HonestLog<S, P>(s: State<S, P>) {
    |s.stores| == |s.since| > 0 && forall v :: 0 <= v < |s.since| ==> s.since[v] <= s.now
  }

  /** The part is what the store answered next, between two times, at a version then current. */
  ghost predicate HonestPart<S, P>(sys: System<S, P>, s: State<S, P>, q: Request, sofar: seq<Option<P>>, p: Part<P>,
                                   from: real, to: real)
    requires HonestLog(s)
  {
    CurrentAt(s, p.version, p.at) && from <= p.at <= to
    && (p.answer.Some? ==> p.answer.value == sys.ask(s.stores[p.version], q, sofar))
  }

  ghost predicate HonestFill<S, P>(sys: System<S, P>, s: State<S, P>, f: Fill<P>, to: real)
    requires HonestLog(s)
  {
    && f.askedAt <= to <= s.now
    && forall i :: 0 <= i < |f.parts| ==>
         HonestPart(sys, s, f.request, Answers(f)[..i], f.parts[i], f.askedAt, to)
  }

  ghost predicate HonestSlot<S, P>(sys: System<S, P>, s: State<S, P>, key: string, slot: Slot<Entry<P>>)
    requires HonestLog(s)
  {
    var e := slot.value;
    && key == KeyOf(sys.account, e.fill.request) && Complete(sys, e.fill)
    && HonestFill(sys, s, e.fill, e.setAt) && slot.expires == e.setAt + Ttl(e.fill.request)
  }

  ghost predicate Honest<S, P>(sys: System<S, P>, s: State<S, P>) {
    && HonestLog(s)
    && (forall r :: r in s.fills ==> HonestFill(sys, s, s.fills[r], s.now))
    && (forall k :: k in s.slots ==> HonestSlot(sys, s, k, s.slots[k]))
  }

  /** What was honest stays so: the log only grows at its end. */
  lemma LogStaysHonest<S, P>(sys: System<S, P>, s: State<S, P>, step: Step<S>)
    requires HonestLog(s) && Enabled(sys, s, step)
    ensures HonestLog(Next(sys, s, step)) && s.now <= Next(sys, s, step).now
    ensures forall q, sofar, p, from, to :: HonestPart(sys, s, q, sofar, p, from, to) ==>
              HonestPart(sys, Next(sys, s, step), q, sofar, p, from, to)
  {
    hide KeyOf, Put, Answered, Complete, Lacks;
  }

  lemma FillStaysHonest<S, P>(sys: System<S, P>, s: State<S, P>, step: Step<S>, f: Fill<P>, to: real)
    requires HonestLog(s) && Enabled(sys, s, step) && HonestFill(sys, s, f, to)
    ensures HonestLog(Next(sys, s, step)) && HonestFill(sys, Next(sys, s, step), f, to)
    ensures to == s.now ==> HonestFill(sys, Next(sys, s, step), f, Next(sys, s, step).now)
  {
    LogStaysHonest(sys, s, step);
    var next := Next(sys, s, step);
    hide Next, Enabled, HonestLog, Answers;
    forall i | 0 <= i < |f.parts|
      ensures HonestPart(sys, next, f.request, Answers(f)[..i], f.parts[i], f.askedAt, to)
    {
      assert HonestPart(sys, s, f.request, Answers(f)[..i], f.parts[i], f.askedAt, to);
    }
  }

  lemma QueryIsHonest<S, P>(sys: System<S, P>, s: State<S, P>, f: Fill<P>, ok: bool)
    requires HonestLog(s) && HonestFill(sys, s, f, s.now)
    ensures HonestFill(sys, s, Answered(sys, s, f, ok), s.now)
  {
    var g := Answered(sys, s, f, ok);
    forall i | 0 <= i < |g.parts|
      ensures HonestPart(sys, s, g.request, Answers(g)[..i], g.parts[i], g.askedAt, s.now)
    {
      assert Answers(g)[..i] == Answers(f)[..i];
      if i < |f.parts| {
        assert HonestPart(sys, s, f.request, Answers(f)[..i], f.parts[i], f.askedAt, s.now);
      } else {
        assert Answers(f)[..i] == Answers(f);
      }
    }
  }

  lemma {:induction false} StepKeepsHonest<S, P>(sys: System<S, P>, s: State<S, P>, step: Step<S>)
    requires Honest(sys, s) && Enabled(sys, s, step)
    ensures Honest(sys, Next(sys, s, step))
  {
    var next := Next(sys, s, step);
    LogStaysHonest(sys, s, step);
    hide HonestLog, HonestPart, KeyOf, Lacks, Complete, Answers;
    forall r | r in next.fills
      ensures HonestFill(sys, next, next.fills[r], next.now)
    {
      if r in s.fills {
        assert HonestFill(sys, s, s.fills[r], s.now);
        if step.Query? && step.reader == r {
          QueryIsHonest(sys, s, s.fills[r], step.ok);
        }
        FillStaysHonest(sys, s, step, if step.Query? && step.reader == r then next.fills[r] else s.fills[r], s.now);
      }
    }
    forall k | k in next.slots
      ensures HonestSlot(sys, next, k, next.slots[k])
    {
      if k in s.slots && next.slots[k] == s.slots[k] {
        assert HonestSlot(sys, s, k, s.slots[k]);
        FillStaysHonest(sys, s, step, s.slots[k].value.fill, s.slots[k].value.setAt);
      } else {
        var f := s.fills[step.reader];
        FillStaysHonest(sys, s, step, f, s.now);
      }
    }
  }

  lemma {:induction false} RunKeepsHonest<S, P>(sys: System<S, P>, s: State<S, P>, steps: seq<Step<S>>)
    requires Honest(sys, s) && Runs(sys, s, steps)
    ensures Honest(sys, Exec(sys, s, steps))
    decreases |steps|
  {
    hide Honest, Enabled, Next;
    if steps != [] {
      StepKeepsHonest(sys, s, steps[0]);
      RunKeepsHonest(sys, Next(sys, s, steps[0]), steps[1..]);
    }
  }

  /** What a read of `q` is answered from the cache. */
  function Served<S, P>(sys: System<S, P>, s: State<S, P>, q: Request): Option<Entry<P>> {
    Lookup(s.slots, KeyOf(sys.account, q), s.now)
  }

  /**
   Bounded staleness, under any interleaving: what a read is served was filled for a request of
   the same key, is complete, and each part of it is what a store state answered that was current
   between the fill's miss and its set, less than the TTL plus that gap ago.
   */
  lemma {:induction false} BoundedStaleness<S, P>(sys: System<S, P>, store: S, t: real, steps: seq<Step<S>>, q: Request)
    requires Runs(sys, Start(store, t), steps) && Served(sys, Exec(sys, Start(store, t), steps), q).Some?
    ensures var s := Exec(sys, Start(store, t), steps);
      var e := Served(sys, s, q).value;
      var asked := e.fill.request;
      && KeyOf(sys.account, asked) == KeyOf(sys.account, q) && asked.ChatList? == q.ChatList?
      && Complete(sys, e.fill)
      && s.now - e.fill.askedAt < (if q.ChatList? then 8.0 else 5.0) + (e.setAt - e.fill.askedAt)
      && forall i :: 0 <= i < |e.fill.parts| ==> var p := e.fill.parts[i];
           && e.fill.askedAt <= p.at <= e.setAt && p.version < |s.stores| && CurrentAt(s, p.version, p.at)
           && (p.answer.Some? ==>
                 p.answer.value == sys.ask(s.stores[p.version], asked, Answers(e.fill)[..i]))
  {
    RunKeepsHonest(sys, Start(store, t), steps);
    var s := Exec(sys, Start(store, t), steps);
    var key := KeyOf(sys.account, q);
    assert HonestSlot(sys, s, key, s.slots[key]);
    KeysTellKinds(sys.account, q, s.slots[key].value.fill.request);
    hide Runs, Exec, KeyOf, Complete, Answers;
    var f := s.slots[key].value.fill;
    assert forall i :: 0 <= i < |f.parts| ==>
      HonestPart(sys, s, f.request, Answers(f)[..i], f.parts[i], f.askedAt, s.slots[key].value.setAt);
  }

  lemma KeysTellKinds(account: string, q: Request, asked: Request)
    requires KeyOf(account, q) == KeyOf(account, asked)
    ensures q.ChatList? <==> asked.ChatList?
  {
    assert KeyOf(account, q)[0] == if q.ChatList? then 'c' else 'm' by {
      if q.Messages? {
        KeyParts(account, q.page.chat, q.page.limit, q.page.before);
      }
    }
    assert KeyOf(account, asked)[0] == if asked.ChatList? then 'c' else 'm' by {
      if asked.Messages? {
        KeyParts(account, asked.page.chat, asked.page.limit, asked.page.before);
      }
    }
  }

  // ---- When an answer is one store state's ----

  /** The first `n` answers of an uncached read on a store that does not change and does not fail. */
  ghost function Uncached<S, P>(sys: System<S, P>, store: S, q: Request, n: nat): (answers: seq<Option<P>>)
    ensures |answers| == n
  {
    if n == 0 then []
    else
      var sofar := Uncached(sys, store, q, n - 1);
      sofar + [Some(sys.ask(store, q, sofar))]
  }

  ghost predicate OfVersion<P>(f: Fill<P>, v: nat) {
    forall i :: 0 <= i < |f.parts| ==> f.parts[i].version == v
  }

  ghost predicate OneVersion<P>(f: Fill<P>) {
    exists v :: OfVersion(f, v)
  }

  /** Of parts of one version, none failed, the whole is what an uncached read of that store state gets. */
  lemma {:induction false} OneVersionIsUncached<S, P>(sys: System<S, P>, s: State<S, P>, f: Fill<P>, to: real, v: nat, n: nat)
    requires HonestLog(s) && HonestFill(sys, s, f, to) && v < |s.stores| && n <= |f.parts|
    requires OfVersion(f, v) && forall i :: 0 <= i < |f.parts| ==> f.parts[i].answer.Some?
    ensures Answers(f)[..n] == Uncached(sys, s.stores[v], f.request, n)
  {
    if n > 0 {
      OneVersionIsUncached(sys, s, f, to, v, n - 1);
      assert HonestPart(sys, s, f.request, Answers(f)[..n - 1], f.parts[n - 1], f.askedAt, to);
      assert Answers(f)[..n] == Answers(f)[..n - 1] + [f.parts[n - 1].answer];
    }
  }

  predicate Stays<S>(step: Step<S>, r: nat) {
    !(step.SetEntry? && step.reader == r) && !(step.GiveUp? && step.reader == r)
  }

  /** Reader `r` goes on with its read, up to a query of its own. */
  ghost predicate ReadsOn<S>(steps: seq<Step<S>>, r: nat) {
    && (forall i :: 0 <= i < |steps| ==> Stays(steps[i], r))
    && (steps != [] ==> steps[|steps| - 1].Query? && steps[|steps| - 1].reader == r)
  }

  ghost predicate NoInsert<S>(steps: seq<Step<S>>) {
    forall i :: 0 <= i < |steps| ==> !steps[i].Insert?
  }

  lemma {:induction false} ReadAdvances<S, P>(sys: System<S, P>, s: State<S, P>, steps: seq<Step<S>>, r: nat)
    requires Runs(sys, s, steps) && r in s.fills && ReadsOn(steps, r)
    ensures var t := Exec(sys, s, steps);
      && r in t.fills && |s.stores| <= |t.stores| && s.stores == t.stores[..|s.stores|]
      && t.fills[r].request == s.fills[r].request && |s.fills[r].parts| <= |t.fills[r].parts|
      && t.fills[r].parts[..|s.fills[r].parts|] == s.fills[r].parts
      && (NoInsert(steps) <==> |t.stores| == |s.stores|)
      && (NoInsert(steps) ==> forall i :: |s.fills[r].parts| <= i < |t.fills[r].parts| ==>
            t.fills[r].parts[i].version == |s.stores| - 1)
      && (steps != [] ==>
            |s.fills[r].parts| < |t.fills[r].parts|
            && t.fills[r].parts[|t.fills[r].parts| - 1].version == |t.stores| - 1)
    decreases |steps|
  {
    if steps != [] {
      var step, rest := steps[0], steps[1..];
      var next := Next(sys, s, step);
      assert Stays(step, r);
      OneStepOfARead(sys, s, step, r);
      assert NoInsert(steps) <==> !step.Insert? && NoInsert(rest) by {
        assert forall i :: 0 < i < |steps| ==> steps[i] == rest[i - 1];
      }
      hide Next, Enabled, NoInsert;
      ReadAdvances(sys, next, rest, r);
    }
  }

  lemma OneStepOfARead<S, P>(sys: System<S, P>, s: State<S, P>, step: Step<S>, r: nat)
    requires s.stores != [] && Enabled(sys, s, step) && r in s.fills && Stays(step, r)
    ensures var t := Next(sys, s, step);
      && r in t.fills && t.stores == s.stores + (if step.Insert? then [step.next] else [])
      && t.fills[r].request == s.fills[r].request
      && t.fills[r].parts[..|s.fills[r].parts|] == s.fills[r].parts
      && |t.fills[r].parts| == |s.fills[r].parts| + (if step.Query? && step.reader == r then 1 else 0)
      && (step.Query? && step.reader == r ==> t.fills[r].parts[|s.fills[r].parts|].version == |s.stores| - 1)
  {
    hide KeyOf, Put, Lacks, Complete;
  }

  /**
   From just after its first query to its last, a read's parts are of one version if and only if
   the store does not change in between.
   */
  lemma {:induction false} OneVersionIff<S, P>(sys: System<S, P>, s: State<S, P>, steps: seq<Step<S>>, r: nat)
    requires Runs(sys, s, steps) && r in s.fills && ReadsOn(steps, r)
    requires |s.fills[r].parts| == 1 && s.fills[r].parts[0].version == |s.stores| - 1
    ensures r in Exec(sys, s, steps).fills
    ensures OneVersion(Exec(sys, s, steps).fills[r]) <==> NoInsert(steps)
  {
    ReadAdvances(sys, s, steps, r);
    var t := Exec(sys, s, steps);
    var f := t.fills[r];
    hide Runs, Exec, NoInsert, ReadsOn;
    assert f.parts[0] == f.parts[..1][0] == s.fills[r].parts[0];
    if NoInsert(steps) {
      assert OfVersion(f, |s.stores| - 1);
    } else if steps != [] {
      var last := |f.parts| - 1;
      assert f.parts[last].version != f.parts[0].version;
    }
  }

  /** The rest of the run before the set is without steps of reader `r`. */
  ghost predicate Idle<S>(steps: seq<Step<S>>, r: nat) {
    forall i :: 0 <= i < |steps| ==> Stays(steps[i], r) && !(steps[i].Query? && steps[i].reader == r)
  }

  lemma {:induction false} IdleKeepsRead<S, P>(sys: System<S, P>, s: State<S, P>, steps: seq<Step<S>>, r: nat)
    requires Runs(sys, s, steps) && r in s.fills && Idle(steps, r)
    ensures r in Exec(sys, s, steps).fills && Exec(sys, s, steps).fills[r] == s.fills[r]
    decreases |steps|
  {
    hide KeyOf, Put, Answered, Lacks, Complete;
    if steps != [] {
      IdleKeepsRead(sys, Next(sys, s, steps[0]), steps[1..], r);
    }
  }

  /**
   So what a read caches is of one version if and only if the store did not change between its
   first and its last query; and then, if no query failed, it is the uncached answer of the store
   state it first asked.
   */
  lemma {:induction false} CachedIsOneVersionIff<S, P>(sys: System<S, P>, s: State<S, P>, steps: seq<Step<S>>,
                                                       idle: seq<Step<S>>, r: nat)
    requires Honest(sys, s) && Runs(sys, s, steps) && r in s.fills && ReadsOn(steps, r)
    requires |s.fills[r].parts| == 1 && s.fills[r].parts[0].version == |s.stores| - 1
    requires Runs(sys, Exec(sys, s, steps), idle) && Idle(idle, r)
    requires var t := Exec(sys, Exec(sys, s, steps), idle); t.stores != [] && Enabled(sys, t, SetEntry(r))
    ensures var t := Next(sys, Exec(sys, Exec(sys, s, steps), idle), SetEntry(r));
      var key := KeyOf(sys.account, s.fills[r].request);
      && key in t.slots
      && var f := t.slots[key].value.fill;
         && f.request == s.fills[r].request && (OneVersion(f) <==> NoInsert(steps))
         && (NoInsert(steps) && (forall i :: 0 <= i < |f.parts| ==> f.parts[i].answer.Some?) ==>
               Answers(f) == Uncached(sys, s.stores[|s.stores| - 1], f.request, |f.parts|)
               && sys.done(f.request, Answers(f)))
  {
    OneVersionIff(sys, s, steps, r);
    ReadAdvances(sys, s, steps, r);
    RunKeepsHonest(sys, s, steps);
    var m := Exec(sys, s, steps);
    IdleKeepsRead(sys, m, idle, r);
    hide Runs, Exec, KeyOf, ReadsOn, Idle;
    var f := m.fills[r];
    assert HonestFill(sys, m, f, m.now);
    if NoInsert(steps) && forall i :: 0 <= i < |f.parts| ==> f.parts[i].answer.Some? {
      hide NoInsert;
      assert f.parts[..1][0] == f.parts[0];
      assert OfVersion(f, |s.stores| - 1);
      OneVersionIsUncached(sys, m, f, m.now, |s.stores| - 1, |f.parts|);
      assert Answers(f)[..|f.parts|] == Answers(f);
    }
  }

  /** A read of one query, such as a page of a chat without alias, is always one store state's answer. */
  lemma {:induction false} SingleQueryIsUncached<S, P>(sys: System<S, P>, store: S, t: real, steps: seq<Step<S>>, q: Request)
    requires Runs(sys, Start(store, t), steps) && Served(sys, Exec(sys, Start(store, t), steps), q).Some?
    requires var f := Served(sys, Exec(sys, Start(store, t), steps), q).value.fill;
      |f.parts| == 1 && f.parts[0].answer.Some?
    ensures var s := Exec(sys, Start(store, t), steps);
      var e := Served(sys, s, q).value;
      exists v: nat, at :: v < |s.stores| && CurrentAt(s, v, at) && e.fill.askedAt <= at <= e.setAt
        && Answers(e.fill) == Uncached(sys, s.stores[v], e.fill.request, 1)
  {
    BoundedStaleness(sys, store, t, steps, q);
    var s := Exec(sys, Start(store, t), steps);
    var f := Served(sys, s, q).value.fill;
    hide Runs, Exec, KeyOf, Complete;
    var v := f.parts[0].version;
    assert CurrentAt(s, v, f.parts[0].at);
    assert Answers(f)[..0] == [];
    assert Uncached(sys, s.stores[v], f.request, 0) == [];
    assert Answers(f) == [] + [Some(sys.ask(s.stores[v], f.request, []))];
  }
}
