/**
 The assistant's turn: the tool-calling loop over the model's replies and the history kept
 between turns (internal/agent/agent.go:106-172, 229-259).
 */
module AgentLoop {

  const MAX_ROUNDS: nat := 10
  const MAX_KEPT: nat := 40

  datatype Role = System | User | Assistant | Tool | Other(name: string)

  datatype ToolCall = ToolCall(id: string, name: string, arguments: string)

  datatype Message = Message(role: Role, content: string, toolCallID: string, name: string, calls: seq<ToolCall>)

  function Plain(role: Role, content: string): Message {
    Message(role, content, "", "", [])
  }

  datatype Reply = Failed | Said(message: Message)

  /**
   Everything a turn meets from outside: what the language model answers to the `i`-th call, what
   the `k`-th tool call of round `i` returns (an execution error is returned as text too), and
   whether the session can be read and written. `prompt` is the fixed default system prompt, whose
   wording plays no part.
   */
  datatype Turn = Turn(prompt: string, userMessage: string, reply: nat -> Reply,
                       result: (nat, nat) -> string, loadFails: bool, saveFails: bool)

  /** A message list put before the model, by a plain or by a streaming call. */
  datatype Request = Chat(messages: seq<Message>) | Stream(messages: seq<Message>)

  datatype Outcome = Answered | ModelFailed | TooManyRounds

  // ---- What a turn sends and keeps ----

  predicate CallsTools(reply: Reply) {
    reply.Said? && reply.message.calls != []
  }

  /** How many replies in a row, from the `i`-th on, ask for tools; never past the limit. */
  function Rounds(turn: Turn, i: nat): (k: nat)
    requires i <= MAX_ROUNDS
    ensures i <= k <= MAX_ROUNDS
    ensures forall j :: i <= j < k ==> CallsTools(turn.reply(j))
    ensures k < MAX_ROUNDS ==> !CallsTools(turn.reply(k))
    decreases MAX_ROUNDS - i
  {
    if i == MAX_ROUNDS || !CallsTools(turn.reply(i)) then i else Rounds(turn, i + 1)
  }

  function ToolResult(turn: Turn, i: nat, call: ToolCall, k: nat): Message {
    Message(Tool, turn.result(i, k), call.id, call.name, [])
  }

  function ToolResults(turn: Turn, i: nat, calls: seq<ToolCall>): seq<Message> {
    seq(|calls|, k requires 0 <= k < |calls| => ToolResult(turn, i, calls[k], k))
  }

  /** What the first `n` rounds append: each reply followed by the results of its calls. */
  function Transcript(turn: Turn, n: nat): seq<Message>
    requires n <= Rounds(turn, 0)
  {
    if n == 0 then []
    else
      assert CallsTools(turn.reply(n - 1));
      var reply := turn.reply(n - 1).message;
      Transcript(turn, n - 1) + [reply] + ToolResults(turn, n - 1, reply.calls)
  }

  function Loaded(session: seq<Message>, turn: Turn): seq<Message> {
    if turn.loadFails then [] else session
  }

  /** The list the turn starts from. */
  function Base(session: seq<Message>, turn: Turn): seq<Message> {
    var loaded := Loaded(session, turn);
    (if loaded == [] || loaded[0].role != System then [Plain(System, turn.prompt)] + loaded else loaded)
    + [Plain(User, turn.userMessage)]
  }

  function History(session: seq<Message>, turn: Turn, n: nat): seq<Message>
    requires n <= Rounds(turn, 0)
  {
    Base(session, turn) + Transcript(turn, n)
  }

  /** The first `n` lists of the loop. */
  function ChatRequests(session: seq<Message>, turn: Turn, n: nat): seq<Request>
    requires n <= Rounds(turn, 0) + 1
  {
    seq(n, i requires 0 <= i < n => Chat(History(session, turn, i)))
  }

  predicate Completes(turn: Turn) {
    Rounds(turn, 0) < MAX_ROUNDS && turn.reply(Rounds(turn, 0)).Said?
  }

  function FinalReply(turn: Turn): Message
    requires Completes(turn)
  {
    turn.reply(Rounds(turn, 0)).message
  }

  function Requests(session: seq<Message>, turn: Turn): seq<Request> {
    var k := Rounds(turn, 0);
    ChatRequests(session, turn, if k < MAX_ROUNDS then k + 1 else k)
    + if Completes(turn) && FinalReply(turn).content == ""
      then [Stream(History(session, turn, k) + [FinalReply(turn)])]
      else []
  }

  predicate IsShown(m: Message) {
    m.role != System && m.role != Tool && (m.role == Assistant ==> m.content != "")
  }

  /** What of a history is kept: no system or tool messages, no empty answers, no tool calls. */
  function Shown(history: seq<Message>): seq<Message> {
    if history == [] then []
    else
      var m := history[|history| - 1];
      Shown(history[..|history| - 1]) + if IsShown(m) then [Plain(m.role, m.content)] else []
  }

  function Closing(final: Message): seq<Message> {
    if final.content == "" then [] else [Plain(Assistant, final.content)]
  }

  function Newest(messages: seq<Message>): seq<Message> {
    if |messages| > MAX_KEPT then messages[|messages| - MAX_KEPT..] else messages
  }

  predicate Saves(turn: Turn) {
    Completes(turn) && !turn.saveFails
  }

  /** The stored session after the turn. */
  function NextSession(session: seq<Message>, turn: Turn): seq<Message> {
    if Saves(turn)
    then Newest(Shown(History(session, turn, Rounds(turn, 0))) + Closing(FinalReply(turn)))
    else session
  }

  // ---- The loops ----

  class Agent {
    var sessions: map<string, seq<Message>>
    ghost var sent: seq<Request>

    constructor ()
      ensures sessions == map[] && sent == []
    {
      sessions := map[];
      sent := [];
    }

    /** The stored history; a user without one has an empty history. */
    function Session(userID: string): seq<Message>
      reads this
    {
      SessionOf(sessions, userID)
    }

    method RunChat(userID: string, turn: Turn) returns (outcome: Outcome)
      modifies this
      ensures sent == old(sent) + Requests(old(Session(userID)), turn)
      ensures sessions == if Saves(turn) then old(sessions)[userID := NextSession(old(Session(userID)), turn)]
                          else old(sessions)
      ensures outcome == Answered <==> Completes(turn)
      ensures outcome == TooManyRounds <==> Rounds(turn, 0) == MAX_ROUNDS
    {
      ghost var session := Session(userID);
      ghost var before := sent;
      var history := if turn.loadFails then [] else Session(userID);
      if |history| == 0 || history[0].role != System {
        history := [Plain(System, turn.prompt)] + history;
      }
      history := history + [Plain(User, turn.userMessage)];
      StartOfTurn(session, turn, before);
      hide Rounds, Base, History, ChatRequests, Transcript, ToolResults, Requests, Completes, Saves, FinalReply, NextSession, Shown, Newest, Closing;
      var i := 0;
      while i < MAX_ROUNDS
        invariant 0 <= i <= MAX_ROUNDS
        invariant i <= Rounds(turn, 0)
        invariant history == History(session, turn, i)
        invariant sent == before + ChatRequests(session, turn, i)
        invariant sessions == old(sessions)
      {
        sent := sent + [Chat(history)];
        OneMoreRequest(session, turn, before, i);
        OneMoreReply(turn, i);
        var reply := turn.reply(i);
        if reply.Failed? {
          TurnFails(session, turn, i);
          return ModelFailed;
        }
        var msg := reply.message;
        if |msg.calls| == 0 {
          TurnAnswers(session, turn, before, i);
          StreamFinal(history, msg);
          SaveHistory(userID, history, msg, turn.saveFails);
          return Answered;
        }
        history := ExecuteTools(history + [msg], turn, i, msg.calls);
        OneMoreRound(session, turn, i);
        i := i + 1;
      }
      TurnRunsOut(session, turn);
      return TooManyRounds;
    }

    method ExecuteTools(asked: seq<Message>, turn: Turn, i: nat, calls: seq<ToolCall>) returns (history: seq<Message>)
      ensures history == asked + ToolResults(turn, i, calls)
    {
      history := asked;
      var k := 0;
      while k < |calls|
        invariant 0 <= k <= |calls|
        invariant history == asked + ToolResults(turn, i, calls)[..k]
      {
        history := history + [ToolResult(turn, i, calls[k], k)];
        k := k + 1;
      }
    }

    /** Text already received is sent on in chunks; an empty answer is asked for again as a stream. */
    method StreamFinal(history: seq<Message>, final: Message)
      modifies this`sent
      ensures sent == old(sent) + if final.content == "" then [Stream(history + [final])] else []
    {
      if final.content == "" {
        sent := sent + [Stream(history + [final])];
      }
    }

    method SaveHistory(userID: string, history: seq<Message>, final: Message, saveFails: bool)
      modifies this`sessions
      ensures sessions == if saveFails then old(sessions)
                          else old(sessions)[userID := Newest(Shown(history) + Closing(final))]
    {
      var persist := [];
      var i := 0;
      while i < |history|
        invariant 0 <= i <= |history|
        invariant persist == Shown(history[..i])
      {
        var m := history[i];
        assert history[..i + 1][..i] == history[..i];
        if m.role != System && m.role != Tool && !(m.role == Assistant && m.content == "") {
          persist := persist + [Plain(m.role, m.content)];
        }
        i := i + 1;
      }
      assert history[..i] == history;
      if final.content != "" {
        persist := persist + [Plain(Assistant, final.content)];
      }
      assert persist == Shown(history) + Closing(final);
      if |persist| > MAX_KEPT {
        persist := persist[|persist| - MAX_KEPT..];
      }
      if !saveFails {
        sessions := sessions[userID := persist];
      }
    }
  }

  lemma StartOfTurn(session: seq<Message>, turn: Turn, before: seq<Request>)
    ensures History(session, turn, 0) == Base(session, turn)
    ensures before + ChatRequests(session, turn, 0) == before
  {
    assert ChatRequests(session, turn, 0) == [];
  }

  lemma OneMoreReply(turn: Turn, i: nat)
    requires i < MAX_ROUNDS && i <= Rounds(turn, 0)
    ensures CallsTools(turn.reply(i)) ==> i < Rounds(turn, 0)
    ensures !CallsTools(turn.reply(i)) ==> i == Rounds(turn, 0)
  {
    assert i < Rounds(turn, 0) ==> CallsTools(turn.reply(i));
  }

  lemma TurnFails(session: seq<Message>, turn: Turn, i: nat)
    requires i == Rounds(turn, 0) < MAX_ROUNDS && turn.reply(i).Failed?
    ensures !Completes(turn) && !Saves(turn)
    ensures Requests(session, turn) == ChatRequests(session, turn, i + 1)
  {
    hide Rounds, History;
  }

  lemma TurnAnswers(session: seq<Message>, turn: Turn, before: seq<Request>, i: nat)
    requires i == Rounds(turn, 0) < MAX_ROUNDS && turn.reply(i).Said?
    ensures Completes(turn) && Saves(turn) == !turn.saveFails
    ensures var final := turn.reply(i).message;
            before + Requests(session, turn)
              == before + ChatRequests(session, turn, i + 1)
                 + (if final.content == "" then [Stream(History(session, turn, i) + [final])] else [])
            && (Saves(turn) ==>
                  NextSession(session, turn) == Newest(Shown(History(session, turn, i)) + Closing(final)))
  {
    hide Rounds, History, Newest, Shown, Closing, ChatRequests;
  }

  lemma TurnRunsOut(session: seq<Message>, turn: Turn)
    requires Rounds(turn, 0) == MAX_ROUNDS
    ensures !Completes(turn) && !Saves(turn)
    ensures Requests(session, turn) == ChatRequests(session, turn, MAX_ROUNDS)
  {
    hide Rounds, History;
  }

  lemma OneMoreRequest(session: seq<Message>, turn: Turn, before: seq<Request>, i: nat)
    requires i <= Rounds(turn, 0)
    ensures before + ChatRequests(session, turn, i) + [Chat(History(session, turn, i))]
         == before + ChatRequests(session, turn, i + 1)
  {
    hide Transcript, Rounds;
  }

  lemma OneMoreRound(session: seq<Message>, turn: Turn, i: nat)
    requires i < Rounds(turn, 0)
    ensures var msg := turn.reply(i).message;
            History(session, turn, i) + [msg] + ToolResults(turn, i, msg.calls) == History(session, turn, i + 1)
  {
  }

  // ---- What the model is sent ----

  predicate OneSystem(messages: seq<Message>) {
    messages != [] && messages[0].role == System
    && forall i :: 1 <= i < |messages| ==> messages[i].role != System
  }

  predicate NoSystem(messages: seq<Message>) {
    forall i :: 0 <= i < |messages| ==> messages[i].role != System
  }

  predicate IsAnswerTo(m: Message, call: ToolCall) {
    m.role == Tool && m.toolCallID == call.id && m.name == call.name && m.calls == []
  }

  /** The calls of the `i`-th message are answered at once, one result each, in order. */
  predicate AnsweredAt(messages: seq<Message>, i: nat)
    requires i < |messages|
  {
    i + |messages[i].calls| < |messages|
    && forall k :: 0 <= k < |messages[i].calls| ==> IsAnswerTo(messages[i + 1 + k], messages[i].calls[k])
  }

  predicate AllAnswered(messages: seq<Message>) {
    forall i :: 0 <= i < |messages| && messages[i].calls != [] ==> AnsweredAt(messages, i)
  }

  /** The `j`-th message is among the answers to the calls of an earlier one. */
  predicate HasCall(messages: seq<Message>, j: nat)
    requires j < |messages|
  {
    exists i :: 0 <= i < j && j - i <= |messages[i].calls|
  }

  predicate NoOrphans(messages: seq<Message>) {
    forall j :: 0 <= j < |messages| && messages[j].role == Tool ==> HasCall(messages, j)
  }

  ghost predicate AssistantReplies(turn: Turn) {
    forall j: nat :: turn.reply(j).Said? ==> turn.reply(j).message.role == Assistant
  }

  /** What every stored session is, whatever the model replies. */
  predicate Kept(session: seq<Message>) {
    |session| <= MAX_KEPT
    && forall i :: 0 <= i < |session| ==> IsShown(session[i]) && session[i] == Plain(session[i].role, session[i].content)
  }

  predicate TurnKeepsOneSystem(turn: Turn, n: nat)
    requires n <= Rounds(turn, 0)
  {
    forall j :: 0 <= j < n ==> turn.reply(j).message.role != System
  }

  lemma {:induction false} TranscriptSystems(turn: Turn, n: nat)
    requires n <= Rounds(turn, 0)
    ensures NoSystem(Transcript(turn, n)) <==> TurnKeepsOneSystem(turn, n)
  {
    hide Rounds;
    if n > 0 {
      TranscriptSystems(turn, n - 1);
      var old_, reply := Transcript(turn, n - 1), turn.reply(n - 1).message;
      var t := Transcript(turn, n);
      assert forall i :: 0 <= i < |old_| ==> t[i] == old_[i];
      assert t[|old_|] == reply;
      assert forall i :: |old_| < i < |t| ==> t[i].role == Tool;
    }
  }

  lemma BaseOfKept(session: seq<Message>, turn: Turn)
    requires Kept(session)
    ensures Base(session, turn) == [Plain(System, turn.prompt)] + Loaded(session, turn) + [Plain(User, turn.userMessage)]
    ensures Kept(Loaded(session, turn)) && OneSystem(Base(session, turn))
  {
    if session != [] {
      assert IsShown(session[0]);
    }
  }

  lemma OneSystemAppend(base: seq<Message>, t: seq<Message>)
    requires OneSystem(base)
    ensures OneSystem(base + t) <==> NoSystem(t)
  {
    assert forall i :: 0 <= i < |base| ==> (base + t)[i] == base[i];
    assert forall i :: 0 <= i < |t| ==> (base + t)[|base| + i] == t[i];
  }

  /**
   Exactly one system message, at index 0, exactly as long as no earlier reply that asked for
   tools claimed the system role.
   */
  lemma OneSystemIffNoReplyClaimsIt(session: seq<Message>, turn: Turn, n: nat)
    requires Kept(session) && n <= Rounds(turn, 0)
    ensures OneSystem(History(session, turn, n)) <==> TurnKeepsOneSystem(turn, n)
  {
    TranscriptSystems(turn, n);
    BaseOfKept(session, turn);
    OneSystemAppend(Base(session, turn), Transcript(turn, n));
    hide Rounds, Transcript, TurnKeepsOneSystem, Base, OneSystem, NoSystem;
  }

  /** How many replies some list of the loop sends back to the model. */
  function SentBack(turn: Turn): nat {
    if Rounds(turn, 0) < MAX_ROUNDS then Rounds(turn, 0) else MAX_ROUNDS - 1
  }

  /** The streamed list ends on a final reply that claims the system role. */
  predicate StreamsSystem(turn: Turn) {
    Completes(turn) && FinalReply(turn).content == "" && FinalReply(turn).role == System
  }

  /**
   Every list a turn sends, streamed or not, has exactly one system message, at index 0, if and
   only if no reply sent back claimed the system role: none of the tool-calling replies that a
   later list repeats, and not an empty final one.
   */
  lemma OneSystemThroughoutIff(session: seq<Message>, turn: Turn)
    requires Kept(session)
    ensures (forall r :: r in Requests(session, turn) ==> OneSystem(r.messages))
       <==> TurnKeepsOneSystem(turn, SentBack(turn)) && !StreamsSystem(turn)
  {
    hide Rounds, Kept, OneSystem, TurnKeepsOneSystem, History;
    var all, n, k := Requests(session, turn), SentBack(turn), Rounds(turn, 0);
    forall i: nat | i <= n
      ensures OneSystem(History(session, turn, i)) <==> TurnKeepsOneSystem(turn, i)
      ensures TurnKeepsOneSystem(turn, n) ==> TurnKeepsOneSystem(turn, i)
    {
      OneSystemIffNoReplyClaimsIt(session, turn, i);
      EarlierKeepsOneSystem(turn, i, n);
    }
    assert all[n] == Chat(History(session, turn, n));
    if Completes(turn) && FinalReply(turn).content == "" {
      var streamed := History(session, turn, k) + [FinalReply(turn)];
      assert all[|all| - 1] == Stream(streamed);
      FinalAddsSystem(History(session, turn, k), FinalReply(turn));
    }
    RequestKinds(session, turn);
    hide Requests, ChatRequests;
  }

  /** Such turns exist: an empty first reply with the system role is streamed back as a second system message. */
  lemma {:induction false} EmptySystemReplyIsStreamed(session: seq<Message>, turn: Turn)
    requires Kept(session) && turn.reply(0) == Said(Plain(System, ""))
    ensures exists r :: r in Requests(session, turn) && r.Stream? && !OneSystem(r.messages)
  {
    assert Rounds(turn, 0) == 0 && FinalReply(turn) == Plain(System, "");
    OneSystemIffNoReplyClaimsIt(session, turn, 0);
    FinalAddsSystem(History(session, turn, 0), FinalReply(turn));
    hide Rounds, Kept, OneSystem, History;
    var streamed := Stream(History(session, turn, 0) + [FinalReply(turn)]);
    assert Requests(session, turn)[|Requests(session, turn)| - 1] == streamed;
  }

  lemma EarlierKeepsOneSystem(turn: Turn, i: nat, n: nat)
    requires i <= n <= Rounds(turn, 0)
    ensures TurnKeepsOneSystem(turn, n) ==> TurnKeepsOneSystem(turn, i)
  {
    hide Rounds;
  }

  lemma FinalAddsSystem(messages: seq<Message>, final: Message)
    ensures OneSystem(messages) ==> (OneSystem(messages + [final]) <==> final.role != System)
  {
    if OneSystem(messages) {
      OneSystemAppend(messages, [final]);
      assert NoSystem([final]) <==> [final][0].role != System;
      hide OneSystem;
    }
  }

  /** A list sent is one of the loop's or the streamed one. */
  lemma RequestKinds(session: seq<Message>, turn: Turn)
    ensures forall r :: r in Requests(session, turn) <==>
      || (exists i: nat :: i <= SentBack(turn) && r == Chat(History(session, turn, i)))
      || (Completes(turn) && FinalReply(turn).content == ""
          && r == Stream(History(session, turn, Rounds(turn, 0)) + [FinalReply(turn)]))
  {
    hide Rounds, History;
    var n := SentBack(turn) + 1;
    var chats := ChatRequests(session, turn, n);
    assert forall i :: 0 <= i < n ==> chats[i] == Chat(History(session, turn, i));
    assert forall r :: r in chats <==> exists i :: 0 <= i < |chats| && chats[i] == r;
  }

  lemma AnsweredAppend(messages: seq<Message>, rest: seq<Message>, j: nat)
    requires j < |messages| && AnsweredAt(messages, j)
    ensures AnsweredAt(messages + rest, j)
  {
  }

  lemma AnsweredNext(messages: seq<Message>, reply: Message, results: seq<Message>)
    requires |results| == |reply.calls|
    requires forall k :: 0 <= k < |results| ==> IsAnswerTo(results[k], reply.calls[k])
    ensures AnsweredAt(messages + ([reply] + results), |messages|)
  {
    var all, n := messages + ([reply] + results), |messages|;
    assert forall k :: 0 <= k < |results| ==> all[n + 1 + k] == results[k];
  }

  /** Appending a reply and exactly its results answers its calls and disturbs no others. */
  lemma RoundIsAnswered(messages: seq<Message>, reply: Message, results: seq<Message>)
    requires AllAnswered(messages) && |results| == |reply.calls|
    requires forall k :: 0 <= k < |results| ==> IsAnswerTo(results[k], reply.calls[k])
    ensures AllAnswered(messages + [reply] + results)
  {
    var all := messages + ([reply] + results);
    assert messages + [reply] + results == all;
    AnsweredNext(messages, reply, results);
    assert forall k :: 0 <= k < |results| ==> results[k].calls == [];
    hide AnsweredAt, IsAnswerTo;
    forall j | 0 <= j < |all| && all[j].calls != []
      ensures AnsweredAt(all, j)
    {
      CallsAreNotInResults(messages, reply, results, j);
      if j < |messages| {
        AnsweredAppend(messages, [reply] + results, j);
      }
    }
  }

  lemma CallsAreNotInResults(messages: seq<Message>, reply: Message, results: seq<Message>, j: nat)
    requires forall k :: 0 <= k < |results| ==> results[k].calls == []
    requires j < |messages + ([reply] + results)| && (messages + ([reply] + results))[j].calls != []
    ensures j <= |messages|
    ensures j < |messages| ==> messages[j].calls != []
  {
  }

  lemma RoundHasNoOrphans(messages: seq<Message>, reply: Message, results: seq<Message>)
    requires NoOrphans(messages) && reply.role != Tool && |results| == |reply.calls|
    ensures NoOrphans(messages + [reply] + results)
  {
    var all := messages + [reply] + results;
    var n := |messages|;
    forall j | 0 <= j < |all| && all[j].role == Tool
      ensures HasCall(all, j)
    {
      if j < n {
        assert HasCall(messages, j);
        var c :| 0 <= c < j && j - c <= |messages[c].calls|;
        assert all[c] == messages[c];
      } else {
        assert all[n] == reply;
        assert j - n <= |all[n].calls|;
      }
    }
  }

  lemma {:induction false} HistoryIsAnswered(session: seq<Message>, turn: Turn, n: nat)
    requires Kept(session) && AssistantReplies(turn) && n <= Rounds(turn, 0)
    ensures AllAnswered(History(session, turn, n)) && NoOrphans(History(session, turn, n))
  {
    hide Rounds;
    if n > 0 {
      HistoryIsAnswered(session, turn, n - 1);
      OneMoreRound(session, turn, n - 1);
      hide Transcript, History;
      var reply := turn.reply(n - 1).message;
      RoundIsAnswered(History(session, turn, n - 1), reply, ToolResults(turn, n - 1, reply.calls));
      RoundHasNoOrphans(History(session, turn, n - 1), reply, ToolResults(turn, n - 1, reply.calls));
    }
  }

  /** Where round `i` stands in a history. */
  function RoundStart(session: seq<Message>, turn: Turn, i: nat): nat
    requires i <= Rounds(turn, 0)
  {
    |Base(session, turn)| + |Transcript(turn, i)|
  }

  /** Round `i` stands at `p`: the reply, then for each call its ID, its name and what the tool returned. */
  predicate RoundAt(messages: seq<Message>, p: nat, turn: Turn, i: nat)
    requires turn.reply(i).Said?
  {
    var reply := turn.reply(i).message;
    p + |reply.calls| < |messages| && messages[p] == reply
    && forall k :: 0 <= k < |reply.calls| ==>
         messages[p + 1 + k] == Message(Tool, turn.result(i, k), reply.calls[k].id, reply.calls[k].name, [])
  }

  /** What a round adds to the history. */
  function Block(turn: Turn, i: nat): seq<Message>
    requires turn.reply(i).Said?
  {
    [turn.reply(i).message] + ToolResults(turn, i, turn.reply(i).message.calls)
  }

  lemma HistoryGrows(session: seq<Message>, turn: Turn, i: nat)
    requires i < Rounds(turn, 0)
    ensures turn.reply(i).Said?
    ensures History(session, turn, i + 1) == History(session, turn, i) + Block(turn, i)
    ensures |History(session, turn, i)| == RoundStart(session, turn, i)
  {
    assert CallsTools(turn.reply(i));
    hide Rounds, Transcript, Base, ToolResults;
    OneMoreRound(session, turn, i);
  }

  /** Every past round stands unchanged in the history. */
  lemma {:induction false} RoundInHistory(session: seq<Message>, turn: Turn, i: nat, n: nat)
    requires i < n <= Rounds(turn, 0) && turn.reply(i).Said?
    ensures RoundAt(History(session, turn, n), RoundStart(session, turn, i), turn, i)
    decreases n
  {
    hide *;
    HistoryGrows(session, turn, n - 1);
    if i < n - 1 {
      RoundInHistory(session, turn, i, n - 1);
      RoundAtAppend(History(session, turn, n - 1), Block(turn, n - 1), RoundStart(session, turn, i), turn, i);
    } else {
      RoundAtEnd(History(session, turn, i), turn, i);
    }
  }

  lemma RoundAtAppend(messages: seq<Message>, rest: seq<Message>, p: nat, turn: Turn, i: nat)
    requires turn.reply(i).Said? && RoundAt(messages, p, turn, i)
    ensures RoundAt(messages + rest, p, turn, i)
  {
  }

  lemma RoundAtEnd(messages: seq<Message>, turn: Turn, i: nat)
    requires turn.reply(i).Said?
    ensures RoundAt(messages + Block(turn, i), |messages|, turn, i)
  {
    var block, reply := Block(turn, i), turn.reply(i).message;
    var results := ToolResults(turn, i, reply.calls);
    assert block[0] == reply && |block| == 1 + |reply.calls|;
    forall k | 0 <= k < |reply.calls|
      ensures block[1 + k] == Message(Tool, turn.result(i, k), reply.calls[k].id, reply.calls[k].name, [])
    {
      assert block[1 + k] == results[k];
    }
    hide Block, ToolResults;
    assert forall j :: 0 <= j < |block| ==> (messages + block)[|messages| + j] == block[j];
  }

  predicate SoundRequest(messages: seq<Message>) {
    OneSystem(messages) && AllAnswered(messages) && NoOrphans(messages)
  }

  /**
   Given assistant-role replies, every list a turn sends has one system message, at the front,
   and every tool-calling message in it is followed at once by exactly its results; the loop
   calls the model at most ten times.
   */
  lemma RequestsAreSound(session: seq<Message>, turn: Turn)
    requires Kept(session) && AssistantReplies(turn)
    ensures forall r :: r in Requests(session, turn) ==> SoundRequest(r.messages)
    ensures 1 <= |Requests(session, turn)| <= MAX_ROUNDS + 1
    ensures forall i :: MAX_ROUNDS <= i < |Requests(session, turn)| ==> Requests(session, turn)[i].Stream?
  {
    hide Rounds, History, Kept, SoundRequest, AssistantReplies;
    var k := Rounds(turn, 0);
    forall n: nat | n <= k
      ensures SoundRequest(History(session, turn, n))
    {
      HistoryIsSound(session, turn, n);
    }
    FinalIsSound(session, turn);
  }

  lemma HistoryIsSound(session: seq<Message>, turn: Turn, n: nat)
    requires Kept(session) && AssistantReplies(turn) && n <= Rounds(turn, 0)
    ensures SoundRequest(History(session, turn, n))
  {
    OneSystemIffNoReplyClaimsIt(session, turn, n);
    HistoryIsAnswered(session, turn, n);
    hide Rounds, History, Kept, OneSystem, AllAnswered, NoOrphans;
    assert forall j :: 0 <= j < n ==> CallsTools(turn.reply(j));
  }

  lemma FinalIsSound(session: seq<Message>, turn: Turn)
    requires Kept(session) && AssistantReplies(turn)
    ensures Completes(turn) ==> SoundRequest(History(session, turn, Rounds(turn, 0)) + [FinalReply(turn)])
  {
    HistoryIsSound(session, turn, Rounds(turn, 0));
    hide Rounds, History, Kept, SoundRequest;
    if Completes(turn) {
      PlainReplyIsSound(History(session, turn, Rounds(turn, 0)), FinalReply(turn));
    }
  }

  lemma PlainReplyIsSound(messages: seq<Message>, final: Message)
    requires SoundRequest(messages) && final.calls == [] && final.role == Assistant
    ensures SoundRequest(messages + [final])
  {
    var all := messages + [final];
    assert forall j :: 0 <= j < |messages| ==> all[j] == messages[j];
    forall j | 0 <= j < |all| && all[j].calls != []
      ensures AnsweredAt(all, j)
    {
      assert AnsweredAt(messages, j);
    }
    forall j | 0 <= j < |all| && all[j].role == Tool
      ensures HasCall(all, j)
    {
      assert HasCall(messages, j);
    }
  }

  // ---- What is kept between turns ----

  lemma {:induction false} ShownIsKept(history: seq<Message>)
    ensures forall i :: 0 <= i < |Shown(history)| ==>
              IsShown(Shown(history)[i])
              && Shown(history)[i] == Plain(Shown(history)[i].role, Shown(history)[i].content)
  {
    if history != [] {
      ShownIsKept(history[..|history| - 1]);
    }
  }

  lemma {:induction false} ShownAppend(a: seq<Message>, b: seq<Message>)
    ensures Shown(a + b) == Shown(a) + Shown(b)
  {
    if b == [] {
      assert a + b == a;
    } else {
      var front := b[..|b| - 1];
      ShownAppend(a, front);
      assert (a + b)[..|a + b| - 1] == a + front;
    }
  }

  /** Filtering what was kept changes nothing. */
  lemma {:induction false} KeptIsShown(session: seq<Message>)
    requires Kept(session)
    ensures Shown(session) == session
  {
    if session != [] {
      var front, last := session[..|session| - 1], session[|session| - 1];
      assert IsShown(last) && last == Plain(last.role, last.content);
      hide IsShown, Plain;
      KeptIsShown(front);
      assert session == front + [last];
    }
  }

  /** Every stored session is at most forty plain messages, none of them a system or tool message. */
  lemma NextIsKept(session: seq<Message>, turn: Turn)
    requires Kept(session)
    ensures Kept(NextSession(session, turn))
  {
    if Saves(turn) {
      ShownIsKept(History(session, turn, Rounds(turn, 0)));
    }
  }

  /** What a completed turn says: the user's message, and every answer with text. */
  function Spoken(turn: Turn): seq<Message>
    requires Completes(turn)
  {
    Shown([Plain(User, turn.userMessage)] + Transcript(turn, Rounds(turn, 0))) + Closing(FinalReply(turn))
  }

  lemma NewestAppend(a: seq<Message>, b: seq<Message>)
    ensures Newest(Newest(a) + b) == Newest(a + b)
  {
  }

  lemma NewestAppendSpoken(log: seq<Message>, turn: Turn)
    requires Saves(turn)
    ensures Newest(Newest(log) + Spoken(turn)) == Newest(log + Spoken(turn))
  {
    NewestAppend(log, Spoken(turn));
  }

  lemma ShownHistory(turn: Turn, loaded: seq<Message>, said: seq<Message>)
    requires Kept(loaded)
    ensures Shown([Plain(System, turn.prompt)] + loaded + said) == loaded + Shown(said)
  {
    hide Shown, Kept, IsShown;
    ShownAppend([Plain(System, turn.prompt)] + loaded, said);
    ShownAppend([Plain(System, turn.prompt)], loaded);
    KeptIsShown(loaded);
    SystemIsHidden(turn);
  }

  lemma SystemIsHidden(turn: Turn)
    ensures Shown([Plain(System, turn.prompt)]) == []
  {
    assert [Plain(System, turn.prompt)][..0] == [];
  }

  /** A completed turn appends what was said in it to what was loaded, and keeps the newest forty. */
  lemma TurnAppendsSpoken(session: seq<Message>, turn: Turn)
    requires Kept(session) && Saves(turn)
    ensures NextSession(session, turn) == Newest(Loaded(session, turn) + Spoken(turn))
  {
    hide Rounds, Newest, Transcript, Shown, Kept, Base, Loaded, Closing;
    var loaded := Loaded(session, turn);
    var t := Transcript(turn, Rounds(turn, 0));
    var said := [Plain(User, turn.userMessage)] + t;
    BaseOfKept(session, turn);
    assert History(session, turn, Rounds(turn, 0)) == [Plain(System, turn.prompt)] + loaded + said;
    ShownHistory(turn, loaded, said);
    assert loaded + Shown(said) + Closing(FinalReply(turn)) == loaded + Spoken(turn);
  }

  // ---- Over any number of turns ----

  function SessionAfter(turns: seq<Turn>): seq<Message> {
    if |turns| == 0 then []
    else NextSession(SessionAfter(turns[..|turns| - 1]), turns[|turns| - 1])
  }

  /** Everything said in completed turns since the session was last unreadable. */
  function Log(turns: seq<Turn>): seq<Message> {
    if |turns| == 0 then []
    else
      var before, turn := Log(turns[..|turns| - 1]), turns[|turns| - 1];
      if Saves(turn) then Loaded(before, turn) + Spoken(turn) else before
  }

  /** After any turns the session is the newest forty messages of the log. */
  lemma {:induction false} SessionIsTailOfLog(turns: seq<Turn>)
    ensures Kept(SessionAfter(turns))
    ensures SessionAfter(turns) == Newest(Log(turns))
  {
    hide Newest, Saves, Spoken, NextSession;
    if |turns| == 0 {
      assert Newest([]) == [] by { NewestOfNone(); }
    } else {
      var before, turn := turns[..|turns| - 1], turns[|turns| - 1];
      SessionIsTailOfLog(before);
      NextIsKept(SessionAfter(before), turn);
      NextWithoutSave(SessionAfter(before), turn);
      if Saves(turn) {
        TurnAppendsSpoken(SessionAfter(before), turn);
        NewestAppendSpoken(Log(before), turn);
      }
    }
  }

  lemma NewestOfNone()
    ensures Newest([]) == []
  {
  }

  lemma NextWithoutSave(session: seq<Message>, turn: Turn)
    ensures !Saves(turn) ==> NextSession(session, turn) == session
  {
  }

  predicate ByUserOrAssistant(messages: seq<Message>) {
    forall i :: 0 <= i < |messages| ==> messages[i].role == User || messages[i].role == Assistant
  }

  lemma {:induction false} ShownRoles(turn: Turn, n: nat)
    requires AssistantReplies(turn) && n <= Rounds(turn, 0)
    ensures ByUserOrAssistant(Shown(Transcript(turn, n)))
  {
    hide Rounds, Shown;
    if n == 0 {
      ResultsAreHidden([]);
    } else {
      ShownRoles(turn, n - 1);
      var reply := turn.reply(n - 1).message;
      ShownRound(Transcript(turn, n - 1), reply, ToolResults(turn, n - 1, reply.calls));
    }
  }

  lemma {:induction false} ShownRound(messages: seq<Message>, reply: Message, results: seq<Message>)
    requires forall i :: 0 <= i < |results| ==> results[i].role == Tool
    ensures Shown(messages + [reply] + results)
         == Shown(messages) + if IsShown(reply) then [Plain(reply.role, reply.content)] else []
  {
    ShownAppend(messages + [reply], results);
    ShownAppend(messages, [reply]);
    ResultsAreHidden(results);
    assert [reply][..0] == [];
  }

  lemma {:induction false} ResultsAreHidden(results: seq<Message>)
    requires forall i :: 0 <= i < |results| ==> results[i].role == Tool
    ensures Shown(results) == []
  {
    if results != [] {
      ResultsAreHidden(results[..|results| - 1]);
    }
  }

  /** Given assistant-role replies, only the user and the assistant speak in the log. */
  lemma {:induction false} LogIsUserAndAssistant(turns: seq<Turn>)
    requires forall i :: 0 <= i < |turns| ==> AssistantReplies(turns[i])
    ensures ByUserOrAssistant(Log(turns))
  {
    hide Saves, Spoken, AssistantReplies;
    if |turns| > 0 {
      LogIsUserAndAssistant(turns[..|turns| - 1]);
      SpokenRoles(turns[|turns| - 1]);
    }
  }

  lemma SpokenRoles(turn: Turn)
    requires AssistantReplies(turn)
    ensures Saves(turn) ==> ByUserOrAssistant(Spoken(turn))
  {
    if Saves(turn) {
      var t := Transcript(turn, Rounds(turn, 0));
      var user := Plain(User, turn.userMessage);
      ShownRoles(turn, Rounds(turn, 0));
      ShownAppend([user], t);
      assert [user][..0] == [];
    }
  }

  /** The `n`-th turn of any conversation sends only sound lists. */
  lemma EveryTurnIsSound(turns: seq<Turn>, n: nat)
    requires n < |turns| && AssistantReplies(turns[n])
    ensures forall r :: r in Requests(SessionAfter(turns[..n]), turns[n]) ==> SoundRequest(r.messages)
    ensures |Requests(SessionAfter(turns[..n]), turns[n])| <= MAX_ROUNDS + 1
  {
    SessionIsTailOfLog(turns[..n]);
    RequestsAreSound(SessionAfter(turns[..n]), turns[n]);
  }

  // ---- Many users ----

  datatype UserTurn = UserTurn(userID: string, turn: Turn)

  function SessionOf(sessions: map<string, seq<Message>>, userID: string): seq<Message> {
    if userID in sessions then sessions[userID] else []
  }

  /** The stored sessions after turns of many users, one after the other. */
  function SessionsAfter(run: seq<UserTurn>): map<string, seq<Message>> {
    if |run| == 0 then map[]
    else
      var before, last := SessionsAfter(run[..|run| - 1]), run[|run| - 1];
      if Saves(last.turn)
      then before[last.userID := NextSession(SessionOf(before, last.userID), last.turn)]
      else before
  }

  function TurnsOf(run: seq<UserTurn>, userID: string): seq<Turn> {
    if |run| == 0 then []
    else
      TurnsOf(run[..|run| - 1], userID)
      + if run[|run| - 1].userID == userID then [run[|run| - 1].turn] else []
  }

  /** A user's session depends on that user's turns alone. */
  lemma {:induction false} UsersAreSeparate(run: seq<UserTurn>, userID: string)
    ensures SessionOf(SessionsAfter(run), userID) == SessionAfter(TurnsOf(run, userID))
  {
    hide NextSession, Saves;
    if |run| > 0 {
      var before, last := run[..|run| - 1], run[|run| - 1];
      var turns := TurnsOf(before, userID);
      UsersAreSeparate(before, userID);
      NextWithoutSave(SessionAfter(turns), last.turn);
      OneMoreTurn(turns, last.turn);
      assert TurnsOf(run, userID) == if last.userID == userID then turns + [last.turn] else turns;
      hide TurnsOf, SessionAfter;
    }
  }

  lemma OneMoreTurn(turns: seq<Turn>, turn: Turn)
    ensures SessionAfter(turns + [turn]) == NextSession(SessionAfter(turns), turn)
  {
    assert (turns + [turn])[..|turns|] == turns;
    hide NextSession;
  }
}
