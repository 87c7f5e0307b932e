/**
 What the assistant's sessions hold, turn by turn: the user's messages and the assistant's texts
 (internal/agent/agent.go:106-172, 229-259).
 */
module AgentDialogue {
  import opened AgentLoop

  /** The turn ends on an answer after `k` rounds of tools, and is saved. */
  predicate IsSavedAfter(turn: Turn, k: nat) {
    && k < 10 && !turn.saveFails
    && (forall j :: 0 <= j < k ==> turn.reply(j).Said? && turn.reply(j).message.calls != [])
    && turn.reply(k).Said? && turn.reply(k).message.calls == []
  }

  lemma SavedAfterItsRounds(turn: Turn)
    ensures Saves(turn) ==> IsSavedAfter(turn, Rounds(turn, 0))
    ensures forall k: nat :: IsSavedAfter(turn, k) ==> Saves(turn) && k == Rounds(turn, 0)
  {
    if Saves(turn) {
      assert forall j :: 0 <= j < Rounds(turn, 0) ==> CallsTools(turn.reply(j));
    }
    forall k: nat | IsSavedAfter(turn, k)
      ensures Saves(turn) && k == Rounds(turn, 0)
    {
      assert k < Rounds(turn, 0) ==> CallsTools(turn.reply(k));
      assert forall j :: 0 <= j < k ==> CallsTools(turn.reply(j));
    }
  }

  /** A reply's text, unless there is none. */
  function TextOf(r: Reply): seq<string> {
    if r.Said? && r.message.content != "" then [r.message.content] else []
  }

  function SaidBy(r: Reply): seq<Message> {
    if r.Said? && r.message.content != "" then [Message(Assistant, r.message.content, "", "", [])] else []
  }

  /** What the first `n` replies say. */
  function AnswersSaid(turn: Turn, n: nat): seq<Message> {
    if n == 0 then [] else AnswersSaid(turn, n - 1) + SaidBy(turn.reply(n - 1))
  }

  /** What a saved turn says. */
  function Exchange(turn: Turn, k: nat): seq<Message> {
    [Message(User, turn.userMessage, "", "", [])] + AnswersSaid(turn, k + 1)
  }

  /** For each saved turn the user's message and the assistant's texts, since the session was last unreadable. */
  ghost function Dialogue(turns: seq<Turn>): seq<Message> {
    if |turns| == 0 then []
    else
      var before, turn := Dialogue(turns[..|turns| - 1]), turns[|turns| - 1];
      if k: nat :| IsSavedAfter(turn, k) then
        (if turn.loadFails then [] else before) + Exchange(turn, k)
      else before
  }

  lemma {:induction false} ShownAnswers(turn: Turn, n: nat)
    requires AssistantReplies(turn) && n <= Rounds(turn, 0)
    ensures Shown(Transcript(turn, n)) == AnswersSaid(turn, n)
  {
    hide *;
    if n == 0 {
      NoAnswers(turn);
      NothingTranscribed(turn);
    } else {
      TranscriptStep(turn, n - 1);
      var reply := turn.reply(n - 1).message;
      OneMoreAnswer(turn, n - 1);
      ShownAnswers(turn, n - 1);
      ResultsAreTools(turn, n - 1, reply.calls);
      ShownRound(Transcript(turn, n - 1), reply, ToolResults(turn, n - 1, reply.calls));
      RepliesAreAssistant(turn, n - 1);
      AssistantIsShown(reply);
    }
  }

  lemma NothingTranscribed(turn: Turn)
    ensures Transcript(turn, 0) == [] && Shown(Transcript(turn, 0)) == []
  {
  }

  lemma ResultsAreTools(turn: Turn, i: nat, calls: seq<ToolCall>)
    ensures forall k :: 0 <= k < |ToolResults(turn, i, calls)| ==> ToolResults(turn, i, calls)[k].role == Tool
  {
  }

  lemma RepliesAreAssistant(turn: Turn, i: nat)
    requires AssistantReplies(turn) && turn.reply(i).Said?
    ensures turn.reply(i).message.role == Assistant
  {
  }

  lemma TranscriptStep(turn: Turn, i: nat)
    requires i < Rounds(turn, 0)
    ensures turn.reply(i).Said?
    ensures var reply := turn.reply(i).message;
      Transcript(turn, i + 1) == Transcript(turn, i) + [reply] + ToolResults(turn, i, reply.calls)
  {
    assert CallsTools(turn.reply(i));
    hide Rounds, ToolResults;
  }

  lemma AssistantIsShown(reply: Message)
    requires reply.role == Assistant
    ensures (if IsShown(reply) then [Plain(reply.role, reply.content)] else []) == Closing(reply)
  {
  }

  lemma {:induction false} SpokenIs(turn: Turn)
    requires AssistantReplies(turn) && Completes(turn)
    ensures Spoken(turn) == Exchange(turn, Rounds(turn, 0))
  {
    var k := Rounds(turn, 0);
    var user := Plain(User, turn.userMessage);
    hide Rounds, Transcript, AnswersSaid, Shown;
    ShownAnswers(turn, k);
    ShownAppend([user], Transcript(turn, k));
    UserIsShown(user);
    OneMoreAnswer(turn, k);
    assert [user] + AnswersSaid(turn, k) + Closing(FinalReply(turn))
        == [user] + (AnswersSaid(turn, k) + Closing(FinalReply(turn)));
  }

  lemma UserIsShown(user: Message)
    requires user.role == User && user == Plain(User, user.content)
    ensures Shown([user]) == [user]
  {
    assert [user][..0] == [];
  }

  lemma OneMoreAnswer(turn: Turn, k: nat)
    requires turn.reply(k).Said?
    ensures AnswersSaid(turn, k + 1) == AnswersSaid(turn, k) + Closing(turn.reply(k).message)
  {
  }

  /** Given assistant-role replies, the log is exactly this dialogue. */
  lemma {:induction false} LogIsDialogue(turns: seq<Turn>)
    requires forall i :: 0 <= i < |turns| ==> AssistantReplies(turns[i])
    ensures Log(turns) == Dialogue(turns)
  {
    hide Rounds, AnswersSaid, Spoken, AssistantReplies, IsSavedAfter;
    if |turns| > 0 {
      var turn := turns[|turns| - 1];
      LogIsDialogue(turns[..|turns| - 1]);
      SavedAfterItsRounds(turn);
      if Saves(turn) {
        SpokenIs(turn);
        assert IsSavedAfter(turn, Rounds(turn, 0));
      }
    }
  }

  /** So over any number of turns the stored session is the last forty messages of the dialogue. */
  lemma {:induction false} SessionIsLastForty(turns: seq<Turn>)
    requires forall i :: 0 <= i < |turns| ==> AssistantReplies(turns[i])
    ensures var d := Dialogue(turns);
      SessionAfter(turns) == if |d| > 40 then d[|d| - 40..] else d
  {
    hide SessionAfter, Log, Dialogue, Kept;
    SessionIsTailOfLog(turns);
    LogIsDialogue(turns);
  }

  /** The contents of the messages of one role. */
  function ContentsOf(messages: seq<Message>, role: Role): seq<string> {
    if messages == [] then []
    else
      var m := messages[|messages| - 1];
      ContentsOf(messages[..|messages| - 1], role) + if m.role == role then [m.content] else []
  }

  lemma {:induction false} ContentsOfConcat(a: seq<Message>, b: seq<Message>, role: Role)
    ensures ContentsOf(a + b, role) == ContentsOf(a, role) + ContentsOf(b, role)
  {
    if b == [] {
      assert a + b == a;
    } else {
      var front := b[..|b| - 1];
      ContentsOfConcat(a, front, role);
      assert (a + b)[..|a + b| - 1] == a + front;
    }
  }

  /** The messages of the saved turns since the session was last unreadable. */
  ghost function Asked(turns: seq<Turn>): seq<string> {
    if |turns| == 0 then []
    else
      var before, turn := Asked(turns[..|turns| - 1]), turns[|turns| - 1];
      if exists k: nat :: IsSavedAfter(turn, k) then (if turn.loadFails then [] else before) + [turn.userMessage]
      else before
  }

  /** The texts of the first `n` replies. */
  function TextsOf(turn: Turn, n: nat): seq<string> {
    if n == 0 then [] else TextsOf(turn, n - 1) + TextOf(turn.reply(n - 1))
  }

  ghost function Replied(turns: seq<Turn>): seq<string> {
    if |turns| == 0 then []
    else
      var before, turn := Replied(turns[..|turns| - 1]), turns[|turns| - 1];
      if k: nat :| IsSavedAfter(turn, k) then (if turn.loadFails then [] else before) + TextsOf(turn, k + 1)
      else before
  }

  lemma {:induction false} TextsOfAnswers(turn: Turn, n: nat)
    ensures ContentsOf(AnswersSaid(turn, n), User) == []
    ensures ContentsOf(AnswersSaid(turn, n), Assistant) == TextsOf(turn, n)
  {
    hide *;
    NoContents();
    if n == 0 {
      NoAnswers(turn);
    } else {
      var r, before := turn.reply(n - 1), AnswersSaid(turn, n - 1);
      NextAnswer(turn, n);
      TextsOfAnswers(turn, n - 1);
      SaidByRole(r);
      ContentsOfConcat(before, SaidBy(r), User);
      ContentsOfConcat(before, SaidBy(r), Assistant);
    }
  }

  lemma NoAnswers(turn: Turn)
    ensures AnswersSaid(turn, 0) == [] && TextsOf(turn, 0) == []
  {
  }

  lemma NextAnswer(turn: Turn, n: nat)
    requires 0 < n
    ensures AnswersSaid(turn, n) == AnswersSaid(turn, n - 1) + SaidBy(turn.reply(n - 1))
    ensures TextsOf(turn, n) == TextsOf(turn, n - 1) + TextOf(turn.reply(n - 1))
  {
  }

  lemma SaidByRole(r: Reply)
    ensures ContentsOf(SaidBy(r), User) == [] && ContentsOf(SaidBy(r), Assistant) == TextOf(r)
  {
    NoContents();
    if r.Said? {
      OneContent(Message(Assistant, r.message.content, "", "", []));
    }
    hide ContentsOf;
  }

  lemma ExchangeByRole(turn: Turn, k: nat)
    ensures ContentsOf(Exchange(turn, k), User) == [turn.userMessage]
    ensures ContentsOf(Exchange(turn, k), Assistant) == TextsOf(turn, k + 1)
  {
    hide ContentsOf, AnswersSaid, TextsOf;
    var user, answers := Message(User, turn.userMessage, "", "", []), AnswersSaid(turn, k + 1);
    OneContent(user);
    TextsOfAnswers(turn, k + 1);
    ContentsOfConcat([user], answers, User);
    ContentsOfConcat([user], answers, Assistant);
  }

  lemma OneContent(m: Message)
    ensures forall role :: ContentsOf([m], role) == if m.role == role then [m.content] else []
  {
    assert [m][..0] == [];
    assert forall role :: ContentsOf([], role) == [];
  }

  /**
   Given assistant-role replies, the user's messages in the log are those of the saved turns since the
   session was last unreadable, in order; and the assistant's are the texts of those turns' replies.
   */
  lemma {:induction false} LogByRole(turns: seq<Turn>)
    requires forall i :: 0 <= i < |turns| ==> AssistantReplies(turns[i])
    ensures ContentsOf(Log(turns), User) == Asked(turns)
    ensures ContentsOf(Log(turns), Assistant) == Replied(turns)
  {
    LogIsDialogue(turns);
    hide Log, AssistantReplies;
    DialogueByRole(turns);
  }

  lemma {:induction false} DialogueByRole(turns: seq<Turn>)
    ensures ContentsOf(Dialogue(turns), User) == Asked(turns)
    ensures ContentsOf(Dialogue(turns), Assistant) == Replied(turns)
  {
    if |turns| == 0 {
      NoContents();
    } else {
      var front, turn := turns[..|turns| - 1], turns[|turns| - 1];
      DialogueByRole(front);
      if k: nat :| IsSavedAfter(turn, k) {
        SavedTurn(turns, k);
        hide *;
        NoContents();
        var before := if turn.loadFails then [] else Dialogue(front);
        ExchangeByRole(turn, k);
        ContentsOfConcat(before, Exchange(turn, k), User);
        ContentsOfConcat(before, Exchange(turn, k), Assistant);
      } else {
        hide IsSavedAfter, ContentsOf;
      }
    }
  }

  /** What a saved turn adds. */
  lemma SavedTurn(turns: seq<Turn>, k: nat)
    requires turns != [] && IsSavedAfter(turns[|turns| - 1], k)
    ensures var front, turn := turns[..|turns| - 1], turns[|turns| - 1];
      && Dialogue(turns) == (if turn.loadFails then [] else Dialogue(front)) + Exchange(turn, k)
      && Asked(turns) == (if turn.loadFails then [] else Asked(front)) + [turn.userMessage]
      && Replied(turns) == (if turn.loadFails then [] else Replied(front)) + TextsOf(turn, k + 1)
  {
    SavedAfterItsRounds(turns[|turns| - 1]);
    hide IsSavedAfter, Exchange, TextsOf, Saves, Rounds;
  }

  lemma NoContents()
    ensures forall role :: ContentsOf([], role) == []
  {
  }

  /** The first exchange of a conversation, as it is stored. */
  lemma FirstExchange(turn: Turn)
    requires !turn.loadFails && !turn.saveFails && turn.userMessage == "hi"
    requires turn.reply(0) == Said(Message(Assistant, "hello", "", "", []))
    ensures NextSession([], turn) == [Message(User, "hi", "", "", []), Message(Assistant, "hello", "", "", [])]
  {
    assert Rounds(turn, 0) == 0 && Saves(turn);
    TurnAppendsSpoken([], turn);
    var user := Plain(User, "hi");
    UserIsShown(user);
    assert [user] + Transcript(turn, 0) == [user];
    hide Rounds, Shown, Transcript;
    assert Spoken(turn) == [user] + Closing(FinalReply(turn));
  }

  /** The first list sent: the prompt, the session and the user's message. */
  lemma FirstList(session: seq<Message>, turn: Turn)
    requires Kept(session) && !turn.loadFails
    ensures Requests(session, turn) != []
    ensures Requests(session, turn)[0]
         == Chat([Message(System, turn.prompt, "", "", [])] + session + [Message(User, turn.userMessage, "", "", [])])
  {
    BaseOfKept(session, turn);
    StartOfTurn(session, turn, []);
    hide Rounds, Base, Kept, History;
  }

  /** Ten rounds of tools end the turn with ten calls of the model and nothing stored. */
  lemma TenRoundsEndTheTurn(session: seq<Message>, turn: Turn)
    requires forall j :: 0 <= j < 10 ==> turn.reply(j).Said? && turn.reply(j).message.calls != []
    ensures |Requests(session, turn)| == 10 && NextSession(session, turn) == session
    ensures forall r :: r in Requests(session, turn) ==> r.Chat?
  {
    assert !CallsTools(turn.reply(Rounds(turn, 0))) ==> Rounds(turn, 0) == 10;
    hide Rounds, History;
  }
}
