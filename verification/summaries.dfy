/**
 Last message and unread count per chat (internal/database/database.go:521-577), and how
 they read off the full newest-first listing of the chat.
 */
module Summaries {
  import opened Text
  import opened Collections
  import opened MessageTables
  import opened History

  /** The stored messages of one chat. */
  ghost function ChatRows(rows: Rows, account: string, chat: string): set<Message> {
    Selected(rows, account, chat, "")
  }

  ghost function Chats(rows: Rows, account: string): set<string> {
    set m | m in rows.Values && m.accountID == account :: m.chatJID
  }

  // ---- The two queries ----

  /** `m` carries the chat's greatest stamp. */
  predicate Latest(s: set<Message>, m: Message) {
    m in s && forall x :: x in s ==> AtLeastAsNew(m, x)
  }

  /** `COALESCE(MAX(timestamp), '')` over the chat's own messages. */
  ghost predicate UnreadAfter(s: set<Message>, cutoff: string) {
    if exists o :: o in s && o.fromMe then
      && (exists o :: o in s && o.fromMe && o.timestamp == cutoff)
      && (forall o :: o in s && o.fromMe ==> AtMost(o.timestamp, cutoff))
    else cutoff == ""
  }

  ghost function Unread(s: set<Message>, cutoff: string): set<Message> {
    set m | m in s && !m.fromMe && Less(cutoff, m.timestamp)
  }

  ghost predicate LastPerChat(rows: Rows, account: string, last: map<string, Message>) {
    && last.Keys == Chats(rows, account)
    && forall chat :: chat in last ==> Latest(ChatRows(rows, account, chat), last[chat])
  }

  ghost predicate UnreadPerChat(rows: Rows, account: string, unread: map<string, nat>) {
    && (forall chat :: chat in unread ==> chat in Chats(rows, account) && 0 < unread[chat])
    && forall chat, cutoff :: chat in Chats(rows, account) && UnreadAfter(ChatRows(rows, account, chat), cutoff) ==>
         (if chat in unread then unread[chat] else 0) == |Unread(ChatRows(rows, account, chat), cutoff)|
  }

  /**
   `GetLastMessagePerChat`: the join keeps every row at its chat's greatest stamp; the row
   loop overwrites, so among ties the last row scanned stays.
   */
  method GetLastMessagePerChat(rows: Rows, account: string) returns (result: map<string, Message>)
    ensures LastPerChat(rows, account, result)
  {
    var joined := set m | m in rows.Values && m.accountID == account
      && Latest((set x | x in rows.Values && x.accountID == account && x.chatJID == m.chatJID), m);
    result := map[];
    var todo := joined;
    while todo != {}
      invariant todo <= joined
      invariant forall chat :: chat in result <==> exists m :: m in joined - todo && m.chatJID == chat
      invariant forall chat :: chat in result ==> result[chat] in joined && result[chat].chatJID == chat
      decreases todo
    {
      var m :| m in todo;
      todo := todo - {m};
      result := result[m.chatJID := m];
    }
    JoinCoversChats(rows, account, joined);
  }

  lemma JoinCoversChats(rows: Rows, account: string, joined: set<Message>)
    requires joined == set m | m in rows.Values && m.accountID == account
      && Latest((set x | x in rows.Values && x.accountID == account && x.chatJID == m.chatJID), m)
    ensures forall m :: m in joined ==> Latest(ChatRows(rows, account, m.chatJID), m)
    ensures forall chat :: chat in Chats(rows, account) <==> exists m :: m in joined && m.chatJID == chat
  {
    hide Less, AtLeastAsNew;
    forall m | m in rows.Values && m.accountID == account
      ensures ChatRows(rows, account, m.chatJID)
           == set x | x in rows.Values && x.accountID == account && x.chatJID == m.chatJID
    {
    }
    forall chat | chat in Chats(rows, account)
      ensures exists m :: m in joined && m.chatJID == chat
    {
      var s := ChatRows(rows, account, chat);
      var any :| any in rows.Values && any.accountID == account && any.chatJID == chat;
      assert any in s;
      var top := NewestOf(s);
      assert Latest(s, top);
      assert top in joined;
    }
  }

  // ---- Against the listing ----

  /** How many messages of a listing come before the first own one. */
  function LeadingIncoming(listing: seq<Message>): (n: nat)
    ensures n <= |listing|
    ensures forall i :: 0 <= i < n ==> !listing[i].fromMe
    ensures n < |listing| ==> listing[n].fromMe
  {
    if listing == [] || listing[0].fromMe then 0 else 1 + LeadingIncoming(listing[1..])
  }

  /** The leading incoming run ends on a message of the same second as the newest own one. */
  predicate RunEndsOnTie(listing: seq<Message>) {
    var n := LeadingIncoming(listing);
    0 < n < |listing| && !Less(listing[n].timestamp, listing[n - 1].timestamp)
  }

  /** The first own message of a listing is at least as new as every own message. */
  lemma FirstOwnIsNewest(listing: seq<Message>, o: Message)
    requires Sorted(listing) && o in listing && o.fromMe
    ensures LeadingIncoming(listing) < |listing|
    ensures AtMost(o.timestamp, listing[LeadingIncoming(listing)].timestamp)
  {
    hide LeadingIncoming, Less;
    var n := LeadingIncoming(listing);
    var i :| 0 <= i < |listing| && listing[i] == o;
    assert n <= i;
    AgeIsTotal(o, o);
    assert AtLeastAsNew(listing[n], listing[i]);
  }

  /** The cutoff is the stamp of the first own message in any listing. */
  lemma {:induction false} CutoffIsFirstOwn(s: set<Message>, cutoff: string, listing: seq<Message>)
    requires Sorted(listing) && Elements(listing) == s && UnreadAfter(s, cutoff)
    ensures var n := LeadingIncoming(listing);
      cutoff == if n < |listing| then listing[n].timestamp else ""
  {
    var n := LeadingIncoming(listing);
    if n < |listing| {
      assert listing[n] in Elements(listing);
      var o :| o in s && o.fromMe && o.timestamp == cutoff;
      FirstOwnIsNewest(listing, o);
      LessIsTotal(listing[n].timestamp, cutoff);
    } else {
      forall o | o in s
        ensures !o.fromMe
      {
        var i :| 0 <= i < |listing| && listing[i] == o;
      }
    }
    hide LeadingIncoming, Less, Sorted;
  }

  /** The unread messages are the run's messages that are strictly newer than what follows it. */
  lemma UnreadIsNewerRun(s: set<Message>, cutoff: string, listing: seq<Message>)
    requires Newest(s, |s|, listing) && Elements(listing) == s && UnreadAfter(s, cutoff)
    requires forall m :: m in s ==> Less("", m.timestamp)
    ensures forall m :: m in Unread(s, cutoff)
                   <==> m in listing[..LeadingIncoming(listing)] && Less(cutoff, m.timestamp)
  {
    CutoffIsFirstOwn(s, cutoff, listing);
    hide LeadingIncoming;
    var n := LeadingIncoming(listing);
    LessLaws();
    hide Less;
    forall m | m in Unread(s, cutoff)
      ensures m in listing[..n]
    {
      var i :| 0 <= i < |listing| && listing[i] == m;
      if n < |listing| {
        assert n < i ==> AtLeastAsNew(listing[n], listing[i]);
      }
      assert i < n;
      assert listing[..n][i] == m;
    }
    forall m | m in listing[..n]
      ensures m in s && !m.fromMe
    {
      assert m in listing;
    }
  }

  /** Of a newest-first run, the part past a cutoff is all of it unless the last one is not past it. */
  lemma PastCutoff(past: set<Message>, run: seq<Message>, cutoff: string)
    requires Sorted(run) && Distinct(run)
    requires forall m :: m in past <==> m in run && Less(cutoff, m.timestamp)
    ensures |past| <= |run|
    ensures |past| == |run| <==> run == [] || Less(cutoff, run[|run| - 1].timestamp)
  {
    DistinctSize(run);
    assert past <= Elements(run);
    SubsetSize(past, Elements(run));
    LessLaws();
    hide Less, Distinct;
    if run != [] {
      var last := run[|run| - 1];
      assert last in Elements(run);
      if Less(cutoff, last.timestamp) {
        forall m | m in Elements(run)
          ensures m in past
        {
          var i :| 0 <= i < |run| && run[i] == m;
          assert i < |run| - 1 ==> AtLeastAsNew(run[i], run[|run| - 1]);
        }
        assert past == Elements(run);
      }
    }
  }

  /**
   The unread count never exceeds the number of incoming messages that lead the listing,
   and equals it exactly when that run does not end on a tie with the newest own message.
   */
  lemma UnreadVersusLeading(s: set<Message>, cutoff: string, listing: seq<Message>)
    requires Newest(s, |s|, listing) && Elements(listing) == s && UnreadAfter(s, cutoff)
    requires forall m :: m in s ==> Less("", m.timestamp)
    ensures |Unread(s, cutoff)| <= LeadingIncoming(listing)
    ensures |Unread(s, cutoff)| == LeadingIncoming(listing) <==> !RunEndsOnTie(listing)
  {
    hide LeadingIncoming, UnreadAfter, Unread, Less, AtLeastAsNew;
    UnreadIsNewerRun(s, cutoff, listing);
    CutoffIsFirstOwn(s, cutoff, listing);
    var n := LeadingIncoming(listing);
    PrefixIsSorted(listing, n);
    if 0 < n {
      assert listing[n - 1] in Elements(listing);
    }
    hide Newest, Distinct, Sorted, Elements;
    PastCutoff(Unread(s, cutoff), listing[..n], cutoff);
  }

  /** Every set of messages has a newest-first listing. */
  lemma {:induction false} ListingOf(s: set<Message>) returns (listing: seq<Message>)
    ensures Distinct(listing) && Sorted(listing) && Elements(listing) == s && |listing| == |s|
    decreases |s|
  {
    hide AtLeastAsNew;
    if s == {} {
      listing := [];
    } else {
      var top := NewestOf(s);
      var rest := ListingOf(s - {top});
      listing := [top] + rest;
      TopFirst(top, rest);
      hide Distinct, Sorted, Elements;
      assert {top} + (s - {top}) == s;
    }
  }

  lemma TopFirst(top: Message, rest: seq<Message>)
    requires Distinct(rest) && Sorted(rest) && top !in Elements(rest)
    requires forall m :: m in Elements(rest) ==> AtLeastAsNew(top, m)
    ensures Distinct([top] + rest) && Sorted([top] + rest) && Elements([top] + rest) == {top} + Elements(rest)
  {
    hide AtLeastAsNew;
    assert forall j :: 0 <= j < |rest| ==> rest[j] in Elements(rest);
  }

  lemma ListingIsNewest(s: set<Message>, listing: seq<Message>)
    requires Distinct(listing) && Sorted(listing) && Elements(listing) == s
    ensures Newest(s, |s|, listing)
  {
    DistinctSize(listing);
    hide AtLeastAsNew, Sorted, Distinct;
    assert forall m :: m in s ==> m in listing by {
      assert forall m :: m in Elements(listing) ==> m in listing;
    }
  }

  /**
   A chat's unread count equals the incoming run of each of its newest-first listings if and only
   if no incoming message has the second of the newest own one.
   */
  lemma UnreadMatchesEveryListingIff(s: set<Message>, cutoff: string)
    requires UnreadAfter(s, cutoff) && forall m :: m in s ==> Less("", m.timestamp)
    ensures (forall listing :: Newest(s, |s|, listing) ==> |Unread(s, cutoff)| == LeadingIncoming(listing))
       <==> forall m :: m in s && !m.fromMe ==> m.timestamp != cutoff
  {
    hide LeadingIncoming, Less, AtLeastAsNew, Unread, UnreadAfter, Newest;
    forall listing | Newest(s, |s|, listing) && forall m :: m in s && !m.fromMe ==> m.timestamp != cutoff
      ensures |Unread(s, cutoff)| == LeadingIncoming(listing)
    {
      FullListingHasAll(s, listing);
      NoTieAtCutoff(s, cutoff, listing);
      UnreadVersusLeading(s, cutoff, listing);
    }
    forall m | m in s && !m.fromMe && m.timestamp == cutoff
      ensures exists listing :: Newest(s, |s|, listing) && |Unread(s, cutoff)| != LeadingIncoming(listing)
    {
      var listing := TieListedFirst(s, cutoff, m);
    }
  }

  lemma NoTieAtCutoff(s: set<Message>, cutoff: string, listing: seq<Message>)
    requires Newest(s, |s|, listing) && Elements(listing) == s && UnreadAfter(s, cutoff)
    requires forall m :: m in s && !m.fromMe ==> m.timestamp != cutoff
    ensures !RunEndsOnTie(listing)
  {
    CutoffIsFirstOwn(s, cutoff, listing);
    LessLaws();
    hide Less, UnreadAfter;
    var n := LeadingIncoming(listing);
    hide LeadingIncoming;
    if 0 < n < |listing| {
      assert listing[n - 1] in Elements(listing) && !listing[n - 1].fromMe;
      assert AtLeastAsNew(listing[n - 1], listing[n]);
    }
  }

  lemma TieListedFirst(s: set<Message>, cutoff: string, tie: Message) returns (listing: seq<Message>)
    requires UnreadAfter(s, cutoff) && forall m :: m in s ==> Less("", m.timestamp)
    requires tie in s && !tie.fromMe && tie.timestamp == cutoff
    ensures Newest(s, |s|, listing) && |Unread(s, cutoff)| < LeadingIncoming(listing)
  {
    TieSplits(s, cutoff, tie);
    hide *;
    var newer := Unread(s, cutoff);
    var front := ListingOf(newer);
    var back := ListingOf(s - newer - {tie});
    listing := front + [tie] + back;
    JoinAtTie(front, tie, back);
    ElementsOfJoin(front, tie, back);
    ThreeParts(newer, tie, s);
    ListingIsNewest(s, listing);
    JoinLeads(front, tie, back);
  }

  lemma ThreeParts<T>(part: set<T>, x: T, s: set<T>)
    requires part <= s && x in s
    ensures part + {x} + (s - part - {x}) == s
  {
  }

  lemma ElementsOfJoin(front: seq<Message>, tie: Message, back: seq<Message>)
    ensures Elements(front + [tie] + back) == Elements(front) + {tie} + Elements(back)
  {
  }

  lemma JoinLeads(front: seq<Message>, tie: Message, back: seq<Message>)
    requires !tie.fromMe && forall m :: m in Elements(front) ==> !m.fromMe
    ensures |front| < LeadingIncoming(front + [tie] + back)
  {
    hide LeadingIncoming;
    assert forall i :: 0 <= i < |front| ==> front[i] in Elements(front);
    IncomingLead(front + [tie] + back, |front| + 1);
  }

  /** Nothing own is newer than the cutoff, and a tie is newer than all that is not unread. */
  lemma TieSplits(s: set<Message>, cutoff: string, tie: Message)
    requires UnreadAfter(s, cutoff) && forall m :: m in s ==> Less("", m.timestamp)
    requires tie in s && !tie.fromMe && tie.timestamp == cutoff
    ensures forall m :: m in Unread(s, cutoff) ==> m in s && !m.fromMe && Less(tie.timestamp, m.timestamp)
    ensures tie !in Unread(s, cutoff)
    ensures forall m :: m in s - Unread(s, cutoff) ==> AtMost(m.timestamp, tie.timestamp)
  {
    LessLaws();
    hide Less;
  }

  lemma JoinAtTie(front: seq<Message>, tie: Message, back: seq<Message>)
    requires Distinct(front) && Sorted(front) && Distinct(back) && Sorted(back)
    requires forall m :: m in Elements(front) ==> Less(tie.timestamp, m.timestamp)
    requires forall m :: m in Elements(back) ==> AtMost(m.timestamp, tie.timestamp) && m != tie
    ensures Distinct(front + [tie] + back) && Sorted(front + [tie] + back)
  {
    LessLaws();
    hide Less;
    var all := front + [tie] + back;
    assert forall i :: 0 <= i < |front| ==> front[i] in Elements(front);
    assert forall i :: 0 <= i < |back| ==> back[i] in Elements(back);
    forall i, j | 0 <= i < j < |all|
      ensures all[i] != all[j] && AtLeastAsNew(all[i], all[j])
    {
    }
  }

  lemma {:induction false} IncomingLead(listing: seq<Message>, n: nat)
    requires n <= |listing| && forall i :: 0 <= i < n ==> !listing[i].fromMe
    ensures n <= LeadingIncoming(listing)
  {
    if n > 0 {
      IncomingLead(listing[1..], n - 1);
    }
  }

  /** Such runs exist: an incoming message of the own message's second is listed first and not counted. */
  lemma {:induction false} TieIsNotCounted(incoming: Message, own: Message, cutoff: string)
    requires incoming.id != own.id && incoming.timestamp == own.timestamp && !incoming.fromMe && own.fromMe
    requires UnreadAfter({incoming, own}, cutoff)
    ensures Newest({incoming, own}, 2, [incoming, own]) && RunEndsOnTie([incoming, own])
    ensures LeadingIncoming([incoming, own]) == 1 && Unread({incoming, own}, cutoff) == {}
  {
    var s, listing := {incoming, own}, [incoming, own];
    LessLaws();
    assert LeadingIncoming(listing) == 1 by {
      assert listing[1..] == [own];
    }
    hide Less, LeadingIncoming;
    assert own in s && own.fromMe;
    assert cutoff == own.timestamp;
    assert Elements(listing) == s && |s| == 2;
  }

  lemma PrefixIsSorted(listing: seq<Message>, n: nat)
    requires Sorted(listing) && Distinct(listing) && n <= |listing|
    ensures Sorted(listing[..n]) && Distinct(listing[..n])
  {
    hide AtLeastAsNew;
  }

  lemma FullListingHasAll(s: set<Message>, listing: seq<Message>)
    requires Newest(s, |s|, listing)
    ensures Elements(listing) == s
  {
    DistinctSize(listing);
    SubsetSize(Elements(listing), s);
  }

  /**
   For a stored chat whose messages all differ in their second, the two summaries are read
   straight off its listing: the unread count is the leading incoming run and the last
   message is the head.
   */
  lemma SummariesMatchListing(rows: Rows, account: string, chat: string, listing: seq<Message>,
                              last: map<string, Message>, unread: map<string, nat>, cutoff: string)
    requires Stamped(rows) && chat in Chats(rows, account)
    requires LastPerChat(rows, account, last) && UnreadPerChat(rows, account, unread)
    requires var s := ChatRows(rows, account, chat);
      && Newest(s, |s|, listing) && UnreadAfter(s, cutoff)
      && forall x, y | x in s && y in s :: x.timestamp == y.timestamp ==> x == y
    ensures listing != [] && last[chat] == listing[0]
    ensures (if chat in unread then unread[chat] else 0) == LeadingIncoming(listing)
  {
    var s := ChatRows(rows, account, chat);
    FullListingHasAll(s, listing);
    forall m | m in s
      ensures Less("", m.timestamp)
    {
    }
    assert last[chat] in Elements(listing);
    var i :| 0 <= i < |listing| && listing[i] == last[chat];
    LessLaws();
    hide Less;
    assert AtLeastAsNew(listing[0], listing[i]);
    assert listing[0] in Elements(listing);
    assert AtLeastAsNew(last[chat], listing[0]);
    UnreadVersusLeading(s, cutoff, listing);
    RunEndsStrictly(s, listing);
    hide LeadingIncoming;
  }

  lemma RunEndsStrictly(s: set<Message>, listing: seq<Message>)
    requires Newest(s, |s|, listing) && Elements(listing) == s
    requires forall x, y | x in s && y in s :: x.timestamp == y.timestamp ==> x == y
    ensures !RunEndsOnTie(listing)
  {
    hide LeadingIncoming;
    var n := LeadingIncoming(listing);
    LessLaws();
    hide Less;
    if 0 < n < |listing| {
      assert listing[n - 1] in Elements(listing) && listing[n] in Elements(listing);
      assert AtLeastAsNew(listing[n - 1], listing[n]);
    }
  }
}
