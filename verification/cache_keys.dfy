/**
 The keys under which an account caches its reads (internal/service/account.go:1417, 1508)
 and the pattern that clears them (internal/service/account.go:1733-1739).
 */
module CacheKeys {
  import opened Text
  import Timestamps
  import History

  /** `%d` of a non-negative number. */
  function Decimal(n: nat): (s: string)
    ensures s != "" && (|s| == 1 <==> n < 10) && forall i :: 0 <= i < |s| ==> '0' <= s[i] <= '9'
  {
    if n < 10 then [Timestamps.Digit(n)] else Decimal(n / 10) + [Timestamps.Digit(n % 10)]
  }

  function MessagesKey(account: string, chat: string, limit: nat, before: string): string {
    "msgs:" + account + ":" + chat + ":" + Decimal(limit) + ":" + before
  }

  function ChatsKey(account: string): string {
    "chats:" + account
  }

  /** The pattern `msgs:ID:*`, for an ID without glob characters. */
  predicate MatchesPattern(key: string, account: string) {
    HasPrefix(key, "msgs:" + account + ":")
  }

  lemma {:induction false} DecimalIsInjective(a: nat, b: nat)
    requires Decimal(a) == Decimal(b)
    ensures a == b
  {
    var s, t := Decimal(a), Decimal(b);
    assert s[|s| - 1] == Timestamps.Digit(a % 10) && t[|t| - 1] == Timestamps.Digit(b % 10);
    if 10 <= a {
      assert s[..|s| - 1] == Decimal(a / 10) && t[..|t| - 1] == Decimal(b / 10);
      DecimalIsInjective(a / 10, b / 10);
    }
  }

  lemma ColonInTail(x: string, d: string, y: string, e: string)
    requires x + ":" + d == y + ":" + e && |x| < |y|
    ensures ':' in d && ':' in y
  {
    assert d[|y| - |x| - 1] == (x + ":" + d)[|y|];
    assert y[|x|] == (y + ":" + e)[|x|];
  }

  /** The last colon splits a string in one way only. */
  lemma LastColonSplits(x: string, d: string, y: string, e: string)
    requires ':' !in d && ':' !in e && x + ":" + d == y + ":" + e
    ensures x == y && d == e
  {
    if |x| < |y| {
      ColonInTail(x, d, y, e);
    } else if |y| < |x| {
      ColonInTail(y, e, x, d);
    } else {
      EqualTails(x + ":", d, y + ":", e);
      EqualTails(x, ":", y, ":");
    }
  }

  /** And so does the first. */
  lemma FirstColonSplits(x: string, d: string, y: string, e: string)
    requires ':' !in x && ':' !in y && x + ":" + d == y + ":" + e
    ensures x == y
  {
    if |x| < |y| {
      ColonInTail(x, d, y, e);
    } else if |y| < |x| {
      ColonInTail(y, e, x, d);
    } else {
      EqualTails(x + ":", d, y + ":", e);
      EqualTails(x, ":", y, ":");
    }
  }

  lemma EqualTails(x: string, b: string, y: string, c: string)
    requires (|b| == |c| || |x| == |y|) && x + b == y + c
    ensures x == y && b == c
  {
    assert |x| == |y|;
    assert (x + b)[..|x|] == x && (y + c)[..|y|] == y;
    assert (x + b)[|x|..] == b && (y + c)[|y|..] == c;
  }

  // ---- When two requests share a key ----

  /** The part of a message key that follows the account. */
  function Tail(chat: string, limit: nat, before: string): string {
    chat + ":" + Decimal(limit) + ":" + before
  }

  lemma KeyParts(account: string, chat: string, limit: nat, before: string)
    ensures MessagesKey(account, chat, limit, before)
         == ("msgs:" + account + ":") + Tail(chat, limit, before)
  {
  }

  /**
   What one request writes as limit and start of its cursor, the other writes as the end of its
   chat JID: `u` is the text in between.
   */
  predicate Shifted(chat: string, limit: nat, before: string, chat': string, limit': nat, before': string, u: string) {
    chat' + ":" == chat + ":" + Decimal(limit) + ":" + u && before == u + Decimal(limit') + ":" + before'
  }

  lemma ShiftedShares(chat: string, limit: nat, before: string,
                      chat': string, limit': nat, before': string, u: string)
    requires Shifted(chat, limit, before, chat', limit', before', u)
    ensures Tail(chat, limit, before) == Tail(chat', limit', before') && |before'| < |before|
  {
    hide Decimal;
    var d, d' := Decimal(limit), Decimal(limit');
    assert Tail(chat, limit, before) == (chat + ":" + d + ":" + u) + (d' + ":" + before');
    assert Tail(chat', limit', before') == (chat' + ":") + (d' + ":" + before');
  }

  /** Where one cursor is longer, the shorter one's request has taken in the difference. */
  lemma SharedIsShifted(chat: string, limit: nat, before: string,
                        chat': string, limit': nat, before': string) returns (u: string)
    requires Tail(chat, limit, before) == Tail(chat', limit', before') && |before'| < |before|
    ensures Shifted(chat, limit, before, chat', limit', before', u)
  {
    hide Decimal;
    var x, y := chat + ":" + Decimal(limit), chat' + ":" + Decimal(limit');
    var n := |before| - |before'| - 1;
    assert x + ":" + before == y + ":" + before';
    var w := before[..n];
    assert before == w + before[n..];
    assert (x + ":" + w) + before[n..] == x + ":" + before;
    assert y + (":" + before') == y + ":" + before';
    EqualTails(x + ":" + w, before[n..], y, ":" + before');
    LimitEnds(x + ":", w, chat', limit');
    u := w[..|w| - |Decimal(limit')|];
  }

  /** A limit written last lies wholly behind the last colon. */
  lemma LimitEnds(front: string, w: string, chat: string, limit: nat)
    requires front != "" && front[|front| - 1] == ':' && front + w == chat + ":" + Decimal(limit)
    ensures |Decimal(limit)| <= |w|
    ensures var u := w[..|w| - |Decimal(limit)|];
            w == u + Decimal(limit) && front + u == chat + ":"
  {
    var d := Decimal(limit);
    var f := front[..|front| - 1];
    assert ':' !in d && front == f + ":";
    hide Decimal;
    if |chat| < |f| {
      ColonInTail(chat, d, f, w);
    } else {
      var u := w[..|w| - |d|];
      assert w == u + w[|w| - |d|..];
      assert (front + u) + w[|w| - |d|..] == front + w;
      EqualTails(front + u, w[|w| - |d|..], chat + ":", d);
    }
  }

  /**
   Two requests of one account share a key if and only if they are the same, or one is the other
   shifted across a colon.
   */
  lemma SharesKeyIff(account: string, chat: string, limit: nat, before: string,
                     chat': string, limit': nat, before': string)
    ensures MessagesKey(account, chat, limit, before) == MessagesKey(account, chat', limit', before') <==>
      || (chat == chat' && limit == limit' && before == before')
      || (exists u :: Shifted(chat, limit, before, chat', limit', before', u))
      || (exists u :: Shifted(chat', limit', before', chat, limit, before, u))
  {
    SameTails(account, chat, limit, before, chat', limit', before');
    hide MessagesKey, Decimal, Shifted, Tail;
    forall u
      ensures Shifted(chat, limit, before, chat', limit', before', u) ==>
        Tail(chat, limit, before) == Tail(chat', limit', before')
      ensures Shifted(chat', limit', before', chat, limit, before, u) ==>
        Tail(chat, limit, before) == Tail(chat', limit', before')
    {
      if Shifted(chat, limit, before, chat', limit', before', u) {
        ShiftedShares(chat, limit, before, chat', limit', before', u);
      }
      if Shifted(chat', limit', before', chat, limit, before, u) {
        ShiftedShares(chat', limit', before', chat, limit, before, u);
      }
    }
    if Tail(chat, limit, before) == Tail(chat', limit', before') {
      if |before'| < |before| {
        var u := SharedIsShifted(chat, limit, before, chat', limit', before');
      } else if |before| < |before'| {
        var u := SharedIsShifted(chat', limit', before', chat, limit, before);
      } else {
        SameLengthTails(chat, limit, before, chat', limit', before');
      }
    }
  }

  lemma SameTails(account: string, chat: string, limit: nat, before: string,
                  chat': string, limit': nat, before': string)
    ensures MessagesKey(account, chat, limit, before) == MessagesKey(account, chat', limit', before')
       <==> Tail(chat, limit, before) == Tail(chat', limit', before')
  {
    KeyParts(account, chat, limit, before);
    KeyParts(account, chat', limit', before');
    hide MessagesKey, Tail;
    if MessagesKey(account, chat, limit, before) == MessagesKey(account, chat', limit', before') {
      var p := "msgs:" + account + ":";
      EqualTails(p, Tail(chat, limit, before), p, Tail(chat', limit', before'));
    }
  }

  lemma SameLengthTails(chat: string, limit: nat, before: string, chat': string, limit': nat, before': string)
    requires Tail(chat, limit, before) == Tail(chat', limit', before') && |before| == |before'|
    ensures chat == chat' && limit == limit' && before == before'
  {
    hide Decimal;
    var x, y := chat + ":" + Decimal(limit), chat' + ":" + Decimal(limit');
    EqualTails(x + ":", before, y + ":", before');
    EqualTails(x, ":", y, ":");
    DecimalHasNoColon(limit);
    DecimalHasNoColon(limit');
    LastColonSplits(chat, Decimal(limit), chat', Decimal(limit'));
    DecimalIsInjective(limit, limit');
  }

  lemma DecimalHasNoColon(n: nat)
    ensures ':' !in Decimal(n)
  {
  }

  // ---- Which cursors are safe together ----

  /**
   What callers ask with: a limit of 1 to 500, or 0 without a cursor, to which the agent's tool
   rounds a fraction.
   */
  predicate Asks(limit: nat, before: string) {
    1 <= limit <= 500 || (limit == 0 && before == "")
  }

  /** The messages endpoint and the MCP tool: a positive number up to a maximum, or 50. */
  function EndpointLimit(asked: Option<int>, most: nat): nat {
    var limit := if asked.Some? && 0 < asked.value then asked.value else 50;
    if most < limit then most else limit
  }

  /** The agent's tool: a positive number cut to an integer up to 100, or 30. */
  function ToolLimit(asked: Option<real>): nat {
    if asked.Some? && 0.0 < asked.value then
      var limit := asked.value.Floor;
      if 100 < limit then 100 else limit
    else 30
  }

  /** These are exactly the limits that the endpoint, the MCP tool and the agent's tool pass on. */
  lemma AsksIff(limit: nat, before: string)
    ensures Asks(limit, before) <==>
      || (exists asked :: EndpointLimit(asked, 500) == limit)
      || (exists asked :: EndpointLimit(asked, 200) == limit)
      || (before == "" && exists asked :: ToolLimit(asked) == limit)
  {
    if 1 <= limit <= 500 {
      assert EndpointLimit(Some(limit), 500) == limit;
    }
    assert ToolLimit(Some(0.5)) == 0;
    assert forall asked :: 1 <= EndpointLimit(asked, 500) <= 500 && 1 <= EndpointLimit(asked, 200) <= 200;
    assert forall asked :: ToolLimit(asked) <= 100;
  }

  predicate ExtendsBy(before: string, before': string, u: string, limit: nat) {
    Asks(limit, before') && (u == "" || u[|u| - 1] == ':') && before == u + Decimal(limit) + ":" + before'
  }

  /** `before` is a limit, a colon and `before'`, with nothing or text ending in a colon in front. */
  ghost predicate Extends(before: string, before': string) {
    exists u, limit :: ExtendsBy(before, before', u, limit)
  }

  datatype Page = Page(chat: string, limit: nat, before: string)

  type AskedPage = p: Page | Asks(p.limit, p.before) witness Page("", 50, "")

  function PageKey(account: string, p: Page): string {
    MessagesKey(account, p.chat, p.limit, p.before)
  }

  /**
   Different requests with these cursors, of any chat, can share a key if and only if one cursor
   extends the other.
   */
  lemma CursorsCollideIff(account: string, before: string, before': string)
    ensures (exists p: AskedPage, q: AskedPage ::
               p != q && p.before == before && q.before == before' && PageKey(account, p) == PageKey(account, q))
       <==> Extends(before, before') || Extends(before', before)
  {
    hide MessagesKey, PageKey, Extends, Shifted;
    forall p: AskedPage, q: AskedPage |
      p != q && p.before == before && q.before == before' && PageKey(account, p) == PageKey(account, q)
      ensures Extends(before, before') || Extends(before', before)
    {
      SharedExtends(account, p, q);
    }
    if Extends(before, before') {
      var p, q := Collision(account, "c", before, before');
    }
    if Extends(before', before) {
      var q, p := Collision(account, "c", before', before);
    }
  }

  lemma SharedExtends(account: string, p: AskedPage, q: AskedPage)
    requires PageKey(account, p) == PageKey(account, q) && p != q
    ensures Extends(p.before, q.before) || Extends(q.before, p.before)
  {
    SharesKeyIff(account, p.chat, p.limit, p.before, q.chat, q.limit, q.before);
    hide MessagesKey, Decimal, Shifted, Extends;
    if u :| Shifted(p.chat, p.limit, p.before, q.chat, q.limit, q.before, u) {
      ShiftedExtends(p, q, u);
    } else {
      var u :| Shifted(q.chat, q.limit, q.before, p.chat, p.limit, p.before, u);
      ShiftedExtends(q, p, u);
    }
  }

  lemma ShiftedExtends(p: AskedPage, q: AskedPage, u: string)
    requires Shifted(p.chat, p.limit, p.before, q.chat, q.limit, q.before, u)
    ensures Extends(p.before, q.before)
  {
    hide Decimal;
    var front := p.chat + ":" + Decimal(p.limit) + ":";
    assert q.chat + ":" == front + u;
    if u != "" {
      assert (front + u)[|front + u| - 1] == u[|u| - 1];
      assert (q.chat + ":")[|q.chat + ":"| - 1] == ':';
    }
    assert ExtendsBy(p.before, q.before, u, q.limit);
  }

  lemma Collision(account: string, chat: string, before: string, before': string)
    returns (p: AskedPage, q: AskedPage)
    requires Extends(before, before')
    ensures p != q && p.before == before && q.before == before' && PageKey(account, p) == PageKey(account, q)
    ensures p.chat == chat && q.chat != ""
  {
    var u, limit :| ExtendsBy(before, before', u, limit);
    hide Decimal, MessagesKey;
    p := Page(chat, 1, before);
    var front := p.chat + ":" + Decimal(1) + ":" + u;
    assert front[|front| - 1] == ':';
    q := Page(front[..|front| - 1], limit, before');
    assert q.chat + ":" == front;
    assert Shifted(p.chat, p.limit, p.before, q.chat, q.limit, q.before, u);
    ShiftedShares(p.chat, p.limit, p.before, q.chat, q.limit, q.before, u);
    SharesKeyIff(account, p.chat, p.limit, p.before, q.chat, q.limit, q.before);
  }

  /** Two requests share a key only if chat, limit and cursor all agree, where neither cursor extends the other. */
  lemma {:induction false} MessagesKeyIsInjective(account: string, p: AskedPage, q: AskedPage)
    requires !Extends(p.before, q.before) && !Extends(q.before, p.before)
    requires PageKey(account, p) == PageKey(account, q)
    ensures p == q
  {
    hide MessagesKey, Extends, PageKey;
    if p != q {
      SharedExtends(account, p, q);
    }
  }

  lemma StampShape(before: string)
    requires History.IsStamp(before)
    ensures 20 <= |before| && before[|before| - 1] == 'Z'
    ensures forall i :: 0 <= i < |before| - 9 ==> before[i] != ':'
  {
    hide Timestamps.Stamp;
    var unix :| Timestamps.Stamp(unix) == before;
    Timestamps.StampColons(unix);
  }

  /** No cursor a reader gets from the API, which is none or a stamp the program wrote, extends another. */
  lemma {:induction false} CanonicalCursorsAreSafe(before: string, before': string)
    requires (before == "" || History.IsStamp(before)) && (before' == "" || History.IsStamp(before'))
    ensures !Extends(before, before')
  {
    if before != "" {
      StampShape(before);
    }
    if before' != "" {
      StampShape(before');
    }
    hide Decimal, History.IsStamp;
    forall u, limit
      ensures !ExtendsBy(before, before', u, limit)
    {
      var front := u + Decimal(limit) + ":";
      var s := front + before';
      assert s[|s| - 1] == if before' == "" then ':' else before'[|before'| - 1];
      assert s[|s| - |before'| - 1] == ':';
    }
  }

  /** With free-form cursors the chat's own colons make two requests collide. */
  lemma FreeFormCursorsCollide(account: string)
    ensures MessagesKey(account, "c", 1, "2:x") == MessagesKey(account, "c:1", 2, "x")
    ensures Extends("2:x", "x")
  {
    assert Decimal(1) == "1" && Decimal(2) == "2";
    assert ExtendsBy("2:x", "x", "", 2);
  }

  /** The pattern clears the message keys of exactly the account it names. */
  lemma PatternIsOneAccount(account: string, other: string, chat: string, limit: nat, before: string)
    requires ':' !in account && ':' !in other
    ensures MatchesPattern(MessagesKey(other, chat, limit, before), account) <==> other == account
    ensures !MatchesPattern(ChatsKey(other), account)
  {
    var key, p := MessagesKey(other, chat, limit, before), "msgs:" + account + ":";
    var rest := Tail(chat, limit, before);
    KeyParts(other, chat, limit, before);
    hide MessagesKey, Decimal, Tail;
    if HasPrefix(key, p) {
      var tail := key[|p|..];
      assert key == p + tail;
      assert key == "msgs:" + (other + ":" + rest);
      assert p + tail == "msgs:" + (account + ":" + tail);
      EqualTails("msgs:", other + ":" + rest, "msgs:", account + ":" + tail);
      FirstColonSplits(other, rest, account, tail);
    }
    if other == account {
      assert key[..|p|] == p;
    }
    FirstLetter(ChatsKey(other), p);
  }

  lemma FirstLetter(s: string, prefix: string)
    requires s != "" && prefix != "" && s[0] != prefix[0]
    ensures !HasPrefix(s, prefix)
  {
    assert |prefix| <= |s| ==> s[..|prefix|][0] == s[0];
  }

  /** Each account has a chat-list key of its own, and without colons in their IDs no two share a page's key. */
  lemma AccountsShareNoKey(account: string, other: string, p: Page, q: Page)
    requires account != other
    ensures ChatsKey(account) != ChatsKey(other)
    ensures ':' !in account && ':' !in other ==> PageKey(account, p) != PageKey(other, q)
  {
    if ChatsKey(account) == ChatsKey(other) {
      EqualTails("chats:", account, "chats:", other);
    }
    if ':' !in account && ':' !in other {
      PatternIsOneAccount(account, account, p.chat, p.limit, p.before);
      PatternIsOneAccount(account, other, q.chat, q.limit, q.before);
    }
    hide MessagesKey, MatchesPattern;
  }
}
