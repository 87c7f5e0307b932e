/**
 Reading a chat page by page with `before` set to the last stamp returned
 (internal/service/account.go:1425-1481, internal/database/database.go:592-630). The cursor
 is a strict `timestamp <`, so a message is at risk when it is no older than a page's last one
 and not on the page: a tie, or beyond 200 a row the database's own limit of 50 cut off.
 */
module Paging {
  import opened Text
  import opened Collections
  import opened MessageTables
  import opened History

  function Flatten(pages: seq<seq<Message>>): seq<Message> {
    if pages == [] then [] else pages[0] + Flatten(pages[1..])
  }

  function Cursor(page: seq<Message>): string
    requires page != []
  {
    page[|page| - 1].timestamp
  }

  /** What `ListMessages` returns when no query fails. */
  ghost predicate IsPage(rows: Rows, account: string, jids: set<string>, limit: nat, before: string, page: seq<Message>) {
    Merged(rows, account, jids, {}, before, limit, page)
  }

  /** Successive answers to a reader that moves the cursor to the last stamp of each page. */
  ghost predicate Chain(rows: Rows, account: string, jids: set<string>, limit: nat, before: string,
                        pages: seq<seq<Message>>)
    decreases |pages|
  {
    pages != [] ==>
      && IsPage(rows, account, jids, limit, before, pages[0])
      && (1 < |pages| ==> pages[0] != [] && Chain(rows, account, jids, limit, Cursor(pages[0]), pages[1..]))
  }

  /** The chain has come to an empty page, where a reader stops. */
  predicate Finished(pages: seq<seq<Message>>) {
    pages != [] && pages[|pages| - 1] == []
  }

  /** The page leaves out nothing that is as new as its last message. */
  ghost predicate CleanBoundary(rows: Rows, account: string, jids: set<string>, before: string, page: seq<Message>)
    requires page != []
  {
    forall m :: m in SelectedAny(rows, account, jids, before) && AtMost(Cursor(page), m.timestamp) ==> m in page
  }

  ghost predicate CleanBoundaries(rows: Rows, account: string, jids: set<string>, before: string,
                                  pages: seq<seq<Message>>)
    decreases |pages|
  {
    pages != [] && pages[0] != [] ==>
      && CleanBoundary(rows, account, jids, before, pages[0])
      && CleanBoundaries(rows, account, jids, Cursor(pages[0]), pages[1..])
  }

  // ---- The reader ----

  /** Reads on from a cursor until a page is empty; the table stays as it is meanwhile. */
  method ReadFrom(a: Account, chatJID: string, limit: nat, before: string) returns (pages: seq<seq<Message>>)
    requires a.Valid() && 1 <= limit
    ensures Chain(a.table.rows, a.id, Aliases(a.lids, chatJID), limit, before, pages) && Finished(pages)
    decreases SelectedAny(a.table.rows, a.id, Aliases(a.lids, chatJID), before)
  {
    ghost var rows, jids := a.table.rows, Aliases(a.lids, chatJID);
    WellStoredIsStamped(rows);
    hide Aliases, WellStored, Merged, SelectedAny, Stamped;
    var r := a.ListMessages(chatJID, limit, before, {});
    assert r.Listed?;
    var page := r.messages;
    pages := [page];
    if page != [] {
      PageSplits(rows, a.id, jids, limit, before, page);
      LastIsSelected(rows, a.id, jids, limit, before, page);
      var rest := ReadFrom(a, chatJID, limit, Cursor(page));
      pages := [page] + rest;
      assert pages[1..] == rest;
    }
  }

  /** A reader that starts without a cursor. */
  method ReadAll(a: Account, chatJID: string, limit: nat) returns (messages: seq<Message>, ghost pages: seq<seq<Message>>)
    requires a.Valid() && 1 <= limit
    ensures Distinct(messages) && Sorted(messages)
    ensures Elements(messages) <= SelectedAny(a.table.rows, a.id, Aliases(a.lids, chatJID), "")
    ensures messages == Flatten(pages)
    ensures Elements(messages) == SelectedAny(a.table.rows, a.id, Aliases(a.lids, chatJID), "")
       <==> CleanBoundaries(a.table.rows, a.id, Aliases(a.lids, chatJID), "", pages)
    ensures Elements(messages) == SelectedAny(a.table.rows, a.id, Aliases(a.lids, chatJID), "")
       <==> NoSplit(SelectedAny(a.table.rows, a.id, Aliases(a.lids, chatJID), ""), Aliases(a.lids, chatJID), limit)
  {
    var read := ReadFrom(a, chatJID, limit, "");
    messages, pages := Flatten(read), read;
    WellStoredIsStamped(a.table.rows);
    hide Aliases, WellStored, SelectedAny, Stamped, Chain, CleanBoundaries, NoSplit;
    NothingTwice(a.table.rows, a.id, Aliases(a.lids, chatJID), limit, "", pages);
    VisitsAllIffCleanBoundaries(a.table.rows, a.id, Aliases(a.lids, chatJID), limit, "", pages);
    VisitsAllIffNoSplit(a.table.rows, a.id, Aliases(a.lids, chatJID), limit, "", pages);
  }

  // ---- One page ----

  lemma PageFacts(rows: Rows, account: string, jids: set<string>, limit: nat, before: string, page: seq<Message>)
    requires 1 <= limit && IsPage(rows, account, jids, limit, before, page)
    ensures Distinct(page) && Sorted(page) && Elements(page) <= SelectedAny(rows, account, jids, before)
    ensures page == [] ==> SelectedAny(rows, account, jids, before) == {}
    ensures limit <= 200 ==> Newest(SelectedAny(rows, account, jids, before), limit, page)
  {
    hide Less, AtLeastAsNew;
    assert jids - {} == jids;
    if page == [] && 200 < limit {
      forall jid | jid in jids
        ensures Selected(rows, account, jid, before) == {}
      {
        assert OfChat(Elements(page), jid) == {};
      }
      assert SelectedAny(rows, account, jids, before) == {} by {
        assert forall m :: m in SelectedAny(rows, account, jids, before) ==> m in Selected(rows, account, m.chatJID, before);
      }
    }
  }

  /** Up to 200 a page is any newest choice of the rows it may return. */
  lemma SmallPageIff(rows: Rows, account: string, jids: set<string>, limit: nat, before: string, page: seq<Message>)
    requires 1 <= limit <= 200
    ensures IsPage(rows, account, jids, limit, before, page) <==> Newest(SelectedAny(rows, account, jids, before), limit, page)
  {
    assert jids - {} == jids;
    hide Less, AtLeastAsNew, Distinct, Sorted, SelectedAny;
  }

  /** Moving the cursor to a selected message's stamp keeps exactly the older rows. */
  lemma CursorKeepsOlder(rows: Rows, account: string, jids: set<string>, before: string, last: Message)
    requires Stamped(rows) && last in SelectedAny(rows, account, jids, before)
    ensures forall m :: m in SelectedAny(rows, account, jids, last.timestamp)
                   <==> m in SelectedAny(rows, account, jids, before) && Less(m.timestamp, last.timestamp)
  {
    LessLaws();
    hide Less;
  }

  /** Nothing on a page is older than its last message. */
  lemma LastIsOldest(page: seq<Message>)
    requires Sorted(page) && page != []
    ensures page[|page| - 1] in Elements(page)
    ensures forall m :: m in page ==> AtMost(Cursor(page), m.timestamp)
  {
    hide Less;
    var last := page[|page| - 1];
    AgeIsTotal(last, last);
    forall m | m in page
      ensures AtLeastAsNew(m, last)
    {
      var i :| 0 <= i < |page| && page[i] == m;
      assert i < |page| - 1 ==> AtLeastAsNew(page[i], page[|page| - 1]);
    }
  }

  lemma LastIsSelected(rows: Rows, account: string, jids: set<string>, limit: nat, before: string, page: seq<Message>)
    requires 1 <= limit && page != [] && IsPage(rows, account, jids, limit, before, page)
    ensures page[|page| - 1] in SelectedAny(rows, account, jids, before)
    ensures page[|page| - 1] in Elements(page)
  {
    PageFacts(rows, account, jids, limit, before, page);
    hide IsPage, SelectedAny, Distinct, Sorted;
    assert page[|page| - 1] in Elements(page);
  }

  /** A page, the strictly older rows, and what is left out between them, split what the page was chosen from. */
  lemma PageSplits(rows: Rows, account: string, jids: set<string>, limit: nat, before: string,
                   page: seq<Message>)
    requires Stamped(rows) && page != [] && 1 <= limit
    requires IsPage(rows, account, jids, limit, before, page)
    ensures forall m :: m in page ==> AtMost(Cursor(page), m.timestamp)
    ensures forall m :: m in SelectedAny(rows, account, jids, before) ==>
      m in SelectedAny(rows, account, jids, Cursor(page)) || AtMost(Cursor(page), m.timestamp)
    ensures SelectedAny(rows, account, jids, Cursor(page)) <= SelectedAny(rows, account, jids, before)
    ensures SelectedAny(rows, account, jids, Cursor(page)) !! Elements(page)
    ensures forall m :: m in SelectedAny(rows, account, jids, Cursor(page)) ==> Less(m.timestamp, Cursor(page))
  {
    PageFacts(rows, account, jids, limit, before, page);
    LastIsOldest(page);
    LastIsSelected(rows, account, jids, limit, before, page);
    CursorKeepsOlder(rows, account, jids, before, page[|page| - 1]);
    hide Less, Stamped, IsPage, SelectedAny, Distinct, Sorted;
  }

  /** Up to 200 only ties with a page's last message are left out between it and the older rows. */
  lemma CleanIffNoTieIsLeft(rows: Rows, account: string, jids: set<string>, limit: nat, before: string,
                            page: seq<Message>)
    requires 1 <= limit <= 200 && page != [] && IsPage(rows, account, jids, limit, before, page)
    ensures CleanBoundary(rows, account, jids, before, page) <==>
      forall m :: m in SelectedAny(rows, account, jids, before) && m.timestamp == Cursor(page) ==> m in page
  {
    PageFacts(rows, account, jids, limit, before, page);
    LastIsOldest(page);
    LessLaws();
    hide Less, IsPage, SelectedAny, Distinct, Sorted;
    var last := page[|page| - 1];
    assert last in page;
    assert forall m :: m in SelectedAny(rows, account, jids, before) && m !in page ==> AtLeastAsNew(last, m);
  }

  // ---- Whole readings ----

  /** No message is returned twice, the whole reading is newest first, and all of it was asked for. */
  lemma {:induction false} NothingTwice(rows: Rows, account: string, jids: set<string>, limit: nat,
                                        before: string, pages: seq<seq<Message>>)
    requires Stamped(rows) && 1 <= limit && Chain(rows, account, jids, limit, before, pages)
    ensures Distinct(Flatten(pages)) && Sorted(Flatten(pages))
    ensures Elements(Flatten(pages)) <= SelectedAny(rows, account, jids, before)
    decreases |pages|
  {
    hide Stamped, SelectedAny, IsPage, Less;
    if pages != [] {
      var page, rest := pages[0], pages[1..];
      PageFacts(rows, account, jids, limit, before, page);
      if page == [] {
        assert rest == [];
      } else {
        PageSplits(rows, account, jids, limit, before, page);
        NothingTwice(rows, account, jids, limit, Cursor(page), rest);
        DistinctConcat(page, Flatten(rest));
        SortedConcat(page, Flatten(rest), Cursor(page));
      }
    }
  }

  lemma SortedConcat(one: seq<Message>, two: seq<Message>, cursor: string)
    requires Sorted(one) && Sorted(two)
    requires forall m :: m in one ==> AtMost(cursor, m.timestamp)
    requires forall m :: m in Elements(two) ==> Less(m.timestamp, cursor)
    ensures Sorted(one + two)
  {
    LessLaws();
    hide Less;
    forall i, j | 0 <= i < |one| && 0 <= j < |two|
      ensures AtLeastAsNew(one[i], two[j])
    {
      assert two[j] in Elements(two) && one[i] in one;
    }
  }

  /** Every page but the last holds a message, so a reading ends within one page per message. */
  lemma {:induction false} ReadingEnds(rows: Rows, account: string, jids: set<string>, limit: nat,
                                       before: string, pages: seq<seq<Message>>)
    requires Stamped(rows) && 1 <= limit && Chain(rows, account, jids, limit, before, pages)
    ensures |pages| <= |SelectedAny(rows, account, jids, before)| + 1
    ensures |pages| == |SelectedAny(rows, account, jids, before)| + 1 ==> Finished(pages)
    decreases |pages|
  {
    hide Stamped, SelectedAny, IsPage;
    if pages != [] && pages[0] != [] {
      var s, older := SelectedAny(rows, account, jids, before),
                      SelectedAny(rows, account, jids, Cursor(pages[0]));
      PageSplits(rows, account, jids, limit, before, pages[0]);
      LastIsSelected(rows, account, jids, limit, before, pages[0]);
      ReadingEnds(rows, account, jids, limit, Cursor(pages[0]), pages[1..]);
      SubsetSize(older, s);
    }
  }

  /**
   Whatever the limit, a finished reading has visited every message of the chat and its alias
   exactly when no page left out a message as new as its last.
   */
  lemma {:induction false} VisitsAllIffCleanBoundaries(rows: Rows, account: string, jids: set<string>, limit: nat,
                                                       before: string, pages: seq<seq<Message>>)
    requires Stamped(rows) && 1 <= limit
    requires Chain(rows, account, jids, limit, before, pages) && Finished(pages)
    ensures Elements(Flatten(pages)) == SelectedAny(rows, account, jids, before)
       <==> CleanBoundaries(rows, account, jids, before, pages)
    decreases |pages|
  {
    hide Less, AtLeastAsNew, Distinct, Sorted, SelectedAny, Stamped, IsPage;
    var s, page, rest := SelectedAny(rows, account, jids, before), pages[0], pages[1..];
    PageFacts(rows, account, jids, limit, before, page);
    if page == [] {
      assert rest == [];
      assert Elements(Flatten(pages)) == {};
    } else {
      var older := SelectedAny(rows, account, jids, Cursor(page));
      PageSplits(rows, account, jids, limit, before, page);
      assert Finished(rest);
      VisitsAllIffCleanBoundaries(rows, account, jids, limit, Cursor(page), rest);
      NothingTwice(rows, account, jids, limit, Cursor(page), rest);
      PageAndRest(s, older, page, Flatten(rest));
    }
  }

  lemma PageAndRest(s: set<Message>, older: set<Message>, page: seq<Message>, rest: seq<Message>)
    requires page != [] && Elements(page) <= s && older <= s && Elements(rest) <= older
    requires forall m :: m in s ==> m in older || AtMost(Cursor(page), m.timestamp)
    requires forall m :: m in older ==> Less(m.timestamp, Cursor(page))
    requires older !! Elements(page)
    ensures Elements(page + rest) == s <==>
      (forall m :: m in s && AtMost(Cursor(page), m.timestamp) ==> m in page) && Elements(rest) == older
  {
    LessLaws();
    hide Less;
    assert Elements(page + rest) == Elements(page) + Elements(rest);
    forall m | m in Elements(rest)
      ensures !AtMost(Cursor(page), m.timestamp)
    {
    }
  }

  // ---- Read off the table ----

  /** What is left behind a cursor at `m`'s second. */
  ghost function Behind(s: set<Message>, m: Message): (older: set<Message>)
    ensures older <= s && (m in s ==> |older| < |s|)
  {
    AgeIsTotal(m, m);
    var older := s - NoOlder(s, m);
    SubsetSize(older, s);
    assert m in s ==> m in NoOlder(s, m);
    older
  }

  /** As many messages as a page holds: up to 200 the limit, beyond it fifty of each alias. */
  ghost predicate FullPage(s: set<Message>, page: set<Message>, jids: set<string>, limit: nat) {
    if limit <= 200 then |page| == SmallerOf(limit, |s|)
    else forall jid :: jid in jids ==> |OfChat(page, jid)| == SmallerOf(50, |OfChat(s, jid)|)
  }

  /** The rows fall into full pages that no second is split by: some message and all as new make one, and so on behind it. */
  ghost predicate NoSplit(s: set<Message>, jids: set<string>, limit: nat)
    decreases |s|
  {
    s == {} || exists m :: m in s && FullPage(s, NoOlder(s, m), jids, limit) && NoSplit(Behind(s, m), jids, limit)
  }

  /** Of one size, a newest choice and all that is as new as some message are the same. */
  lemma UpSetIsKept(s: set<Message>, kept: set<Message>, up: set<Message>, limit: nat)
    requires Retains(kept, s, limit) && up <= s && |kept| == |up| == SmallerOf(limit, |s|)
    requires forall x, y :: x in up && y in s && AtLeastAsNew(y, x) ==> y in up
    ensures up == kept
  {
    hide AtLeastAsNew;
    if x :| x in up && x !in kept {
      SubsetSize(NoOlder(kept, x), kept);
      SubsetSize(up, s);
      SubsetSize(kept, s);
      assert x in s && x !in kept;
      assert NoOlder(kept, x) == kept;
      assert kept <= up;
      SubsetSize(kept, up);
    } else {
      SubsetSize(up, kept);
    }
  }

  /** A page's rows fill it. */
  lemma PageIsFull(rows: Rows, account: string, jids: set<string>, limit: nat, before: string, page: seq<Message>)
    requires 1 <= limit && IsPage(rows, account, jids, limit, before, page)
    ensures var s := SelectedAny(rows, account, jids, before);
      && FullPage(s, Elements(page), jids, limit)
      && (limit <= 200 ==> Retains(Elements(page), s, limit))
      && (200 < limit ==> forall jid :: jid in jids ==> Retains(OfChat(Elements(page), jid), OfChat(s, jid), 50))
  {
    PageFacts(rows, account, jids, limit, before, page);
    var s := SelectedAny(rows, account, jids, before);
    DistinctSize(page);
    if limit <= 200 {
      NewestRetains(s, limit, page);
    } else {
      assert jids - {} == jids;
      forall jid | jid in jids
        ensures OfChat(s, jid) == Selected(rows, account, jid, before)
        ensures KeepsNewest(rows, account, before, 50, Elements(page), jid)
      {
        hide Less;
      }
    }
    hide Less, AtLeastAsNew, Newest, Distinct, Sorted, SelectedAny, Retains;
  }

  /** Whatever message cuts off a full page of the table cuts off the page that was returned. */
  lemma FullCutIsThePage(rows: Rows, account: string, jids: set<string>, limit: nat, before: string,
                         page: seq<Message>, m: Message)
    requires 1 <= limit && IsPage(rows, account, jids, limit, before, page)
    requires var s := SelectedAny(rows, account, jids, before); m in s && FullPage(s, NoOlder(s, m), jids, limit)
    ensures NoOlder(SelectedAny(rows, account, jids, before), m) == Elements(page)
  {
    var s := SelectedAny(rows, account, jids, before);
    var up := NoOlder(s, m);
    PageFacts(rows, account, jids, limit, before, page);
    PageIsFull(rows, account, jids, limit, before, page);
    AgeLaws();
    hide AtLeastAsNew, IsPage, Less, Retains, Distinct, Sorted, Newest;
    if limit <= 200 {
      UpSetIsKept(s, Elements(page), up, limit);
    } else {
      forall jid | jid in jids
        ensures OfChat(up, jid) == OfChat(Elements(page), jid)
      {
        UpSetIsKept(OfChat(s, jid), OfChat(Elements(page), jid), OfChat(up, jid), 50);
      }
      assert forall x :: x in s ==> x.chatJID in jids;
      hide SelectedAny, NoOlder;
      SameOfEachChat(up, Elements(page), s, jids);
    }
  }

  lemma SameOfEachChat(one: set<Message>, two: set<Message>, s: set<Message>, jids: set<string>)
    requires one <= s && two <= s && forall x :: x in s ==> x.chatJID in jids
    requires forall jid :: jid in jids ==> OfChat(one, jid) == OfChat(two, jid)
    ensures one == two
  {
    forall x | x in s
      ensures x in one <==> x in two
    {
      assert x in OfChat(one, x.chatJID) <==> x in OfChat(two, x.chatJID);
    }
  }

  /** A boundary is clean if and only if some message of the table cuts off a full page; and its cut is the cursor's. */
  lemma CleanIffCut(rows: Rows, account: string, jids: set<string>, limit: nat, before: string, page: seq<Message>)
    requires 1 <= limit && page != [] && IsPage(rows, account, jids, limit, before, page)
    ensures var s, last := SelectedAny(rows, account, jids, before), page[|page| - 1];
      && last in s
      && (CleanBoundary(rows, account, jids, before, page) <==> FullPage(s, NoOlder(s, last), jids, limit))
      && forall m :: m in s && FullPage(s, NoOlder(s, m), jids, limit) ==> NoOlder(s, m) == NoOlder(s, last)
  {
    var s, last := SelectedAny(rows, account, jids, before), page[|page| - 1];
    PageFacts(rows, account, jids, limit, before, page);
    PageIsFull(rows, account, jids, limit, before, page);
    LastIsSelected(rows, account, jids, limit, before, page);
    LastIsOldest(page);
    CleanIsUpSet(rows, account, jids, before, page);
    forall m | m in s && FullPage(s, NoOlder(s, m), jids, limit)
      ensures NoOlder(s, m) == Elements(page) == NoOlder(s, last)
    {
      FullCutIsThePage(rows, account, jids, limit, before, page, m);
      SameCut(s, Elements(page), m, last);
    }
    hide IsPage, SelectedAny, FullPage, NoOlder, CleanBoundary, Distinct, Sorted, Newest, Less;
  }

  lemma CleanIsUpSet(rows: Rows, account: string, jids: set<string>, before: string, page: seq<Message>)
    requires page != [] && Elements(page) <= SelectedAny(rows, account, jids, before)
    requires forall m :: m in page ==> AtMost(Cursor(page), m.timestamp)
    ensures CleanBoundary(rows, account, jids, before, page)
       <==> NoOlder(SelectedAny(rows, account, jids, before), page[|page| - 1]) == Elements(page)
  {
    hide Less, SelectedAny;
    assert forall m :: m in page <==> m in Elements(page);
  }

  lemma SameCut(s: set<Message>, page: set<Message>, m: Message, last: Message)
    requires m in s && last in page && NoOlder(s, m) == page
    requires forall x :: x in page ==> AtLeastAsNew(x, last)
    ensures NoOlder(s, last) == page
  {
    AgeLaws();
    hide AtLeastAsNew;
  }

  lemma CursorIsBehind(rows: Rows, account: string, jids: set<string>, before: string, page: seq<Message>)
    requires Stamped(rows) && page != [] && page[|page| - 1] in SelectedAny(rows, account, jids, before)
    ensures SelectedAny(rows, account, jids, Cursor(page))
         == Behind(SelectedAny(rows, account, jids, before), page[|page| - 1])
  {
    CursorKeepsOlder(rows, account, jids, before, page[|page| - 1]);
    hide Less, SelectedAny, Stamped;
  }

  /**
   Whatever the limit, the boundaries of a finished reading are clean if and only if the table falls
   into full pages that split no second. Which of several tied messages a page returned plays no part.
   */
  lemma {:induction false} CleanBoundariesIffNoSplit(rows: Rows, account: string, jids: set<string>, limit: nat,
                                                     before: string, pages: seq<seq<Message>>)
    requires Stamped(rows) && 1 <= limit
    requires Chain(rows, account, jids, limit, before, pages) && Finished(pages)
    ensures CleanBoundaries(rows, account, jids, before, pages)
       <==> NoSplit(SelectedAny(rows, account, jids, before), jids, limit)
    decreases |pages|
  {
    hide Stamped, SelectedAny, IsPage, CleanBoundary, FullPage, NoOlder, Behind;
    var s, page, rest := SelectedAny(rows, account, jids, before), pages[0], pages[1..];
    PageFacts(rows, account, jids, limit, before, page);
    if page != [] {
      assert Finished(rest);
      CleanIffCut(rows, account, jids, limit, before, page);
      CursorIsBehind(rows, account, jids, before, page);
      CleanBoundariesIffNoSplit(rows, account, jids, limit, Cursor(page), rest);
      SameBehind(s);
    }
  }

  lemma SameBehind(s: set<Message>)
    ensures forall m, n :: NoOlder(s, m) == NoOlder(s, n) ==> Behind(s, m) == Behind(s, n)
  {
    hide NoOlder;
  }

  /** So the table decides: a finished reading is complete if and only if it falls into such pages. */
  lemma VisitsAllIffNoSplit(rows: Rows, account: string, jids: set<string>, limit: nat,
                            before: string, pages: seq<seq<Message>>)
    requires Stamped(rows) && 1 <= limit
    requires Chain(rows, account, jids, limit, before, pages) && Finished(pages)
    ensures Elements(Flatten(pages)) == SelectedAny(rows, account, jids, before)
       <==> NoSplit(SelectedAny(rows, account, jids, before), jids, limit)
  {
    hide *;
    VisitsAllIffCleanBoundaries(rows, account, jids, limit, before, pages);
    CleanBoundariesIffNoSplit(rows, account, jids, limit, before, pages);
  }

  /** Either every finished reading of a table is complete, or none is. */
  lemma AllReadingsAgree(rows: Rows, account: string, jids: set<string>, limit: nat, before: string,
                         one: seq<seq<Message>>, other: seq<seq<Message>>)
    requires Stamped(rows) && 1 <= limit
    requires Chain(rows, account, jids, limit, before, one) && Finished(one)
    requires Chain(rows, account, jids, limit, before, other) && Finished(other)
    ensures Elements(Flatten(one)) == SelectedAny(rows, account, jids, before)
       <==> Elements(Flatten(other)) == SelectedAny(rows, account, jids, before)
  {
    hide *;
    VisitsAllIffNoSplit(rows, account, jids, limit, before, one);
    VisitsAllIffNoSplit(rows, account, jids, limit, before, other);
  }

  /** Up to 200, when no two messages share a second, every boundary is clean. */
  lemma {:induction false} DistinctSecondsAreClean(rows: Rows, account: string, jids: set<string>, limit: nat,
                                                   before: string, pages: seq<seq<Message>>)
    requires Stamped(rows) && 1 <= limit <= 200 && Chain(rows, account, jids, limit, before, pages)
    requires forall x, y |
      x in SelectedAny(rows, account, jids, before) && y in SelectedAny(rows, account, jids, before)
      :: x.timestamp == y.timestamp ==> x == y
    ensures CleanBoundaries(rows, account, jids, before, pages)
    decreases |pages|
  {
    hide Stamped, SelectedAny, IsPage, CleanBoundary;
    if pages != [] && pages[0] != [] {
      PageSplits(rows, account, jids, limit, before, pages[0]);
      LastIsSelected(rows, account, jids, limit, before, pages[0]);
      CleanIffNoTieIsLeft(rows, account, jids, limit, before, pages[0]);
      DistinctSecondsAreClean(rows, account, jids, limit, Cursor(pages[0]), pages[1..]);
    }
  }

  // ---- A table that grows meanwhile ----

  /** Rows are added, never changed. */
  ghost predicate Grows(rows: Rows, later: Rows) {
    forall k :: k in rows ==> k in later && later[k] == rows[k]
  }

  /** Pages of a table that grows between them. */
  ghost predicate GrowingChain(tables: seq<Rows>, account: string, jids: set<string>, limit: nat, before: string,
                               pages: seq<seq<Message>>)
    decreases |pages|
  {
    |tables| == |pages| && (pages != [] ==>
      && Keyed(tables[0]) && Stamped(tables[0])
      && IsPage(tables[0], account, jids, limit, before, pages[0])
      && (1 < |pages| ==>
            pages[0] != [] && Grows(tables[0], tables[1])
            && GrowingChain(tables[1..], account, jids, limit, Cursor(pages[0]), pages[1..])))
  }

  /** All of these are rows of the table, older than the cursor. */
  ghost predicate OlderRows(messages: seq<Message>, rows: Rows, before: string) {
    forall i :: 0 <= i < |messages| ==>
      messages[i] in rows.Values && (before == "" || Less(messages[i].timestamp, before))
  }

  /**
   New messages or not, no message is returned twice, not even under its ID, and the whole reading
   is newest first.
   */
  lemma {:induction false} NothingTwiceWhileGrowing(tables: seq<Rows>, account: string, jids: set<string>, limit: nat,
                                                    before: string, pages: seq<seq<Message>>)
    requires 1 <= limit && pages != [] && GrowingChain(tables, account, jids, limit, before, pages)
    ensures Distinct(Flatten(pages)) && Sorted(Flatten(pages))
    ensures OlderRows(Flatten(pages), tables[|tables| - 1], before) && Keyed(tables[|tables| - 1])
    ensures Grows(tables[0], tables[|tables| - 1])
    ensures forall i, j :: 0 <= i < j < |Flatten(pages)| ==> Key(Flatten(pages)[i]) != Key(Flatten(pages)[j])
    decreases |pages|
  {
    hide Stamped, SelectedAny, IsPage, Less, OlderRows, Grows, Distinct, Sorted, Keyed;
    var page, rows, last := pages[0], tables[0], tables[|tables| - 1];
    PageFacts(rows, account, jids, limit, before, page);
    if |pages| == 1 {
      assert Flatten(pages) == page + Flatten([]) == page;
      GrowsAtOnce(rows);
      PageIsOlder(rows, last, account, jids, before, page);
    } else {
      var rest := Flatten(pages[1..]);
      NothingTwiceWhileGrowing(tables[1..], account, jids, limit, Cursor(page), pages[1..]);
      GrowsOn(rows, tables[1], last);
      PageIsOlder(rows, last, account, jids, before, page);
      PageThenOlder(rows, last, account, jids, limit, before, page, rest);
    }
    DistinctKeys(Flatten(pages), last, before);
  }

  lemma GrowsAtOnce(rows: Rows)
    ensures Grows(rows, rows)
  {
  }

  lemma GrowsOn(one: Rows, two: Rows, three: Rows)
    requires Grows(one, two) && Grows(two, three)
    ensures Grows(one, three)
  {
  }

  lemma PageIsOlder(rows: Rows, last: Rows, account: string, jids: set<string>, before: string, page: seq<Message>)
    requires Elements(page) <= SelectedAny(rows, account, jids, before) && Grows(rows, last)
    ensures OlderRows(page, last, before)
  {
    hide Less;
    forall i | 0 <= i < |page|
      ensures page[i] in last.Values && (before == "" || Less(page[i].timestamp, before))
    {
      assert page[i] in Elements(page);
      var k :| k in rows && rows[k] == page[i];
      assert last[k] == page[i];
    }
  }

  lemma PageThenOlder(rows: Rows, last: Rows, account: string, jids: set<string>, limit: nat, before: string,
                      page: seq<Message>, rest: seq<Message>)
    requires 1 <= limit && page != [] && IsPage(rows, account, jids, limit, before, page) && Stamped(rows)
    requires OlderRows(page, last, before) && OlderRows(rest, last, Cursor(page))
    requires Distinct(page) && Sorted(page) && Distinct(rest) && Sorted(rest)
    ensures Distinct(page + rest) && Sorted(page + rest) && OlderRows(page + rest, last, before)
  {
    LastIsOldest(page);
    LastIsSelected(rows, account, jids, limit, before, page);
    LessLaws();
    assert Cursor(page) != "";
    assert page[|page| - 1] in page;
    hide Less, SelectedAny, IsPage, Stamped;
    forall m | m in Elements(rest)
      ensures Less(m.timestamp, Cursor(page))
    {
      var i :| 0 <= i < |rest| && rest[i] == m;
    }
    assert Elements(page) !! Elements(rest);
    assert before != "" ==> Less(Cursor(page), before);
    DistinctConcat(page, rest);
    SortedConcat(page, rest, Cursor(page));
  }

  lemma DistinctKeys(messages: seq<Message>, rows: Rows, before: string)
    requires Distinct(messages) && OlderRows(messages, rows, before) && Keyed(rows)
    ensures forall i, j :: 0 <= i < j < |messages| ==> Key(messages[i]) != Key(messages[j])
  {
    hide Less;
    forall i | 0 <= i < |messages|
      ensures Key(messages[i]) in rows && rows[Key(messages[i])] == messages[i]
    {
      assert messages[i] in rows.Values;
      var k :| k in rows && rows[k] == messages[i];
    }
  }

  /** Ties do get lost: two messages of one second, read one at a time, leave one unread. */
  lemma {:induction false} SplitTieIsLost(account: string, chat: string, one: Message, two: Message)
    requires one.accountID == two.accountID == account && one.chatJID == two.chatJID == chat
    requires one.id != two.id && one.timestamp == two.timestamp && Stored(one) && Stored(two)
    ensures var rows := map[Key(one) := one, Key(two) := two];
      && WellStored(rows)
      && Chain(rows, account, {chat}, 1, "", [[one], []]) && Finished([[one], []])
      && two in SelectedAny(rows, account, {chat}, "") && two !in Flatten([[one], []])
  {
    var rows := map[Key(one) := one, Key(two) := two];
    LessLaws();
    hide Less, Stored;
    assert rows[Key(one)] == one && rows[Key(two)] == two;
    assert forall m :: m in rows.Values <==> m == one || m == two;
    WellStoredIsStamped(rows);
    hide WellStored, Stamped;
    assert SelectedAny(rows, account, {chat}, "") == {one, two};
    CursorKeepsOlder(rows, account, {chat}, "", one);
    assert SelectedAny(rows, account, {chat}, one.timestamp) == {};
    SmallPageIff(rows, account, {chat}, 1, "", [one]);
    SmallPageIff(rows, account, {chat}, 1, one.timestamp, []);
    assert [[one], []][1..] == [[]];
    assert Chain(rows, account, {chat}, 1, one.timestamp, [[]]);
    assert Flatten([[one], []]) == [one] + Flatten([[]]);
  }

  /**
   Past 200 a reading is cut off where one alias has more than 50 messages and all of the other's,
   at most 50, are older: the cursor moves to the other's oldest and the rest of the first is skipped.
   */
  lemma {:induction false} LargeLimitSkips(rows: Rows, account: string, a: string, b: string, limit: nat,
                                           before: string, pages: seq<seq<Message>>)
    requires Stamped(rows) && 200 < limit && a != b
    requires Chain(rows, account, {a, b}, limit, before, pages) && Finished(pages)
    requires 50 < |Selected(rows, account, a, before)| && 1 <= |Selected(rows, account, b, before)| <= 50
    requires forall x, y ::
      x in Selected(rows, account, a, before) && y in Selected(rows, account, b, before) ==>
        Less(y.timestamp, x.timestamp)
    ensures Elements(Flatten(pages)) != SelectedAny(rows, account, {a, b}, before)
  {
    var page := pages[0];
    var all, xs, ys := SelectedAny(rows, account, {a, b}, before), Selected(rows, account, a, before),
                       Selected(rows, account, b, before);
    FirstLargePage(rows, account, a, b, limit, before, page);
    VisitsAllIffCleanBoundaries(rows, account, {a, b}, limit, before, pages);
    hide Chain, IsPage, Stamped, Less;
  }

  lemma {:induction false} FirstLargePage(rows: Rows, account: string, a: string, b: string, limit: nat,
                                          before: string, page: seq<Message>)
    requires 200 < limit && a != b && IsPage(rows, account, {a, b}, limit, before, page)
    requires 50 < |Selected(rows, account, a, before)| && 1 <= |Selected(rows, account, b, before)| <= 50
    requires forall x, y ::
      x in Selected(rows, account, a, before) && y in Selected(rows, account, b, before) ==>
        Less(y.timestamp, x.timestamp)
    ensures page != [] && !CleanBoundary(rows, account, {a, b}, before, page)
  {
    var xs, ys := Selected(rows, account, a, before), Selected(rows, account, b, before);
    PageFacts(rows, account, {a, b}, limit, before, page);
    assert {a, b} - {} == {a, b};
    var fromA, fromB := OfChat(Elements(page), a), OfChat(Elements(page), b);
    LessLaws();
    hide Less, Retains, Distinct;
    assert fromA <= xs && fromB <= ys;
    SubsetSize(fromA, xs);
    SubsetSize(fromB, ys);
    LastIsOldest(page);
    assert |fromA| == 50 && |fromB| == |ys|;
    assert fromA != xs && fromB != {};
    var x :| x in xs && x !in fromA;
    var y :| y in fromB;
    assert x !in page && x in SelectedAny(rows, account, {a, b}, before);
    assert AtMost(Cursor(page), y.timestamp) && Less(y.timestamp, x.timestamp);
  }
}
