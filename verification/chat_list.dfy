/**
 The chat list (internal/service/account.go:1504-1693): joined groups, then contacts that
 have messages, then stored chats in neither, each enriched with its last message and unread
 count, and sorted. Map iteration and the sort of equal chats are taken in any order.
 */
module ChatList {
  import opened Text
  import opened Collections
  import opened MessageTables
  import opened History
  import opened Summaries

  datatype JID = JID(user: string, server: string)

  function Show(j: JID): string {
    j.user + "@" + j.server
  }

  datatype Contact = Contact(fullName: string, businessName: string, pushName: string)
  datatype Settings = Settings(pinned: bool, archived: bool, muted: bool)
  datatype Group = Group(jid: JID, name: string)

  /** What the WhatsApp client answers; `None` is a failed fetch, a missing key nothing found. */
  datatype Directory = Directory(
    groups: Option<seq<Group>>, contacts: Option<map<JID, Contact>>,
    settings: map<JID, Settings>, groupNames: map<string, string>, lids: LidMap)

  datatype Chat = Chat(
    id: string, name: string, isGroup: bool,
    lastMessage: Option<string>, lastSender: Option<string>, timestamp: Option<string>, unread: nat,
    pinned: bool, muted: bool, archived: bool)

  predicate Skip(id: string) {
    id == "status@broadcast" || HasSuffix(id, "@broadcast") || HasSuffix(id, "@newsletter")
  }

  function UnreadOf(unread: map<string, nat>, jid: string): nat {
    if jid in unread then unread[jid] else 0
  }

  /** Last message, its sender and the unread count, as stored under `source`. */
  function WithSummary(chat: Chat, source: string, last: map<string, Message>, unread: map<string, nat>): Chat {
    var counted := chat.(unread := UnreadOf(unread, source));
    if source in last then
      var lm := last[source];
      counted.(lastMessage := Some(lm.body), timestamp := Some(lm.timestamp),
               lastSender := if chat.isGroup && !lm.fromMe then Some(lm.senderJID) else chat.lastSender)
    else counted
  }

  /** The list entry before enrichment. */
  function Blank(id: string, name: string, isGroup: bool): Chat {
    Chat(id, name, isGroup, None, None, None, 0, false, false, false)
  }

  /** `enrich`: local settings by JID, then the summaries stored under the chat's own ID. */
  function Enrich(chat: Chat, jid: JID, settings: map<JID, Settings>,
                  last: map<string, Message>, unread: map<string, nat>): Chat
  {
    var set_ := if jid in settings then
      chat.(pinned := settings[jid].pinned, archived := settings[jid].archived, muted := settings[jid].muted)
    else chat;
    WithSummary(set_, chat.id, last, unread)
  }

  function ContactName(jid: JID, c: Contact): string {
    if c.fullName != "" then c.fullName
    else if c.businessName != "" then c.businessName
    else if c.pushName != "" then c.pushName
    else "+" + jid.user
  }

  function ContactID(lids: LidMap, jid: JID): string {
    if jid.server == "lid" then ResolveLID(lids, Show(jid)) else Show(jid)
  }

  /** The part of a JID string before its first `@`. */
  function UserPart(jid: string): string {
    if jid == "" || jid[0] == '@' then "" else [jid[0]] + UserPart(jid[1..])
  }

  /**
   What WhatsApp's identifiers guarantee: joined groups are distinct and not LIDs, servers
   hold no `@`, and no LID resolves to a LID.
   */
  ghost predicate WellFormed(d: Directory) {
    && (forall k :: k in d.lids.phoneForLid ==> !HasSuffix(d.lids.phoneForLid[k], "@lid"))
    && (d.groups.Some? ==>
          && (forall g :: g in d.groups.value ==> '@' !in g.jid.server && g.jid.server != "lid")
          && forall i, j :: 0 <= i < j < |d.groups.value| ==> Show(d.groups.value[i].jid) != Show(d.groups.value[j].jid))
    && (d.contacts.Some? ==> forall j :: j in d.contacts.value ==> '@' !in j.server)
  }

  /** What follows the `@` is the server, and nothing else. */
  lemma ServerIsSuffix(j: JID, server: string)
    requires '@' !in j.server && '@' !in server
    ensures HasSuffix(Show(j), "@" + server) <==> j.server == server
  {
    var s, tail := Show(j), "@" + server;
    assert s == j.user + ("@" + j.server);
    if j.server == server {
      assert s[|j.user|..] == tail;
    } else if HasSuffix(s, tail) {
      SuffixIsServer(j, server);
    }
  }

  lemma SuffixIsServer(j: JID, server: string)
    requires '@' !in j.server && '@' !in server && HasSuffix(Show(j), "@" + server)
    ensures j.server == server
  {
    var s, tail := Show(j), "@" + server;
    var n := |s| - |tail|;
    assert s[n..] == tail && s[|j.user|] == '@' && s[n] == tail[0] == '@';
    assert forall k :: 0 <= k < |server| ==> tail[k + 1] == server[k];
    assert forall k :: 0 <= k < |j.server| ==> s[|j.user| + 1 + k] == j.server[k];
    assert n == |j.user|;
    assert j.server == s[|j.user| + 1..] == tail[1..] == server;
  }

  lemma OnlyLidServersAreLids(j: JID)
    requires '@' !in j.server
    ensures HasSuffix(Show(j), "@lid") <==> j.server == "lid"
  {
    assert "@" + "lid" == "@lid";
    ServerIsSuffix(j, "lid");
  }

  /** Only broadcasts and newsletters are left off the list; so no group, no phone and no LID is. */
  lemma SkipIff(j: JID)
    requires '@' !in j.server
    ensures Skip(Show(j)) <==> j.server == "broadcast" || j.server == "newsletter"
  {
    assert "@" + "broadcast" == "@broadcast" && "@" + "newsletter" == "@newsletter";
    ServerIsSuffix(j, "broadcast");
    ServerIsSuffix(j, "newsletter");
    StatusIsBroadcast();
    hide HasSuffix, Show;
  }

  lemma StatusIsBroadcast()
    ensures HasSuffix("status@broadcast", "@broadcast")
  {
    assert "status@broadcast"[6..] == "@broadcast";
  }

  lemma ResolvedIsFixed(d: Directory, jid: string)
    requires WellFormed(d)
    ensures ResolveLID(d.lids, ResolveLID(d.lids, jid)) == ResolveLID(d.lids, jid)
  {
  }

  lemma GroupIsFixed(d: Directory, g: Group)
    requires WellFormed(d) && d.groups.Some? && g in d.groups.value
    ensures ResolveLID(d.lids, Show(g.jid)) == Show(g.jid)
  {
    OnlyLidServersAreLids(g.jid);
  }

  lemma ContactIsFixed(d: Directory, jid: JID)
    requires WellFormed(d) && d.contacts.Some? && jid in d.contacts.value
    ensures ResolveLID(d.lids, ContactID(d.lids, jid)) == ContactID(d.lids, jid)
  {
    OnlyLidServersAreLids(jid);
    ResolvedIsFixed(d, Show(jid));
  }

  // ---- What a listing promises ----

  ghost predicate DistinctIDs(chats: seq<Chat>) {
    forall i, j :: 0 <= i < j < |chats| ==> chats[i].id != chats[j].id
  }

  ghost function IDs(chats: seq<Chat>): set<string> {
    set c | c in chats :: c.id
  }

  /** The entry shows what is stored under `source`. */
  ghost predicate Shows(chat: Chat, source: string, last: map<string, Message>, unread: map<string, nat>) {
    && chat.unread == UnreadOf(unread, source)
    && chat.timestamp == (if source in last then Some(last[source].timestamp) else None)
    && chat.lastMessage == (if source in last then Some(last[source].body) else None)
    && chat.lastSender ==
         (if source in last && chat.isGroup && !last[source].fromMe then Some(last[source].senderJID) else None)
  }

  /**
   No ID repeats, none is skipped, and each entry shows what is stored under one JID that
   resolves to it.
   */
  ghost predicate Lists(lids: LidMap, last: map<string, Message>, unread: map<string, nat>,
                        chats: seq<Chat>, sources: map<string, string>) {
    && DistinctIDs(chats) && IDs(chats) == sources.Keys
    && forall c :: c in chats ==>
         && c.id in sources && !Skip(c.id)
         && ResolveLID(lids, sources[c.id]) == c.id && Shows(c, sources[c.id], last, unread)
  }

  function SortStamp(c: Chat): string {
    if c.timestamp.Some? then c.timestamp.value else ""
  }

  /** Pinned before unpinned, then newest first. */
  predicate InOrder(a: Chat, b: Chat) {
    if a.pinned != b.pinned then a.pinned else AtMost(SortStamp(b), SortStamp(a))
  }

  ghost predicate SortedChats(chats: seq<Chat>) {
    forall i, j :: 0 <= i < j < |chats| ==> InOrder(chats[i], chats[j])
  }

  lemma Extend(lids: LidMap, last: map<string, Message>, unread: map<string, nat>,
               chats: seq<Chat>, sources: map<string, string>, chat: Chat, source: string)
    requires Lists(lids, last, unread, chats, sources)
    requires chat.id !in sources && !Skip(chat.id)
    requires ResolveLID(lids, source) == chat.id && Shows(chat, source, last, unread)
    ensures Lists(lids, last, unread, chats + [chat], sources[chat.id := source])
  {
    hide Skip, ResolveLID, Shows;
    forall c | c in chats
      ensures c.id != chat.id
    {
      assert c.id in IDs(chats);
    }
    assert IDs(chats + [chat]) == IDs(chats) + {chat.id};
  }

  // ---- What is listed, and from where ----

  function GroupIDs(d: Directory): set<string> {
    if d.groups.None? then {} else set g | g in d.groups.value :: Show(g.jid)
  }

  /** A contact that has exchanged messages, under its own or its resolved JID. */
  predicate Qualifies(d: Directory, last: map<string, Message>, jid: JID) {
    d.contacts.Some? && jid in d.contacts.value && (ContactID(d.lids, jid) in last || Show(jid) in last)
  }

  function ContactIDs(d: Directory, last: map<string, Message>): set<string> {
    if d.contacts.None? then {}
    else set jid | jid in d.contacts.value && Qualifies(d, last, jid) :: ContactID(d.lids, jid)
  }

  function StoredIDs(d: Directory, last: map<string, Message>): set<string> {
    set jid | jid in last :: ResolveLID(d.lids, jid)
  }

  /** The IDs on the list: those of joined groups and of stored chats that are not skipped. */
  function ListedIDs(d: Directory, last: map<string, Message>): set<string> {
    set id | id in GroupIDs(d) + StoredIDs(d, last) && !Skip(id)
  }

  /** Listed as a group or contact, and so with what is stored under the ID itself. */
  predicate Claimed(d: Directory, last: map<string, Message>, id: string) {
    id in GroupIDs(d) || id in ContactIDs(d, last)
  }

  function ListedGroups(d: Directory): set<string> {
    set id | id in GroupIDs(d) && !Skip(id)
  }

  function ClaimedIDs(d: Directory, last: map<string, Message>): set<string> {
    set id | id in GroupIDs(d) + ContactIDs(d, last) && !Skip(id)
  }

  /** An order in which a map's keys are visited. */
  ghost predicate IsOrder(order: seq<string>, keys: set<string>) {
    Distinct(order) && Elements(order) == keys
  }

  /** The first JID visited that resolves to `id`. */
  function FirstOf(lids: LidMap, order: seq<string>, id: string): Option<string> {
    if order == [] then None
    else
      var earlier := FirstOf(lids, order[..|order| - 1], id);
      if earlier.Some? then earlier
      else if ResolveLID(lids, order[|order| - 1]) == id then Some(order[|order| - 1])
      else None
  }

  /** The JID whose stored messages the entry `id` shows. */
  function SourceOf(d: Directory, last: map<string, Message>, order: seq<string>, id: string): string {
    if Claimed(d, last, id) || FirstOf(d.lids, order, id).None? then id else FirstOf(d.lids, order, id).value
  }

  ghost function SourcesOf(d: Directory, last: map<string, Message>, order: seq<string>): map<string, string> {
    map id | id in ListedIDs(d, last) :: SourceOf(d, last, order, id)
  }

  lemma {:induction false} FirstOfResolves(lids: LidMap, order: seq<string>, id: string)
    ensures var first := FirstOf(lids, order, id);
      && (first.Some? ==> first.value in order && ResolveLID(lids, first.value) == id)
      && (first.None? ==> forall j :: j in order ==> ResolveLID(lids, j) != id)
  {
    hide ResolveLID;
    if order != [] {
      FirstOfResolves(lids, order[..|order| - 1], id);
      assert forall j :: j in order <==> j in order[..|order| - 1] || j == order[|order| - 1];
    }
  }

  /** A qualifying contact is listed under a JID that some stored JID resolves to. */
  lemma ContactsAreStored(d: Directory, last: map<string, Message>)
    requires WellFormed(d)
    ensures ContactIDs(d, last) <= StoredIDs(d, last)
  {
    hide Skip;
    forall id | id in ContactIDs(d, last)
      ensures id in StoredIDs(d, last)
    {
      var jid :| jid in d.contacts.value && Qualifies(d, last, jid) && ContactID(d.lids, jid) == id;
      ContactIsFixed(d, jid);
      OnlyLidServersAreLids(jid);
      assert ResolveLID(d.lids, Show(jid)) == id;
    }
  }

  predicate HasSettings(c: Chat, jid: JID, settings: map<JID, Settings>) {
    var s := if jid in settings then settings[jid] else Settings(false, false, false);
    c.pinned == s.pinned && c.archived == s.archived && c.muted == s.muted
  }

  function StoredName(d: Directory, id: string): string {
    if !HasSuffix(id, "@g.us") then "+" + UserPart(id)
    else if id in d.groupNames then d.groupNames[id]
    else ""
  }

  predicate IsFromGroup(d: Directory, c: Chat, g: Group) {
    Show(g.jid) == c.id && c.isGroup && c.name == g.name && HasSettings(c, g.jid, d.settings)
  }

  predicate IsFromContact(d: Directory, last: map<string, Message>, c: Chat, jid: JID)
    requires Qualifies(d, last, jid)
  {
    && ContactID(d.lids, jid) == c.id && c.isGroup == (jid.server == "g.us")
    && c.name == ContactName(jid, d.contacts.value[jid]) && HasSettings(c, jid, d.settings)
  }

  /** Kind, name and settings come from the group, else from a contact, else from the ID alone. */
  ghost predicate Decorated(d: Directory, last: map<string, Message>, c: Chat) {
    if c.id in GroupIDs(d) then exists g :: g in d.groups.value && IsFromGroup(d, c, g)
    else if c.id in ContactIDs(d, last) then
      exists jid :: jid in d.contacts.value && Qualifies(d, last, jid) && IsFromContact(d, last, c, jid)
    else
      && c.isGroup == HasSuffix(c.id, "@g.us") && c.name == StoredName(d, c.id)
      && !c.pinned && !c.archived && !c.muted
  }

  ghost predicate AllDecorated(d: Directory, last: map<string, Message>, chats: seq<Chat>) {
    forall c :: c in chats ==> Decorated(d, last, c)
  }

  // ---- The method ----

  /** `order` is the order in which Go happens to visit the stored chats. */
  method ListChats(connected: bool, d: Directory, last: map<string, Message>, unread: map<string, nat>,
                   order: seq<string>)
    returns (r: Option<seq<Chat>>)
    requires WellFormed(d) && IsOrder(order, last.Keys)
    ensures r.Some? <==> connected
    ensures r.Some? ==>
      && IDs(r.value) == ListedIDs(d, last) && DistinctIDs(r.value)
      && Lists(d.lids, last, unread, r.value, SourcesOf(d, last, order))
      && AllDecorated(d, last, r.value) && SortedChats(r.value)
    ensures r.Some? ==> forall j: JID | '@' !in j.server ::
      Show(j) in IDs(r.value) <==>
        j.server != "broadcast" && j.server != "newsletter"
        && ((d.groups.Some? && exists g :: g in d.groups.value && Show(g.jid) == Show(j))
            || exists stored :: stored in last && ResolveLID(d.lids, stored) == Show(j))
  {
    hide Skip, HasSuffix, Show, ResolveLID, SourcesOf, GroupIDs, ContactIDs, ListedIDs, Listing, SortedChats, Lists, AllDecorated;
    if !connected {
      return None;
    }
    var chats := AddGroups(d, last, unread);
    chats := AddContacts(d, last, unread, chats);
    chats := AddStored(d, last, unread, order, chats);
    var sorted := SortChats(chats);
    ListingMeans(d, last, unread, order, chats, sorted);
    ListedMeans(d, last);
    r := Some(sorted);
  }

  /** Who is on the list, by server: every joined group and every stored chat but broadcasts and newsletters. */
  lemma {:induction false} ListedMeans(d: Directory, last: map<string, Message>)
    ensures forall j: JID | '@' !in j.server ::
      Show(j) in ListedIDs(d, last) <==>
        j.server != "broadcast" && j.server != "newsletter"
        && ((d.groups.Some? && exists g :: g in d.groups.value && Show(g.jid) == Show(j))
            || exists stored :: stored in last && ResolveLID(d.lids, stored) == Show(j))
  {
    forall j: JID | '@' !in j.server
      ensures Skip(Show(j)) <==> j.server == "broadcast" || j.server == "newsletter"
    {
      SkipIff(j);
    }
    hide Skip, Show, ResolveLID;
  }

  lemma ListingMeans(d: Directory, last: map<string, Message>, unread: map<string, nat>, order: seq<string>,
                     chats: seq<Chat>, sorted: seq<Chat>)
    requires Listing(d, last, unread, chats, SourcesOf(d, last, order)) && multiset(sorted) == multiset(chats)
    ensures Lists(d.lids, last, unread, sorted, SourcesOf(d, last, order)) && AllDecorated(d, last, sorted)
    ensures IDs(sorted) == ListedIDs(d, last) && DistinctIDs(sorted)
  {
    hide Skip, ResolveLID, SourceOf, ListedIDs, Shows, Decorated;
    PermutationKeepsListing(d.lids, last, unread, chats, sorted, SourcesOf(d, last, order));
    SourcesAreListed(d, last, order);
    PermutationKeepsDecoration(d, last, chats, sorted);
  }

  lemma SourcesAreListed(d: Directory, last: map<string, Message>, order: seq<string>)
    ensures SourcesOf(d, last, order).Keys == ListedIDs(d, last)
  {
    hide ListedIDs, SourceOf;
  }

  lemma PermutationKeepsDecoration(d: Directory, last: map<string, Message>, chats: seq<Chat>, sorted: seq<Chat>)
    requires AllDecorated(d, last, chats) && multiset(chats) == multiset(sorted)
    ensures AllDecorated(d, last, sorted)
  {
    hide Decorated;
    forall c | c in sorted
      ensures c in chats
    {
      assert c in multiset(sorted);
    }
  }

  /** Each ID is its own source. */
  function Own(ids: set<string>): map<string, string> {
    map id | id in ids :: id
  }

  /** A listing with its sources, each entry as its group, contact or ID makes it. */
  ghost predicate Listing(d: Directory, last: map<string, Message>, unread: map<string, nat>,
                          chats: seq<Chat>, sources: map<string, string>) {
    Lists(d.lids, last, unread, chats, sources) && AllDecorated(d, last, chats)
  }

  lemma ListingGrows(d: Directory, last: map<string, Message>, unread: map<string, nat>,
                     chats: seq<Chat>, sources: map<string, string>, chat: Chat, source: string)
    requires Listing(d, last, unread, chats, sources) && chat.id !in sources && !Skip(chat.id)
    requires ResolveLID(d.lids, source) == chat.id && Shows(chat, source, last, unread) && Decorated(d, last, chat)
    ensures Listing(d, last, unread, chats + [chat], sources[chat.id := source])
  {
    hide Skip, ResolveLID, Shows, Decorated;
    Extend(d.lids, last, unread, chats, sources, chat, source);
    hide Lists;
  }

  lemma OwnGrows(ids: set<string>, id: string)
    ensures Own(ids)[id := id] == Own(ids + {id}) && Own(ids).Keys == ids
  {
  }

  lemma NothingListed(d: Directory, last: map<string, Message>, unread: map<string, nat>)
    ensures Listing(d, last, unread, [], Own({}))
  {
  }

  method AddGroups(d: Directory, last: map<string, Message>, unread: map<string, nat>)
    returns (chats: seq<Chat>)
    requires WellFormed(d)
    ensures Listing(d, last, unread, chats, Own(ListedGroups(d)))
  {
    NothingListed(d, last, unread);
    hide Skip, HasSuffix, Show, Enrich, Listing, Own;
    chats := [];
    ghost var ids: set<string> := {};
    if d.groups.None? {
      assert ListedGroups(d) == {};
      return;
    }
    var groups := d.groups.value;
    for i := 0 to |groups|
      invariant Listing(d, last, unread, chats, Own(ids))
      invariant forall k :: 0 <= k < i && !Skip(Show(groups[k].jid)) ==> Show(groups[k].jid) in ids
      invariant forall id :: id in ids ==> id in GroupIDs(d) && !Skip(id)
      invariant forall k :: i <= k < |groups| ==> Show(groups[k].jid) !in ids
    {
      var id := Show(groups[i].jid);
      if !Skip(id) {
        var chat := Enrich(Blank(id, groups[i].name, true), groups[i].jid, d.settings, last, unread);
        GroupJoins(d, last, unread, chats, ids, groups[i]);
        chats := chats + [chat];
        ids := ids + {id};
      }
    }
    assert ids == ListedGroups(d);
  }

  lemma GroupJoins(d: Directory, last: map<string, Message>, unread: map<string, nat>,
                   chats: seq<Chat>, ids: set<string>, g: Group)
    requires WellFormed(d) && d.groups.Some? && g in d.groups.value
    requires Listing(d, last, unread, chats, Own(ids)) && Show(g.jid) !in ids && !Skip(Show(g.jid))
    ensures var chat := Enrich(Blank(Show(g.jid), g.name, true), g.jid, d.settings, last, unread);
      Listing(d, last, unread, chats + [chat], Own(ids + {Show(g.jid)}))
  {
    hide Skip, Show, Shows, Enrich, ResolveLID, Listing, Own, HasSettings, WellFormed;
    var blank := Blank(Show(g.jid), g.name, true);
    var chat := Enrich(blank, g.jid, d.settings, last, unread);
    GroupIsFixed(d, g);
    EnrichShows(blank, g.jid, d.settings, last, unread);
    GroupIsDecorated(d, last, chat, g);
    OwnGrows(ids, chat.id);
    hide Decorated;
    ListingGrows(d, last, unread, chats, Own(ids), chat, chat.id);
  }

  lemma GroupIsDecorated(d: Directory, last: map<string, Message>, c: Chat, g: Group)
    requires d.groups.Some? && g in d.groups.value && IsFromGroup(d, c, g)
    ensures Decorated(d, last, c) && c.id in GroupIDs(d)
  {
    hide Show;
  }

  method AddContacts(d: Directory, last: map<string, Message>, unread: map<string, nat>, listed: seq<Chat>)
    returns (chats: seq<Chat>)
    requires WellFormed(d) && Listing(d, last, unread, listed, Own(ListedGroups(d)))
    ensures Listing(d, last, unread, chats, Own(ClaimedIDs(d, last)))
  {
    hide Skip, HasSuffix, Show, Enrich, ResolveLID, ContactID, GroupIDs, Listing, Own;
    ListedSeen(d, last, unread, listed, ListedGroups(d));
    chats := listed;
    ghost var ids := ListedGroups(d);
    if d.contacts.None? {
      assert ids == ClaimedIDs(d, last);
      return;
    }
    var seen := set c | c in chats :: c.id;
    var todo := d.contacts.value.Keys;
    while todo != {}
      invariant todo <= d.contacts.value.Keys
      invariant Listing(d, last, unread, chats, Own(ids)) && seen == ids && ListedGroups(d) <= ids
      invariant forall jid | jid in d.contacts.value.Keys - todo && Qualifies(d, last, jid)
        :: !Skip(ContactID(d.lids, jid)) ==> ContactID(d.lids, jid) in ids
      invariant forall id :: id in ids ==> id in GroupIDs(d) + ContactIDs(d, last) && !Skip(id)
      decreases todo
    {
      var jid :| jid in todo;
      todo := todo - {jid};
      var id := ContactID(d.lids, jid);
      if id !in seen && !Skip(id) && (id in last || Show(jid) in last) {
        var chat := Enrich(Blank(id, ContactName(jid, d.contacts.value[jid]), jid.server == "g.us"),
                           jid, d.settings, last, unread);
        ContactJoins(d, last, unread, chats, ids, jid);
        seen := seen + {id};
        chats := chats + [chat];
        ids := ids + {id};
      }
    }
    assert ids == ClaimedIDs(d, last);
  }

  lemma ListedSeen(d: Directory, last: map<string, Message>, unread: map<string, nat>,
                   chats: seq<Chat>, ids: set<string>)
    requires Listing(d, last, unread, chats, Own(ids))
    ensures (set c | c in chats :: c.id) == ids
  {
    hide Skip, ResolveLID, Shows, Decorated;
    OwnGrows(ids, "");
  }

  lemma ContactJoins(d: Directory, last: map<string, Message>, unread: map<string, nat>,
                     chats: seq<Chat>, ids: set<string>, jid: JID)
    requires WellFormed(d) && Qualifies(d, last, jid)
    requires Listing(d, last, unread, chats, Own(ids)) && ContactID(d.lids, jid) !in ids
    requires !Skip(ContactID(d.lids, jid)) && ContactID(d.lids, jid) !in GroupIDs(d)
    ensures var id := ContactID(d.lids, jid);
      var chat := Enrich(Blank(id, ContactName(jid, d.contacts.value[jid]), jid.server == "g.us"),
                         jid, d.settings, last, unread);
      Listing(d, last, unread, chats + [chat], Own(ids + {id})) && id in ContactIDs(d, last)
  {
    hide Skip, Show, Shows, Enrich, ResolveLID, ContactID, ContactName, Listing, Own, HasSettings, WellFormed, GroupIDs;
    var blank := Blank(ContactID(d.lids, jid), ContactName(jid, d.contacts.value[jid]), jid.server == "g.us");
    var chat := Enrich(blank, jid, d.settings, last, unread);
    ContactIsFixed(d, jid);
    EnrichShows(blank, jid, d.settings, last, unread);
    ContactIsDecorated(d, last, chat, jid);
    OwnGrows(ids, chat.id);
    hide Decorated, ContactIDs;
    ListingGrows(d, last, unread, chats, Own(ids), chat, chat.id);
  }

  lemma ContactIsDecorated(d: Directory, last: map<string, Message>, c: Chat, jid: JID)
    requires Qualifies(d, last, jid) && IsFromContact(d, last, c, jid) && c.id !in GroupIDs(d)
    ensures Decorated(d, last, c) && c.id in ContactIDs(d, last)
  {
    hide Show, ContactID;
  }

  lemma EnrichShows(chat: Chat, jid: JID, settings: map<JID, Settings>,
                    last: map<string, Message>, unread: map<string, nat>)
    requires chat.lastSender.None? && chat.timestamp.None? && chat.lastMessage.None?
    ensures var r := Enrich(chat, jid, settings, last, unread);
      && r.id == chat.id && r.name == chat.name && r.isGroup == chat.isGroup
      && Shows(r, chat.id, last, unread)
      && (!chat.pinned && !chat.archived && !chat.muted ==> HasSettings(r, jid, settings))
  {
    var decorated := if jid in settings then
      chat.(pinned := settings[jid].pinned, archived := settings[jid].archived, muted := settings[jid].muted)
    else chat;
    SummaryShows(decorated, chat.id, last, unread);
    hide WithSummary, Shows;
  }

  lemma SummaryShows(chat: Chat, source: string, last: map<string, Message>, unread: map<string, nat>)
    requires chat.lastSender.None? && chat.timestamp.None? && chat.lastMessage.None?
    ensures var r := WithSummary(chat, source, last, unread);
      && r.id == chat.id && r.name == chat.name && r.isGroup == chat.isGroup
      && r.pinned == chat.pinned && r.archived == chat.archived && r.muted == chat.muted
      && Shows(r, source, last, unread)
  {
  }

  /** The sources once the first `i` stored chats have been visited. */
  ghost predicate Visited(d: Directory, last: map<string, Message>, visited: seq<string>, sources: map<string, string>) {
    && (forall id :: id in sources <==>
          !Skip(id) && (Claimed(d, last, id) || FirstOf(d.lids, visited, id).Some?))
    && forall id :: id in sources ==> sources[id] == SourceOf(d, last, visited, id)
  }

  method AddStored(d: Directory, last: map<string, Message>, unread: map<string, nat>, order: seq<string>,
                   listed: seq<Chat>)
    returns (chats: seq<Chat>)
    requires WellFormed(d) && IsOrder(order, last.Keys)
    requires Listing(d, last, unread, listed, Own(ClaimedIDs(d, last)))
    ensures Listing(d, last, unread, chats, SourcesOf(d, last, order))
  {
    hide *;
    ghost var sources := Own(ClaimedIDs(d, last));
    StartsClaimed(d, last, ClaimedIDs(d, last));
    ListedSeen(d, last, unread, listed, ClaimedIDs(d, last));
    OwnGrows(ClaimedIDs(d, last), "");
    chats := listed;
    var seen := set c | c in chats :: c.id;
    assert order[..0] == [];
    for i := 0 to |order|
      invariant Listing(d, last, unread, chats, sources) && seen == sources.Keys
      invariant Visited(d, last, order[..i], sources)
    {
      var chatJID := order[i];
      var resolved := ResolveLID(d.lids, chatJID);
      assert order[..i + 1] == order[..i] + [chatJID];
      StoredStep(d, last, unread, order[..i], chats, sources, chatJID);
      if resolved !in seen && !Skip(resolved) {
        var chat := StoredChat(d, last, unread, chatJID);
        seen := seen + {resolved};
        chats := chats + [chat];
        sources := sources[resolved := chatJID];
      }
    }
    assert order[..|order|] == order;
    AllVisited(d, last, order, sources);
  }

  lemma StartsClaimed(d: Directory, last: map<string, Message>, from: set<string>)
    requires from == ClaimedIDs(d, last)
    ensures Visited(d, last, [], Own(from))
  {
    hide Skip, GroupIDs, ContactIDs;
    assert forall id :: FirstOf(d.lids, [], id) == None;
  }

  lemma VisitNext(d: Directory, last: map<string, Message>, visited: seq<string>, sources: map<string, string>, jid: string)
    requires Visited(d, last, visited, sources)
    ensures var id := ResolveLID(d.lids, jid);
      if id !in sources && !Skip(id)
      then !Claimed(d, last, id) && Visited(d, last, visited + [jid], sources[id := jid])
      else Visited(d, last, visited + [jid], sources)
  {
    hide Skip, ResolveLID, Claimed;
    assert (visited + [jid])[..|visited|] == visited;
    forall id
      ensures FirstOf(d.lids, visited + [jid], id) ==
        if FirstOf(d.lids, visited, id).Some? then FirstOf(d.lids, visited, id)
        else if ResolveLID(d.lids, jid) == id then Some(jid) else None
    {
    }
    hide FirstOf;
  }

  /** The entry of a stored chat that no group or contact has: what is stored under the JID visited. */
  function StoredChat(d: Directory, last: map<string, Message>, unread: map<string, nat>, jid: string): Chat {
    var id := ResolveLID(d.lids, jid);
    WithSummary(Blank(id, StoredName(d, id), HasSuffix(id, "@g.us")), jid, last, unread)
  }

  lemma StoredJoins(d: Directory, last: map<string, Message>, unread: map<string, nat>,
                    chats: seq<Chat>, sources: map<string, string>, jid: string)
    requires Listing(d, last, unread, chats, sources)
    requires var id := ResolveLID(d.lids, jid); id !in sources && !Skip(id) && !Claimed(d, last, id)
    ensures Listing(d, last, unread, chats + [StoredChat(d, last, unread, jid)], sources[ResolveLID(d.lids, jid) := jid])
  {
    hide Skip, ResolveLID, Claimed, Listing, StoredName, HasSuffix, Shows, Decorated;
    var id := ResolveLID(d.lids, jid);
    var chat := WithSummary(Blank(id, StoredName(d, id), HasSuffix(id, "@g.us")), jid, last, unread);
    StoredIsDecorated(d, last, chat, jid, unread);
    ListingGrows(d, last, unread, chats, sources, chat, jid);
  }

  /** One visit: the entry joins unless its chat is listed or skipped. */
  lemma StoredStep(d: Directory, last: map<string, Message>, unread: map<string, nat>, visited: seq<string>,
                   chats: seq<Chat>, sources: map<string, string>, jid: string)
    requires Listing(d, last, unread, chats, sources) && Visited(d, last, visited, sources)
    ensures var id := ResolveLID(d.lids, jid);
      if id !in sources && !Skip(id)
      then Listing(d, last, unread, chats + [StoredChat(d, last, unread, jid)], sources[id := jid])
           && Visited(d, last, visited + [jid], sources[id := jid])
      else Visited(d, last, visited + [jid], sources)
  {
    hide *;
    VisitNext(d, last, visited, sources, jid);
    if ResolveLID(d.lids, jid) !in sources && !Skip(ResolveLID(d.lids, jid)) {
      StoredJoins(d, last, unread, chats, sources, jid);
    }
  }

  lemma StoredIsDecorated(d: Directory, last: map<string, Message>, c: Chat, source: string, unread: map<string, nat>)
    requires !Claimed(d, last, c.id)
    requires c == WithSummary(Blank(c.id, StoredName(d, c.id), HasSuffix(c.id, "@g.us")), source, last, unread)
    ensures Decorated(d, last, c) && Shows(c, source, last, unread)
  {
    hide HasSuffix, GroupIDs, ContactIDs, StoredName;
  }

  lemma AllVisited(d: Directory, last: map<string, Message>, order: seq<string>, sources: map<string, string>)
    requires WellFormed(d) && IsOrder(order, last.Keys) && Visited(d, last, order, sources)
    ensures sources == SourcesOf(d, last, order)
  {
    StoredAreListed(d, last, order);
    hide Skip, Claimed, ListedIDs, SourceOf, WellFormed, IsOrder;
    assert sources.Keys == ListedIDs(d, last);
  }

  lemma StoredAreListed(d: Directory, last: map<string, Message>, order: seq<string>)
    requires WellFormed(d) && IsOrder(order, last.Keys)
    ensures forall id :: id in ListedIDs(d, last) <==>
      !Skip(id) && (Claimed(d, last, id) || FirstOf(d.lids, order, id).Some?)
  {
    hide Skip, ResolveLID, GroupIDs, ContactIDs, FirstOf;
    ContactsAreStored(d, last);
    forall id
      ensures FirstOf(d.lids, order, id).Some? <==> id in StoredIDs(d, last)
    {
      FirstOfResolves(d.lids, order, id);
      assert forall j :: j in order <==> j in Elements(order);
    }
  }

  /** Pinned chats come first; among those alike, no chat is followed by one whose last message is newer. */
  lemma SortedMeans(chats: seq<Chat>)
    ensures SortedChats(chats) <==> forall i, j :: 0 <= i < j < |chats| ==>
      && (chats[j].pinned ==> chats[i].pinned)
      && (chats[i].pinned == chats[j].pinned && chats[j].timestamp.Some? ==>
            (chats[i].timestamp.Some? && !Less(chats[i].timestamp.value, chats[j].timestamp.value))
            || (chats[i].timestamp.None? && chats[j].timestamp.value == ""))
  {
    hide Less;
    forall a: string
      ensures Less("", a) <==> a != ""
      ensures !Less(a, "")
    {
      EmptyIsLeast(a);
    }
  }

  lemma EmptyIsLeast(a: string)
    ensures (Less("", a) <==> a != "") && !Less(a, "")
  {
  }

  /** A contact is named by its saved name, else its business name, else the name it pushed, else its number. */
  lemma NameMeans(jid: JID, c: Contact)
    ensures var name := ContactName(jid, c);
      && (c.fullName != "" ==> name == c.fullName)
      && (c.fullName == "" && c.businessName != "" ==> name == c.businessName)
      && (c.fullName == c.businessName == "" && c.pushName != "" ==> name == c.pushName)
      && (c.fullName == c.businessName == c.pushName == "" ==> name == "+" + jid.user)
  {
  }

  /** A stored chat of a phone shows its number, a group the name the server has for it. */
  lemma {:induction false} StoredNameMeans(d: Directory, j: JID)
    requires '@' !in j.user && '@' !in j.server
    ensures j.server != "g.us" ==> StoredName(d, Show(j)) == "+" + j.user
    ensures j.server == "g.us" && Show(j) in d.groupNames ==> StoredName(d, Show(j)) == d.groupNames[Show(j)]
    ensures j.server == "g.us" && Show(j) !in d.groupNames ==> StoredName(d, Show(j)) == ""
  {
    assert "@" + "g.us" == "@g.us";
    ServerIsSuffix(j, "g.us");
    assert Show(j) == j.user + ("@" + j.server);
    UserPartEnds(j.user, j.server);
    hide HasSuffix, UserPart, Show;
  }

  lemma {:induction false} UserPartEnds(user: string, server: string)
    requires '@' !in user
    ensures UserPart(user + ("@" + server)) == user
  {
    if user == "" {
      assert user + ("@" + server) == "@" + server;
    } else {
      UserPartEnds(user[1..], server);
      assert (user + ("@" + server))[1..] == user[1..] + ("@" + server);
    }
  }

  method SortChats(chats: seq<Chat>) returns (out: seq<Chat>)
    ensures multiset(out) == multiset(chats) && SortedChats(out)
  {
    hide InOrder, SortedChats;
    EmptyIsSorted();
    out := [];
    for i := 0 to |chats|
      invariant multiset(out) == multiset(chats[..i]) && SortedChats(out)
    {
      var p := 0;
      while p < |out| && InOrder(out[p], chats[i])
        invariant 0 <= p <= |out|
        invariant forall k :: 0 <= k < p ==> InOrder(out[k], chats[i])
      {
        p := p + 1;
      }
      InsertionKeepsOrder(out, p, chats[i]);
      InsertionKeepsElements(out, p, chats[i]);
      assert chats[..i + 1] == chats[..i] + [chats[i]];
      out := out[..p] + [chats[i]] + out[p..];
    }
    assert chats[..|chats|] == chats;
  }

  lemma EmptyIsSorted()
    ensures SortedChats([])
  {
  }

  lemma InsertionKeepsElements(out: seq<Chat>, p: nat, c: Chat)
    requires p <= |out|
    ensures multiset(out[..p] + [c] + out[p..]) == multiset(out) + multiset{c}
  {
    assert out == out[..p] + out[p..];
  }

  lemma ChatOrderLaws()
    ensures forall x, y :: InOrder(x, y) || InOrder(y, x)
    ensures forall x, y, z :: InOrder(x, y) && InOrder(y, z) ==> InOrder(x, z)
  {
    LessLaws();
    hide Less, SortStamp;
  }

  lemma InsertionKeepsOrder(out: seq<Chat>, p: nat, c: Chat)
    requires SortedChats(out) && p <= |out| && forall k :: 0 <= k < p ==> InOrder(out[k], c)
    requires p < |out| ==> !InOrder(out[p], c)
    ensures SortedChats(out[..p] + [c] + out[p..])
  {
    ChatOrderLaws();
    hide InOrder;
  }

  lemma PermutationKeepsListing(lids: LidMap, last: map<string, Message>, unread: map<string, nat>,
                                chats: seq<Chat>, sorted: seq<Chat>, sources: map<string, string>)
    requires Lists(lids, last, unread, chats, sources) && multiset(chats) == multiset(sorted)
    ensures Lists(lids, last, unread, sorted, sources)
  {
    hide Skip, ResolveLID, Shows;
    PermutationKeeps(chats, sorted);
    assert forall c :: c in sorted <==> c in Elements(chats);
    forall i, j | 0 <= i < j < |sorted|
      ensures sorted[i].id != sorted[j].id
    {
      assert sorted[i] in Elements(chats) && sorted[j] in Elements(chats) && sorted[i] != sorted[j];
    }
    assert IDs(sorted) == IDs(chats);
  }

  // ---- Unread counts are conserved ----

  ghost function Total(unread: map<string, nat>, jids: set<string>): nat {
    if jids == {} then 0
    else
      var jid :| jid in jids;
      UnreadOf(unread, jid) + Total(unread, jids - {jid})
  }

  lemma {:induction false} TotalWithout(unread: map<string, nat>, jids: set<string>, jid: string)
    requires jid in jids
    ensures Total(unread, jids) == UnreadOf(unread, jid) + Total(unread, jids - {jid})
    decreases jids
  {
    var first :| first in jids && Total(unread, jids) == UnreadOf(unread, first) + Total(unread, jids - {first});
    if first != jid {
      TotalWithout(unread, jids - {first}, jid);
      TotalWithout(unread, jids - {jid}, first);
      assert jids - {first} - {jid} == jids - {jid} - {first};
    }
  }

  /** A part's total is at most the whole's, and equal exactly when nothing unread is outside it. */
  lemma {:induction false} TotalOfPart(unread: map<string, nat>, part: set<string>, whole: set<string>)
    requires part <= whole
    ensures Total(unread, part) <= Total(unread, whole)
    ensures Total(unread, part) == Total(unread, whole)
       <==> forall jid :: jid in whole - part ==> UnreadOf(unread, jid) == 0
    decreases whole
  {
    if exists jid :: jid in whole && jid !in part {
      var jid :| jid in whole && jid !in part;
      TotalWithout(unread, whole, jid);
      TotalOfPart(unread, part, whole - {jid});
      assert forall x :: x in whole - part <==> x == jid || x in whole - {jid} - part;
    } else {
      assert part == whole;
    }
  }

  ghost function ListedUnread(chats: seq<Chat>): nat {
    if chats == [] then 0 else ListedUnread(chats[..|chats| - 1]) + chats[|chats| - 1].unread
  }

  /** The stored JIDs whose counts the entries show. */
  ghost function Shown(chats: seq<Chat>, sources: map<string, string>): set<string>
    requires forall c :: c in chats ==> c.id in sources
  {
    set c | c in chats :: sources[c.id]
  }

  lemma {:induction false} ListedIsTotalShown(lids: LidMap, unread: map<string, nat>, chats: seq<Chat>,
                                              sources: map<string, string>)
    requires DistinctIDs(chats)
    requires forall c | c in chats ::
      c.id in sources && ResolveLID(lids, sources[c.id]) == c.id && c.unread == UnreadOf(unread, sources[c.id])
    ensures ListedUnread(chats) == Total(unread, Shown(chats, sources))
  {
    hide ResolveLID;
    if chats == [] {
      assert Shown(chats, sources) == {};
    } else {
      var rest, last := chats[..|chats| - 1], chats[|chats| - 1];
      ListedIsTotalShown(lids, unread, rest, sources);
      var shown := Shown(chats, sources);
      assert sources[last.id] !in Shown(rest, sources);
      assert last in chats && sources[last.id] in shown;
      assert shown == Shown(rest, sources) + {sources[last.id]};
      assert Shown(rest, sources) == shown - {sources[last.id]};
      TotalWithout(unread, shown, sources[last.id]);
    }
  }

  /** The stored JIDs that count as unread and are not skipped. */
  ghost function Countable(lids: LidMap, unread: map<string, nat>): set<string> {
    set jid | jid in unread && !Skip(ResolveLID(lids, jid))
  }

  /**
   The list never counts a message twice, and it counts all of them exactly when every
   countable JID is the one some entry shows.
   */
  lemma UnreadConserved(lids: LidMap, last: map<string, Message>, unread: map<string, nat>,
                        chats: seq<Chat>, sources: map<string, string>)
    requires Lists(lids, last, unread, chats, sources)
    requires forall jid :: jid in unread ==> 0 < unread[jid]
    ensures ListedUnread(chats) <= Total(unread, Countable(lids, unread))
    ensures ListedUnread(chats) == Total(unread, Countable(lids, unread))
       <==> Countable(lids, unread) <= Shown(chats, sources)
  {
    hide Skip, ResolveLID;
    ListedIsTotalShown(lids, unread, chats, sources);
    assert forall jid :: jid in Shown(chats, sources) && jid in unread ==> jid in Countable(lids, unread);
    TotalOfOverlap(unread, Shown(chats, sources), Countable(lids, unread));
  }

  lemma TotalOfOverlap(unread: map<string, nat>, shown: set<string>, countable: set<string>)
    requires forall jid :: jid in countable ==> 0 < UnreadOf(unread, jid)
    requires forall jid :: jid in shown && jid in unread ==> jid in countable
    ensures Total(unread, shown) <= Total(unread, countable)
    ensures Total(unread, shown) == Total(unread, countable) <==> countable <= shown
  {
    TotalOfPart(unread, shown * countable, shown);
    TotalOfPart(unread, shown * countable, countable);
    hide Total;
    assert countable <= shown <==> forall jid :: jid in countable - shown * countable ==> false;
  }

  /** Two unread aliases of one chat that storage did not unify always cost the list a count. */
  lemma UnmergedAliasesLoseCounts(lids: LidMap, last: map<string, Message>, unread: map<string, nat>,
                                  chats: seq<Chat>, sources: map<string, string>, one: string, two: string)
    requires Lists(lids, last, unread, chats, sources)
    requires forall jid :: jid in unread ==> 0 < unread[jid]
    requires one != two && one in Countable(lids, unread) && two in Countable(lids, unread)
    requires ResolveLID(lids, one) == ResolveLID(lids, two)
    ensures ListedUnread(chats) < Total(unread, Countable(lids, unread))
  {
    hide Skip, ResolveLID;
    UnreadConserved(lids, last, unread, chats, sources);
    assert one !in Shown(chats, sources) || two !in Shown(chats, sources);
  }

  // ---- Which counts are shown, in which runs ----

  /** The stored JIDs whose messages the list shows when Go visits the stored chats in this order. */
  ghost function ShownBy(d: Directory, last: map<string, Message>, order: seq<string>): set<string> {
    set id | id in ListedIDs(d, last) :: SourceOf(d, last, order, id)
  }

  /** The counts that `ListChats` lists add up to those of the JIDs its order shows. */
  lemma {:induction false} ListedUnreadIsShownBy(d: Directory, last: map<string, Message>, unread: map<string, nat>,
                                                 order: seq<string>, chats: seq<Chat>)
    requires Lists(d.lids, last, unread, chats, SourcesOf(d, last, order))
    ensures ListedUnread(chats) == Total(unread, ShownBy(d, last, order))
  {
    hide Skip, ResolveLID, SourceOf, ListedIDs;
    var sources := SourcesOf(d, last, order);
    ListedIsTotalShown(d.lids, unread, chats, sources);
    forall id | id in ListedIDs(d, last)
      ensures SourceOf(d, last, order, id) in Shown(chats, sources)
    {
      assert id in IDs(chats);
    }
    assert Shown(chats, sources) == ShownBy(d, last, order);
  }

  /** `jid` is shown whatever the order: under its own ID where that is claimed, else as the only one of its chat. */
  ghost predicate AlwaysShown(d: Directory, last: map<string, Message>, jid: string) {
    var id := ResolveLID(d.lids, jid);
    !Skip(id) &&
    if Claimed(d, last, id) then jid == id
    else jid in last && forall other :: other in last && ResolveLID(d.lids, other) == id ==> other == jid
  }

  /** `jid` is shown in no order: its chat is skipped, or listed under an ID that `jid` is not, or it has no messages. */
  predicate NeverShown(d: Directory, last: map<string, Message>, jid: string) {
    var id := ResolveLID(d.lids, jid);
    Skip(id) || if Claimed(d, last, id) then jid != id else jid !in last
  }

  /** Where a JID's messages are shown, for one order. */
  lemma {:induction false} ShownByIff(d: Directory, last: map<string, Message>, order: seq<string>, jid: string)
    requires WellFormed(d) && IsOrder(order, last.Keys)
    ensures var id := ResolveLID(d.lids, jid);
      jid in ShownBy(d, last, order) <==>
        !Skip(id) && if Claimed(d, last, id) then jid == id else FirstOf(d.lids, order, id) == Some(jid)
  {
    StoredAreListed(d, last, order);
    ClaimedAreFixed(d, last);
    forall id
      ensures var first := FirstOf(d.lids, order, id); first.Some? ==> ResolveLID(d.lids, first.value) == id
    {
      FirstOfResolves(d.lids, order, id);
    }
    hide Skip, ResolveLID, Claimed, ListedIDs, FirstOf, WellFormed, IsOrder;
    var id := ResolveLID(d.lids, jid);
    assert forall other :: other in ListedIDs(d, last) && SourceOf(d, last, order, other) == jid ==> other == id;
    assert id in ListedIDs(d, last) && SourceOf(d, last, order, id) == jid <==> jid in ShownBy(d, last, order);
  }

  lemma ClaimedAreFixed(d: Directory, last: map<string, Message>)
    requires WellFormed(d)
    ensures forall id :: Claimed(d, last, id) ==> ResolveLID(d.lids, id) == id
  {
    hide Show, Skip;
    forall id | Claimed(d, last, id)
      ensures ResolveLID(d.lids, id) == id
    {
      if id in GroupIDs(d) {
        var g :| g in d.groups.value && Show(g.jid) == id;
        GroupIsFixed(d, g);
      } else {
        var jid :| jid in d.contacts.value && Qualifies(d, last, jid) && ContactID(d.lids, jid) == id;
        ContactIsFixed(d, jid);
      }
    }
  }

  lemma {:induction false} OrderOf(keys: set<string>) returns (order: seq<string>)
    ensures IsOrder(order, keys)
  {
    if keys == {} {
      order := [];
    } else {
      var k :| k in keys;
      var rest := OrderOf(keys - {k});
      order := rest + [k];
      assert Elements(order) == Elements(rest) + {k};
      assert k !in Elements(rest);
    }
  }

  /** Some order visits the keys of `early` before all others. */
  lemma OrderWithFirst(keys: set<string>, early: set<string>) returns (order: seq<string>, n: nat)
    requires early <= keys
    ensures IsOrder(order, keys) && n <= |order| && IsOrder(order[..n], early)
  {
    var front := OrderOf(early);
    var back := OrderOf(keys - early);
    order, n := front + back, |front|;
    assert order[..n] == front;
    DistinctConcat(front, back);
    assert early + (keys - early) == keys;
  }

  lemma {:induction false} FirstOfPrefix(lids: LidMap, order: seq<string>, n: nat, id: string)
    requires n <= |order| && FirstOf(lids, order[..n], id).Some?
    ensures FirstOf(lids, order, id) == FirstOf(lids, order[..n], id)
  {
    hide ResolveLID;
    if n < |order| {
      assert order[..|order| - 1][..n] == order[..n];
      FirstOfPrefix(lids, order[..|order| - 1], n, id);
    } else {
      assert order[..n] == order;
    }
  }

  ghost predicate OnePerChat(lids: LidMap, jids: set<string>) {
    forall one, two | one in jids && two in jids :: ResolveLID(lids, one) == ResolveLID(lids, two) ==> one == two
  }

  /** Some order shows every JID of a set that has at most one stored JID of each unclaimed chat. */
  lemma OrderThatShows(d: Directory, last: map<string, Message>, wanted: set<string>) returns (order: seq<string>)
    requires WellFormed(d) && forall jid :: jid in wanted ==> !NeverShown(d, last, jid)
    requires OnePerChat(d.lids, wanted)
    ensures IsOrder(order, last.Keys) && wanted <= ShownBy(d, last, order)
  {
    hide Skip, ResolveLID, Claimed, ShownBy, WellFormed;
    var n;
    order, n := OrderWithFirst(last.Keys, wanted * last.Keys);
    forall jid | jid in wanted
      ensures jid in ShownBy(d, last, order)
    {
      var id := ResolveLID(d.lids, jid);
      assert !NeverShown(d, last, jid);
      ShownByIff(d, last, order, jid);
      if !Claimed(d, last, id) {
        assert jid in Elements(order[..n]);
        FirstOfResolves(d.lids, order[..n], id);
        var first := FirstOf(d.lids, order[..n], id);
        assert first.Some? && first.value in Elements(order[..n]);
        FirstOfPrefix(d.lids, order, n, id);
      }
    }
  }

  /** A JID's messages are shown in every run, or in none, exactly under these conditions on the inputs. */
  lemma ShownInEveryRunIff(d: Directory, last: map<string, Message>, jid: string)
    requires WellFormed(d)
    ensures (forall order :: IsOrder(order, last.Keys) ==> jid in ShownBy(d, last, order)) <==> AlwaysShown(d, last, jid)
    ensures (forall order :: IsOrder(order, last.Keys) ==> jid !in ShownBy(d, last, order)) <==> NeverShown(d, last, jid)
  {
    hide Skip, ResolveLID, Claimed, ShownBy, WellFormed;
    var id := ResolveLID(d.lids, jid);
    forall order | IsOrder(order, last.Keys)
      ensures AlwaysShown(d, last, jid) ==> jid in ShownBy(d, last, order)
      ensures NeverShown(d, last, jid) ==> jid !in ShownBy(d, last, order)
    {
      ShownByIff(d, last, order, jid);
      FirstOfResolves(d.lids, order, id);
      assert forall j :: j in order <==> j in Elements(order);
    }
    if !NeverShown(d, last, jid) {
      var order := OrderThatShows(d, last, {jid});
      if !AlwaysShown(d, last, jid) {
        var other :| other in last && ResolveLID(d.lids, other) == id && other != jid;
        var hiding := OrderThatShows(d, last, {other});
        ShownByIff(d, last, hiding, jid);
        ShownByIff(d, last, hiding, other);
      }
    } else {
      var order := OrderOf(last.Keys);
    }
  }

  /** The listed counts add up in every run if and only if each countable JID is shown in every run. */
  lemma CountsAddUpInEveryRunIff(d: Directory, last: map<string, Message>, unread: map<string, nat>)
    requires WellFormed(d) && forall jid :: jid in unread ==> 0 < unread[jid]
    ensures (forall order :: IsOrder(order, last.Keys) ==>
               Total(unread, ShownBy(d, last, order)) == Total(unread, Countable(d.lids, unread)))
       <==> forall jid :: jid in Countable(d.lids, unread) ==> AlwaysShown(d, last, jid)
  {
    hide IsOrder, ShownBy, AlwaysShown, Countable, Total, WellFormed;
    forall order | IsOrder(order, last.Keys)
      ensures Total(unread, ShownBy(d, last, order)) == Total(unread, Countable(d.lids, unread))
         <==> Countable(d.lids, unread) <= ShownBy(d, last, order)
    {
      ShownVersusCountable(d, last, unread, order);
    }
    forall jid: string
      ensures (forall order :: IsOrder(order, last.Keys) ==> jid in ShownBy(d, last, order)) <==> AlwaysShown(d, last, jid)
    {
      ShownInEveryRunIff(d, last, jid);
    }
  }

  lemma ShownVersusCountable(d: Directory, last: map<string, Message>, unread: map<string, nat>, order: seq<string>)
    requires WellFormed(d) && IsOrder(order, last.Keys) && forall jid :: jid in unread ==> 0 < unread[jid]
    ensures Total(unread, ShownBy(d, last, order)) <= Total(unread, Countable(d.lids, unread))
    ensures Total(unread, ShownBy(d, last, order)) == Total(unread, Countable(d.lids, unread))
       <==> Countable(d.lids, unread) <= ShownBy(d, last, order)
  {
    hide Skip, ResolveLID, ShownBy, Claimed, WellFormed, IsOrder, FirstOf;
    forall jid | jid in ShownBy(d, last, order) && jid in unread
      ensures jid in Countable(d.lids, unread)
    {
      ShownByIff(d, last, order, jid);
    }
    TotalOfOverlap(unread, ShownBy(d, last, order), Countable(d.lids, unread));
  }

  /**
   A count is lost in every run if and only if some countable JID is shown in none, or two
   countable JIDs are stored for one chat.
   */
  lemma CountsAreLostInEveryRunIff(d: Directory, last: map<string, Message>, unread: map<string, nat>)
    requires WellFormed(d) && forall jid :: jid in unread ==> 0 < unread[jid]
    ensures (forall order :: IsOrder(order, last.Keys) ==>
               Total(unread, ShownBy(d, last, order)) < Total(unread, Countable(d.lids, unread)))
       <==> || (exists jid :: jid in Countable(d.lids, unread) && NeverShown(d, last, jid))
            || !OnePerChat(d.lids, Countable(d.lids, unread))
  {
    hide IsOrder, ShownBy, NeverShown, Countable, Total, WellFormed, ResolveLID;
    var countable := Countable(d.lids, unread);
    forall order | IsOrder(order, last.Keys)
      ensures Total(unread, ShownBy(d, last, order)) < Total(unread, countable)
         <==> !(countable <= ShownBy(d, last, order))
      ensures OnePerChat(d.lids, ShownBy(d, last, order))
      ensures forall jid :: NeverShown(d, last, jid) ==> jid !in ShownBy(d, last, order)
    {
      ShownVersusCountable(d, last, unread, order);
      OneShownPerChat(d, last, order);
    }
    if (forall jid :: jid in countable ==> !NeverShown(d, last, jid)) && OnePerChat(d.lids, countable) {
      var order := OrderThatShows(d, last, countable);
      assert countable <= ShownBy(d, last, order);
    }
  }

  lemma OneShownPerChat(d: Directory, last: map<string, Message>, order: seq<string>)
    requires WellFormed(d) && IsOrder(order, last.Keys)
    ensures OnePerChat(d.lids, ShownBy(d, last, order))
    ensures forall jid :: NeverShown(d, last, jid) ==> jid !in ShownBy(d, last, order)
  {
    hide Skip, ResolveLID, ShownBy, Claimed, WellFormed, IsOrder, FirstOf;
    forall jid
      ensures var id := ResolveLID(d.lids, jid);
        jid in ShownBy(d, last, order) <==>
          !Skip(id) && if Claimed(d, last, id) then jid == id else FirstOf(d.lids, order, id) == Some(jid)
      ensures NeverShown(d, last, jid) ==> jid !in ShownBy(d, last, order)
    {
      ShownByIff(d, last, order, jid);
      if jid in ShownBy(d, last, order) {
        StoredIsInLast(d, last, order, jid);
      }
    }
  }

  lemma StoredIsInLast(d: Directory, last: map<string, Message>, order: seq<string>, jid: string)
    requires WellFormed(d) && IsOrder(order, last.Keys)
    ensures var id := ResolveLID(d.lids, jid); FirstOf(d.lids, order, id) == Some(jid) ==> jid in last
  {
    FirstOfResolves(d.lids, order, ResolveLID(d.lids, jid));
    hide ResolveLID, FirstOf;
    assert forall j :: j in order <==> j in Elements(order);
  }

  /** A stored LID whose contact resolves to a phone JID is shown in no run: its count and last message are lost. */
  lemma UnresolvedContactIsLost(d: Directory, last: map<string, Message>, jid: JID)
    requires d.contacts.Some? && jid in d.contacts.value && jid.server == "lid" && Show(jid) in last
    requires ResolveLID(d.lids, Show(jid)) != Show(jid)
    ensures NeverShown(d, last, Show(jid))
  {
    hide Show, Skip, ResolveLID;
    assert ContactID(d.lids, jid) == ResolveLID(d.lids, Show(jid));
    assert Qualifies(d, last, jid);
    assert ContactID(d.lids, jid) in ContactIDs(d, last);
  }

  /** When every stored chat JID is already resolved, the listed counts sum to the unread total. */
  lemma {:induction false} ResolvedCountsAddUp(d: Directory, last: map<string, Message>, unread: map<string, nat>,
                                               order: seq<string>, chats: seq<Chat>)
    requires WellFormed(d) && IsOrder(order, last.Keys)
    requires Lists(d.lids, last, unread, chats, SourcesOf(d, last, order))
    requires forall jid :: jid in unread ==> 0 < unread[jid] && jid in last
    requires forall jid :: jid in last ==> ResolveLID(d.lids, jid) == jid
    ensures ListedUnread(chats) == Total(unread, set jid | jid in unread && !Skip(jid))
  {
    hide Skip, ResolveLID, Claimed, ListedUnread, ShownBy, SourcesOf, WellFormed, IsOrder;
    ListedUnreadIsShownBy(d, last, unread, order, chats);
    forall jid | jid in Countable(d.lids, unread)
      ensures AlwaysShown(d, last, jid)
    {
    }
    assert Countable(d.lids, unread) == set jid | jid in unread && !Skip(jid);
    hide AlwaysShown, Countable;
    CountsAddUpInEveryRunIff(d, last, unread);
  }
}
