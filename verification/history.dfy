/**
 What an account writes to and reads from the message table
 (internal/service/account.go:1411-1487, 1862-1885, 1916-2048, 2071-2131).
 */
module History {
  import opened Text
  import opened Collections
  import opened MessageTables
  import Timestamps

  // ---- Phone JIDs and LID aliases ----

  /** The LID mapping; a missing client, an unparsable JID and a failed lookup are a missing entry. */
  datatype LidMap = LidMap(phoneForLid: map<string, string>, lidForPhone: map<string, string>)

  function ResolveLID(lids: LidMap, jid: string): string {
    if HasSuffix(jid, "@lid") && jid in lids.phoneForLid && lids.phoneForLid[jid] != ""
    then lids.phoneForLid[jid] else jid
  }

  function ReverseLID(lids: LidMap, jid: string): string {
    if HasSuffix(jid, "@s.whatsapp.net") && jid in lids.lidForPhone && lids.lidForPhone[jid] != ""
    then lids.lidForPhone[jid] else jid
  }

  /** The JIDs under which a chat's messages may be stored. */
  function Aliases(lids: LidMap, chatJID: string): set<string> {
    {chatJID, ResolveLID(lids, chatJID), ReverseLID(lids, chatJID)}
  }

  /** No JID is both a LID and a phone JID, so at most one alias is added. */
  lemma AtMostTwoAliases(lids: LidMap, chatJID: string)
    ensures 1 <= |Aliases(lids, chatJID)| <= 2
    ensures ResolveLID(lids, chatJID) == chatJID || ReverseLID(lids, chatJID) == chatJID
  {
    SuffixEnds(chatJID, "@lid");
    SuffixEnds(chatJID, "@s.whatsapp.net");
    var a, b := ResolveLID(lids, chatJID), ReverseLID(lids, chatJID);
    hide ResolveLID, ReverseLID;
    assert Aliases(lids, chatJID) == {chatJID, a} || Aliases(lids, chatJID) == {chatJID, b};
    assert |{chatJID, a}| <= 2 && |{chatJID, b}| <= 2;
  }

  /** A phone JID and the LID that the maps pair it with are aliases of each other. */
  lemma AliasesOfPair(lids: LidMap, phone: string, lid: string)
    requires HasSuffix(phone, "@s.whatsapp.net") && HasSuffix(lid, "@lid")
    requires lid in lids.phoneForLid && lids.phoneForLid[lid] == phone
    requires phone in lids.lidForPhone && lids.lidForPhone[phone] == lid
    ensures Aliases(lids, phone) == {phone, lid} && Aliases(lids, lid) == {phone, lid}
    ensures ResolveLID(lids, lid) == phone && ResolveLID(lids, phone) == phone
  {
    SuffixEnds(phone, "@s.whatsapp.net");
    SuffixEnds(lid, "@lid");
    SuffixEnds(phone, "@lid");
    SuffixEnds(lid, "@s.whatsapp.net");
    hide HasSuffix;
  }

  /** A JID that is neither, or that the maps do not know, is alone. */
  lemma AliasesOfOne(lids: LidMap, jid: string)
    requires HasSuffix(jid, "@lid") ==> jid !in lids.phoneForLid
    requires HasSuffix(jid, "@s.whatsapp.net") ==> jid !in lids.lidForPhone
    ensures Aliases(lids, jid) == {jid} && ResolveLID(lids, jid) == jid
  {
    hide HasSuffix;
  }

  // ---- Message content ----

  /** The parts of a WhatsApp message that decide its type and text; a caption may be empty. */
  datatype Content = Content(
    conversation: Option<string>, extendedText: Option<string>,
    image: Option<string>, video: Option<string>, audio: bool, document: Option<string>,
    sticker: bool, reaction: Option<string>, contact: bool, location: bool,
    protocol: bool, senderKey: bool)

  function Classify(msg: Option<Content>): string {
    match msg
    case None => "unknown"
    case Some(c) =>
      if c.conversation.Some? || c.extendedText.Some? then "text"
      else if c.image.Some? then "image"
      else if c.video.Some? then "video"
      else if c.audio then "audio"
      else if c.document.Some? then "document"
      else if c.sticker then "sticker"
      else if c.reaction.Some? then "reaction"
      else if c.contact then "contact"
      else if c.location then "location"
      else if c.protocol then "protocol"
      else if c.senderKey then "protocol"
      else "other"
  }

  predicate IsStorable(msg: Option<Content>) {
    msg.Some? && Classify(msg) != "protocol" && Classify(msg) != "unknown"
  }

  function Body(msg: Option<Content>): string {
    match msg
    case None => ""
    case Some(c) =>
      if c.conversation.Some? then c.conversation.value
      else if c.extendedText.Some? then c.extendedText.value
      else if c.image.Some? then c.image.value
      else if c.video.Some? then c.video.value
      else if c.document.Some? then c.document.value
      else if c.reaction.Some? then c.reaction.value
      else ""
  }

  predicate CarriesContent(c: Content) {
    c.conversation.Some? || c.extendedText.Some? || c.image.Some? || c.video.Some? || c.audio
    || c.document.Some? || c.sticker || c.reaction.Some? || c.contact || c.location
  }

  /** A message is stored unless it is absent or carries protocol data and nothing else. */
  lemma StorableIff(msg: Option<Content>)
    ensures IsStorable(msg) <==>
      msg.Some? && (CarriesContent(msg.value) || (!msg.value.protocol && !msg.value.senderKey))
    ensures Body(msg) != "" ==> IsStorable(msg)
  {
    var kind := Classify(msg);
    assert kind[0] == 'p' && kind[1] == 'r' <==> kind == "protocol";
    assert kind[0] == 'u' <==> kind == "unknown";
  }

  /** The label of each kind of content, the first that is there deciding. */
  function Labels(c: Content): seq<(bool, string)> {
    [(c.conversation.Some?, "text"), (c.extendedText.Some?, "text"), (c.image.Some?, "image"),
     (c.video.Some?, "video"), (c.audio, "audio"), (c.document.Some?, "document"), (c.sticker, "sticker"),
     (c.reaction.Some?, "reaction"), (c.contact, "contact"), (c.location, "location"),
     (c.protocol, "protocol"), (c.senderKey, "protocol")]
  }

  lemma LabelIsFirst(c: Content, i: nat)
    requires i < 12 && Labels(c)[i].0 && forall j :: 0 <= j < i ==> !Labels(c)[j].0
    ensures Classify(Some(c)) == Labels(c)[i].1
  {
    var l := Labels(c);
    assert (0 < i ==> !l[0].0) && (1 < i ==> !l[1].0) && (2 < i ==> !l[2].0) && (3 < i ==> !l[3].0);
    assert (4 < i ==> !l[4].0) && (5 < i ==> !l[5].0) && (6 < i ==> !l[6].0) && (7 < i ==> !l[7].0);
    assert (8 < i ==> !l[8].0) && (9 < i ==> !l[9].0) && (10 < i ==> !l[10].0);
  }

  lemma NoLabelIsOther(c: Content)
    requires forall j :: 0 <= j < 12 ==> !Labels(c)[j].0
    ensures Classify(Some(c)) == "other" && Classify(None) == "unknown"
  {
    var l := Labels(c);
    assert !l[0].0 && !l[1].0 && !l[2].0 && !l[3].0 && !l[4].0 && !l[5].0;
    assert !l[6].0 && !l[7].0 && !l[8].0 && !l[9].0 && !l[10].0 && !l[11].0;
  }

  /** The texts a message can carry, the first that is there being its body. */
  function Texts(c: Content): seq<Option<string>> {
    [c.conversation, c.extendedText, c.image, c.video, c.document, c.reaction]
  }

  lemma BodyIsFirst(c: Content, i: nat)
    requires i < 6 && Texts(c)[i].Some? && forall j :: 0 <= j < i ==> Texts(c)[j].None?
    ensures Body(Some(c)) == Texts(c)[i].value
  {
    var t := Texts(c);
    assert (0 < i ==> t[0].None?) && (1 < i ==> t[1].None?) && (2 < i ==> t[2].None?);
    assert (3 < i ==> t[3].None?) && (4 < i ==> t[4].None?);
  }

  lemma NoTextNoBody(c: Content)
    requires forall j :: 0 <= j < 6 ==> Texts(c)[j].None?
    ensures Body(Some(c)) == ""
  {
    var t := Texts(c);
    assert t[0].None? && t[1].None? && t[2].None? && t[3].None? && t[4].None? && t[5].None?;
  }

  // ---- Events ----

  datatype LiveMessage = LiveMessage(
    id: string, chat: string, sender: string, fromMe: bool,
    content: Option<Content>, mediaType: string, unix: int)

  /**
   One history-sync entry: `Unusable` when the message, its key or its web wrapper is nil.
   `drawnID` is the UUID drawn when the key has no ID; `refused` is an insert the database fails,
   which is passed over.
   */
  datatype HistoryEntry =
    | Unusable
    | Entry(keyID: string, drawnID: string, fromMe: bool, participant: string, keyParticipant: string,
            content: Content, unix: int, refused: bool)

  datatype Conversation = Conversation(id: string, entries: seq<HistoryEntry>)

  /** What `SendMessage`, `SendReply` and `SendMedia` send; media by its MIME type. */
  datatype SentKind = SentText | SentSticker | SentImage | SentVideo | SentAudio | SentDocument

  function KindName(k: SentKind): string {
    match k
    case SentText => "text"
    case SentSticker => "sticker"
    case SentImage => "image"
    case SentVideo => "video"
    case SentAudio => "audio"
    case SentDocument => "document"
  }

  lemma SentIsNoProtocol(k: SentKind)
    ensures KindName(k) != "protocol"
  {
    assert "protocol"[0] == 'p';
  }

  function LiveRecord(account: string, lids: LidMap, v: LiveMessage): (r: seq<Message>)
    ensures forall m :: m in r ==> Stored(m)
  {
    if !IsStorable(v.content) then []
    else [Message(v.id, account, ResolveLID(lids, v.chat), ResolveLID(lids, v.sender), v.fromMe,
                  Classify(v.content), Body(v.content), v.mediaType, Timestamps.Stamp(v.unix))]
  }

  function HistorySender(chatJID: string, e: HistoryEntry): string
    requires e.Entry?
  {
    if e.fromMe then "me"
    else if e.participant != "" then e.participant
    else if e.keyParticipant != "" then e.keyParticipant
    else chatJID
  }

  function EntryRecord(account: string, lids: LidMap, chatJID: string, e: HistoryEntry): (r: seq<Message>)
    ensures forall m :: m in r ==> Stored(m)
  {
    if e.Unusable? || !IsStorable(Some(e.content)) || e.refused then []
    else [Message(if e.keyID == "" then e.drawnID else e.keyID, account,
                  ResolveLID(lids, chatJID), ResolveLID(lids, HistorySender(chatJID, e)), e.fromMe,
                  Classify(Some(e.content)), Body(Some(e.content)), "", Timestamps.Stamp(e.unix))]
  }

  function EntryRecords(account: string, lids: LidMap, chatJID: string, entries: seq<HistoryEntry>): (r: seq<Message>)
    ensures forall m :: m in r ==> Stored(m)
  {
    if entries == [] then []
    else
      var last := |entries| - 1;
      EntryRecords(account, lids, chatJID, entries[..last]) + EntryRecord(account, lids, chatJID, entries[last])
  }

  /** The rows a history sync asks to store, in order. */
  function HistoryRecords(account: string, lids: LidMap, conversations: seq<Conversation>): (r: seq<Message>)
    ensures forall m :: m in r ==> Stored(m)
  {
    if conversations == [] then []
    else
      var last := conversations[|conversations| - 1];
      HistoryRecords(account, lids, conversations[..|conversations| - 1])
      + (if last.id == "" then [] else EntryRecords(account, lids, last.id, last.entries))
  }

  /** What is sent is labelled as it would be when received. */
  lemma SentKindsAreReceivedKinds(c: Content)
    requires !c.protocol && !c.senderKey
    ensures c == Nothing().(conversation := Some("")) ==> Classify(Some(c)) == KindName(SentText)
    ensures c == Nothing().(sticker := true) ==> Classify(Some(c)) == KindName(SentSticker)
    ensures c == Nothing().(image := Some("")) ==> Classify(Some(c)) == KindName(SentImage)
    ensures c == Nothing().(video := Some("")) ==> Classify(Some(c)) == KindName(SentVideo)
    ensures c == Nothing().(audio := true) ==> Classify(Some(c)) == KindName(SentAudio)
    ensures c == Nothing().(document := Some("")) ==> Classify(Some(c)) == KindName(SentDocument)
  {
  }

  /** A message without any part. */
  function Nothing(): Content {
    Content(None, None, None, None, false, None, false, None, false, false, false, false)
  }

  // ---- What every stored row satisfies ----

  /** A stamp the program wrote. */
  ghost predicate IsStamp(s: string) {
    exists unix: int :: Timestamps.Stamp(unix) == s
  }

  ghost predicate Stored(m: Message) {
    m.kind != "protocol" && IsStamp(m.timestamp)
  }

  ghost predicate WellStored(rows: Rows) {
    Keyed(rows) && forall m :: m in rows.Values ==> Stored(m)
  }

  /** All that the reply loop's filter needs of the rows. */
  ghost predicate NoProtocol(rows: Rows) {
    forall m :: m in rows.Values ==> m.kind != "protocol"
  }

  /** All that reading needs of the stamps. */
  ghost predicate Stamped(rows: Rows) {
    forall m :: m in rows.Values ==> m.timestamp != ""
  }

  lemma WellStoredIsStamped(rows: Rows)
    requires WellStored(rows)
    ensures Stamped(rows) && NoProtocol(rows)
  {
    forall m | m in rows.Values
      ensures m.timestamp != "" && m.kind != "protocol"
    {
      assert Stored(m);
      StampIsNotEmpty(m.timestamp);
    }
  }

  lemma StampIsNotEmpty(s: string)
    requires IsStamp(s)
    ensures s != "" && Less("", s)
  {
  }

  lemma {:induction false} InsertAllKeepsStored(rows: Rows, recs: seq<Message>)
    requires WellStored(rows) && forall m :: m in recs ==> Stored(m)
    ensures WellStored(InsertAll(rows, recs))
  {
    InsertAllKeeps(rows, recs, m => Stored(m));
  }

  lemma {:induction false} InsertAllConcat(rows: Rows, one: seq<Message>, two: seq<Message>)
    ensures InsertAll(rows, one + two) == InsertAll(InsertAll(rows, one), two)
    decreases |one|
  {
    if one == [] {
      assert one + two == two;
    } else {
      InsertAllConcat(InsertRow(rows, one[0]), one[1..], two);
      assert (one + two)[1..] == one[1..] + two;
    }
  }

  lemma OneMoreEntry(rows: Rows, account: string, lids: LidMap, c: Conversation, i: nat)
    requires i < |c.entries|
    ensures InsertAll(rows, EntryRecords(account, lids, c.id, c.entries[..i + 1]))
         == InsertAll(InsertAll(rows, EntryRecords(account, lids, c.id, c.entries[..i])),
                      EntryRecord(account, lids, c.id, c.entries[i]))
  {
    hide EntryRecord, InsertAll;
    assert c.entries[..i + 1][..i] == c.entries[..i];
    InsertAllConcat(rows, EntryRecords(account, lids, c.id, c.entries[..i]),
                    EntryRecord(account, lids, c.id, c.entries[i]));
  }

  lemma OneMoreConversation(rows: Rows, account: string, lids: LidMap, conversations: seq<Conversation>, i: nat)
    requires i < |conversations|
    ensures var c := conversations[i];
            var before := InsertAll(rows, HistoryRecords(account, lids, conversations[..i]));
            InsertAll(rows, HistoryRecords(account, lids, conversations[..i + 1]))
              == if c.id == "" then before else InsertAll(before, EntryRecords(account, lids, c.id, c.entries))
  {
    hide EntryRecords, InsertAll;
    var c, before := conversations[i], HistoryRecords(account, lids, conversations[..i]);
    assert conversations[..i + 1][..i] == conversations[..i];
    assert before + [] == before;
    if c.id != "" {
      InsertAllConcat(rows, before, EntryRecords(account, lids, c.id, c.entries));
    }
  }

  // ---- The account's side of the table ----

  /** The rows selected for any of several JIDs. */
  ghost function SelectedAny(rows: Rows, account: string, jids: set<string>, before: string): set<Message> {
    set m | m in rows.Values && m.accountID == account && m.chatJID in jids
      && (before == "" || Less(m.timestamp, before))
  }

  // ---- Stored and listed ----

  /** A storable live message whose ID is new is stored as it came, and is among the rows of its chat. */
  lemma {:induction false} LiveMessageIsListed(rows: Rows, account: string, lids: LidMap, v: LiveMessage)
    requires IsStorable(v.content) && (account, v.id) !in rows
    ensures var after := InsertAll(rows, LiveRecord(account, lids, v));
      && (account, v.id) in after
      && var m := after[(account, v.id)];
         && m.id == v.id && m.accountID == account && m.fromMe == v.fromMe && m.mediaType == v.mediaType
         && m.chatJID == ResolveLID(lids, v.chat) && m.senderJID == ResolveLID(lids, v.sender)
         && m.kind == Classify(v.content) && m.body == Body(v.content) && m.timestamp == Timestamps.Stamp(v.unix)
         && m in SelectedAny(after, account, Aliases(lids, v.chat), "")
  {
    hide Timestamps.Stamp, Classify, Body, ResolveLID, ReverseLID, IsStorable;
    var records := LiveRecord(account, lids, v);
    assert records[1..] == [];
    assert InsertAll(rows, records) == InsertAll(InsertRow(rows, records[0]), []);
    assert records[0] in InsertAll(rows, records).Values by {
      assert InsertAll(rows, records)[(account, v.id)] == records[0];
    }
  }

  /**
   So is a storable entry of a history sync, under its own or a drawn ID; it is from this account, or
   from the participant it or its key names, or from the chat itself.
   */
  lemma {:induction false} EntryIsListed(rows: Rows, account: string, lids: LidMap, chat: string, e: HistoryEntry)
    requires e.Entry? && IsStorable(Some(e.content)) && !e.refused
    requires (account, if e.keyID == "" then e.drawnID else e.keyID) !in rows
    ensures var after := InsertAll(rows, EntryRecord(account, lids, chat, e));
      var key := (account, if e.keyID == "" then e.drawnID else e.keyID);
      && key in after
      && var m := after[key];
         && m.id == key.1 && m.accountID == account && m.fromMe == e.fromMe && m.mediaType == ""
         && m.chatJID == ResolveLID(lids, chat)
         && (e.fromMe ==> m.senderJID == ResolveLID(lids, "me"))
         && (!e.fromMe && e.participant != "" ==> m.senderJID == ResolveLID(lids, e.participant))
         && (!e.fromMe && e.participant == "" && e.keyParticipant != "" ==>
               m.senderJID == ResolveLID(lids, e.keyParticipant))
         && (!e.fromMe && e.participant == e.keyParticipant == "" ==> m.senderJID == m.chatJID)
         && m.kind == Classify(Some(e.content)) && m.body == Body(Some(e.content))
         && m.timestamp == Timestamps.Stamp(e.unix)
         && m in SelectedAny(after, account, Aliases(lids, chat), "")
  {
    hide Timestamps.Stamp, Classify, Body, ResolveLID, ReverseLID, IsStorable;
    var records := EntryRecord(account, lids, chat, e);
    assert records[1..] == [];
    assert InsertAll(rows, records) == InsertAll(InsertRow(rows, records[0]), []);
    var key := (account, if e.keyID == "" then e.drawnID else e.keyID);
    assert records[0] in InsertAll(rows, records).Values by {
      assert InsertAll(rows, records)[key] == records[0];
    }
  }

  /** A listing holds rows of this account and of the chat's aliases only, and only older than its cursor. */
  lemma ListsOnlyOwn(rows: Rows, account: string, jids: set<string>, failing: set<string>, before: string,
                     limit: nat, out: seq<Message>)
    requires Merged(rows, account, jids, failing, before, limit, out)
    ensures forall m :: m in out ==>
      m in rows.Values && m.accountID == account && m.chatJID in jids && (before == "" || Less(m.timestamp, before))
  {
    hide Less;
    forall m | m in out
      ensures m in Elements(out)
    {
    }
  }

  /**
   The phone and the LID of one chat are listed alike: the same rows, and all rows of both where they
   fit the limit.
   */
  lemma {:induction false} PairIsOneChat(rows: Rows, account: string, lids: LidMap, phone: string, lid: string, before: string,
                                         limit: nat, out: seq<Message>)
    requires HasSuffix(phone, "@s.whatsapp.net") && HasSuffix(lid, "@lid")
    requires lid in lids.phoneForLid && lids.phoneForLid[lid] == phone
    requires phone in lids.lidForPhone && lids.lidForPhone[phone] == lid
    ensures Merged(rows, account, Aliases(lids, phone), {}, before, limit, out)
       <==> Merged(rows, account, Aliases(lids, lid), {}, before, limit, out)
    ensures forall m |
      m in rows.Values && m.accountID == account && (m.chatJID == phone || m.chatJID == lid)
      && (before == "" || Less(m.timestamp, before))
      :: m in SelectedAny(rows, account, Aliases(lids, phone), before)
    ensures var s := SelectedAny(rows, account, {phone, lid}, before);
      1 <= limit <= 200 && |s| <= limit && Merged(rows, account, Aliases(lids, phone), {}, before, limit, out) ==>
        Elements(out) == s
  {
    AliasesOfPair(lids, phone, lid);
    hide Aliases, HasSuffix, Less, AtLeastAsNew, Merging, KeepsNewest;
    var s := SelectedAny(rows, account, {phone, lid}, before);
    assert {phone, lid} - {} == {phone, lid};
    if 1 <= limit <= 200 && Merged(rows, account, {phone, lid}, {}, before, limit, out) && |s| <= limit {
      DistinctSize(out);
      SubsetSize(Elements(out), s);
    }
  }

  datatype ListResult = Listed(messages: seq<Message>) | ListFailed

  class Account {
    const id: string
    const table: MessageTable
    var lids: LidMap

    ghost predicate Valid()
      reads this, table
    {
      WellStored(table.rows)
    }

    constructor (id: string, table: MessageTable, lids: LidMap)
      ensures this.id == id && this.table == table && this.lids == lids
    {
      this.id := id;
      this.table := table;
      this.lids := lids;
    }

    method Insert(rec: Message, dbFails: bool)
      requires Valid() && Stored(rec)
      modifies table
      ensures Valid()
      ensures table.rows == if dbFails then old(table.rows) else InsertRow(old(table.rows), rec)
    {
      hide Stored;
      InsertAllKeepsStored(table.rows, [rec]);
      assert InsertAll(table.rows, [rec]) == InsertRow(table.rows, rec);
      var ok := table.InsertMessage(rec, dbFails);
    }

    /** `storeMessage`: a live event; a failed insert is logged and dropped. */
    method StoreMessage(v: LiveMessage, dbFails: bool)
      requires Valid()
      modifies table
      ensures Valid()
      ensures table.rows == if dbFails then old(table.rows)
                            else InsertAll(old(table.rows), LiveRecord(id, lids, v))
    {
      hide Classify, Body, Timestamps.Stamp, WellStored, InsertRow;
      if !IsStorable(v.content) {
        return;
      }
      var rec := Message(v.id, id, ResolveLID(lids, v.chat), ResolveLID(lids, v.sender), v.fromMe,
                         Classify(v.content), Body(v.content), v.mediaType, Timestamps.Stamp(v.unix));
      assert LiveRecord(id, lids, v) == [rec];
      assert rec in LiveRecord(id, lids, v);
      Insert(rec, dbFails);
    }

    /** `storeOutgoing`: what was sent, under the JID the caller gave. */
    method StoreOutgoing(msgID: string, chatJID: string, kind: SentKind, body: string, mediaType: string,
                         now: int, dbFails: bool)
      requires Valid()
      modifies table
      ensures Valid()
      ensures table.rows == if dbFails then old(table.rows) else InsertRow(old(table.rows),
        Message(msgID, id, chatJID, "me", true, KindName(kind), body, mediaType, Timestamps.Stamp(now)))
    {
      hide Timestamps.Stamp, WellStored, InsertRow, KindName;
      SentIsNoProtocol(kind);
      Insert(Message(msgID, id, chatJID, "me", true, KindName(kind), body, mediaType, Timestamps.Stamp(now)), dbFails);
    }

    /** `storeHistorySync`: all conversations that have an ID, in order. */
    method StoreHistorySync(conversations: seq<Conversation>)
      requires Valid()
      modifies table
      ensures Valid()
      ensures table.rows == InsertAll(old(table.rows), HistoryRecords(id, lids, conversations))
    {
      assert InsertAll(table.rows, HistoryRecords(id, lids, [])) == table.rows;
      hide WellStored, EntryRecords, HistoryRecords, InsertAll;
      ghost var before := table.rows;
      var i := 0;
      while i < |conversations|
        invariant 0 <= i <= |conversations|
        invariant Valid()
        invariant table.rows == InsertAll(before, HistoryRecords(id, lids, conversations[..i]))
      {
        OneMoreConversation(before, id, lids, conversations, i);
        if conversations[i].id != "" {
          StoreConversation(conversations[i]);
        }
        i := i + 1;
      }
      assert conversations[..i] == conversations;
    }

    method StoreConversation(c: Conversation)
      requires Valid()
      modifies table
      ensures Valid()
      ensures table.rows == InsertAll(old(table.rows), EntryRecords(id, lids, c.id, c.entries))
    {
      assert InsertAll(table.rows, EntryRecords(id, lids, c.id, [])) == table.rows;
      hide WellStored, EntryRecord, EntryRecords, InsertAll;
      ghost var before := table.rows;
      var i := 0;
      while i < |c.entries|
        invariant 0 <= i <= |c.entries|
        invariant Valid()
        invariant table.rows == InsertAll(before, EntryRecords(id, lids, c.id, c.entries[..i]))
      {
        OneMoreEntry(before, id, lids, c, i);
        StoreEntry(c.id, c.entries[i]);
        i := i + 1;
      }
      assert c.entries[..i] == c.entries;
    }

    method StoreEntry(chatJID: string, e: HistoryEntry)
      requires Valid()
      modifies table
      ensures Valid()
      ensures table.rows == InsertAll(old(table.rows), EntryRecord(id, lids, chatJID, e))
    {
      hide Classify, Body, Timestamps.Stamp, WellStored, InsertRow, HistorySender, ResolveLID;
      if e.Unusable? || !IsStorable(Some(e.content)) {
        return;
      }
      var msgID := e.keyID;
      if msgID == "" {
        msgID := e.drawnID;
      }
      var rec := Message(msgID, id, ResolveLID(lids, chatJID), ResolveLID(lids, HistorySender(chatJID, e)),
                         e.fromMe, Classify(Some(e.content)), Body(Some(e.content)), "", Timestamps.Stamp(e.unix));
      Insert(rec, e.refused);
      assert EntryRecord(id, lids, chatJID, e) == if e.refused then [] else [rec];
    }

    /**
     `ListMessages` past the cache: one query per alias, in any order; a failed query is
     an error only if it comes first; several aliases are merged by sorting and cutting.
     `failing` holds the JIDs whose query the database refuses.
     */
    method ListMessages(chatJID: string, limit: nat, before: string, failing: set<string>)
      returns (r: ListResult)
      requires Valid()
      ensures r.ListFailed? ==> Aliases(lids, chatJID) * failing != {}
      ensures r.Listed? ==> Aliases(lids, chatJID) - failing != {}
      ensures r.Listed? ==>
        Merged(table.rows, id, Aliases(lids, chatJID), failing, before, limit, r.messages)
    {
      var jids := Aliases(lids, chatJID);
      AtMostTwoAliases(lids, chatJID);
      WellStoredIsStamped(table.rows);
      hide Aliases, WellStored, Less;
      var ok, records := QueryAll(jids, limit, before, failing);
      if !ok {
        return ListFailed;
      }
      ghost var sorted := records;
      if |jids| > 1 && |records| > 1 {
        var inOrder := SortNewestFirst(records);
        PermutationKeeps(records, inOrder);
        sorted := inOrder;
        records := if |inOrder| > limit then inOrder[..limit] else inOrder;
      }
      MergingGivesMerged(table.rows, id, jids, failing, before, limit, sorted, records);
      NothingToDrop(table.rows, id, jids, failing, before, limit, records);
      var msgs := DropProtocol(records);
      r := Listed(msgs);
    }

    /** The query loop of `ListMessages`; sorted as it stands when there is one alias. */
    method QueryAll(jids: set<string>, limit: nat, before: string, failing: set<string>)
      returns (ok: bool, records: seq<Message>)
      requires jids != {}
      ensures !ok ==> jids * failing != {}
      ensures ok ==> jids - failing != {}
      ensures ok ==> Merging(table.rows, id, jids - failing, before, EffectiveLimit(limit), records)
      ensures ok && |jids| <= 1 ==> Sorted(records)
    {
      hide Less, AtLeastAsNew, Distinct, Sorted, Merging, Selected;
      var todo := jids;
      ghost var done: set<string> := {};
      records := [];
      MergingStarts(table.rows, id, before, EffectiveLimit(limit));
      var first := true;
      while todo != {}
        invariant todo !! done && todo + done <= jids && jids - failing <= todo + done && done !! failing
        invariant (first <==> done == {}) && (first ==> todo == jids && records == [])
        invariant Merging(table.rows, id, done, before, EffectiveLimit(limit), records)
        invariant first || |jids| > 1 || (todo == {} && Sorted(records))
        decreases todo
      {
        var jid :| jid in todo;
        if |jids| <= 1 {
          SingletonOnly(jids, jid);
        }
        todo := todo - {jid};
        if jid in failing {
          if first {
            return false, [];
          }
        } else {
          var recs := table.ListMessages(id, jid, limit, before);
          MergingGrows(table.rows, id, done, before, EffectiveLimit(limit), records, jid, recs);
          assert [] + recs == recs;
          records := if first then recs else records + recs;
          first := false;
          done := done + {jid};
        }
      }
      assert done == jids - failing;
      ok := true;
    }
  }

  lemma MergingStarts(rows: Rows, account: string, before: string, limit: nat)
    ensures Merging(rows, account, {}, before, limit, [])
  {
  }

  lemma NothingToDrop(rows: Rows, account: string, jids: set<string>, failing: set<string>, before: string,
                      limit: nat, records: seq<Message>)
    requires NoProtocol(rows) && Merged(rows, account, jids, failing, before, limit, records)
    ensures WithoutProtocol(records) == records
  {
    forall m | m in records
      ensures m.kind != "protocol"
    {
      assert m in Elements(records);
    }
    hide Merged;
    AllKept(records);
  }

  function WithoutProtocol(records: seq<Message>): seq<Message> {
    if records == [] then []
    else
      WithoutProtocol(records[..|records| - 1])
      + if records[|records| - 1].kind == "protocol" then [] else [records[|records| - 1]]
  }

  /** The reply loop skips protocol messages. */
  method DropProtocol(records: seq<Message>) returns (msgs: seq<Message>)
    ensures msgs == WithoutProtocol(records)
  {
    msgs := [];
    for i := 0 to |records|
      invariant msgs == WithoutProtocol(records[..i])
    {
      assert records[..i + 1][..i] == records[..i];
      if records[i].kind != "protocol" {
        msgs := msgs + [records[i]];
      }
    }
    assert records[..|records|] == records;
  }

  lemma {:induction false} AllKept(records: seq<Message>)
    requires forall m :: m in records ==> m.kind != "protocol"
    ensures WithoutProtocol(records) == records
  {
    if records != [] {
      var front, last := records[..|records| - 1], records[|records| - 1];
      assert last in records && forall m :: m in front ==> m in records;
      assert records == front + [last];
      hide WithoutProtocol;
      AllKept(front);
      KeepsOneMore(front, last);
    }
  }

  lemma KeepsOneMore(front: seq<Message>, last: Message)
    requires last.kind != "protocol"
    ensures WithoutProtocol(front + [last]) == WithoutProtocol(front) + [last]
  {
    assert (front + [last])[..|front|] == front;
  }

  lemma SingletonOnly<T>(s: set<T>, x: T)
    requires |s| <= 1 && x in s
    ensures s == {x}
  {
    SubsetSize({x}, s);
  }

  /** `records` retains, in no order, the newest rows of every JID queried so far. */
  ghost predicate Merging(rows: Rows, account: string, done: set<string>, before: string, limit: nat,
                          records: seq<Message>) {
    && Distinct(records)
    && Retains(Elements(records), SelectedAny(rows, account, done, before), limit)
    && forall jid :: jid in done ==> KeepsNewest(rows, account, before, limit, Elements(records), jid)
  }

  /** As many of a JID's rows as the limit allows, and none left out but behind that many newer ones. */
  ghost predicate KeepsNewest(rows: Rows, account: string, before: string, limit: nat, records: set<Message>, jid: string) {
    var s := Selected(rows, account, jid, before);
    |OfChat(records, jid)| == SmallerOf(limit, |s|) && Retains(OfChat(records, jid), s, limit)
  }

  lemma RetainsGrows(rows: Rows, account: string, done: set<string>, before: string, limit: nat,
                     records: seq<Message>, jid: string, recs: seq<Message>)
    requires Retains(Elements(records), SelectedAny(rows, account, done, before), limit)
    requires Newest(Selected(rows, account, jid, before), limit, recs)
    ensures Retains(Elements(records) + Elements(recs), SelectedAny(rows, account, done + {jid}, before), limit)
  {
    hide Less, AtLeastAsNew;
    var s, s' := SelectedAny(rows, account, done, before), Selected(rows, account, jid, before);
    NewestRetains(s', limit, recs);
    RetainsUnion(Elements(records), s, Elements(recs), s', limit);
    assert SelectedAny(rows, account, done + {jid}, before) == s + s';
  }

  lemma MergingGrows(rows: Rows, account: string, done: set<string>, before: string, limit: nat,
                     records: seq<Message>, jid: string, recs: seq<Message>)
    requires Merging(rows, account, done, before, limit, records) && jid !in done
    requires Newest(Selected(rows, account, jid, before), limit, recs)
    ensures Merging(rows, account, done + {jid}, before, limit, records + recs)
  {
    hide Less, AtLeastAsNew;
    DistinctConcat(records, recs);
    RetainsGrows(rows, account, done, before, limit, records, jid, recs);
    DistinctSize(recs);
    NewestRetains(Selected(rows, account, jid, before), limit, recs);
    OfChatGrows(rows, account, done, before, Elements(records), jid, Elements(recs));
    assert Elements(records + recs) == Elements(records) + Elements(recs);
    hide Distinct, Sorted, Retains, Selected, SelectedAny, Elements, OfChat;
  }

  lemma OfChatGrows(rows: Rows, account: string, done: set<string>, before: string,
                    records: set<Message>, jid: string, recs: set<Message>)
    requires records <= SelectedAny(rows, account, done, before) && jid !in done
    requires recs <= Selected(rows, account, jid, before)
    ensures OfChat(records + recs, jid) == recs
    ensures forall chat :: chat in done ==> OfChat(records + recs, chat) == OfChat(records, chat)
  {
    hide Less;
  }

  lemma MergingSize(rows: Rows, account: string, done: set<string>, before: string, limit: nat,
                    records: seq<Message>)
    requires Merging(rows, account, done, before, limit, records) && |done| <= 2
    ensures |records| <= 2 * limit && (|done| <= 1 ==> |records| <= limit)
  {
    DistinctSize(records);
    var all := Elements(records);
    assert forall m :: m in all ==> m.chatJID in done;
    assert forall jid :: jid in done ==> |OfChat(all, jid)| <= limit;
    hide Retains, SelectedAny, Selected, Distinct, Elements;
    SizeByChats(all, done, limit);
    assert Sum(0, limit) == 0 && Sum(1, limit) == limit;
  }

  /** `n` times `limit`. */
  function Sum(n: nat, limit: nat): nat {
    if n == 0 then 0 else Sum(n - 1, limit) + limit
  }

  lemma {:induction false} SizeByChats(all: set<Message>, done: set<string>, limit: nat)
    requires forall m :: m in all ==> m.chatJID in done
    requires forall jid :: jid in done ==> |OfChat(all, jid)| <= limit
    ensures |all| <= Sum(|done|, limit)
    decreases |done|
  {
    if done == {} {
      assert all == {};
    } else {
      var a :| a in done;
      var rest, others := all - OfChat(all, a), done - {a};
      WithoutChat(all, a);
      hide OfChat;
      SizeByChats(rest, others, limit);
      assert |done| == |others| + 1;
    }
  }

  lemma WithoutChat(all: set<Message>, a: string)
    ensures var rest := all - OfChat(all, a);
      && |all| == |rest| + |OfChat(all, a)|
      && (forall m :: m in rest ==> m.chatJID != a && m in all)
      && forall jid :: jid != a ==> OfChat(rest, jid) == OfChat(all, jid)
  {
  }

  lemma MergingGivesMerged(rows: Rows, account: string, jids: set<string>, failing: set<string>, before: string,
                           limit: nat, sorted: seq<Message>, out: seq<Message>)
    requires Merging(rows, account, jids - failing, before, EffectiveLimit(limit), sorted) && Sorted(sorted)
    requires 1 <= |jids| <= 2
    requires out == if 1 < |jids| && 1 < |sorted| && limit < |sorted| then sorted[..limit] else sorted
    ensures Merged(rows, account, jids, failing, before, limit, out)
  {
    hide AtLeastAsNew, Less, OfChat, Selected;
    var s := SelectedAny(rows, account, jids - failing, before);
    SubsetSize(jids - failing, jids);
    MergingSize(rows, account, jids - failing, before, EffectiveLimit(limit), sorted);
    RetainedGivesNewest(Elements(sorted), s, EffectiveLimit(limit), sorted);
    if limit == 0 && 1 < |jids| {
      MergesToNone(s, sorted, out);
    }
    if 200 < limit {
      NewestBeyondCap(rows, account, jids - failing, before, limit, out);
    }
    hide Distinct, Sorted, Retains, SelectedAny;
  }

  lemma MergesToNone(s: set<Message>, sorted: seq<Message>, out: seq<Message>)
    requires Distinct(sorted) && Retains(Elements(sorted), s, 50)
    requires out == if 1 < |sorted| then [] else sorted
    ensures Elements(out) == if |s| <= 1 then s else {}
  {
    var kept := Elements(sorted);
    DistinctSize(sorted);
    SubsetSize(kept, s);
    if kept != s {
      var m :| m in s && m !in kept;
      SubsetSize(NoOlder(kept, m), kept);
    }
    hide AtLeastAsNew;
    assert out == [] ==> Elements(out) == {};
    assert |s| == 0 ==> s == {};
  }

  lemma NewestBeyondCap(rows: Rows, account: string, jids: set<string>, before: string, limit: nat,
                        out: seq<Message>)
    requires Merging(rows, account, jids, before, 50, out) && Sorted(out) && |jids| <= 2 && 200 < limit
    ensures Newest(SelectedAny(rows, account, jids, before), limit, out) <==>
      forall jid :: jid in jids ==> |Selected(rows, account, jid, before)| <= 50
  {
    var s := SelectedAny(rows, account, jids, before);
    DistinctSize(out);
    MergingSize(rows, account, jids, before, 50, out);
    SubsetSize(Elements(out), s);
    hide AtLeastAsNew, Less;
    forall jid | jid in jids
      ensures OfChat(s, jid) == Selected(rows, account, jid, before)
      ensures OfChat(Elements(out), jid) <= OfChat(s, jid)
    {
    }
    if Elements(out) != s {
      var m :| m in s && m !in out;
      var all := OfChat(s, m.chatJID);
      SubsetSize(OfChat(Elements(out), m.chatJID), all);
      assert m in all && m !in OfChat(Elements(out), m.chatJID);
    }
  }

  /** `n` text messages of one chat and second. */
  function Burst(account: string, chat: string, n: nat): Rows {
    if n == 0 then map[]
    else
      var m := Message(seq(n, _ => 'x'), account, chat, "", false, "text", "", "", Timestamps.Stamp(0));
      Burst(account, chat, n - 1)[Key(m) := m]
  }

  lemma AddedRow(rows: Rows, m: Message, account: string, chat: string)
    requires WellStored(rows) && Stored(m) && Key(m) !in rows && m.accountID == account && m.chatJID == chat
    ensures WellStored(rows[Key(m) := m])
    ensures |Selected(rows[Key(m) := m], account, chat, "")| == |Selected(rows, account, chat, "")| + 1
  {
    hide Stored;
    var after := rows[Key(m) := m];
    assert forall x :: x in after.Values <==> x == m || x in rows.Values by {
      assert after[Key(m)] == m;
      assert forall k :: k in rows ==> after[k] == rows[k];
    }
    assert m !in rows.Values;
    assert Selected(after, account, chat, "") == Selected(rows, account, chat, "") + {m};
  }

  lemma {:induction false} BurstIsSelected(account: string, chat: string, n: nat)
    ensures WellStored(Burst(account, chat, n))
    ensures |Selected(Burst(account, chat, n), account, chat, "")| == n
    ensures forall k :: k in Burst(account, chat, n) ==> |k.1| <= n
  {
    hide Timestamps.Stamp;
    if n > 0 {
      var before := Burst(account, chat, n - 1);
      BurstIsSelected(account, chat, n - 1);
      var m := Message(seq(n, _ => 'x'), account, chat, "", false, "text", "", "", Timestamps.Stamp(0));
      assert m.kind[0] == 't' && "protocol"[0] == 'p';
      assert IsStamp(m.timestamp);
      hide WellStored, Selected, IsStamp;
      AddedRow(before, m, account, chat);
    }
  }

  /** Such limits exist: of more than fifty messages a limit above 200 returns fifty. */
  lemma {:induction false} LargeLimitReturnsFifty(account: string, chat: string, n: nat, limit: nat, out: seq<Message>)
    requires 50 < n && 200 < limit && Merged(Burst(account, chat, n), account, {chat}, {}, "", limit, out)
    ensures WellStored(Burst(account, chat, n))
    ensures |out| == 50 && !Newest(SelectedAny(Burst(account, chat, n), account, {chat}, ""), limit, out)
  {
    var rows := Burst(account, chat, n);
    BurstIsSelected(account, chat, n);
    hide Burst, Less, AtLeastAsNew, WellStored, Retains, Newest;
    assert {chat} - {} == {chat};
    DistinctSize(out);
    assert OfChat(Elements(out), chat) == Elements(out);
  }

  function SmallerOf(a: nat, b: nat): nat {
    if a <= b then a else b
  }

  ghost function OfChat(s: set<Message>, jid: string): set<Message> {
    set m | m in s && m.chatJID == jid
  }

  /**
   What a listing of several JIDs promises. Up to 200 it is one newest-first query over
   all of them. Beyond 200 the database answers with 50 per JID, and the promise holds
   exactly when no JID has more than 50 rows to offer. With limit 0 the database answers with
   50 too, but a merge of several messages is cut to none.
   */
  ghost predicate Merged(rows: Rows, account: string, jids: set<string>, failing: set<string>,
                         before: string, limit: nat, out: seq<Message>) {
    var s := SelectedAny(rows, account, jids - failing, before);
    && Distinct(out) && Sorted(out) && Elements(out) <= s
    && (1 <= limit <= 200 ==> Newest(s, limit, out))
    && (200 < limit ==> Merging(rows, account, jids - failing, before, 50, out))
    && (200 < limit ==> (Newest(s, limit, out) <==>
          forall jid :: jid in jids - failing ==> |Selected(rows, account, jid, before)| <= 50))
    && (limit == 0 && |jids| == 1 ==> Newest(s, 50, out))
    && (limit == 0 && 1 < |jids| ==> Elements(out) == if |s| <= 1 then s else {})
  }
}
