# Verification of NoTalk's state machines and decisions

NoTalk keeps WhatsApp accounts connected, stores their messages and serves them over HTTP. Most of it
is plumbing; these Dafny modules model the parts that hold state, arithmetic or a protocol, and prove
what those parts are for. `dafny verify dfyconfig.toml` checks everything.

| module | what it models |
|---|---|
| `SendLimiter` | the lazy token bucket in front of every send |
| `Timestamps` | RFC 3339 stamps (section 5.1 of RFC 3339) and the string order every sort, cursor and SQL MAX relies on |
| `MessageTables`, `History`, `Paging`, `Summaries` | the insert-once message table, what is stored in it, the merge of a chat's aliases, cursor paging, last messages and unread counts |
| `ChatList` | the chat list built from groups, contacts and stored chats |
| `CacheKeys`, `ReadCache`, `CacheRuns` | the opt-in cache over messages and chat lists |
| `Lifecycle`, `Reconnect` | one account's client, reject and reconnect tasks: the bounds every run keeps, and what a run does get to |
| `Manager`, `ManagerEffects` | all accounts in memory against the account table, and what each operation on them does |
| `AgentLoop`, `AgentDialogue`, `Chunker` | the assistant's tool loop and stored history; the conversation it keeps; streaming an answer in chunks |
| `Auth`, `AuthCallers` | the legacy and the composite authentication path compared, whom each serves, and the permission matchers |
| `Webhooks`, `Phone` | the stored event list; the two phone normalisers |
| `Text`, `Collections` | string operations of the Go library and facts about sequences they all use |

Code that changes state is a class or a method proved against a function of the old state; the laws are
lemmas about that function, for every input, run or interleaving.

Conventions. Time is a `real` or a count of seconds and never runs backwards. What the WhatsApp client,
the database, Redis, the language model, the clock and the cryptography answer is a parameter, so every
theorem holds for every answer. A failing call is a `...Fails` parameter or a set of failing keys.
Orderings that Go or SQL leave open (`sort.Slice`, `ORDER BY` among equal stamps, map iteration) are
left open here: the models pick arbitrarily, or take the order as an argument, and the theorems hold for
any. The LID map is fixed during a call.

## What does not hold, and exactly when

- Stamps: from year 0 on string order is time order exactly where years take equally many digits or the
  later year's leading digits reach the earlier one (`StampsSortIff`), so it first fails between 9999 and
  10000. Before year 0, which a history sync's unchecked seconds can reach, it is so exactly within one
  year, or where the earlier year takes more digits and its leading ones are below the later
  (`StampsBeforeZeroSortIff`).
- Paging: for every limit a finished reading is complete exactly when the table falls into full pages
  that split no second, so either every reading of a table is or none (`VisitsAllIffNoSplit`,
  `AllReadingsAgree`, `SplitTieIsLost`). A full page is the limit up to 200; the handler admits limits up
  to 500, but the database replaces anything above 200 by 50 for each alias. Such a request is answered
  in full exactly when no alias selects more than 50 messages (`NewestBeyondCap`,
  `LargeLimitReturnsFifty`), and a reading can skip whole stretches (`LargeLimitSkips`).
- Unread counts: a chat's count equals its leading incoming run exactly when that run does not end on
  the same second as the newest own message, in every listing exactly when no incoming message has that
  second (`UnreadVersusLeading`, `UnreadMatchesEveryListingIff`, `TieIsNotCounted`). On the chat
  list, which counts are shown in every run, and which in none, depends on the stored JIDs, the contacts
  and the groups as `ShownInEveryRunIff` says; a stored LID whose contact resolves to a phone JID loses
  its count and its last message always (`UnresolvedContactIsLost`).
- Cache: the handler passes free-form cursors on. Two requests with limits that callers use (1 to 500, or
  0 without a cursor) can share a key exactly when one cursor extends the other, and exactly then a read
  can be served another request's page (`CursorsCollideIff`, `ServesOwnIffSeparate`). A read makes
  several queries; what it caches is one store state's answer exactly when the store did not change
  between its first and its last query (`CachedIsOneVersionIff`), which is always so for a page of one
  query (`SingleQueryIsUncached`) and not otherwise (`LateSetPredates`). After a clearing an older answer
  can come back exactly if a read of that key already holds one (`OlderReturnsIff`).
- Reconnecting: after a reject tasks can still start, exactly as many as handlers had read the flag and
  not yet started theirs (`TasksAfterRejectIff`).
- Manager: memory keeps the stored phone and name always, and an operation keeps the stored proxies
  exactly unless it loads an account whose proxy it failed to read (`ApplyKeepsAgreement`, `ProxyIsLost`).
  A delete whose database call fails leaves the row behind (`DomainsPartOnlyOnFailedDelete`,
  `FailedDeleteParts`).
- Assistant: all lists of a turn have one system message exactly when neither a reply sent back nor an
  empty final reply claims the system role (`OneSystemThroughoutIff`, `EmptySystemReplyIsStreamed`). A final answer with empty text is
  asked for again as a stream, and what is streamed is not stored: that turn keeps the user's message and
  what its tool-calling replies said, but no final answer.
- Authentication: the two paths differ exactly on an empty token with an empty secret, and on a usable
  API key with two dots in it (`PathsAgreeIff`, `EmptySecretDiffers`, `DottedKeyDiffers`). The comment at
  `internal/middleware/authenticator.go:36-37` says that a wrong bearer token beside a valid session
  cookie must be refused; the code refuses only tokens with two dots or the key prefix, and serves the
  cookie otherwise (`CookieServesIff`, `GarbageReachesTheCookie`). No route uses the composite yet.
- Permissions: the matchers differ exactly on the literal entry ":*" (`MatchersAgreeIff`, `ColonWildcardDiffers`).
- Webhook lists: they survive storage exactly when every event is non-empty, trimmed and comma-free
  (`RoundTrip`, `UncleanLists`).

## Model

| member | source | states |
|---|---|---|
| SendLimiter.TokenBucket.constructor | internal/service/account.go:110-118 | a new bucket is full and refills its capacity in sixty seconds |
| SendLimiter.TokenBucket.Allow | internal/service/account.go:121-138 | admits a call exactly when the refilled level reaches one token, and keeps tokens within 0 and the maximum |
| SendLimiter.WindowBound | internal/service/account.go:110-138 | whatever the starting level, any stretch of calls from s to t admits at most max + rate*(t-s) sends |
| SendLimiter.ConformsIffNeverOverdrawn | internal/service/account.go:110-138 | a choice of calls meets the bound in all windows if and only if replaying it through a full bucket never overdraws it |
| SendLimiter.NeverBehind | internal/service/account.go:121-138 | against any choice that is never overdrawn the bucket has admitted at least as many calls, and is never poorer once tokens in hand are counted |
| SendLimiter.BucketIsGreedy | internal/service/account.go:121-138 | the decisions of the lazy bucket are those of the greedy choice: take a call whenever a token is there |
| SendLimiter.GreedyIsOptimal | internal/service/account.go:110-138 | no limiter with the same bound in all windows admits more calls in any prefix of any run |
| SendLimiter.DeniedCallsLeaveNoTrace | internal/service/account.go:121-138 | removing or inserting a denied call changes the outcome of no other call |
| SendLimiter.SendsInOneMinute | internal/service/account.go:141-156 | with the program's 30 per minute no sixty seconds see more than sixty sends |
| Timestamps.CivilOfKeepsInstant | internal/service/account.go:1976-1981 | turning an instant into a UTC date and time and back gives the instant |
| Timestamps.CivilOfInstant | internal/service/account.go:1976-1981 | every valid UTC date and time is the one computed for its own instant |
| Timestamps.EpochIsNineteenSeventy | internal/service/account.go:2027 | Unix time zero is the first second of 1970 |
| Timestamps.FormatIsChronological | internal/service/account.go:1455-1456 | for years 0000-9999 string order of stamps is the order of the instants, and equal stamps are equal instants |
| Timestamps.StampOrder | internal/service/account.go:1678-1686 | the same from Unix seconds: the stored stamp orders as time does and names one second |
| Timestamps.StampsSortIff | internal/service/account.go:1455-1456 | from year 0 on, an earlier time sorts before a later one if and only if their years take equally many digits or the later year's leading digits reach the earlier year |
| Timestamps.StampsBeforeZeroSortIff | internal/service/account.go:2027 | before year 0 an earlier instant sorts before a later one if and only if they lie in one year, or the earlier year takes more digits and its leading ones are below the later year |
| Timestamps.SignSortsFirst | internal/service/account.go:2027 | an instant before year 0 sorts before every one from then on |
| Timestamps.FiveDigitYearsMisorder | internal/service/account.go:1876 | a later five-digit year sorts before a four-digit one exactly when its first four digits do |
| Timestamps.FirstSecondOfTenThousand | internal/service/account.go:1876 | such times exist: one second after the last of 9999 |
| Timestamps.StampReads | internal/service/account.go:1976-1981 | a stamp of a four-digit year reads YYYY-MM-DDTHH:MM:SSZ, each field the number it stands for (section 5.6 of RFC 3339) |
| Timestamps.KnownDays | internal/service/account.go:2027 | leap days come every fourth year but only every fourth century, and a known second of 2024 has its Unix time |
| MessageTables.EffectiveLimit | internal/database/database.go:593-595 | the limit the query uses is always in 1..200 |
| MessageTables.MessageTable.InsertMessage | internal/database/database.go:580-588 | insert once: an existing row under the same account and ID stays, a failed insert changes nothing |
| MessageTables.MessageTable.ListMessages | internal/database/database.go:592-630 | some newest-first choice of the newest selected rows: sorted, distinct, of the right size, none left out newer than one chosen |
| MessageTables.SortNewestFirst | internal/service/account.go:1455-1457 | a permutation ordered newest first, ties in any order |
| MessageTables.RetainsUnion | internal/service/account.go:1427-1461 | if two parts each keep everything their top limit needs, so does their union for the union |
| MessageTables.RetainedGivesNewest | internal/service/account.go:1454-1461 | sorting what was kept and cutting at the limit gives the newest of everything |
| MessageTables.FirstWriteWins | internal/database/database.go:580-588 | whatever is delivered, in any order and however often, a row is the one held before or the first delivered under its key |
| MessageTables.RedeliveryChangesNothing | internal/database/database.go:580-588 | delivering a batch again changes nothing |
| MessageTables.InsertAllKeeps | internal/database/database.go:580-588 | what all records delivered and all rows held satisfy, all rows satisfy afterwards |
| History.AtMostTwoAliases | internal/service/account.go:1425-1435 | a listing queries one or two JIDs, whatever the LID map |
| History.AliasesOfPair | internal/service/account.go:1425-1435 | a phone JID and the LID the maps pair it with are aliases of each other, and both resolve to the phone JID |
| History.AliasesOfOne | internal/service/account.go:1916-1958 | a JID the maps do not know is alone and resolves to itself |
| History.PairIsOneChat | internal/service/account.go:1425-1461 | so asking by either JID merges the same rows, every stored row of both among them, and where they fit the limit the listing has them all |
| History.ListsOnlyOwn | internal/service/account.go:1425-1461 | a listing holds only rows of this account and of those JIDs, older than its cursor |
| History.StorableIff | internal/service/account.go:2071-2131 | a message is stored if and only if it is present and carries content, or carries neither protocol nor key data; one with a body always is |
| History.LabelIsFirst | internal/service/account.go:2069-2100 | a message is labelled by the first of twelve content kinds it carries |
| History.NoLabelIsOther | internal/service/account.go:2069-2100 | one that carries none is "other", and a missing one "unknown" |
| History.BodyIsFirst | internal/service/account.go:2112-2132 | the body is the first text there is, of six places it may stand in |
| History.NoTextNoBody | internal/service/account.go:2112-2132 | without one the body is empty |
| History.SentKindsAreReceivedKinds | internal/service/account.go:1862-1885 | what is sent is labelled as it would be when received |
| History.LiveMessageIsListed | internal/service/account.go:1961-1986 | a storable live message with a new ID is stored with its own ID, resolved chat and sender, direction, label, body and second, and is among the rows a listing of its chat selects |
| History.EntryIsListed | internal/service/account.go:1998-2043 | so is a storable history entry, under its own or a drawn ID, from this account, the participant named, or the chat itself |
| History.Account.StoreMessage | internal/service/account.go:1961-1986 | a live message becomes at most one row, under the resolved JID and a UTC stamp, first write winning; protocol messages leave no row |
| History.Account.StoreOutgoing | internal/service/account.go:1862-1885 | a sent message becomes one own row under the JID as given, stamped with the current second |
| History.Account.StoreHistorySync | internal/service/account.go:1988-2048 | a history sync inserts exactly the storable entries of all conversations in order, passing over those the database refuses |
| History.Account.StoreConversation | internal/service/account.go:1993-2044 | the same for one conversation |
| History.Account.StoreEntry | internal/service/account.go:1998-2043 | the same for one entry, skipping absent, unstorable and refused ones |
| History.InsertAllKeepsStored | internal/service/account.go:1961-2048 | every row has its key, a fixed-width stamp and is no protocol message, after any batch |
| History.Account.QueryAll | internal/service/account.go:1437-1453 | whatever order the aliases are queried in, the records are the union of one newest choice per alias that answered; an error only when some query failed |
| History.MergingGivesMerged | internal/service/account.go:1454-1461 | sorting and cutting the collected choices gives, for limits 1..200, a newest-first top selection of the union, and beyond 200 the newest fifty of each alias |
| History.Account.ListMessages | internal/service/account.go:1411-1487 | the listing is that merge over the chat's aliases; it fails only if one of their queries did |
| History.NewestBeyondCap | internal/service/account.go:1427-1461 | above 200 the answer is the newest of the union if and only if no alias selects more than 50 rows |
| History.LargeLimitReturnsFifty | internal/database/database.go:593-595 | of more than fifty messages such a limit returns fifty |
| History.DropProtocol | internal/service/account.go:1463-1481 | the reply loop keeps, in order, the records that are no protocol messages |
| History.NothingToDrop | internal/service/account.go:1463-1481 | on such rows that filter changes nothing, so a page's last stamp is its query's |
| Paging.CursorKeepsOlder | internal/database/database.go:592-630 | with the cursor at a returned stamp, what is selected next is exactly what was selected before and is strictly older |
| Paging.PageSplits | internal/service/account.go:1425-1481 | nothing on a page is older than its last message, and what is selected next is strictly older and disjoint from it |
| Paging.CleanIffNoTieIsLeft | internal/service/account.go:1425-1481 | for limits 1..200 a boundary leaves out nothing as new as the page's last message if and only if it leaves out no tie with it |
| Paging.NothingTwice | internal/service/account.go:1425-1481 | over any number of pages and any limit no message is returned twice and the whole reading is newest first |
| Paging.NothingTwiceWhileGrowing | internal/service/account.go:1425-1481 | also while rows are added between the pages, no message is returned twice, not even under its ID, and the whole reading is newest first |
| Paging.ReadingEnds | internal/service/account.go:1425-1481 | a reading ends within one page per message |
| Paging.VisitsAllIffCleanBoundaries | internal/service/account.go:1425-1481 | for every limit, a finished reading has visited every message of the chat and its alias if and only if no page left out a message as new as its last |
| Paging.CleanBoundariesIffNoSplit | internal/service/account.go:1425-1481 | for every limit, the boundaries are clean if and only if the table falls into full pages that split no second: some message and all as new fill a page (the limit up to 200, beyond it fifty of each alias), and so on behind it |
| Paging.VisitsAllIffNoSplit | internal/service/account.go:1425-1481 | so a finished reading is complete if and only if the table does, whichever of tied messages the pages returned |
| Paging.AllReadingsAgree | internal/service/account.go:1425-1481 | either every finished reading of a table is complete or none is |
| Paging.ReadFrom | internal/handler/messages.go:41-49 | a reader that moves the cursor to the last stamp returned ends, and its pages are such a chain |
| Paging.ReadAll | internal/handler/messages.go:41-49 | what it has read is distinct, newest first, and complete if and only if the table falls into full pages that split no second |
| Paging.DistinctSecondsAreClean | internal/database/database.go:592-630 | for limits 1..200, when no two messages share a second every boundary is clean |
| Paging.SplitTieIsLost | internal/database/database.go:592-630 | two messages of one second read one at a time leave one unvisited |
| Paging.LargeLimitSkips | internal/service/account.go:1437-1461 | beyond 200 a reading misses messages whenever one alias has more than fifty and all of the other's, at most fifty, are older |
| Summaries.GetLastMessagePerChat | internal/database/database.go:521-546 | exactly the chats with messages, each with one of its newest messages |
| Summaries.CutoffIsFirstOwn | internal/database/database.go:550-577 | the query's cutoff is the stamp of the first own message of any newest-first listing |
| Summaries.UnreadIsNewerRun | internal/database/database.go:550-577 | the unread messages are those of the leading incoming run that are strictly newer than the cutoff |
| Summaries.UnreadVersusLeading | internal/database/database.go:550-577 | the unread count never exceeds the leading incoming run, and equals it if and only if the run does not end on a tie with the newest own message |
| Summaries.UnreadMatchesEveryListingIff | internal/database/database.go:550-577 | the count equals the incoming run of every newest-first listing if and only if no incoming message has the second of the newest own one |
| Summaries.TieIsNotCounted | internal/database/database.go:550-577 | such a tie: an incoming message of the own message's second is listed first and not counted |
| Summaries.SummariesMatchListing | internal/database/database.go:521-577 | with distinct stamps a chat's unread count is its leading incoming run and its last message the head of its listing |
| ChatList.OnlyLidServersAreLids | internal/service/account.go:1916-1936 | the string test for "@lid" is the test on the JID's server |
| ChatList.ServerIsSuffix | internal/service/account.go:1546-1549 | for a server without '@' a suffix test for "@server" is the test on the JID's server |
| ChatList.SkipIff | internal/service/account.go:1546-1549 | exactly broadcasts and newsletters are skipped, so no group, phone or LID is |
| ChatList.ListedMeans | internal/service/account.go:1541-1670 | the listed IDs, by server: every joined group and every resolved stored chat but broadcasts and newsletters |
| ChatList.SortedMeans | internal/service/account.go:1672-1687 | the list's order: no unpinned chat before a pinned one, and among those alike none before a newer one |
| ChatList.NameMeans | internal/service/account.go:1614-1625 | a contact shows its saved name, else its business name, else the name it pushed, else its number |
| ChatList.StoredNameMeans | internal/service/account.go:1645-1660 | any other stored chat shows its number, a group the name the server has for it |
| ChatList.AddGroups | internal/service/account.go:1570-1589 | exactly the groups that are not skipped are listed, under their own ID, with their name, settings and summaries |
| ChatList.AddContacts | internal/service/account.go:1591-1633 | exactly the contacts that have messages under their own or resolved JID are added under the resolved one, each with the name and settings of such a contact |
| ChatList.AddStored | internal/service/account.go:1635-1670 | every other stored chat is listed under its resolved ID with the summaries of the first stored JID visited, unpinned |
| ChatList.SortChats | internal/service/account.go:1672-1687 | a permutation, pinned first and then newest first |
| ChatList.ListChats | internal/service/account.go:1504-1693 | the IDs are exactly those of joined groups and stored chats that are not skipped, none repeats, each entry shows what is stored under one JID that resolves to it and carries its group's or contact's name and settings, pinned first and then newest first |
| ChatList.ContactsAreStored | internal/service/account.go:1591-1612 | a contact is only listed where some stored JID resolves to its ID |
| ChatList.UnreadConserved | internal/service/account.go:1541-1687 | listed unread counts never exceed the unread total and reach it if and only if every unread JID is one an entry shows |
| ChatList.ListedUnreadIsShownBy | internal/service/account.go:1541-1687 | the listed counts add up to those of the JIDs that the visiting order shows |
| ChatList.ShownInEveryRunIff | internal/service/account.go:1591-1670 | a JID's messages are shown in every run if and only if its chat is not skipped and either a group or contact has that very ID or, with none, it is the only stored JID of its chat; in no run if and only if its chat is skipped, or listed by a group or contact under another ID, or it has no messages and no group or contact |
| ChatList.CountsAddUpInEveryRunIff | internal/service/account.go:1541-1687 | the counts add up in every run if and only if each unread JID is of the first kind |
| ChatList.CountsAreLostInEveryRunIff | internal/service/account.go:1541-1687 | a count is lost in every run if and only if some unread JID is of the second kind, or two unread JIDs are stored for one chat |
| ChatList.UnresolvedContactIsLost | internal/service/account.go:1606-1640 | a stored LID whose contact resolves to a phone JID is of the second kind |
| ChatList.UnmergedAliasesLoseCounts | internal/service/account.go:1541-1687 | two unread aliases of one chat always cost the list a count |
| ChatList.ResolvedCountsAddUp | internal/service/account.go:1541-1687 | when all stored chat JIDs are resolved the listed counts sum to the unread total of the chats not skipped |
| CacheKeys.DecimalIsInjective | internal/service/account.go:1417 | different limits are written differently |
| CacheKeys.SharesKeyIff | internal/service/account.go:1417 | two requests of one account share a key if and only if they are equal, or one is the other shifted across a colon: limit and start of the cursor of one are the end of the chat JID of the other |
| CacheKeys.CursorsCollideIff | internal/service/account.go:1417 | different requests that callers make with two given cursors, of any chat, can share a key if and only if one cursor extends the other: an optional text ending in a colon, a limit callers use, a colon, and the other |
| CacheKeys.MessagesKeyIsInjective | internal/service/account.go:1417 | where neither cursor extends the other, equal keys of such requests mean equal requests, colons in the chat JID included |
| CacheKeys.AsksIff | internal/handler/messages.go:31-39 | the limits that callers use, 1 to 500 or 0 without a cursor, are exactly those that the endpoint, the MCP tool and the agent's tool pass on |
| CacheKeys.CanonicalCursorsAreSafe | internal/service/account.go:1417 | no cursor that is empty or a stamp extends another |
| CacheKeys.FreeFormCursorsCollide | internal/service/account.go:1417 | a concrete collision of two other cursors |
| CacheKeys.PatternIsOneAccount | internal/service/account.go:1733-1739 | the delete pattern covers the message keys of its account, of no other account, and no chat-list key |
| CacheKeys.AccountsShareNoKey | internal/service/account.go:1417 | two accounts share no chat-list key and, without colons in their IDs, no page key |
| ReadCache.Cache.GetJSON | internal/cache/cache.go:82-92 | a hit is the value stored, only before its expiry |
| ReadCache.Cache.SetJSON | internal/cache/cache.go:94-104 | stores one value with its expiry and touches no other key |
| ReadCache.Cache.Del | internal/cache/cache.go:74-80 | removes exactly the given keys |
| ReadCache.Cache.Keys | internal/cache/cache.go:122-127 | exactly the stored keys that match |
| ReadCache.Cache.Read | internal/service/account.go:1417-1423 | a hit is served as it stands, a miss serves and stores the database's answer |
| ReadCache.Cache.ClearAfterLive | internal/service/account.go:1733-1739 | after a live message no message page and no chat list of the account is left, and every page of other accounts is |
| ReadCache.Cache.ClearAfterSent | internal/service/account.go:1881-1883 | after a sent message exactly the chat list goes |
| ReadCache.RunKeepsHonest | internal/service/account.go:1413-1487 | every interleaving keeps: each cached entry sits under the key of the request that filled it, is complete, and each of its parts is what the store answered to one query at a version then current |
| ReadCache.BoundedStaleness | internal/service/account.go:1413-1487 | under any interleaving of misses, queries, failed queries, sets, abandoned reads, changes, deletes and time, each part of what is served is what a store state answered that was current between the fill's miss and its set, so no longer ago than the TTL (5 s pages, 8 s chat list) plus that gap |
| ReadCache.OneVersionIff | internal/service/account.go:1437-1453 | from just after its first query to its last, a read's answers are of one store version if and only if the store did not change in between |
| ReadCache.CachedIsOneVersionIff | internal/service/account.go:1437-1485 | so is what it caches; and then, if no query failed, it is the uncached answer of the store state first asked |
| ReadCache.OneVersionIsUncached | internal/service/account.go:1437-1453 | answers of one version, none failed, are those of an uncached read of that store state |
| ReadCache.SingleQueryIsUncached | internal/service/account.go:1437-1485 | what a read of one query caches, such as a page of a chat without alias, is always the uncached answer of one store state that was current between its miss and its set |
| CacheRuns.ServesOwnIffSeparate | internal/service/account.go:1417-1423 | over all runs with a given set of cursors each read is served the answer to its own request if and only if no cursor of the set extends another |
| CacheRuns.ServedUntilExpiry | internal/service/account.go:1689-1691 | what a read has set is served for eight seconds as a chat list and five as a page, and then no more |
| CacheRuns.FailedPagesAreNotCached | internal/service/account.go:1437-1485 | a page is cached only if its first query succeeded and its read was done |
| CacheRuns.FinishRuns | internal/service/account.go:1425-1485 | a read that has begun can go on to its set exactly by making the queries it lacks, and then caches their answers under its key; a page whose first query fails never is |
| CacheRuns.OlderReturnsIff | internal/service/account.go:1733-1739 | once a key is cleared at a store version, some continuation caches an older answer under it if and only if a read of that key is in flight that has not failed and already holds one |
| CacheRuns.LateSetPredates | internal/service/account.go:1689-1691 | such a run for any request, page or chat list: the queries made before a message is inserted and both key families are cleared are of the old version, those made after it of the new |
| CacheRuns.ActionKeepsFresh | internal/service/account.go:1733-1739 | with atomic operations each one keeps cached parts at least as new as what was handled |
| CacheRuns.PerformKeepsFresh | internal/service/account.go:1733-1739 | and so does every sequence of them |
| CacheRuns.NeverPredatesHandled | internal/service/account.go:1881-1883 | with atomic operations no part of a cached chat list predates a message handled live or sent, none of a cached page one handled live, and without history sync a cached chat list is current throughout |
| Lifecycle.Account.PrepareClient | internal/service/account.go:188-231 | attaches a fresh client, or changes nothing when the session store fails |
| Lifecycle.Account.ConnectAccount | internal/service/account.go:163-186 | clears `rejected` always, keeps a live client, else attaches a fresh one even if it then fails to connect |
| Lifecycle.Account.GetQRChannel | internal/service/account.go:284-328 | replaces the client without clearing `rejected`; succeeds only on an unlinked fresh client |
| Lifecycle.Account.DisconnectAccount | internal/service/account.go:234-243 | detaches the client and changes nothing else |
| Lifecycle.Account.LogoutAccount | internal/service/account.go:361-399 | detaches the client whatever the server or the session store answers |
| Lifecycle.Account.RejectMismatch | internal/service/account.go:1838-1860 | sets `rejected` and detaches in one section |
| Lifecycle.Account.HandleEvent | internal/service/account.go:1728-1834 | the state each lifecycle event leaves, and when it spawns a reject or reconnect task |
| Lifecycle.Account.StartReconnect | internal/service/account.go:1823-1830 | one task per handler that read `rejected` as false |
| Lifecycle.Account.BeginRound | internal/service/account.go:1887-1898 | a round reads `a.client` once and ends the task on nil |
| Lifecycle.Account.EndRound | internal/service/account.go:1899-1912 | the round ends the task on a live client, a success or the fifth attempt |
| Lifecycle.AttachedBy | internal/service/account.go:163-399 | whatever `a.client` holds was attached by a `Connect` or `GetQR`, fresh, and nothing replaced or detached it since |
| Lifecycle.DetachedStaysDetached | internal/service/account.go:1815-1860 | after a reject, logout, LoggedOut or disconnect section `a.client` stays nil until the next of those two |
| Lifecycle.RejectedUntilConnect | internal/service/account.go:163-186 | a rejected account stays so until `Connect` |
| Lifecycle.EveryTaskIsLicensed | internal/service/account.go:1823-1830 | tasks started and handlers about to start one are exactly the drops seen while not rejected |
| Lifecycle.NoNewTasksAfterReject | internal/service/account.go:1823-1860 | after a reject and until `Connect` only handlers already past the check start tasks |
| Lifecycle.TasksAfterRejectIff | internal/service/account.go:1823-1860 | after a reject and before the next `Connect`, k more tasks can start if and only if at least k handlers had read `rejected` as false and not yet started theirs |
| Lifecycle.TaskMayStartRejected | internal/service/account.go:1823-1860 | and they can: a five-step run |
| Lifecycle.AtMostFiveCalls | internal/service/account.go:1887-1912 | a reconnect task makes at most five connect calls, over every interleaving |
| Reconnect.CallsReachableIff | internal/service/account.go:1887-1912 | a task just started while a client is attached can by itself make k connect calls if and only if k is at most five |
| Reconnect.FailedCallGoesOn | internal/service/account.go:1899-1912 | a failed call before the fifth leaves its task waiting for its next round; the fifth ends it |
| Reconnect.ConnectedEndsTask | internal/service/account.go:1899-1912 | a client found connected, and a call that succeeds, end the task |
| Lifecycle.HeldWasReadThisRound | internal/service/account.go:1887-1912 | the client a task uses is one it read from `a.client` in this round |
| Lifecycle.NilEndsTask | internal/service/account.go:1887-1912 | a task that reads nil takes no further step |
| Lifecycle.DetachedTasksDieOut | internal/service/account.go:1887-1912 | once detached and until reattached, a task makes at most the one call it already holds a client for |
| Reconnect.AfterConnect | internal/service/account.go:163-186 | after `Connect` the account is not rejected, a live client is still attached, and else a fresh one if it could be made |
| Reconnect.AfterGetQR | internal/service/account.go:284-328 | after `GetQR` a fresh client is attached, or none, and `rejected` is as it was |
| Reconnect.EveryMismatchIsRejected | internal/service/account.go:1771-1860 | the rejects run and the rejects pending are exactly the mismatches seen on pairing and on connecting |
| Reconnect.NothingBeforeAClient | internal/service/account.go:188-231 | an event is only handled after a `Connect` or `GetQR` made a client |
| Manager.AccountDB.GetAccountByPhone | internal/database/database.go:382-388 | finds a row with the number exactly when there is one |
| Manager.AccountDB.CreateAccount | internal/database/database.go:358-372 | refused by a failure, a used ID or a used number, and then nothing changes |
| Manager.AccountDB.UpdateAccountName | internal/database/database.go:411-415 | changes that row's name unless it fails; a missing row is no error |
| Manager.AccountDB.UpdatePhoneNumber | internal/database/database.go:417-421 | refused by a failure, or for a row that is there by a used number |
| Manager.AccountDB.DeleteAccount | internal/database/database.go:423-427 | the proxy goes with its account |
| Manager.AccountDB.UpsertProxyConfig | internal/database/database.go:471-486 | refused without its account |
| Manager.AccountDB.DeleteProxyConfig | internal/database/database.go:504-508 | removes that proxy only |
| Manager.AccountManager.CreateAccount | internal/service/manager.go:56-111 | memory and tables after a creation, on each failure path |
| Manager.AccountManager.DeleteAccount | internal/service/manager.go:154-186 | memory forgets before the row is deleted, and a logged-in account is refused |
| Manager.AccountManager.UpdateAccountName | internal/service/manager.go:198-210 | memory follows the row only when the write succeeds |
| Manager.AccountManager.UpdatePhoneNumber | internal/service/manager.go:213-238 | the same for a normalised, valid and free number |
| Manager.AccountManager.SetProxyConfig | internal/service/manager.go:241-254 | memory follows the stored proxy only when the write succeeds |
| Manager.AccountManager.DeleteProxyConfig | internal/service/manager.go:268-281 | the same for removal |
| Manager.AccountManager.DiscoverAccounts | internal/service/manager.go:286-324 | loads exactly the rows memory lacks, with the proxies that could be read |
| Manager.ApplyKeepsTableSound | internal/service/manager.go:56-281 | every operation keeps numbers 7-15 digits and pairwise distinct, and every proxy with its account |
| Manager.ApplyKeepsReflection | internal/service/manager.go:56-324 | every operation, however its calls fail, keeps each account in memory matched by a row with its phone and name |
| Manager.ApplyKeepsAgreement | internal/service/manager.go:284-324 | phone, name and proxy all stay equal if and only if the operation loads no account whose proxy it failed to read |
| Manager.RunKeepsAgreement | internal/service/manager.go:56-324 | every run keeps a sound table reflected in memory, and one in which no proxy read fails keeps phone, name and proxy all equal |
| Manager.ManagerRefinesTable | internal/service/manager.go:56-324 | from an empty start memory always reflects a sound table, so its numbers are distinct too |
| Manager.DiscoverEqualizes | internal/service/manager.go:284-324 | a successful discovery makes the domains of memory and table equal |
| Manager.ProxyIsLost | internal/service/manager.go:286-324 | a run of four operations after which memory has lost a stored proxy |
| Manager.FailedDeleteParts | internal/service/manager.go:154-186 | a run of two after which the table holds a row that memory does not |
| ManagerEffects.CreateMakes | internal/service/manager.go:56-111 | an account is made exactly when its number has 7 to 15 digits that no account has and the database takes it; it then has those digits, its name or "unknown", and no proxy, in memory and tables alike |
| ManagerEffects.RenameRenames | internal/service/manager.go:198-210 | exactly that account has the new name, in memory and table alike, or nothing changed |
| ManagerEffects.ChangePhoneChanges | internal/service/manager.go:213-238 | exactly that account has the new digits, exactly when they are 7 to 15, free and taken by the database |
| ManagerEffects.SetProxySets | internal/service/manager.go:241-254 | exactly that account has the new proxy, or nothing changed |
| ManagerEffects.DeleteProxyDeletes | internal/service/manager.go:268-281 | exactly that account has no proxy, or nothing changed |
| ManagerEffects.DeleteDeletes | internal/service/manager.go:154-186 | an account that is not logged in goes from memory, and from the tables unless the database fails; one that is stays |
| ManagerEffects.UnknownIsRefused | internal/service/manager.go:154-281 | an operation on an account that memory lacks is refused and changes nothing |
| ManagerEffects.DiscoverLoads | internal/service/manager.go:284-324 | discovery loads each row that memory lacks with its phone, name and readable proxy, and leaves the rest alone |
| ManagerEffects.NumbersAreSound | internal/service/manager.go:56-324 | after any run from an empty start every stored and held number has 7 to 15 digits and nothing else, and no two are equal |
| AgentLoop.Rounds | internal/agent/agent.go:131-170 | the number of leading replies that ask for tools, at most ten |
| AgentLoop.Agent.RunChat | internal/agent/agent.go:106-172 | the lists sent to the model, the sessions stored and the outcome of a turn, for every model, tool and storage behaviour; other users' sessions stay |
| AgentLoop.Agent.ExecuteTools | internal/agent/agent.go:151-168 | one result message per call, in call order |
| AgentLoop.Agent.StreamFinal | internal/agent/agent.go:174-227 | an empty answer causes exactly one streaming call, a non-empty one none |
| AgentLoop.Agent.SaveHistory | internal/agent/agent.go:229-259 | what is stored is the newest forty plain user and non-empty assistant messages |
| AgentLoop.OneSystemIffNoReplyClaimsIt | internal/agent/agent.go:122-129 | the n-th list of the loop has exactly one system message, at index 0, if and only if none of the n replies before it had that role |
| AgentLoop.OneSystemThroughoutIff | internal/agent/agent.go:122-216 | all lists of a turn, the streamed one included, do if and only if no tool-calling reply that a later list repeats had that role, and no empty final reply did |
| AgentLoop.EmptySystemReplyIsStreamed | internal/agent/agent.go:209-212 | an empty first reply with the system role is streamed back as a second system message |
| AgentLoop.RoundIsAnswered | internal/agent/agent.go:148-168 | a round answers its calls and disturbs no earlier ones |
| AgentLoop.RoundHasNoOrphans | internal/agent/agent.go:148-168 | and leaves no tool message without its call |
| AgentLoop.HistoryIsAnswered | internal/agent/agent.go:133-169 | after any number of rounds every call is answered at once and in order, with no result left over |
| AgentLoop.RoundInHistory | internal/agent/agent.go:148-168 | every past round stands unchanged in each later list: the reply, then for each call its ID, name and what the tool returned |
| AgentLoop.RequestsAreSound | internal/agent/agent.go:133-226 | given assistant-role replies every list a turn sends, streaming included, has both properties, and at most ten `Chat` calls are made |
| AgentLoop.NextIsKept | internal/agent/agent.go:229-259 | a stored session has at most forty messages, none a system or tool message, none with tool calls, no empty answers, whatever the model replied |
| AgentLoop.TurnAppendsSpoken | internal/agent/agent.go:106-259 | a saved turn appends what was said in it to what was loaded and keeps the newest forty |
| AgentLoop.SessionIsTailOfLog | internal/agent/agent.go:106-259 | over any number of turns the session is the newest forty messages of everything said in saved turns |
| AgentLoop.LogIsUserAndAssistant | internal/agent/agent.go:229-259 | given assistant-role replies only the user and the assistant speak in it |
| AgentLoop.EveryTurnIsSound | internal/agent/agent.go:106-172 | so each turn of any conversation sends only sound lists |
| AgentLoop.UsersAreSeparate | internal/agent/agent.go:106-172 | over interleaved turns of many users a session depends on its own user's turns alone |
| AgentDialogue.LogByRole | internal/agent/agent.go:229-259 | given assistant-role replies, the log's user messages are what was asked in the saved turns since the session was last unreadable, in order, and its assistant messages the non-empty texts of those turns' tool-calling and final replies |
| AgentDialogue.LogIsDialogue | internal/agent/agent.go:106-259 | the log is exactly those turns' exchanges, question first |
| AgentDialogue.SessionIsLastForty | internal/agent/agent.go:229-259 | the stored session is the last forty messages of that dialogue |
| AgentDialogue.FirstExchange | internal/agent/agent.go:229-259 | a first "hi" answered by "hello" is stored as these two messages |
| AgentDialogue.FirstList | internal/agent/agent.go:122-133 | the first list sent is the prompt, the session and the user's message |
| AgentDialogue.TenRoundsEndTheTurn | internal/agent/agent.go:131-172 | ten replies that ask for tools end the turn with ten calls of the model and nothing stored |
| Chunker.Chunks | internal/agent/agent.go:178-206 | the chunks add up to the content with each line's words joined by single spaces; each but the last holds exactly eight words, the last at most eight, none is empty |
| Chunker.ChunkLine | internal/agent/agent.go:188-200 | a line adds its words joined by single spaces and keeps the eight-word count across lines |
| Chunker.FieldsAround | internal/agent/agent.go:188 | white space separates the words before it from those after it |
| Chunker.RenderingKeepsWords | internal/agent/agent.go:178-207 | what is streamed has exactly the words of the answer, in order |
| Chunker.RenderingKeepsLines | internal/agent/agent.go:178-207 | and its lines, one for one, each tidied |
| Chunker.TidyIsSingleSpaced | internal/agent/agent.go:188-200 | a tidied line has one space between its words and none around them |
| Auth.LegacyTokenOfBearer | internal/middleware/middleware.go:75-86 | a bearer header gives back its token, spaces included |
| AuthCallers.HeaderMeans | internal/middleware/middleware.go:75-86 | a header gives a token exactly when it is "bearer" in any case, one space and that token; the composite refuses the empty token as well |
| AuthCallers.LegacySecret | internal/middleware/middleware.go:88-99 | the secret is the system administrator's |
| AuthCallers.LegacySignedIff | internal/middleware/middleware.go:101-141 | a signed token serves if and only if it names a user that is found and enabled and whose permissions can be read, and as that user |
| AuthCallers.LegacyKeyIff | internal/middleware/middleware.go:143-194 | any other token serves if and only if it has the key prefix, its stored key is found and enabled with an expiry that is missing, unreadable or not before now, and its user can act; and as that user, within the account the key is bound to |
| AuthCallers.LegacyRefusesOthers | internal/middleware/middleware.go:75-86 | without a bearer token the request is unauthorized |
| AuthCallers.LegacyStatuses | internal/middleware/middleware.go:101-194 | a disabled user is forbidden, unreadable permissions are an internal error, an unknown user is unauthorized |
| AuthCallers.CompositeSecret | internal/middleware/authenticator.go:48-70 | the same of the secret through the composite |
| AuthCallers.CompositeSignedIff | internal/middleware/authenticator.go:78-128 | a token with two dots serves if and only if it is signed for a user that can act, and as that user |
| AuthCallers.CompositeKeyIff | internal/middleware/authenticator.go:135-180 | one without serves if and only if it has the key prefix, a good key and a user that can act, and as that user within the bound account |
| AuthCallers.CompositeRefusesOthers | internal/middleware/authenticator.go:255-277 | without a bearer token there are no credentials |
| AuthCallers.SessionIff | internal/middleware/authenticator.go:189-225 | a cookie serves if and only if it is signed for a user that can act; without one there are no credentials |
| AuthCallers.DotsCount | internal/middleware/authenticator.go:84-86 | the dots counted are the occurrences of '.' in the token |
| Auth.FirstRecognizedDecides | internal/middleware/authenticator.go:255-277 | the first authenticator that recognizes a credential decides, valid or not |
| Auth.NoCredentialsIffNoneRecognizes | internal/middleware/authenticator.go:255-277 | there are no credentials if and only if no authenticator recognizes any |
| Auth.BearersInARow | internal/middleware/authenticator.go:48-180 | which mechanism owns a bearer token: the secret, two dots, the key prefix, or none |
| Auth.PathsAgreeIff | internal/middleware/middleware.go:73-196 | both paths accept the request and name the same user, role, permissions and account scope, or both refuse, if and only if the token is not empty under an empty secret and is no usable key with two dots |
| Auth.EmptySecretDiffers | internal/middleware/middleware.go:81-100 | with an empty secret an empty bearer token is the system caller's to one path and refused by the other |
| Auth.DottedKeyDiffers | internal/middleware/authenticator.go:84-86 | a world with a usable key of two dots, which one path takes and the other refuses |
| Auth.AgreeOnAllRequestsIff | internal/middleware/middleware.go:73-196 | they agree on every request if and only if the secret is non-empty and no usable key has two dots |
| Auth.StoredHashesAreOfMinted | internal/handler/apikeys.go:107-134 | with a hash that is collision-free on minted keys only minted keys are ever found |
| Auth.MintedHasNoDots | internal/handler/apikeys.go:107-114 | a minted key has no dots |
| AuthCallers.MintedIff | internal/handler/apikeys.go:107-114 | a token is a minted one exactly when it is the prefix and 32 bytes in hexadecimal |
| Auth.DeploymentsAgree | internal/middleware/principal.go:126-139 | with a secret, compact tokens and minted keys the paths agree on every request |
| Auth.PrincipalsAgreeIff | internal/middleware/principal.go:60-124 | handlers read the same principal after either path, but for its mechanism, if and only if the role has a name |
| Auth.CookieServesIff | internal/middleware/authenticator.go:28-38 | beside a valid cookie a bearer token that is not the secret is passed over if and only if it has neither two dots nor the key prefix |
| Auth.GarbageReachesTheCookie | internal/middleware/authenticator.go:36-37 | the comment's own example is served, not refused |
| Auth.PermissionMeans | internal/middleware/principal.go:43-60 | a permission is granted if and only if the list has "*", the permission itself or a non-empty resource's wildcard |
| Auth.SomeEntryGrants | internal/middleware/middleware.go:49-67 | both matchers succeed exactly when a single entry grants |
| Auth.MatchersAgreeIff | internal/middleware/middleware.go:49-67 | the older matcher grants what the newer does and, with ":*" listed, everything that starts with a colon |
| Auth.ColonWildcardDiffers | internal/middleware/principal.go:53 | a list and a permission on which they differ |
| Webhooks.SplitList | internal/handler/webhook.go:106-115 | the trimmed non-empty parts, in order |
| Webhooks.SplitOne | internal/handler/webhook.go:106-115 | a list without a comma is its trimmed name, or nothing |
| Webhooks.SplitTwo | internal/handler/webhook.go:106-115 | a comma parts a list: first the names before it, then those after it |
| Text.TrimSpaceMeans | internal/handler/webhook.go:106-115 | trimming takes off white space, and all of it, at both ends |
| Text.SpaceMeans | internal/handler/webhook.go:106-115 | which twenty-five code points are white space |
| Webhooks.RoundTrip | internal/handler/webhook.go:64-70 | splitting the joined list returns it if and only if every event is non-empty, comma-free and trimmed |
| Webhooks.SplitJoinSplit | internal/service/account.go:2238-2247 | split-join-split equals split on any string |
| Webhooks.Webhook.Set | internal/handler/webhook.go:43-89 | stores URL, secret, joined list and flag, or changes nothing on a missing URL or a failed write |
| Webhooks.Webhook.Get | internal/handler/webhook.go:12-40 | shows the stored list split again, never the secret; a failed read and a missing configuration are told apart |
| Webhooks.Webhook.Dispatches | internal/service/account.go:2142-2160 | delivery is attempted exactly when the configuration can be read and says so |
| Webhooks.CleanListFilters | internal/service/account.go:2149-2160 | with a clean list, if and only if enabled, with a URL, and the list is empty or has the event |
| Webhooks.UncleanLists | internal/service/account.go:2149-2160 | one empty name lets every event through, one blank name none |
| Phone.NormalizeBytes | internal/service/account.go:2252-2260 | the byte-wise normaliser keeps exactly the digits |
| Phone.NormalizeRunes | internal/service/account.go:1698-1707 | the rune-wise one keeps the same, on every byte string, invalid UTF-8 included |
| Phone.RuneDigits | internal/service/account.go:1698-1707 | a rune is a digit if and only if the bytes it took hold one (section 3 of RFC 3629) |
| Phone.DecodesIff | internal/service/account.go:1698-1707 | decoding undoes UTF-8 encoding exactly where a string starts with one; anything else is one bad byte (section 3 of RFC 3629) |
| Phone.NormalForm | internal/service/account.go:2252-2260 | digits only, idempotent, and distributing over concatenation |
| Phone.MatchIgnoresFormatting | internal/service/account.go:1709-1726 | formatting never changes a match, and a prefixed country code never breaks one that rests on seven digits |
| Phone.MatchesIff | internal/service/account.go:1709-1726 | a number matches if and only if one of the two has no digits, or the paired one is the registered one with something in front, which needs seven digits to be there |

## Left out

- Numbers in the bucket are exact reals: floating-point rounding and the clock's resolution are not modelled.
- Strings are compared character by character, as Go does; a database collation that orders or equates strings differently is not modelled, nor is the SQL text itself.
- Stamps: instants are unbounded integers of seconds; Go's wrap-around at the ends of 64 bits is not modelled.
- MessageTables.MessageTable.ListMessages: the row loop's scan errors are not modelled; a failing query is a failing JID in `History.Account.ListMessages`.
- History.Account.ListMessages: limits are not negative, as every caller ensures but for a tool's number beyond the range of Go's `int`, which is not modelled.
- Summaries: the unread query is given by what it selects (`UnreadPerChat`); its row loop only fills a map from distinct chats.
- ChatList: pictures and the group details beyond name and settings are not modelled.
- ReadCache: an error of Redis when reading is a miss and when setting an abandoned read; one when clearing, JSON encoding and `FlushDB` are not modelled. What the WhatsApp client answers counts as part of the store's state, and its fetches as queries; `Ends` states that a read makes boundedly many.
- Lifecycle: what a client does on the network, pairing codes and the delays between rounds are not modelled; which device a fresh client gets from a store shared per DSN is not stated.
- Manager: accounts in memory are values, so two references to one account object, and the owner, data directory and creation time, are not modelled; operations run one at a time.
- AgentLoop.Agent.RunChat: two concurrent turns of one user, which read and overwrite the same session, are not modelled; a session that cannot be read and one that does not parse are the same failure.
- AgentLoop: the server-sent events, the one-shot auto-reply and the tools themselves are not modelled.
- Auth: hashing, constant-time comparison and JWT validation are functions of the world; CompactTokens states that a valid JWT is in compact form (section 7.1 of RFC 7515). The legacy path's status codes have no counterpart in the composite, so only acceptance and the caller are compared. The background last-used write is not modelled.
- Auth: the header is taken as delivered; an HTTP server that trims it never delivers an empty token.
- Webhooks: delivery, retries and signatures are not modelled.
- Auth: the service authenticator, which nothing is wired to, is not modelled.
- Accounts without a database, whose operations return at once, are not modelled.
- HTTP handlers, MCP, billing, user administration, rate limiting by semaphore, CORS, media and message construction would add only easy members.
