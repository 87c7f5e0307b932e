/**
 The message table and its newest-first query (internal/database/database.go:195-210,
 579-630). `ORDER BY timestamp DESC LIMIT n` is read as "some ordered choice": rows with
 equal stamps may come in any order, and which of them the limit keeps is not fixed.
 */
module MessageTables {
  import opened Text
  import opened Collections

  datatype Message = Message(
    id: string, accountID: string, chatJID: string, senderJID: string, fromMe: bool,
    kind: string, body: string, mediaType: string, timestamp: string)

  type Rows = map<(string, string), Message>

  /** The primary key of a row. */
  function Key(m: Message): (string, string) {
    (m.accountID, m.id)
  }

  ghost predicate Keyed(rows: Rows) {
    forall k :: k in rows ==> Key(rows[k]) == k
  }

  // ---- Newest first ----

  predicate AtLeastAsNew(x: Message, m: Message) {
    AtMost(m.timestamp, x.timestamp)
  }

  lemma AgeLaws()
    ensures forall x, y :: AtLeastAsNew(x, y) || AtLeastAsNew(y, x)
    ensures forall x, y, z :: AtLeastAsNew(x, y) && AtLeastAsNew(y, z) ==> AtLeastAsNew(x, z)
  {
    LessLaws();
    hide Less;
  }

  ghost predicate Sorted(out: seq<Message>) {
    forall i, j :: 0 <= i < j < |out| ==> AtLeastAsNew(out[i], out[j])
  }

  /** `out` is a newest-first choice of the `limit` newest messages of `s`. */
  ghost predicate Newest(s: set<Message>, limit: nat, out: seq<Message>) {
    && Distinct(out) && Sorted(out) && Elements(out) <= s
    && |out| == (if limit <= |s| then limit else |s|)
    && forall x, m :: x in out && m in s && m !in out ==> AtLeastAsNew(x, m)
  }

  /** Go's `sort.Slice` by descending stamp; equal stamps may end up in any order. */
  method SortNewestFirst(records: seq<Message>) returns (out: seq<Message>)
    ensures multiset(out) == multiset(records) && Sorted(out)
  {
    out := [];
    for i := 0 to |records|
      invariant multiset(out) == multiset(records[..i]) && Sorted(out)
    {
      var p := 0;
      while p < |out| && AtLeastAsNew(out[p], records[i])
        invariant 0 <= p <= |out|
        invariant forall k :: 0 <= k < p ==> AtLeastAsNew(out[k], records[i])
      {
        p := p + 1;
      }
      InsertionKeepsSorted(out, p, records[i]);
      assert records[..i + 1] == records[..i] + [records[i]];
      assert out == out[..p] + out[p..];
      out := out[..p] + [records[i]] + out[p..];
    }
    assert records[..|records|] == records;
  }

  lemma InsertionKeepsSorted(out: seq<Message>, p: nat, m: Message)
    requires Sorted(out) && p <= |out| && forall k :: 0 <= k < p ==> AtLeastAsNew(out[k], m)
    requires p < |out| ==> !AtLeastAsNew(out[p], m)
    ensures Sorted(out[..p] + [m] + out[p..])
  {
    AgeLaws();
    hide AtLeastAsNew;
  }

  // ---- Retained messages: what survives a limit ----

  ghost function NoOlder(s: set<Message>, m: Message): set<Message> {
    set x | x in s && AtLeastAsNew(x, m)
  }

  /** `kept` leaves out a message of `s` only behind `limit` messages at least as new. */
  ghost predicate Retains(kept: set<Message>, s: set<Message>, limit: nat) {
    kept <= s && forall m :: m in s && m !in kept ==> limit <= |NoOlder(kept, m)|
  }

  lemma NewestRetains(s: set<Message>, limit: nat, out: seq<Message>)
    requires Newest(s, limit, out)
    ensures Retains(Elements(out), s, limit)
  {
    DistinctSize(out);
    SubsetSize(Elements(out), s);
    forall m | m in s && m !in out
      ensures limit <= |NoOlder(Elements(out), m)|
    {
      assert NoOlder(Elements(out), m) == Elements(out);
    }
  }

  lemma RetainsUnion(kept: set<Message>, s: set<Message>, kept': set<Message>, s': set<Message>, limit: nat)
    requires Retains(kept, s, limit) && Retains(kept', s', limit)
    ensures Retains(kept + kept', s + s', limit)
  {
    forall m | m in s + s' && m !in kept + kept'
      ensures limit <= |NoOlder(kept + kept', m)|
    {
      if m in s {
        SubsetSize(NoOlder(kept, m), NoOlder(kept + kept', m));
      } else {
        SubsetSize(NoOlder(kept', m), NoOlder(kept + kept', m));
      }
    }
  }

  /** Sorting what was retained and cutting at the limit gives a newest-first choice. */
  lemma RetainedGivesNewest(kept: set<Message>, s: set<Message>, limit: nat, all: seq<Message>)
    requires Retains(kept, s, limit)
    requires Sorted(all) && Distinct(all) && Elements(all) == kept
    ensures Newest(s, limit, if limit <= |all| then all[..limit] else all)
  {
    hide AtLeastAsNew;
    var out := if limit <= |all| then all[..limit] else all;
    DistinctSize(all);
    SubsetSize(kept, s);
    if kept != s {
      var m :| m in s && m !in kept;
      SubsetSize(NoOlder(kept, m), kept);
    }
    forall x, m | x in out && m in s && m !in out
      ensures AtLeastAsNew(x, m)
    {
      var i :| 0 <= i < |out| && out[i] == x;
      if m in kept {
        var j :| 0 <= j < |all| && all[j] == m;
      } else if !AtLeastAsNew(x, m) {
        NewerComeFirst(all, i, m);
        DistinctSize(all[..i]);
        SubsetSize(NoOlder(kept, m), Elements(all[..i]));
        assert false;
      }
    }
  }

  lemma NewerComeFirst(all: seq<Message>, i: nat, m: Message)
    requires Sorted(all) && i < |all| && !AtLeastAsNew(all[i], m)
    ensures NoOlder(Elements(all), m) <= Elements(all[..i])
  {
    AgeLaws();
    hide AtLeastAsNew;
    forall w | w in Elements(all) && AtLeastAsNew(w, m)
      ensures w in all[..i]
    {
      var j :| 0 <= j < |all| && all[j] == w;
      assert j < i;
      assert all[..i][j] == w;
    }
  }

  // ---- The table ----

  ghost function Selected(rows: Rows, account: string, jid: string, before: string): set<Message> {
    set m | m in rows.Values && m.accountID == account && m.chatJID == jid
      && (before == "" || Less(m.timestamp, before))
  }

  /** The limit the database really uses. */
  function EffectiveLimit(limit: int): (n: nat)
    ensures 1 <= n <= 200
  {
    if limit <= 0 || limit > 200 then 50 else limit
  }

  function InsertRow(rows: Rows, rec: Message): Rows {
    if Key(rec) in rows then rows else rows[Key(rec) := rec]
  }

  function InsertAll(rows: Rows, recs: seq<Message>): Rows
    decreases |recs|
  {
    if recs == [] then rows else InsertAll(InsertRow(rows, recs[0]), recs[1..])
  }

  class MessageTable {
    var rows: Rows

    constructor ()
      ensures rows == map[]
    {
      rows := map[];
    }

    /** `INSERT ... ON CONFLICT(account_id, id) DO NOTHING`; `fails` is a database error. */
    method InsertMessage(rec: Message, fails: bool) returns (ok: bool)
      requires Keyed(rows)
      modifies this
      ensures Keyed(rows) && ok == !fails
      ensures rows == if fails then old(rows) else InsertRow(old(rows), rec)
    {
      if fails {
        return false;
      }
      if Key(rec) !in rows {
        rows := rows[Key(rec) := rec];
      }
      return true;
    }

    method ListMessages(account: string, jid: string, limit: int, before: string)
      returns (out: seq<Message>)
      ensures Newest(Selected(rows, account, jid, before), EffectiveLimit(limit), out)
    {
      ghost var s := Selected(rows, account, jid, before);
      var rest := set m | m in rows.Values && m.accountID == account && m.chatJID == jid
        && (before == "" || Less(m.timestamp, before));
      out := [];
      while rest != {} && |out| < EffectiveLimit(limit)
        invariant NewestPrefix(s, out, rest) && |out| <= EffectiveLimit(limit)
        decreases rest
      {
        ghost var top := NewestOf(rest);
        var next :| next in rest && forall m :: m in rest ==> AtLeastAsNew(next, m);
        NewestPrefixGrows(s, out, rest, next);
        out := out + [next];
        rest := rest - {next};
      }
      NewestPrefixIsNewest(s, out, rest, EffectiveLimit(limit));
    }
  }

  /** `out` is the sorted newest part of `s`, and `rest` is what remains. */
  ghost predicate NewestPrefix(s: set<Message>, out: seq<Message>, rest: set<Message>) {
    && Distinct(out) && Sorted(out)
    && Elements(out) !! rest && Elements(out) + rest == s
    && forall x, m :: x in out && m in rest ==> AtLeastAsNew(x, m)
  }

  lemma NewestPrefixGrows(s: set<Message>, out: seq<Message>, rest: set<Message>, next: Message)
    requires NewestPrefix(s, out, rest)
    requires next in rest && forall m :: m in rest ==> AtLeastAsNew(next, m)
    ensures NewestPrefix(s, out + [next], rest - {next})
  {
    hide AtLeastAsNew;
    assert Elements(out + [next]) == Elements(out) + {next};
    assert next !in out;
  }

  lemma NewestPrefixIsNewest(s: set<Message>, out: seq<Message>, rest: set<Message>, limit: nat)
    requires NewestPrefix(s, out, rest) && |out| <= limit && (rest == {} || |out| == limit)
    ensures Newest(s, limit, out)
  {
    hide AtLeastAsNew;
    DistinctSize(out);
    assert |s| == |Elements(out)| + |rest|;
  }

  lemma AgeIsTotal(x: Message, y: Message)
    ensures AtLeastAsNew(x, y) || AtLeastAsNew(y, x)
    ensures AtLeastAsNew(x, x)
  {
    LessIsTotal(x.timestamp, y.timestamp);
    LessIsTotal(x.timestamp, x.timestamp);
  }

  lemma AgeIsTransitive(x: Message, y: Message, z: Message)
    requires AtLeastAsNew(x, y) && AtLeastAsNew(y, z)
    ensures AtLeastAsNew(x, z)
  {
    LessLaws();
    hide Less;
  }

  lemma {:induction false} NewestOf(s: set<Message>) returns (top: Message)
    requires s != {}
    ensures top in s && forall m :: m in s ==> AtLeastAsNew(top, m)
    decreases |s|
  {
    hide AtLeastAsNew;
    var y :| y in s;
    AgeIsTotal(y, y);
    top := y;
    if s != {y} {
      var x := NewestOf(s - {y});
      AgeIsTotal(x, y);
      top := if AtLeastAsNew(x, y) then x else y;
      forall m | m in s - {y}
        ensures AtLeastAsNew(top, m)
      {
        assert AtLeastAsNew(x, m);
        if top == y {
          AgeIsTransitive(y, x, m);
        }
      }
    }
  }

  // ---- Insert-once ----

  /** The first record carrying key `k`, if any. */
  function FirstWithKey(recs: seq<Message>, k: (string, string)): Option<Message> {
    if recs == [] then None
    else if Key(recs[0]) == k then Some(recs[0])
    else FirstWithKey(recs[1..], k)
  }

  /**
   Whatever is delivered, in whatever order and however often, a row is what the table
   held, or else the first record delivered under its key.
   */
  lemma {:induction false} FirstWriteWins(rows: Rows, recs: seq<Message>, k: (string, string))
    ensures k in rows ==> k in InsertAll(rows, recs) && InsertAll(rows, recs)[k] == rows[k]
    ensures k !in rows ==>
      match FirstWithKey(recs, k)
      case None => k !in InsertAll(rows, recs)
      case Some(rec) => k in InsertAll(rows, recs) && InsertAll(rows, recs)[k] == rec
    decreases |recs|
  {
    if recs != [] {
      FirstWriteWins(InsertRow(rows, recs[0]), recs[1..], k);
    }
  }

  /** Delivering the same batch again changes nothing. */
  lemma RedeliveryChangesNothing(rows: Rows, recs: seq<Message>)
    ensures InsertAll(InsertAll(rows, recs), recs) == InsertAll(rows, recs)
  {
    var once := InsertAll(rows, recs);
    var twice := InsertAll(once, recs);
    forall k
      ensures k in once <==> k in twice
      ensures k in once ==> once[k] == twice[k]
    {
      FirstWriteWins(rows, recs, k);
      FirstWriteWins(once, recs, k);
    }
  }

  /** A property of all records delivered and all rows held is one of all rows after. */
  lemma {:induction false} InsertAllKeeps(rows: Rows, recs: seq<Message>, good: Message -> bool)
    requires Keyed(rows) && (forall m :: m in rows.Values ==> good(m)) && (forall m :: m in recs ==> good(m))
    ensures Keyed(InsertAll(rows, recs)) && forall m :: m in InsertAll(rows, recs).Values ==> good(m)
    decreases |recs|
  {
    if recs != [] {
      var next := InsertRow(rows, recs[0]);
      assert forall m :: m in next.Values ==> m in rows.Values || m == recs[0];
      InsertAllKeeps(next, recs[1..], good);
    }
  }
}
