/**
 The account manager's memory map beside the account table (internal/service/manager.go:
 56-111, 154-186, 198-281, 284-324; internal/database/database.go:137-162, 358-508), in
 sequential runs where any database call may fail.
 */
module Manager {
  import opened Text
  import Phone

  type PhoneText = seq<Phone.byte>

  datatype Proxy = Proxy(protocol: string, host: string, port: int, username: string, password: string, enabled: bool)
  datatype Row = Row(phone: PhoneText, name: string)
  datatype Account = Account(phone: PhoneText, name: string, proxy: Option<Proxy>)

  /** The account table, the proxy table that references it, and the manager's memory. */
  datatype State = State(rows: map<string, Row>, proxies: map<string, Proxy>, accounts: map<string, Account>)

  predicate ValidPhone(phone: PhoneText) {
    7 <= |phone| <= 15 && Phone.Digits(phone) == phone
  }

  /** A row other than `id`'s holds the number. */
  predicate Taken(rows: map<string, Row>, phone: PhoneText, id: string) {
    exists other :: other in rows && other != id && rows[other].phone == phone
  }

  // ---- The operations, with the database calls that fail as arguments ----

  datatype Op =
    | Create(id: string, phone: PhoneText, name: string, lookupFails: bool, insertFails: bool)
    | Delete(id: string, authorized: bool, dbFails: bool)
    | Rename(id: string, name: string, dbFails: bool)
    | ChangePhone(id: string, phone: PhoneText, lookupFails: bool, dbFails: bool)
    | SetProxy(id: string, proxy: Proxy, dbFails: bool)
    | DeleteProxy(id: string, dbFails: bool)
    | Discover(listFails: bool, proxyFails: set<string>)
    | Restart

  function Succeeds(s: State, op: Op): bool {
    match op
    case Create(id, phone, _, lookupFails, insertFails) =>
      var p := Phone.Digits(phone);
      7 <= |p| <= 15 && !lookupFails && !insertFails && id !in s.rows
      && forall other :: other in s.rows ==> s.rows[other].phone != p
    case Delete(id, authorized, dbFails) => id in s.accounts && !authorized && !dbFails
    case Rename(id, _, dbFails) => id in s.accounts && !dbFails
    case ChangePhone(id, phone, lookupFails, dbFails) =>
      var p := Phone.Digits(phone);
      7 <= |p| <= 15 && id in s.accounts && !lookupFails && !dbFails && !Taken(s.rows, p, id)
    case SetProxy(id, _, dbFails) => id in s.accounts && !dbFails && id in s.rows
    case DeleteProxy(id, dbFails) => id in s.accounts && !dbFails
    case Discover(listFails, _) => !listFails
    case Restart => true
  }

  /** What a row looks like when loaded; a failed proxy read is logged and leaves no proxy. */
  function Loaded(s: State, id: string, proxyFails: set<string>): Account
    requires id in s.rows
  {
    Account(s.rows[id].phone, s.rows[id].name,
            if id in proxyFails || id !in s.proxies then None else Some(s.proxies[id]))
  }

  function Apply(s: State, op: Op): State {
    match op
    case Delete(id, authorized, dbFails) =>
      if id !in s.accounts || authorized then s
      else
        var forgotten := s.(accounts := s.accounts - {id});
        if dbFails then forgotten
        else forgotten.(rows := s.rows - {id}, proxies := s.proxies - {id})
    case _ => if Succeeds(s, op) then Succeeded(s, op) else s
  }

  function Succeeded(s: State, op: Op): State
    requires !op.Delete? && Succeeds(s, op)
  {
    match op
    case Create(id, phone, name, _, _) =>
      var row := Row(Phone.Digits(phone), if name == "" then "unknown" else name);
      s.(rows := s.rows[id := row], accounts := s.accounts[id := Account(row.phone, row.name, None)])
    case Rename(id, name, _) =>
      s.(rows := if id in s.rows then s.rows[id := s.rows[id].(name := name)] else s.rows,
         accounts := s.accounts[id := s.accounts[id].(name := name)])
    case ChangePhone(id, phone, _, _) =>
      var p := Phone.Digits(phone);
      s.(rows := if id in s.rows then s.rows[id := s.rows[id].(phone := p)] else s.rows,
         accounts := s.accounts[id := s.accounts[id].(phone := p)])
    case SetProxy(id, proxy, _) =>
      s.(proxies := s.proxies[id := proxy], accounts := s.accounts[id := s.accounts[id].(proxy := Some(proxy))])
    case DeleteProxy(id, _) =>
      s.(proxies := s.proxies - {id}, accounts := s.accounts[id := s.accounts[id].(proxy := None)])
    case Discover(_, proxyFails) =>
      s.(accounts := map id | id in s.rows.Keys + s.accounts.Keys ::
           if id in s.accounts then s.accounts[id] else Loaded(s, id, proxyFails))
    case Restart => s.(accounts := map[])
  }

  // ---- The database ----

  class AccountDB {
    var rows: map<string, Row>
    var proxies: map<string, Proxy>

    constructor ()
      ensures rows == map[] && proxies == map[]
    {
      rows, proxies := map[], map[];
    }

    method GetAccountByPhone(phone: PhoneText, fails: bool) returns (ok: bool, found: Option<string>)
      ensures ok == !fails
      ensures ok ==> match found
        case None => forall id :: id in rows ==> rows[id].phone != phone
        case Some(id) => id in rows && rows[id].phone == phone
    {
      if fails {
        return false, None;
      }
      if id :| id in rows && rows[id].phone == phone {
        return true, Some(id);
      }
      return true, None;
    }

    /** The primary key and the UNIQUE phone number can refuse the row too. */
    method CreateAccount(id: string, row: Row, fails: bool) returns (ok: bool)
      modifies this
      ensures ok <==> !fails && id !in old(rows) && !Taken(old(rows), row.phone, id)
      ensures rows == (if ok then old(rows)[id := row] else old(rows)) && proxies == old(proxies)
    {
      if fails || id in rows || Taken(rows, row.phone, id) {
        return false;
      }
      rows := rows[id := row];
      return true;
    }

    /** Updating a missing row affects none and is no error. */
    method UpdateAccountName(id: string, name: string, fails: bool) returns (ok: bool)
      modifies this
      ensures ok == !fails && proxies == old(proxies)
      ensures rows == if ok && id in old(rows) then old(rows)[id := old(rows)[id].(name := name)] else old(rows)
    {
      if !fails && id in rows {
        rows := rows[id := rows[id].(name := name)];
      }
      return !fails;
    }

    /** The UNIQUE number can refuse the update of a row that is there. */
    method UpdatePhoneNumber(id: string, phone: PhoneText, fails: bool) returns (ok: bool)
      modifies this
      ensures ok <==> !fails && !(id in old(rows) && Taken(old(rows), phone, id))
      ensures rows == if ok && id in old(rows) then old(rows)[id := old(rows)[id].(phone := phone)] else old(rows)
      ensures proxies == old(proxies)
    {
      if fails || (id in rows && Taken(rows, phone, id)) {
        return false;
      }
      if id in rows {
        rows := rows[id := rows[id].(phone := phone)];
      }
      return true;
    }

    /** Deleting a row cascades to its proxy. */
    method DeleteAccount(id: string, fails: bool) returns (ok: bool)
      modifies this
      ensures ok == !fails
      ensures rows == (if ok then old(rows) - {id} else old(rows))
      ensures proxies == (if ok then old(proxies) - {id} else old(proxies))
    {
      if fails {
        return false;
      }
      rows := rows - {id};
      proxies := proxies - {id};
      return true;
    }

    /** The foreign key refuses a proxy without its account. */
    method UpsertProxyConfig(id: string, proxy: Proxy, fails: bool) returns (ok: bool)
      modifies this
      ensures ok <==> !fails && id in rows
      ensures rows == old(rows) && proxies == if ok then old(proxies)[id := proxy] else old(proxies)
    {
      if fails || id !in rows {
        return false;
      }
      proxies := proxies[id := proxy];
      return true;
    }

    method DeleteProxyConfig(id: string, fails: bool) returns (ok: bool)
      modifies this
      ensures ok == !fails
      ensures rows == old(rows) && proxies == if ok then old(proxies) - {id} else old(proxies)
    {
      if fails {
        return false;
      }
      proxies := proxies - {id};
      return true;
    }
  }

  // ---- The manager ----

  class AccountManager {
    const db: AccountDB
    var accounts: map<string, Account>

    function View(): State
      reads this, db
    {
      State(db.rows, db.proxies, accounts)
    }

    constructor (db: AccountDB)
      ensures this.db == db && accounts == map[]
    {
      this.db := db;
      accounts := map[];
    }

    /** `id` is the UUID drawn for the account. */
    method CreateAccount(id: string, phone: PhoneText, name: string, lookupFails: bool, insertFails: bool)
      returns (ok: bool)
      modifies this, db
      ensures var op := Create(id, phone, name, lookupFails, insertFails);
        View() == Apply(old(View()), op) && ok == Succeeds(old(View()), op)
    {
      var p := Phone.NormalizeBytes(phone);
      if |p| < 7 || |p| > 15 {
        return false;
      }
      var found, existing := db.GetAccountByPhone(p, lookupFails);
      if !found || existing.Some? {
        return false;
      }
      var row := Row(p, name);
      if name == "" {
        row := row.(name := "unknown");
      }
      ok := db.CreateAccount(id, row, insertFails);
      if ok {
        accounts := accounts[id := Account(row.phone, row.name, None)];
      }
    }

    /** Memory forgets the account before the row is deleted. */
    method DeleteAccount(id: string, authorized: bool, dbFails: bool) returns (ok: bool)
      modifies this, db
      ensures var op := Delete(id, authorized, dbFails);
        View() == Apply(old(View()), op) && ok == Succeeds(old(View()), op)
    {
      if id !in accounts || authorized {
        return false;
      }
      accounts := accounts - {id};
      ok := db.DeleteAccount(id, dbFails);
    }

    method UpdateAccountName(id: string, name: string, dbFails: bool) returns (ok: bool)
      modifies this, db
      ensures var op := Rename(id, name, dbFails);
        View() == Apply(old(View()), op) && ok == Succeeds(old(View()), op)
    {
      if id !in accounts {
        return false;
      }
      ok := db.UpdateAccountName(id, name, dbFails);
      if ok {
        accounts := accounts[id := accounts[id].(name := name)];
      }
    }

    method UpdatePhoneNumber(id: string, phone: PhoneText, lookupFails: bool, dbFails: bool) returns (ok: bool)
      modifies this, db
      ensures var op := ChangePhone(id, phone, lookupFails, dbFails);
        View() == Apply(old(View()), op) && ok == Succeeds(old(View()), op)
    {
      var p := Phone.NormalizeBytes(phone);
      if |p| < 7 || |p| > 15 || id !in accounts {
        return false;
      }
      var found, existing := db.GetAccountByPhone(p, lookupFails);
      if !found || (existing.Some? && existing.value != id) {
        return false;
      }
      ok := db.UpdatePhoneNumber(id, p, dbFails);
      if ok {
        accounts := accounts[id := accounts[id].(phone := p)];
      }
    }

    method SetProxyConfig(id: string, proxy: Proxy, dbFails: bool) returns (ok: bool)
      modifies this, db
      ensures var op := SetProxy(id, proxy, dbFails);
        View() == Apply(old(View()), op) && ok == Succeeds(old(View()), op)
    {
      if id !in accounts {
        return false;
      }
      ok := db.UpsertProxyConfig(id, proxy, dbFails);
      if ok {
        accounts := accounts[id := accounts[id].(proxy := Some(proxy))];
      }
    }

    method DeleteProxyConfig(id: string, dbFails: bool) returns (ok: bool)
      modifies this, db
      ensures var op := DeleteProxy(id, dbFails);
        View() == Apply(old(View()), op) && ok == Succeeds(old(View()), op)
    {
      if id !in accounts {
        return false;
      }
      ok := db.DeleteProxyConfig(id, dbFails);
      if ok {
        accounts := accounts[id := accounts[id].(proxy := None)];
      }
    }

    /** Loads the rows memory does not hold; `proxyFails` are the IDs whose proxy cannot be read. */
    method DiscoverAccounts(listFails: bool, proxyFails: set<string>) returns (ok: bool)
      modifies this
      ensures var op := Discover(listFails, proxyFails);
        View() == Apply(old(View()), op) && ok == Succeeds(old(View()), op)
    {
      if listFails {
        return false;
      }
      ghost var before := View();
      var todo := db.rows.Keys;
      while todo != {}
        invariant todo <= db.rows.Keys && db.rows == before.rows && db.proxies == before.proxies
        invariant accounts.Keys == before.accounts.Keys + (db.rows.Keys - todo)
        invariant forall id | id in accounts ::
          accounts[id] == if id in before.accounts then before.accounts[id] else Loaded(before, id, proxyFails)
        decreases todo
      {
        var id :| id in todo;
        todo := todo - {id};
        if id !in accounts {
          var acct := Account(db.rows[id].phone, db.rows[id].name, None);
          if id !in proxyFails && id in db.proxies {
            acct := acct.(proxy := Some(db.proxies[id]));
          }
          accounts := accounts[id := acct];
        }
      }
      return true;
    }
  }

  // ---- What every run keeps ----

  /** Numbers are 7-15 digits and pairwise distinct. */
  ghost predicate RowsSound(rows: map<string, Row>) {
    && (forall id :: id in rows ==> ValidPhone(rows[id].phone))
    && (forall id, other :: id in rows && other in rows && id != other ==> rows[id].phone != rows[other].phone)
  }

  /** And every proxy has its account. */
  ghost predicate TableSound(s: State) {
    RowsSound(s.rows) && s.proxies.Keys <= s.rows.Keys
  }

  function StoredProxy(s: State, id: string): Option<Proxy> {
    if id in s.proxies then Some(s.proxies[id]) else None
  }

  /** If memory holds the account, a row agrees with it. */
  ghost predicate AgreesOn(s: State, id: string) {
    id in s.accounts ==>
      id in s.rows && s.accounts[id] == Account(s.rows[id].phone, s.rows[id].name, StoredProxy(s, id))
  }

  /** As before, but the account may have lost sight of its stored proxy. */
  ghost predicate ReflectsOn(s: State, id: string) {
    id in s.accounts ==>
      id in s.rows && s.accounts[id].phone == s.rows[id].phone && s.accounts[id].name == s.rows[id].name
      && (s.accounts[id].proxy == None || s.accounts[id].proxy == StoredProxy(s, id))
  }

  ghost predicate Reflects(s: State) {
    forall id :: ReflectsOn(s, id)
  }

  /** Each account in memory has a row with the same phone, name and proxy. */
  ghost predicate Agrees(s: State) {
    forall id :: AgreesOn(s, id)
  }

  /** The operation loads an account whose stored proxy it fails to read. */
  ghost predicate LosesProxy(s: State, op: Op) {
    op.Discover? && !op.listFails
    && exists id :: id in s.rows && id !in s.accounts && id in op.proxyFails && id in s.proxies
  }

  lemma PutKeepsSound(rows: map<string, Row>, id: string, row: Row)
    requires RowsSound(rows) && ValidPhone(row.phone) && !Taken(rows, row.phone, id)
    ensures RowsSound(rows[id := row])
  {
    hide ValidPhone;
  }

  lemma ApplyKeepsTableSound(s: State, op: Op)
    requires TableSound(s)
    ensures TableSound(Apply(s, op))
  {
    hide Phone.Digits, ValidPhone, Taken, RowsSound;
    if Succeeds(s, op) {
      SuccessIsSound(s, op);
      match op {
        case Create(id, phone, name, _, _) =>
          PutKeepsSound(s.rows, id, Row(Phone.Digits(phone), if name == "" then "unknown" else name));
        case ChangePhone(id, phone, _, _) =>
          if id in s.rows {
            PutKeepsSound(s.rows, id, s.rows[id].(phone := Phone.Digits(phone)));
          }
        case Rename(id, name, _) =>
          if id in s.rows {
            PutKeepsSound(s.rows, id, s.rows[id].(name := name));
          }
        case _ =>
      }
    }
    if op.Delete? {
      RemoveKeepsSound(s.rows, op.id);
    }
  }

  /** The checks before a write are those that keep the table sound. */
  lemma SuccessIsSound(s: State, op: Op)
    requires RowsSound(s.rows) && Succeeds(s, op)
    ensures op.Create? ==> ValidPhone(Phone.Digits(op.phone)) && !Taken(s.rows, Phone.Digits(op.phone), op.id)
    ensures op.ChangePhone? ==> ValidPhone(Phone.Digits(op.phone)) && !Taken(s.rows, Phone.Digits(op.phone), op.id)
    ensures op.Rename? && op.id in s.rows ==>
      ValidPhone(s.rows[op.id].phone) && !Taken(s.rows, s.rows[op.id].phone, op.id)
  {
    hide Phone.Digits;
    if op.Create? || op.ChangePhone? {
      Phone.NormalForm(op.phone, []);
    }
  }

  lemma RemoveKeepsSound(rows: map<string, Row>, id: string)
    requires RowsSound(rows)
    ensures RowsSound(rows - {id})
  {
    hide ValidPhone;
  }

  /** Apart from discovery an operation touches one ID, and leaves it in agreement. */
  lemma ApplyKeepsOne(s: State, op: Op, id: string)
    requires TableSound(s) && AgreesOn(s, id) && !op.Discover?
    ensures AgreesOn(Apply(s, op), id)
  {
    hide Phone.Digits, ValidPhone, Taken, RowsSound;
  }

  lemma ApplyReflectsOne(s: State, op: Op, id: string)
    requires TableSound(s) && ReflectsOn(s, id) && !op.Discover?
    ensures ReflectsOn(Apply(s, op), id)
  {
    hide Phone.Digits, ValidPhone, Taken, RowsSound;
  }

  lemma DiscoverReflectsOne(s: State, op: Op, id: string)
    requires ReflectsOn(s, id) && op.Discover?
    ensures ReflectsOn(Apply(s, op), id)
  {
  }

  /** No operation, however its database calls fail, breaks the match of phones and names. */
  lemma ApplyKeepsReflection(s: State, op: Op)
    requires TableSound(s) && Reflects(s)
    ensures Reflects(Apply(s, op))
  {
    forall id
      ensures ReflectsOn(Apply(s, op), id)
    {
      assert ReflectsOn(s, id);
      hide Apply, ReflectsOn;
      if op.Discover? {
        DiscoverReflectsOne(s, op, id);
      } else {
        ApplyReflectsOne(s, op, id);
      }
    }
  }

  lemma DiscoverKeepsOne(s: State, op: Op, id: string)
    requires AgreesOn(s, id) && op.Discover?
    ensures AgreesOn(Apply(s, op), id)
       <==> op.listFails || id !in s.rows || id in s.accounts || id !in op.proxyFails || id !in s.proxies
  {
  }

  /** An operation keeps memory and tables in agreement exactly when it loses no proxy. */
  lemma ApplyKeepsAgreement(s: State, op: Op)
    requires TableSound(s) && Agrees(s)
    ensures Agrees(Apply(s, op)) <==> !LosesProxy(s, op)
  {
    forall id
      ensures AgreesOn(s, id)
      ensures !op.Discover? ==> AgreesOn(Apply(s, op), id)
      ensures op.Discover? ==> (AgreesOn(Apply(s, op), id)
        <==> op.listFails || id !in s.rows || id in s.accounts || id !in op.proxyFails || id !in s.proxies)
    {
      assert AgreesOn(s, id);
      if op.Discover? {
        DiscoverKeepsOne(s, op, id);
      } else {
        ApplyKeepsOne(s, op, id);
      }
    }
    hide Apply, AgreesOn;
  }

  ghost predicate LosesNoProxy(s: State, ops: seq<Op>)
    decreases |ops|
  {
    ops != [] ==> !LosesProxy(s, ops[0]) && LosesNoProxy(Apply(s, ops[0]), ops[1..])
  }

  function ApplyAll(s: State, ops: seq<Op>): State
    decreases |ops|
  {
    if ops == [] then s else ApplyAll(Apply(s, ops[0]), ops[1..])
  }

  const EMPTY := State(map[], map[], map[])

  lemma {:induction false} RunKeepsAgreement(s: State, ops: seq<Op>)
    requires TableSound(s)
    ensures TableSound(ApplyAll(s, ops))
    ensures Reflects(s) ==> Reflects(ApplyAll(s, ops))
    ensures Agrees(s) && LosesNoProxy(s, ops) ==> Agrees(ApplyAll(s, ops))
    decreases |ops|
  {
    if ops != [] {
      ApplyKeepsTableSound(s, ops[0]);
      if Reflects(s) {
        ApplyKeepsReflection(s, ops[0]);
      }
      if Agrees(s) {
        ApplyKeepsAgreement(s, ops[0]);
      }
      RunKeepsAgreement(Apply(s, ops[0]), ops[1..]);
    }
  }

  /**
   Over every run with failing database calls the table's numbers are valid and distinct, and
   each account in memory has a row with the same phone and name, so numbers in memory are
   distinct too. Its proxy is the stored one, unless a proxy read failed and it shows none.
   */
  lemma ManagerRefinesTable(ops: seq<Op>)
    ensures var s := ApplyAll(EMPTY, ops);
      && TableSound(s) && Reflects(s)
      && (LosesNoProxy(EMPTY, ops) ==> Agrees(s))
      && forall id, other :: id in s.accounts && other in s.accounts && id != other ==>
           s.accounts[id].phone != s.accounts[other].phone
  {
    RunKeepsAgreement(EMPTY, ops);
    var s := ApplyAll(EMPTY, ops);
    assert forall id :: id in s.accounts ==> ReflectsOn(s, id);
  }

  /** A successful discovery makes memory hold exactly the accounts of the table. */
  lemma DiscoverEqualizes(s: State, op: Op)
    requires Reflects(s) && op.Discover? && Succeeds(s, op)
    ensures Apply(s, op).accounts.Keys == Apply(s, op).rows.Keys
  {
    assert forall id :: id in s.accounts ==> ReflectsOn(s, id);
  }

  /**
   Once equal, the domains stay equal unless a row cannot be deleted after memory forgot it,
   or the process restarts.
   */
  lemma DomainsPartOnlyOnFailedDelete(s: State, op: Op)
    requires s.accounts.Keys == s.rows.Keys
    ensures Apply(s, op).accounts.Keys == Apply(s, op).rows.Keys
       <==> !(op.Delete? && op.id in s.accounts && !op.authorized && op.dbFails) && !(op.Restart? && s.rows != map[])
  {
    hide Phone.Digits;
    if op.Delete? && op.id in s.accounts && !op.authorized && op.dbFails {
      assert op.id in Apply(s, op).rows && op.id !in Apply(s, op).accounts;
    }
    if op.Restart? && s.rows != map[] {
      assert s.rows.Keys != {};
    }
  }

  /** So a run can lose one: a stored proxy that cannot be read after a restart. */
  lemma {:induction false} ProxyIsLost(id: string, phone: PhoneText, name: string, proxy: Proxy)
    requires 7 <= |Phone.Digits(phone)| <= 15
    ensures !Agrees(ApplyAll(EMPTY,
      [Create(id, phone, name, false, false), SetProxy(id, proxy, false), Restart, Discover(false, {id})]))
  {
    hide Phone.Digits;
    var one, two, three, four := Create(id, phone, name, false, false), SetProxy(id, proxy, false), Restart,
                                 Discover(false, {id});
    var s1 := Apply(EMPTY, one);
    var s2 := Apply(s1, two);
    var s3 := Apply(s2, three);
    var s4 := Apply(s3, four);
    assert id in s4.accounts && s4.accounts[id].proxy == None && s4.proxies[id] == proxy;
    assert !AgreesOn(s4, id);
    assert [one, two, three, four][1..] == [two, three, four];
    assert [two, three, four][1..] == [three, four];
    assert [three, four][1..] == [four] && [four][1..] == [];
    hide Apply;
    assert ApplyAll(s3, [four]) == s4;
    assert ApplyAll(s2, [three, four]) == s4;
    assert ApplyAll(s1, [two, three, four]) == s4;
  }

  /** And a delete whose database call fails leaves a row that memory has forgotten. */
  lemma FailedDeleteParts(id: string, phone: PhoneText, name: string)
    requires 7 <= |Phone.Digits(phone)| <= 15
    ensures var s := Apply(Apply(EMPTY, Create(id, phone, name, false, false)), Delete(id, false, true));
      s.accounts.Keys == {} && s.rows.Keys == {id}
  {
    hide Phone.Digits;
  }
}
