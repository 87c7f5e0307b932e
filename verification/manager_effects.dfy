/**
 What each operation on accounts does when it succeeds, and when it does: one account shows the new
 value in memory and in the tables, and nothing else changes (internal/service/manager.go:56-324).
 */
module ManagerEffects {
  import opened Text
  import opened Manager
  import Phone

  /** Every other account is as it was, in memory and in the tables. */
  ghost predicate SameBut(s: State, t: State, id: string) {
    forall other :: other != id ==>
      && (other in t.accounts <==> other in s.accounts)
      && (other in s.accounts ==> t.accounts[other] == s.accounts[other])
      && (other in t.rows <==> other in s.rows)
      && (other in s.rows ==> t.rows[other] == s.rows[other])
      && (other in t.proxies <==> other in s.proxies)
      && (other in s.proxies ==> t.proxies[other] == s.proxies[other])
  }

  /** Memory and tables hold exactly this of an account. */
  ghost predicate Holds(s: State, id: string, phone: PhoneText, name: string, proxy: Option<Proxy>) {
    && id in s.accounts && s.accounts[id].phone == phone && s.accounts[id].name == name && s.accounts[id].proxy == proxy
    && id in s.rows && s.rows[id].phone == phone && s.rows[id].name == name
    && (proxy.None? ==> id !in s.proxies)
    && (proxy.Some? ==> id in s.proxies && s.proxies[id] == proxy.value)
  }

  /** The number belongs to another account. */
  ghost predicate UsedByOther(s: State, phone: PhoneText, id: string) {
    exists other :: other in s.rows && other != id && s.rows[other].phone == phone
  }

  /**
   A new account has the digits of its number and a name, "unknown" if none is given; it is made
   exactly when there are 7 to 15 digits that no account has and the database takes it.
   */
  lemma CreateMakes(s: State, id: string, phone: PhoneText, name: string, lookupFails: bool, insertFails: bool)
    requires TableSound(s) && id !in s.rows && id !in s.accounts
    ensures var op, p := Create(id, phone, name, lookupFails, insertFails), Phone.Digits(phone);
      && (Succeeds(s, op) <==> 7 <= |p| <= 15 && !UsedByOther(s, p, id) && !lookupFails && !insertFails)
      && SameBut(s, Apply(s, op), id)
      && (Succeeds(s, op) ==> Holds(Apply(s, op), id, p, if name == "" then "unknown" else name, None))
      && (!Succeeds(s, op) ==> id !in Apply(s, op).rows && id !in Apply(s, op).accounts)
  {
    hide Phone.Digits, RowsSound;
  }

  lemma RenameRenames(s: State, id: string, name: string, dbFails: bool, phone: PhoneText, was: string, proxy: Option<Proxy>)
    requires Holds(s, id, phone, was, proxy)
    ensures var op := Rename(id, name, dbFails);
      && (Succeeds(s, op) <==> !dbFails) && SameBut(s, Apply(s, op), id)
      && Holds(Apply(s, op), id, phone, if dbFails then was else name, proxy)
  {
  }

  lemma ChangePhoneChanges(s: State, id: string, phone: PhoneText, lookupFails: bool, dbFails: bool,
                           was: PhoneText, name: string, proxy: Option<Proxy>)
    requires Holds(s, id, was, name, proxy)
    ensures var op, p := ChangePhone(id, phone, lookupFails, dbFails), Phone.Digits(phone);
      && (Succeeds(s, op) <==> 7 <= |p| <= 15 && !UsedByOther(s, p, id) && !lookupFails && !dbFails)
      && SameBut(s, Apply(s, op), id)
      && Holds(Apply(s, op), id, if Succeeds(s, op) then p else was, name, proxy)
  {
    hide Phone.Digits;
  }

  lemma SetProxySets(s: State, id: string, proxy: Proxy, dbFails: bool, phone: PhoneText, name: string, was: Option<Proxy>)
    requires Holds(s, id, phone, name, was)
    ensures var op := SetProxy(id, proxy, dbFails);
      && (Succeeds(s, op) <==> !dbFails) && SameBut(s, Apply(s, op), id)
      && Holds(Apply(s, op), id, phone, name, if dbFails then was else Some(proxy))
  {
  }

  lemma DeleteProxyDeletes(s: State, id: string, dbFails: bool, phone: PhoneText, name: string, was: Option<Proxy>)
    requires Holds(s, id, phone, name, was)
    ensures var op := DeleteProxy(id, dbFails);
      && (Succeeds(s, op) <==> !dbFails) && SameBut(s, Apply(s, op), id)
      && Holds(Apply(s, op), id, phone, name, if dbFails then was else None)
  {
  }

  /** An account that is not logged in goes from memory, and from the tables unless the database fails. */
  lemma DeleteDeletes(s: State, id: string, authorized: bool, dbFails: bool,
                      phone: PhoneText, name: string, proxy: Option<Proxy>)
    requires Holds(s, id, phone, name, proxy)
    ensures var op := Delete(id, authorized, dbFails);
      && (Succeeds(s, op) <==> !authorized && !dbFails) && SameBut(s, Apply(s, op), id)
      && (authorized ==> Apply(s, op) == s)
      && (!authorized ==> id !in Apply(s, op).accounts && (id in Apply(s, op).rows <==> dbFails))
      && (!authorized && !dbFails ==> id !in Apply(s, op).proxies)
  {
  }

  /** No operation but the proxy's own touches an account that memory does not hold. */
  lemma UnknownIsRefused(s: State, op: Op)
    requires op.Rename? || op.ChangePhone? || op.SetProxy? || op.DeleteProxy? || op.Delete?
    requires op.id !in s.accounts
    ensures !Succeeds(s, op) && Apply(s, op) == s
  {
    hide Phone.Digits;
  }

  /** Discovery loads each stored account that memory lacks, with its proxy if that can be read, and keeps the others. */
  lemma DiscoverLoads(s: State, listFails: bool, proxyFails: set<string>, id: string)
    ensures var t := Apply(s, Discover(listFails, proxyFails));
      && t.rows == s.rows && t.proxies == s.proxies && (Succeeds(s, Discover(listFails, proxyFails)) <==> !listFails)
      && (listFails ==> t.accounts == s.accounts)
      && (id in s.accounts ==> id in t.accounts && t.accounts[id] == s.accounts[id])
      && (!listFails && id in s.rows && id !in s.accounts ==>
            && id in t.accounts && t.accounts[id].phone == s.rows[id].phone && t.accounts[id].name == s.rows[id].name
            && t.accounts[id].proxy
               == if id in s.proxies && id !in proxyFails then Some(s.proxies[id]) else None)
  {
  }

  /** Whatever the operations and their failures, only numbers of 7 to 15 digits are stored or held, and none twice. */
  lemma NumbersAreSound(ops: seq<Op>, id: string, other: string)
    ensures var s := ApplyAll(EMPTY, ops);
      && (id in s.rows ==> 7 <= |s.rows[id].phone| <= 15 && forall b :: b in s.rows[id].phone ==> 0x30 <= b <= 0x39)
      && (id in s.accounts ==> id in s.rows && s.accounts[id].phone == s.rows[id].phone)
      && (id in s.rows && other in s.rows && id != other ==> s.rows[id].phone != s.rows[other].phone)
  {
    ManagerRefinesTable(ops);
    var s := ApplyAll(EMPTY, ops);
    if id in s.rows {
      var phone := s.rows[id].phone;
      assert Phone.Digits(phone) == phone;
      Phone.OnlyDigits(phone);
      assert forall b :: b in phone ==> Phone.IsDigit(b);
    }
    assert id in s.accounts ==> ReflectsOn(s, id);
  }
}
