/**
 The per-account webhook event filter: the list is stored joined by commas
 (internal/handler/webhook.go:17-94, 106-116) and split again on every event
 (internal/service/account.go:2143-2160, 2238-2248).
 */
module Webhooks {
  import opened Text

  /** An event name the list codec leaves alone. */
  predicate Clean(e: string) {
    e != "" && ',' !in e && Trimmed(e)
  }

  /** The trimmed, non-empty parts, in order. */
  function Tidy(parts: seq<string>): seq<string> {
    if parts == [] then []
    else
      var last := TrimSpace(parts[|parts| - 1]);
      Tidy(parts[..|parts| - 1]) + (if last != "" then [last] else [])
  }

  function SplitCSV(s: string): seq<string> {
    Tidy(Split(s, ','))
  }

  /** `splitCSV`. */
  method SplitList(s: string) returns (out: seq<string>)
    ensures out == SplitCSV(s)
  {
    hide TrimSpace, Split;
    out := [];
    var parts := Split(s, ',');
    for i := 0 to |parts|
      invariant out == Tidy(parts[..i])
    {
      assert parts[..i + 1][..i] == parts[..i];
      var p := TrimSpace(parts[i]);
      if p != "" {
        out := out + [p];
      }
    }
    assert parts[..|parts|] == parts;
  }

  lemma {:induction false} TidyIsClean(parts: seq<string>)
    requires forall p :: p in parts ==> ',' !in p
    ensures forall e :: e in Tidy(parts) ==> Clean(e)
  {
    if parts != [] {
      TidyIsClean(parts[..|parts| - 1]);
      assert parts[|parts| - 1] in parts;
    }
  }

  lemma {:induction false} TidyOfClean(parts: seq<string>)
    requires forall i :: 0 <= i < |parts| ==> Clean(parts[i])
    ensures Tidy(parts) == parts
  {
    if parts != [] {
      var front, last := parts[..|parts| - 1], parts[|parts| - 1];
      assert Clean(last);
      hide TrimSpace;
      TrimmedIsFixed(last);
      hide Trimmed, Clean;
      TidyOfClean(front);
      assert parts == front + [last];
    }
  }

  /** The list survives storage exactly when every event is non-empty, comma-free and trimmed. */
  lemma RoundTrip(events: seq<string>)
    ensures SplitCSV(Join(events, ",")) == events <==> forall e :: e in events ==> Clean(e)
  {
    var stored := Join(events, ",");
    TidyIsClean(Split(stored, ','));
    if forall e :: e in events ==> Clean(e) {
      if events == [] {
        assert Split(stored, ',') == [""];
        assert Tidy([""]) == Tidy([]);
      } else {
        forall e | e in events
          ensures ',' !in e
        {
          assert Clean(e);
        }
        SplitJoin(events, ',');
        TidyOfClean(events);
      }
    }
  }

  /** Whatever was stored, splitting, joining and splitting again changes nothing more. */
  lemma SplitJoinSplit(s: string)
    ensures SplitCSV(Join(SplitCSV(s), ",")) == SplitCSV(s)
  {
    TidyIsClean(Split(s, ','));
    RoundTrip(SplitCSV(s));
  }

  // ---- What splitting gives ----

  /** A list without a comma is its trimmed name, or nothing. */
  lemma SplitOne(s: string)
    requires ',' !in s
    ensures SplitCSV(s) == if TrimSpace(s) == "" then [] else [TrimSpace(s)]
  {
    SplitFirst(s, ',', "");
    TidyOne(s);
    hide TrimSpace, Split, Tidy;
  }

  lemma TidyOne(part: string)
    ensures Tidy([part]) == if TrimSpace(part) == "" then [] else [TrimSpace(part)]
  {
    hide TrimSpace;
    assert [part][..0] == [];
    assert Tidy([]) == [];
  }

  /** A comma parts a list: the names before it come first, then those after it. */
  lemma SplitTwo(s: string, t: string)
    ensures SplitCSV(s + "," + t) == SplitCSV(s) + SplitCSV(t)
  {
    SplitConcat(s, t);
    TidyConcat(Split(s, ','), Split(t, ','));
  }

  /** One more character in front of the first part, or a new part. */
  function Before(c: char, parts: seq<string>): seq<string>
    requires parts != []
  {
    if c == ',' then [""] + parts else [[c] + parts[0]] + parts[1..]
  }

  lemma SplitNext(c: char, s: string)
    ensures Split([c] + s, ',') == Before(c, Split(s, ','))
  {
    assert ([c] + s)[1..] == s;
  }

  lemma BeforeConcat(c: char, one: seq<string>, two: seq<string>)
    requires one != []
    ensures Before(c, one + two) == Before(c, one) + two
  {
  }

  lemma {:induction false} SplitConcat(s: string, t: string)
    ensures Split(s + "," + t, ',') == Split(s, ',') + Split(t, ',')
  {
    if s == "" {
      assert s + "," + t == [','] + t;
      SplitNext(',', t);
    } else {
      var c, rest := s[0], s[1..];
      assert s == [c] + rest && s + "," + t == [c] + (rest + "," + t);
      hide Split, Before;
      SplitConcat(rest, t);
      SplitNext(c, rest);
      SplitNext(c, rest + "," + t);
      BeforeConcat(c, Split(rest, ','), Split(t, ','));
    }
  }

  lemma {:induction false} TidyConcat(a: seq<string>, b: seq<string>)
    ensures Tidy(a + b) == Tidy(a) + Tidy(b)
  {
    hide TrimSpace;
    if b == [] {
      assert a + b == a;
    } else {
      TidyConcat(a, b[..|b| - 1]);
      assert (a + b)[..|a + b| - 1] == a + b[..|b| - 1];
    }
  }

  // ---- The stored configuration ----

  datatype Config = Config(url: string, secret: string, events: string, enabled: bool)

  /** The secret is never shown again. */
  datatype Reply = Saved(url: string, events: seq<string>, enabled: bool) | BadRequest | NotConfigured | DatabaseError

  class Webhook {
    var config: Option<Config>

    constructor ()
      ensures config == None
    {
      config := None;
    }

    /** `PUT /webhook`: enabled unless the request says otherwise; `dbFails` is a failed write. */
    method Set(url: string, secret: string, events: seq<string>, enabled: Option<bool>, dbFails: bool)
      returns (r: Reply)
      modifies this
      ensures url == "" ==> r == BadRequest && config == old(config)
      ensures url != "" && dbFails ==> r == DatabaseError && config == old(config)
      ensures url != "" && !dbFails ==>
        var on := enabled != Some(false);
        r == Saved(url, events, on) && config == Some(Config(url, secret, Join(events, ","), on))
    {
      if url == "" {
        return BadRequest;
      }
      var on := true;
      if enabled.Some? {
        on := enabled.value;
      }
      if dbFails {
        return DatabaseError;
      }
      config := Some(Config(url, secret, Join(events, ","), on));
      r := Saved(url, events, on);
    }

    /** `GET /webhook`. */
    method Get(dbFails: bool) returns (r: Reply)
      ensures r == if dbFails then DatabaseError
                   else match config
                        case None => NotConfigured
                        case Some(c) => Saved(c.url, SplitCSV(c.events), c.enabled)
    {
      NothingStored();
      hide SplitCSV;
      if dbFails {
        return DatabaseError;
      }
      if config.None? {
        return NotConfigured;
      }
      var events := [];
      if config.value.events != "" {
        events := SplitList(config.value.events);
      }
      r := Saved(config.value.url, events, config.value.enabled);
    }

    /** Whether `doDispatchWebhook` goes on to a delivery attempt. */
    method Dispatches(eventType: string, dbFails: bool) returns (delivers: bool)
      ensures delivers == (!dbFails && Delivers(config, eventType))
    {
      hide SplitCSV;
      if dbFails {
        return false;
      }
      if config.None? || !config.value.enabled || config.value.url == "" {
        return false;
      }
      if config.value.events != "" {
        var allowed := false;
        var events := SplitList(config.value.events);
        var i := 0;
        while i < |events| && !allowed
          invariant 0 <= i <= |events|
          invariant allowed <==> eventType in events[..i]
        {
          assert events[..i + 1] == events[..i] + [events[i]];
          if events[i] == eventType {
            allowed := true;
          }
          i := i + 1;
        }
        assert !allowed ==> events[..i] == events;
        return allowed;
      }
      return true;
    }
  }

  lemma NothingStored()
    ensures SplitCSV("") == []
  {
    assert Split("", ',') == [""];
    assert Tidy([""]) == Tidy([]);
  }

  predicate Delivers(config: Option<Config>, eventType: string) {
    match config
    case None => false
    case Some(c) => c.enabled && c.url != "" && (c.events == "" || eventType in SplitCSV(c.events))
  }

  /**
   With a clean list an enabled webhook attempts delivery of an event exactly when the list
   is empty or contains it.
   */
  lemma {:induction false} CleanListFilters(url: string, secret: string, events: seq<string>, enabled: bool, eventType: string)
    requires forall e :: e in events ==> Clean(e)
    ensures Delivers(Some(Config(url, secret, Join(events, ","), enabled)), eventType)
       <==> enabled && url != "" && (events == [] || eventType in events)
  {
    RoundTrip(events);
    if events != [] {
      assert Clean(events[0]);
    }
  }

  /** An unclean list can mean anything: one empty name lets every event through, one blank name none. */
  lemma UncleanLists(url: string, secret: string, eventType: string)
    requires url != ""
    ensures Delivers(Some(Config(url, secret, Join([""], ","), true)), eventType)
    ensures !Delivers(Some(Config(url, secret, Join([" "], ","), true)), eventType)
  {
    assert Join([" "], ",") == " ";
    SplitFirst(" ", ',', "");
    assert TrimLeft(" ") == "";
    assert Tidy([" "]) == Tidy([]);
  }
}
