/** The event service of service/service.go as a step machine: where events go, and the host
    table behind its write-coalescing buffer. */
module Hosts {
  import opened Text
  import opened Subscriptions

  /** An event as it arrives; `RumEvent` is what the factory makes of it. */
  datatype Event = Event(body: string)
  datatype RumEvent = RumEvent(hostname: string, createdAt: string, subscriptionID: string, event: Event)

  type Table = map<string, string>

  /** `hosts` is the buffer, `stored` the database's host table; the rest is where events end:
      saved in the database, or handed to the expired or unknown backup. */
  datatype State = State(
    hosts: Table, stored: Table, saved: seq<RumEvent>, expired: seq<Event>, unknown: seq<Event>)

  /** An event with the answer of the subscription lookup, `None` for an error; or a tick, with
      the hosts whose `SaveHost` failed. */
  datatype Input =
    | Nothing
    | Arrival(rum: RumEvent, lookup: Option<Lookup>, saveFails: bool)
    | Tick(failed: set<string>)

  function Next(s: State, input: Input): State {
    match input
    case Nothing => s
    case Arrival(_, None, _) => s
    case Arrival(rum, Some(FoundLookup), saveFails) =>
      s.(saved := if saveFails then s.saved else s.saved + [rum],
         hosts := s.hosts[rum.hostname := rum.createdAt])
    case Arrival(rum, Some(ExpiredLookup), _) => s.(expired := s.expired + [rum.event])
    case Arrival(rum, Some(NotFoundLookup), _) => s.(unknown := s.unknown + [rum.event])
    case Tick(failed) => s.(stored := s.stored + (s.hosts - failed), hosts := map[])
  }

  function Front<T>(s: seq<T>): seq<T>
    requires s != []
  {
    s[..|s| - 1]
  }

  function Last<T>(s: seq<T>): T
    requires s != []
  {
    s[|s| - 1]
  }

  function After(s: State, inputs: seq<Input>): State {
    if inputs == [] then s else Next(After(s, Front(inputs)), Last(inputs))
  }

  /** The host table as it is meant: the stored one under the buffer. */
  function View(s: State): Table {
    s.stored + s.hosts
  }

  /** The table of the direct version: each found event is written at once. */
  function DirectTable(table: Table, inputs: seq<Input>): Table {
    if inputs == [] then table
    else
      var before, last := DirectTable(table, Front(inputs)), Last(inputs);
      if IsFound(last) then before[last.rum.hostname := last.rum.createdAt] else before
  }

  predicate IsFound(input: Input) {
    input.Arrival? && input.lookup == Some(FoundLookup)
  }

  predicate Finds(input: Input, host: string) {
    IsFound(input) && input.rum.hostname == host
  }

  function At(table: Table, host: string): Option<string> {
    if host in table then Some(table[host]) else None
  }

  /* ---- the buffer ---- */

  /** What a tick does to the table: nothing is lost exactly when every host that failed to be
      saved has its buffered stamp stored already. */
  lemma TickKeepsViewIff(s: State, failed: set<string>)
    ensures View(Next(s, Tick(failed))) == View(s)
       <==> forall h :: h in failed && h in s.hosts ==> h in s.stored && s.stored[h] == s.hosts[h]
  {
    var a, b := View(Next(s, Tick(failed))), View(s);
    if a == b {
      forall h | h in failed && h in s.hosts
        ensures h in s.stored && s.stored[h] == s.hosts[h]
      {
        assert h in b && h in a;
        assert b[h] == s.hosts[h];
      }
    }
  }

  /** The input at which the host's stamp was dropped by a failed write, if no stamp of the
      host was found after it. */
  function DroppedAt(s: State, inputs: seq<Input>, host: string): (k: Option<nat>)
    ensures k.Some? ==> k.value < |inputs|
  {
    if inputs == [] || Finds(Last(inputs), host) then None
    else if Last(inputs).Tick? && host in Last(inputs).failed && host in After(s, Front(inputs)).hosts then
      Some(|inputs| - 1)
    else DroppedAt(s, Front(inputs), host)
  }

  /** The host's last stamp was not dropped, or the same stamp was stored already. */
  predicate StampKept(s: State, inputs: seq<Input>, host: string) {
    var k := DroppedAt(s, inputs, host);
    k.Some? ==>
      var t := After(s, inputs[..k.value]);
      At(t.stored, host) == At(t.hosts, host)
  }

  lemma NextAt(s: State, input: Input, host: string)
    ensures At(Next(s, input).hosts, host)
         == if Finds(input, host) then Some(input.rum.createdAt) else if input.Tick? then None else At(s.hosts, host)
    ensures At(Next(s, input).stored, host)
         == if input.Tick? && host in s.hosts && host !in input.failed then Some(s.hosts[host]) else At(s.stored, host)
  {
  }

  lemma DirectAt(table: Table, inputs: seq<Input>, host: string)
    requires inputs != []
    ensures At(DirectTable(table, inputs), host)
         == if Finds(Last(inputs), host) then Some(Last(inputs).rum.createdAt)
            else At(DirectTable(table, Front(inputs)), host)
  {
  }

  /** A buffered stamp is the direct one; otherwise the stored stamp is, or the last one was
      dropped and the stored one is what was there at that tick. */
  lemma {:induction false} HostHistory(s: State, inputs: seq<Input>, host: string)
    ensures var t, k, direct := After(s, inputs), DroppedAt(s, inputs, host), At(DirectTable(View(s), inputs), host);
            && (host in t.hosts ==> k == None && direct == At(t.hosts, host))
            && (host !in t.hosts && k == None ==> direct == At(t.stored, host))
            && (k.Some? ==>
                var u := After(s, inputs[..k.value]);
                host in u.hosts && direct == At(u.hosts, host) && At(t.stored, host) == At(u.stored, host))
  {
    if inputs != [] {
      hide Next, DirectTable, View, Finds;
      HostHistory(s, Front(inputs), host);
      NextAt(After(s, Front(inputs)), Last(inputs), host);
      DirectAt(View(s), inputs, host);
      var k := DroppedAt(s, Front(inputs), host);
      assert k.Some? ==> Front(inputs)[..k.value] == inputs[..k.value];
    }
  }

  /** Write coalescing, host by host, in every run with whatever failures: the stored table
      under the buffer has the direct stamp exactly when the host's stamp was kept. */
  lemma HostRefinesIff(s: State, inputs: seq<Input>, host: string)
    ensures At(View(After(s, inputs)), host) == At(DirectTable(View(s), inputs), host)
       <==> StampKept(s, inputs, host)
  {
    HostHistory(s, inputs, host);
  }

  lemma TablesEqual(a: Table, b: Table)
    ensures a == b <==> forall h :: At(a, h) == At(b, h)
  {
    if forall h :: At(a, h) == At(b, h) {
      assert forall h :: At(a, h) == At(b, h) ==> (h in a <==> h in b);
    }
  }

  /** The whole table is the direct one exactly when every host's stamp was kept. */
  lemma BufferRefinesIff(s: State, inputs: seq<Input>)
    ensures View(After(s, inputs)) == DirectTable(View(s), inputs)
       <==> forall host :: StampKept(s, inputs, host)
  {
    hide View, After, DirectTable, StampKept, At;
    TablesEqual(View(After(s, inputs)), DirectTable(View(s), inputs));
    forall host
      ensures At(View(After(s, inputs)), host) == At(DirectTable(View(s), inputs), host)
         <==> StampKept(s, inputs, host)
    {
      HostRefinesIff(s, inputs, host);
    }
  }

  predicate TicksSucceed(inputs: seq<Input>) {
    forall i :: 0 <= i < |inputs| && inputs[i].Tick? ==> inputs[i].failed == {}
  }

  /** Without a failed write no stamp is ever dropped. */
  lemma {:induction false} NothingDropped(s: State, inputs: seq<Input>, host: string)
    requires TicksSucceed(inputs)
    ensures DroppedAt(s, inputs, host) == None
  {
    if inputs != [] {
      NothingDropped(s, Front(inputs), host);
    }
  }

  /** Then the buffer refines the direct version at every point of the run. */
  lemma BufferRefines(s: State, inputs: seq<Input>)
    requires TicksSucceed(inputs)
    ensures View(After(s, inputs)) == DirectTable(View(s), inputs)
  {
    BufferRefinesIff(s, inputs);
    forall host
      ensures StampKept(s, inputs, host)
    {
      NothingDropped(s, inputs, host);
    }
  }

  /** After a tick the buffer is empty, and the stored table is the direct one exactly when
      every host's stamp was kept. */
  lemma TickCatchesUp(s: State, inputs: seq<Input>)
    requires inputs != [] && Last(inputs).Tick?
    ensures After(s, inputs).hosts == map[]
    ensures After(s, inputs).stored == DirectTable(View(s), inputs)
       <==> forall host :: StampKept(s, inputs, host)
  {
    BufferRefinesIff(s, inputs);
    var t := After(s, inputs);
    assert t.stored + map[] == t.stored;
  }

  /** `inputs[i]` is the last found event of the host, and no tick follows it. */
  predicate LastFound(inputs: seq<Input>, i: nat, host: string)
    requires i < |inputs|
  {
    Finds(inputs[i], host) && forall j :: i < j < |inputs| ==> !inputs[j].Tick? && !Finds(inputs[j], host)
  }

  /** The buffer holds nothing but the last stamps since the last tick. */
  lemma {:induction false} BufferedHosts(s: State, inputs: seq<Input>, host: string) returns (i: nat)
    requires host in After(s, inputs).hosts && s.hosts == map[]
    ensures i < |inputs| && LastFound(inputs, i, host)
    ensures inputs[i].rum.createdAt == After(s, inputs).hosts[host]
  {
    if Finds(Last(inputs), host) {
      i := |inputs| - 1;
    } else {
      i := BufferedHosts(s, Front(inputs), host);
      assert forall j :: 0 <= j < |inputs| - 1 ==> inputs[j] == Front(inputs)[j];
    }
  }

  /* ---- every event goes to one place ---- */

  /** Where an event ends. */
  datatype Place = Saved | ExpiredBackup | UnknownBackup | Dropped

  function PlaceOf(input: Input): Place
    requires input.Arrival?
  {
    match input.lookup
    case None => Dropped
    case Some(FoundLookup) => if input.saveFails then Dropped else Saved
    case Some(ExpiredLookup) => ExpiredBackup
    case Some(NotFoundLookup) => UnknownBackup
  }

  /** The events that end in a place, in arrival order. */
  function EventsTo(place: Place, inputs: seq<Input>): seq<Event> {
    if inputs == [] then []
    else if Last(inputs).Arrival? && PlaceOf(Last(inputs)) == place then
      EventsTo(place, Front(inputs)) + [Last(inputs).rum.event]
    else EventsTo(place, Front(inputs))
  }

  function Arrivals(inputs: seq<Input>): seq<Event> {
    if inputs == [] then []
    else Arrivals(Front(inputs)) + (if Last(inputs).Arrival? then [Last(inputs).rum.event] else [])
  }

  function EventsOf(rums: seq<RumEvent>): seq<Event> {
    seq(|rums|, i requires 0 <= i < |rums| => rums[i].event)
  }

  /** All events in one of the three places. */
  function Held(s: State): multiset<Event> {
    multiset(EventsOf(s.saved)) + multiset(s.expired) + multiset(s.unknown)
  }

  /** Routing: each place receives exactly its events, in arrival order, whatever fails. */
  lemma {:induction false} EventsAreRouted(s: State, inputs: seq<Input>)
    ensures After(s, inputs).expired == s.expired + EventsTo(ExpiredBackup, inputs)
    ensures After(s, inputs).unknown == s.unknown + EventsTo(UnknownBackup, inputs)
    ensures EventsOf(After(s, inputs).saved) == EventsOf(s.saved) + EventsTo(Saved, inputs)
  {
    if inputs != [] {
      EventsAreRouted(s, Front(inputs));
      var t, last := After(s, Front(inputs)), Last(inputs);
      if IsFound(last) {
        assert EventsOf(t.saved + [last.rum]) == EventsOf(t.saved) + [last.rum.event];
      }
    }
  }

  /** The four places share out the arrivals. */
  function Placed(inputs: seq<Input>): multiset<Event> {
    multiset(EventsTo(Saved, inputs)) + multiset(EventsTo(ExpiredBackup, inputs))
    + multiset(EventsTo(UnknownBackup, inputs))
  }

  lemma {:induction false} PlacesShareArrivals(inputs: seq<Input>)
    ensures Placed(inputs) + multiset(EventsTo(Dropped, inputs)) == multiset(Arrivals(inputs))
  {
    if inputs != [] {
      PlacesShareArrivals(Front(inputs));
      var last := Last(inputs);
      if last.Arrival? {
        hide EventsTo, Arrivals;
        OnePlace(inputs, Saved);
        OnePlace(inputs, ExpiredBackup);
        OnePlace(inputs, UnknownBackup);
        OnePlace(inputs, Dropped);
        OneArrival(inputs);
      }
    }
  }

  lemma OneArrival(inputs: seq<Input>)
    requires inputs != [] && Last(inputs).Arrival?
    ensures multiset(Arrivals(inputs)) == multiset(Arrivals(Front(inputs))) + multiset{Last(inputs).rum.event}
  {
  }

  lemma OnePlace(inputs: seq<Input>, place: Place)
    requires inputs != [] && Last(inputs).Arrival?
    ensures multiset(EventsTo(place, inputs)) == multiset(EventsTo(place, Front(inputs)))
         + (if PlaceOf(Last(inputs)) == place then multiset{Last(inputs).rum.event} else multiset{})
  {
  }

  /** Conservation: in every run the events held grow by the arrivals less the dropped ones,
      which are those whose lookup failed or whose save failed. */
  lemma EventsAreConserved(s: State, inputs: seq<Input>)
    ensures Held(After(s, inputs)) + multiset(EventsTo(Dropped, inputs)) == Held(s) + multiset(Arrivals(inputs))
  {
    hide After, EventsTo, Arrivals, EventsOf;
    EventsAreRouted(s, inputs);
    PlacesShareArrivals(inputs);
  }

  /* ---- what each place and each host ends with, in terms of the inputs alone ---- */

  /** The record each input puts into the database, and the event each puts into a backup. */
  function Records(inputs: seq<Input>): seq<Option<RumEvent>> {
    seq(|inputs|, i requires 0 <= i < |inputs| =>
      if inputs[i].Arrival? && inputs[i].lookup == Some(FoundLookup) && !inputs[i].saveFails then Some(inputs[i].rum)
      else None)
  }

  function BackedUp(inputs: seq<Input>, lookup: Lookup): seq<Option<Event>> {
    seq(|inputs|, i requires 0 <= i < |inputs| =>
      if inputs[i].Arrival? && inputs[i].lookup == Some(lookup) then Some(inputs[i].rum.event) else None)
  }

  lemma {:induction false} RecordsAppended(s: State, inputs: seq<Input>) returns (at: seq<nat>)
    ensures AllOf(Records(inputs), at) && Appended(s.saved, After(s, inputs).saved, Records(inputs), at)
  {
    hide AllOf, Appended;
    if inputs == [] {
      at := [];
      NoneAppended(s.saved);
      assert Records([]) == [];
    } else {
      at := RecordsAppended(s, Front(inputs));
      var all, more := Records(Front(inputs)), Records(inputs)[|inputs| - 1];
      assert Records(inputs) == all + [more];
      AllOfMore(all, at, more);
      AppendedMore(s.saved, After(s, Front(inputs)).saved, all, at, more);
      if more.Some? {
        at := at + [|all|];
      }
    }
  }

  lemma NoneAppended<T>(was: seq<T>)
    ensures AllOf<T>([], []) && Appended(was, was, [], [])
  {
  }

  lemma {:induction false} BackedUpAppended(s: State, inputs: seq<Input>, lookup: Lookup) returns (at: seq<nat>)
    requires lookup == ExpiredLookup || lookup == NotFoundLookup
    ensures AllOf(BackedUp(inputs, lookup), at)
    ensures lookup == ExpiredLookup ==> Appended(s.expired, After(s, inputs).expired, BackedUp(inputs, lookup), at)
    ensures lookup == NotFoundLookup ==> Appended(s.unknown, After(s, inputs).unknown, BackedUp(inputs, lookup), at)
  {
    hide AllOf, Appended;
    if inputs == [] {
      at := [];
      NoneAppended(s.expired);
      NoneAppended(s.unknown);
      assert BackedUp([], lookup) == [];
    } else {
      at := BackedUpAppended(s, Front(inputs), lookup);
      var all, more, t := BackedUp(Front(inputs), lookup), BackedUp(inputs, lookup)[|inputs| - 1], After(s, Front(inputs));
      assert BackedUp(inputs, lookup) == all + [more];
      AllOfMore(all, at, more);
      if lookup == ExpiredLookup {
        AppendedMore(s.expired, t.expired, all, at, more);
      } else {
        AppendedMore(s.unknown, t.unknown, all, at, more);
      }
      if more.Some? {
        at := at + [|all|];
      }
    }
  }

  /** The database receives the records of the found events whose save succeeded, as they came
      and in their order. */
  lemma SavedInOrder(s: State, inputs: seq<Input>) returns (at: seq<nat>)
    ensures Increasing(at, |inputs|)
    ensures forall i :: 0 <= i < |inputs| ==>
      (i in at <==> inputs[i].Arrival? && inputs[i].lookup == Some(FoundLookup) && !inputs[i].saveFails)
    ensures var saved := After(s, inputs).saved;
            && |saved| == |s.saved| + |at| && s.saved <= saved
            && forall k :: 0 <= k < |at| ==> inputs[at[k]].Arrival? && saved[|s.saved| + k] == inputs[at[k]].rum
  {
    hide Increasing, After;
    at := RecordsAppended(s, inputs);
    assert forall i :: 0 <= i < |inputs| ==> (i in at <==> Records(inputs)[i].Some?);
  }

  /** A backup receives the events that were answered expired, or not found, in their order. */
  lemma BackedUpInOrder(s: State, inputs: seq<Input>, lookup: Lookup) returns (at: seq<nat>)
    requires lookup == ExpiredLookup || lookup == NotFoundLookup
    ensures Increasing(at, |inputs|)
    ensures forall i :: 0 <= i < |inputs| ==> (i in at <==> inputs[i].Arrival? && inputs[i].lookup == Some(lookup))
    ensures var t := After(s, inputs);
            var was, now := if lookup == ExpiredLookup then s.expired else s.unknown,
                            if lookup == ExpiredLookup then t.expired else t.unknown;
            && |now| == |was| + |at| && was <= now
            && forall k :: 0 <= k < |at| ==> inputs[at[k]].Arrival? && now[|was| + k] == inputs[at[k]].rum.event
  {
    hide Increasing, After;
    at := BackedUpAppended(s, inputs, lookup);
    assert forall i :: 0 <= i < |inputs| ==> (i in at <==> BackedUp(inputs, lookup)[i].Some?);
  }

  /** Without failed host writes a host has the stamp of its last found event, in the buffer or
      behind it. */
  lemma {:induction false} LastStamp(s: State, inputs: seq<Input>, i: nat)
    requires i < |inputs| && inputs[i].Arrival? && inputs[i].lookup == Some(FoundLookup)
    requires forall j :: i < j < |inputs| ==>
      !(inputs[j].Arrival? && inputs[j].lookup == Some(FoundLookup) && inputs[j].rum.hostname == inputs[i].rum.hostname)
    requires forall j :: 0 <= j < |inputs| && inputs[j].Tick? ==> inputs[j].failed == {}
    ensures var t, rum := After(s, inputs), inputs[i].rum;
            rum.hostname in t.stored + t.hosts && (t.stored + t.hosts)[rum.hostname] == rum.createdAt
  {
    var last := Last(inputs);
    if i < |inputs| - 1 {
      assert forall j :: 0 <= j < |inputs| - 1 ==> inputs[j] == Front(inputs)[j];
      LastStamp(s, Front(inputs), i);
      if last.Tick? {
        assert last.failed == {};
      }
    }
  }

  lemma NextView(s: State, input: Input, host: string)
    requires !Finds(input, host) && (input.Tick? ==> input.failed == {})
    ensures At(View(Next(s, input)), host) == At(View(s), host)
  {
    hide Next;
    NextAt(s, input, host);
  }

  /** And a host without a found event has the stamp it had. */
  lemma {:induction false} NoStamp(s: State, inputs: seq<Input>, host: string)
    requires forall j :: 0 <= j < |inputs| ==>
      !(inputs[j].Arrival? && inputs[j].lookup == Some(FoundLookup) && inputs[j].rum.hostname == host)
    requires forall j :: 0 <= j < |inputs| && inputs[j].Tick? ==> inputs[j].failed == {}
    ensures At(View(After(s, inputs)), host) == At(View(s), host)
  {
    if inputs != [] {
      hide Next, View;
      assert forall j :: 0 <= j < |inputs| - 1 ==> inputs[j] == Front(inputs)[j];
      NoStamp(s, Front(inputs), host);
      assert Last(inputs).Tick? ==> Last(inputs).failed == {};
      NextView(After(s, Front(inputs)), Last(inputs), host);
    }
  }
}
