/** The event loop as a whole: the service machine fed by the subscription machine, signal by
    signal. */
module EventLoop {
  import opened Text
  import Subs = Subscriptions
  import opened Hosts

  /** What happens to the service: the loop receives an event, whose clock is read as it is
      looked up, or a tick; beside the loop a hostname is registered, with the identifier its
      subscription gets, or a row is deleted. */
  datatype Signal =
    | EventSignal(event: Option<Event>, now: int)
    | TickSignal
    | RegisterSignal(id: string, hostname: string, at: Subs.UtcMoment)
    | DeleteSignal(id: string)

  /** Which database calls fail while a signal is handled. */
  datatype Faults = Faults(lookup: bool, save: bool, hosts: set<string>, change: bool)

  const NO_FAULTS: Faults := Faults(false, false, {}, false)

  datatype Fields = Fields(hostname: string, createdAt: string, subscriptionID: string)

  type Factory = Event -> Fields

  function Create(factory: Factory, event: Event): RumEvent {
    var f := factory(event);
    RumEvent(f.hostname, f.createdAt, f.subscriptionID, event)
  }

  predicate IsEvent(signal: Signal) {
    signal.EventSignal? && signal.event.Some?
  }

  /** The lookup an event asks for. */
  function LookupOf(factory: Factory, signal: Signal, fails: bool): Subs.Step
    requires IsEvent(signal)
  {
    var rum := Create(factory, signal.event.value);
    Subs.Get(rum.subscriptionID, rum.hostname, signal.now, fails)
  }

  function AnswerOf(reply: Subs.Reply): Option<Subs.Lookup> {
    if reply.Answer? then Some(reply.lookup) else None
  }

  /** Both machines. */
  datatype Loop = Loop(subs: Subs.State, service: State)

  function Count(failed: bool): nat {
    if failed then 1 else 0
  }

  /** How many calls of each kind failed. */
  datatype Counts = Counts(lookups: nat, saves: nat, hosts: nat, changes: nat)

  function Counted(c: Counts, f: Faults): Counts {
    Counts(c.lookups + Count(f.lookup), c.saves + Count(f.save), c.hosts + |f.hosts|, c.changes + Count(f.change))
  }

  function AllCounted(c: Counts, faults: seq<Faults>): Counts {
    if faults == [] then c else Counted(AllCounted(c, Front(faults)), Last(faults))
  }

  /** What a signal is to the subscriptions. A failing change leaves the rows as they are. */
  function StepOf(factory: Factory, signal: Signal, f: Faults): Option<Subs.Step> {
    match signal
    case EventSignal(Some(_), _) => Some(LookupOf(factory, signal, f.lookup))
    case RegisterSignal(id, hostname, at) =>
      if f.change then None else Some(Subs.Put(id, Subs.NewSubscription(at, hostname)))
    case DeleteSignal(id) => if f.change then None else Some(Subs.Delete(id))
    case _ => None
  }

  /** What a signal is to the service: an event arrives with the answer to its lookup. */
  function InputOf(factory: Factory, subs: Subs.State, signal: Signal, f: Faults): Input {
    if signal.TickSignal? then Tick(f.hosts)
    else if IsEvent(signal) then
      var reply := Subs.ReplyTo(subs, LookupOf(factory, signal, f.lookup));
      Arrival(Create(factory, signal.event.value), AnswerOf(reply), f.save)
    else Nothing
  }

  function SubsNext(factory: Factory, subs: Subs.State, signal: Signal, f: Faults): Subs.State {
    match StepOf(factory, signal, f)
    case Some(step) => Subs.Next(subs, step)
    case None => subs
  }

  function LoopNext(factory: Factory, l: Loop, signal: Signal, f: Faults): Loop {
    Loop(SubsNext(factory, l.subs, signal, f), Next(l.service, InputOf(factory, l.subs, signal, f)))
  }

  function LoopAfter(factory: Factory, l: Loop, signals: seq<Signal>, faults: seq<Faults>): Loop
    requires |signals| == |faults|
  {
    if signals == [] then l
    else LoopNext(factory, LoopAfter(factory, l, Front(signals), Front(faults)), Last(signals), Last(faults))
  }

  function InputsOf(factory: Factory, l: Loop, signals: seq<Signal>, faults: seq<Faults>): (inputs: seq<Input>)
    requires |signals| == |faults|
    ensures |inputs| == |signals|
  {
    if signals == [] then []
    else
      InputsOf(factory, l, Front(signals), Front(faults))
      + [InputOf(factory, LoopAfter(factory, l, Front(signals), Front(faults)).subs, Last(signals), Last(faults))]
  }

  /** The laws of the service machine hold for the loop. */
  lemma {:induction false} LoopRunsService(factory: Factory, l: Loop, signals: seq<Signal>, faults: seq<Faults>)
    requires |signals| == |faults|
    ensures LoopAfter(factory, l, signals, faults).service == After(l.service, InputsOf(factory, l, signals, faults))
  {
    if signals != [] {
      hide Next, InputOf;
      LoopRunsService(factory, l, Front(signals), Front(faults));
      var inputs := InputsOf(factory, l, signals, faults);
      assert Front(inputs) == InputsOf(factory, l, Front(signals), Front(faults));
    }
  }

  /* ---- with a loaded cache the answers are the database's ---- */

  /** No row of a cached subscription is deleted, and none is replaced by another; a registered
      identifier is a new one, so only deletions can break this. */
  predicate CarefulSignal(factory: Factory, subs: Subs.State, signal: Signal, f: Faults) {
    var step := StepOf(factory, signal, f);
    step.Some? ==> Subs.Careful(subs, step.value)
  }

  predicate CarefulSignals(factory: Factory, l: Loop, signals: seq<Signal>, faults: seq<Faults>)
    requires |signals| == |faults|
  {
    signals == [] ||
    (&& CarefulSignals(factory, l, Front(signals), Front(faults))
     && CarefulSignal(factory, LoopAfter(factory, l, Front(signals), Front(faults)).subs, Last(signals), Last(faults)))
  }

  /** What the database says of an event, at the event's clock. */
  function DirectAnswer(factory: Factory, rows: Subs.Rows, signal: Signal): Subs.Lookup
    requires IsEvent(signal)
  {
    var rum := Create(factory, signal.event.value);
    Subs.Direct(rows, rum.subscriptionID, rum.hostname, signal.now)
  }

  predicate AnsweredDirectly(factory: Factory, rows: Subs.Rows, signal: Signal, f: Faults, input: Input) {
    if signal.TickSignal? then input == Tick(f.hosts)
    else if IsEvent(signal) then
      && input.Arrival? && input.rum == Create(factory, signal.event.value) && input.saveFails == f.save
      && (input.lookup.Some? ==> input.lookup.value == DirectAnswer(factory, rows, signal))
      && (!f.lookup ==> input.lookup.Some?)
    else input == Nothing
  }

  /** Careful signals are exactly those that keep the cache coherent. */
  lemma CarefulSignalIff(factory: Factory, subs: Subs.State, signal: Signal, f: Faults)
    requires Subs.Coherent(subs)
    ensures CarefulSignal(factory, subs, signal, f) <==> Subs.Coherent(SubsNext(factory, subs, signal, f))
  {
    hide Subs.NewSubscription, Subs.Coherent, Subs.Careful;
    var step := StepOf(factory, signal, f);
    if step.Some? {
      Subs.CarefulKeepsCoherent(subs, step.value);
    }
  }

  lemma OneSignal(factory: Factory, l: Loop, signal: Signal, f: Faults)
    requires Subs.Coherent(l.subs) && CarefulSignal(factory, l.subs, signal, f)
    ensures Subs.Coherent(SubsNext(factory, l.subs, signal, f))
    ensures AnsweredDirectly(factory, l.subs.rows, signal, f, InputOf(factory, l.subs, signal, f))
  {
    hide Subs.NewSubscription;
    var step := StepOf(factory, signal, f);
    if step.Some? {
      Subs.CarefulKeepsCoherent(l.subs, step.value);
    }
  }

  /** The rows as they are at signal `i`. */
  function RowsAt(factory: Factory, l: Loop, signals: seq<Signal>, faults: seq<Faults>, i: nat): Subs.Rows
    requires |signals| == |faults| && i <= |signals|
  {
    LoopAfter(factory, l, signals[..i], faults[..i]).subs.rows
  }

  /** From a coherent cache, every event is handled by the database's own answer at that moment,
      whatever is registered or deleted meanwhile, as long as no cached row is; only a failing
      lookup of an id that is not cached gives none. */
  lemma {:induction false} AnswersAreDirect(factory: Factory, l: Loop, signals: seq<Signal>, faults: seq<Faults>)
    requires |signals| == |faults| && Subs.Coherent(l.subs) && CarefulSignals(factory, l, signals, faults)
    ensures Subs.Coherent(LoopAfter(factory, l, signals, faults).subs)
    ensures forall i :: 0 <= i < |signals| ==> AnsweredAt(factory, l, signals, faults, i)
  {
    if signals != [] {
      hide LoopNext, InputOf, Subs.Coherent, CarefulSignal, AnsweredAt, AnsweredDirectly;
      var before, n := LoopAfter(factory, l, Front(signals), Front(faults)), |signals| - 1;
      AnswersAreDirect(factory, l, Front(signals), Front(faults));
      OneSignal(factory, before, Last(signals), Last(faults));
      SubsOfNext(factory, before, Last(signals), Last(faults));
      forall i | 0 <= i < n
        ensures AnsweredAt(factory, l, signals, faults, i)
      {
        Earlier(factory, l, signals, faults, i);
      }
      LastInput(factory, l, signals, faults);
    }
  }

  /** The input of signal `i` is the event with the database's answer at that moment. */
  predicate AnsweredAt(factory: Factory, l: Loop, signals: seq<Signal>, faults: seq<Faults>, i: nat)
    requires |signals| == |faults| && i < |signals|
  {
    AnsweredDirectly(factory, RowsAt(factory, l, signals, faults, i), signals[i], faults[i],
                     InputsOf(factory, l, signals, faults)[i])
  }

  /** What an earlier signal was answered is not changed by the last. */
  lemma Earlier(factory: Factory, l: Loop, signals: seq<Signal>, faults: seq<Faults>, i: nat)
    requires |signals| == |faults| && i < |signals| - 1
    ensures AnsweredAt(factory, l, signals, faults, i) <==> AnsweredAt(factory, l, Front(signals), Front(faults), i)
  {
    hide LoopAfter, InputOf, AnsweredDirectly;
    assert signals[..i] == Front(signals)[..i] && faults[..i] == Front(faults)[..i];
    assert InputsOf(factory, l, signals, faults)[i] == InputsOf(factory, l, Front(signals), Front(faults))[i];
  }

  lemma LastInput(factory: Factory, l: Loop, signals: seq<Signal>, faults: seq<Faults>)
    requires |signals| == |faults| > 0
    ensures var before := LoopAfter(factory, l, Front(signals), Front(faults));
            AnsweredAt(factory, l, signals, faults, |signals| - 1)
            <==> AnsweredDirectly(factory, before.subs.rows, Last(signals), Last(faults),
                                  InputOf(factory, before.subs, Last(signals), Last(faults)))
  {
    hide LoopAfter, InputOf, AnsweredDirectly;
  }

  lemma SubsOfNext(factory: Factory, l: Loop, signal: Signal, f: Faults)
    ensures LoopNext(factory, l, signal, f).subs == SubsNext(factory, l.subs, signal, f)
  {
  }

  /* ---- end to end ---- */

  /** The rows the database holds after some signals, when no call fails. */
  function RowsNext(rows: Subs.Rows, signal: Signal): Subs.Rows {
    match signal
    case RegisterSignal(id, hostname, at) => rows[id := Subs.NewSubscription(at, hostname)]
    case DeleteSignal(id) => rows - {id}
    case _ => rows
  }

  function RowsAfter(rows: Subs.Rows, signals: seq<Signal>): Subs.Rows {
    if signals == [] then rows else RowsNext(RowsAfter(rows, Front(signals)), Last(signals))
  }

  /** The answer to a signal, if it is an event. */
  function Answered(factory: Factory, rows: Subs.Rows, signal: Signal): Option<Subs.Lookup> {
    if IsEvent(signal) then Some(DirectAnswer(factory, rows, signal)) else None
  }

  /** The database's answer to the last signal. */
  function LastAnswer(factory: Factory, rows: Subs.Rows, signals: seq<Signal>): Option<Subs.Lookup>
    requires signals != []
  {
    Answered(factory, RowsAfter(rows, Front(signals)), Last(signals))
  }

  /** The events the database answers in one way, in the order of the signals. */
  function EventsWith(factory: Factory, rows: Subs.Rows, signals: seq<Signal>, lookup: Subs.Lookup): seq<Event> {
    if signals == [] then []
    else
      var before := EventsWith(factory, rows, Front(signals), lookup);
      if LastAnswer(factory, rows, signals) == Some(lookup) then before + [Last(signals).event.value] else before
  }

  /** The records of the events the database finds: the event with the factory's three fields. */
  function RecordsWith(factory: Factory, rows: Subs.Rows, signals: seq<Signal>): seq<RumEvent> {
    if signals == [] then []
    else
      var before := RecordsWith(factory, rows, Front(signals));
      if LastAnswer(factory, rows, signals) == Some(Subs.FoundLookup) then
        var e := Last(signals).event.value;
        before + [RumEvent(factory(e).hostname, factory(e).createdAt, factory(e).subscriptionID, e)]
      else before
  }

  /** The host table with the stamp of each event found by the database written at once. */
  function HostsFound(factory: Factory, rows: Subs.Rows, table: Table, signals: seq<Signal>): Table {
    if signals == [] then table
    else
      var before := HostsFound(factory, rows, table, Front(signals));
      if LastAnswer(factory, rows, signals) == Some(Subs.FoundLookup) then
        var rum := Create(factory, Last(signals).event.value);
        before[rum.hostname := rum.createdAt]
      else before
  }

  predicate NoFaults(faults: seq<Faults>) {
    forall i :: 0 <= i < |faults| ==> faults[i] == NO_FAULTS
  }

  /** What is saved or backed up, and the host table, follow from the signals and the rows. */
  predicate ServedDirectly(factory: Factory, rows: Subs.Rows, s: State, t: State, signals: seq<Signal>) {
    && t.saved == s.saved + RecordsWith(factory, rows, signals)
    && t.expired == s.expired + EventsWith(factory, rows, signals, Subs.ExpiredLookup)
    && t.unknown == s.unknown + EventsWith(factory, rows, signals, Subs.NotFoundLookup)
    && View(t) == HostsFound(factory, rows, View(s), signals)
  }

  /** Without failures, cache, buffer and routing together are invisible, while rows come and go
      that are not cached. */
  lemma {:induction false} LoopIsDirect(factory: Factory, l: Loop, signals: seq<Signal>, faults: seq<Faults>)
    requires |signals| == |faults| && NoFaults(faults)
    requires Subs.Coherent(l.subs) && CarefulSignals(factory, l, signals, faults)
    ensures var t := LoopAfter(factory, l, signals, faults);
            && Subs.Coherent(t.subs) && t.subs.rows == RowsAfter(l.subs.rows, signals)
            && ServedDirectly(factory, l.subs.rows, l.service, t.service, signals)
  {
    hide LoopNext, Subs.Coherent, ServedDirectly, ServedAs, LastAnswer, RumOf, NoFaults, CarefulSignal, RowsNext;
    if signals == [] {
      NothingServed(factory, l.subs.rows, l.service);
    } else {
      var before := LoopAfter(factory, l, Front(signals), Front(faults));
      FrontHasNoFaults(faults);
      LoopIsDirect(factory, l, Front(signals), Front(faults));
      DirectStep(factory, before, Last(signals));
      OneMoreServed(factory, l.subs.rows, l.service, before.service,
                    LoopAfter(factory, l, signals, faults).service, signals);
    }
  }

  lemma NothingServed(factory: Factory, rows: Subs.Rows, s: State)
    ensures ServedDirectly(factory, rows, s, s, [])
  {
    hide View;
  }

  lemma OneMoreServed(factory: Factory, rows: Subs.Rows, s: State, u: State, t: State, signals: seq<Signal>)
    requires signals != [] && ServedDirectly(factory, rows, s, u, Front(signals))
    requires ServedAs(u, t, Answered(factory, RowsAfter(rows, Front(signals)), Last(signals)), RumOf(factory, Last(signals)))
    ensures ServedDirectly(factory, rows, s, t, signals)
  {
    hide LastAnswer, EventsWith, RecordsWith, HostsFound, View, RumOf, Answered;
    OneMoreRecord(factory, rows, signals);
    OneMoreEvent(factory, rows, signals, Subs.ExpiredLookup);
    OneMoreEvent(factory, rows, signals, Subs.NotFoundLookup);
    OneMoreHost(factory, rows, View(s), signals);
  }

  lemma OneMoreRecord(factory: Factory, rows: Subs.Rows, signals: seq<Signal>)
    requires signals != []
    ensures RecordsWith(factory, rows, signals)
         == RecordsWith(factory, rows, Front(signals))
            + (if Answered(factory, RowsAfter(rows, Front(signals)), Last(signals)) == Some(Subs.FoundLookup)
               then [RumOf(factory, Last(signals))] else [])
  {
    hide DirectAnswer, RowsAfter;
  }

  lemma OneMoreEvent(factory: Factory, rows: Subs.Rows, signals: seq<Signal>, lookup: Subs.Lookup)
    requires signals != []
    ensures EventsWith(factory, rows, signals, lookup)
         == EventsWith(factory, rows, Front(signals), lookup)
            + (if Answered(factory, RowsAfter(rows, Front(signals)), Last(signals)) == Some(lookup)
               then [RumOf(factory, Last(signals)).event] else [])
  {
    hide DirectAnswer, RowsAfter;
  }

  lemma OneMoreHost(factory: Factory, rows: Subs.Rows, table: Table, signals: seq<Signal>)
    requires signals != []
    ensures var before, rum := HostsFound(factory, rows, table, Front(signals)), RumOf(factory, Last(signals));
            HostsFound(factory, rows, table, signals)
            == if Answered(factory, RowsAfter(rows, Front(signals)), Last(signals)) == Some(Subs.FoundLookup)
               then before[rum.hostname := rum.createdAt] else before
  {
    hide DirectAnswer, RowsAfter;
  }

  lemma FrontHasNoFaults(faults: seq<Faults>)
    requires NoFaults(faults) && faults != []
    ensures NoFaults(Front(faults)) && Last(faults) == NO_FAULTS
  {
  }

  /** When no call has failed there are no faults. */
  lemma {:induction false} NoneCounted(c: Counts, faults: seq<Faults>)
    ensures var t := AllCounted(c, faults);
            && c.lookups <= t.lookups && c.saves <= t.saves && c.hosts <= t.hosts && c.changes <= t.changes
            && (t == c ==> NoFaults(faults))
  {
    if faults != [] {
      NoneCounted(c, Front(faults));
      forall i | 0 <= i < |faults| && AllCounted(c, faults) == c
        ensures faults[i] == NO_FAULTS
      {
        if i < |faults| - 1 {
          assert faults[i] == Front(faults)[i];
        }
      }
    }
  }

  /** What the factory makes of a signal, if it is an event. */
  function RumOf(factory: Factory, signal: Signal): RumEvent {
    if IsEvent(signal) then Create(factory, signal.event.value) else RumEvent("", "", "", Event(""))
  }

  lemma DirectStep(factory: Factory, l: Loop, signal: Signal)
    requires Subs.Coherent(l.subs) && CarefulSignal(factory, l.subs, signal, NO_FAULTS)
    ensures var t := LoopNext(factory, l, signal, NO_FAULTS);
            && Subs.Coherent(t.subs) && t.subs.rows == RowsNext(l.subs.rows, signal)
            && ServedAs(l.service, t.service, Answered(factory, l.subs.rows, signal), RumOf(factory, signal))
  {
    hide DirectAnswer, Subs.Coherent, Create, ServedAs, Subs.NewSubscription;
    OneSignal(factory, l, signal, NO_FAULTS);
    ServiceStep(l.service, InputOf(factory, l.subs, signal, NO_FAULTS));
  }

  /** What one answer does to the service. */
  predicate ServedAs(s: State, t: State, answer: Option<Subs.Lookup>, rum: RumEvent) {
    && t.saved == (if answer == Some(Subs.FoundLookup) then s.saved + [rum] else s.saved)
    && t.expired == (if answer == Some(Subs.ExpiredLookup) then s.expired + [rum.event] else s.expired)
    && t.unknown == (if answer == Some(Subs.NotFoundLookup) then s.unknown + [rum.event] else s.unknown)
    && View(t) == (if answer == Some(Subs.FoundLookup) then View(s)[rum.hostname := rum.createdAt] else View(s))
  }

  /** One input without a failure, on what the service holds. */
  lemma ServiceStep(s: State, input: Input)
    requires input.Tick? ==> input.failed == {}
    requires input.Arrival? ==> !input.saveFails
    ensures input.Arrival? ==> ServedAs(s, Next(s, input), input.lookup, input.rum)
    ensures !input.Arrival? ==> forall rum :: ServedAs(s, Next(s, input), None, rum)
  {
    if IsFound(input) {
      assert s.stored + s.hosts[input.rum.hostname := input.rum.createdAt]
          == (s.stored + s.hosts)[input.rum.hostname := input.rum.createdAt];
    } else if input.Tick? {
      TickKeepsViewIff(s, {});
    }
  }

  /* ---- in terms of the signals and the rows alone ---- */

  /** The rows' own answer to the fields of an event. */
  lemma AnswerIs(factory: Factory, rows: Subs.Rows, signal: Signal)
    requires IsEvent(signal)
    ensures var f, answer := factory(signal.event.value), DirectAnswer(factory, rows, signal);
            && (answer == Subs.FoundLookup <==>
                && f.subscriptionID in rows && rows[f.subscriptionID].hostname == f.hostname
                && signal.now <= rows[f.subscriptionID].expiresAt)
            && (answer == Subs.ExpiredLookup <==>
                f.subscriptionID in rows && signal.now > rows[f.subscriptionID].expiresAt)
  {
  }

  /** Whatever else fails, the database receives, in the order of the signals, the record of each
      event whose subscription is registered for its hostname and still live, if neither its
      lookup nor its save failed: the event with the factory's fields. */
  lemma LoopSavesInOrder(factory: Factory, l: Loop, signals: seq<Signal>, faults: seq<Faults>) returns (at: seq<nat>)
    requires |signals| == |faults| && Subs.Coherent(l.subs) && CarefulSignals(factory, l, signals, faults)
    requires forall i :: 0 <= i < |faults| ==> !faults[i].lookup
    ensures Increasing(at, |signals|)
    ensures forall i :: 0 <= i < |signals| ==>
      (i in at <==>
        && IsEvent(signals[i]) && !faults[i].save
        && var f, rows := factory(signals[i].event.value), RowsAt(factory, l, signals, faults, i);
           && f.subscriptionID in rows && rows[f.subscriptionID].hostname == f.hostname
           && signals[i].now <= rows[f.subscriptionID].expiresAt)
    ensures var was, now := l.service.saved, LoopAfter(factory, l, signals, faults).service.saved;
            && |now| == |was| + |at| && was <= now
            && forall k :: 0 <= k < |at| ==>
              && IsEvent(signals[at[k]])
              && var e := signals[at[k]].event.value;
                 now[|was| + k] == RumEvent(factory(e).hostname, factory(e).createdAt, factory(e).subscriptionID, e)
  {
    hide Increasing, LoopAfter, InputsOf, DirectAnswer, CarefulSignals, Subs.Coherent, RowsAt, AnsweredAt;
    var inputs := InputsOf(factory, l, signals, faults);
    LoopRunsService(factory, l, signals, faults);
    AnswersAreDirect(factory, l, signals, faults);
    at := SavedInOrder(l.service, inputs);
    forall i | 0 <= i < |signals|
      ensures IsEvent(signals[i]) ==>
        && inputs[i].Arrival? && inputs[i].saveFails == faults[i].save
        && inputs[i].rum == Create(factory, signals[i].event.value)
        && inputs[i].lookup == Some(DirectAnswer(factory, RowsAt(factory, l, signals, faults, i), signals[i]))
      ensures !IsEvent(signals[i]) ==> !inputs[i].Arrival?
    {
      InputAt(factory, l, signals, faults, i);
    }
    forall i | 0 <= i < |signals| && IsEvent(signals[i])
      ensures inputs[i].lookup == Some(Subs.FoundLookup) <==>
        var f, rows := factory(signals[i].event.value), RowsAt(factory, l, signals, faults, i);
        && f.subscriptionID in rows && rows[f.subscriptionID].hostname == f.hostname
        && signals[i].now <= rows[f.subscriptionID].expiresAt
    {
      AnswerIs(factory, RowsAt(factory, l, signals, faults, i), signals[i]);
    }
    forall k | 0 <= k < |at|
      ensures at[k] < |signals| && IsEvent(signals[at[k]])
      ensures inputs[at[k]].rum == Create(factory, signals[at[k]].event.value)
    {
      PositionBelow(at, |signals|, k);
    }
  }

  lemma InputAt(factory: Factory, l: Loop, signals: seq<Signal>, faults: seq<Faults>, i: nat)
    requires |signals| == |faults| && i < |signals| && AnsweredAt(factory, l, signals, faults, i) && !faults[i].lookup
    ensures var input := InputsOf(factory, l, signals, faults)[i];
            if IsEvent(signals[i]) then
              && input.Arrival? && input.saveFails == faults[i].save
              && input.rum == Create(factory, signals[i].event.value)
              && input.lookup == Some(DirectAnswer(factory, RowsAt(factory, l, signals, faults, i), signals[i]))
            else !input.Arrival?
  {
    hide InputsOf, RowsAt, DirectAnswer, Create;
  }

  /** A registered hostname's events, whatever happens between: from its registration on, while its
      row is neither deleted nor registered anew, an event with its identifier is saved with the
      factory's fields and its host buffered through the 89th day, and goes to the expired backup
      after the 92nd. */
  lemma RegisteredHostIsServed(factory: Factory, l: Loop, id: string, hostname: string, at: Subs.UtcMoment,
                               signals: seq<Signal>, faults: seq<Faults>, event: Event, now: int)
    requires |signals| == |faults| && Subs.Coherent(l.subs) && id in l.subs.rows
    requires l.subs.rows[id] == Subs.NewSubscription(at, hostname)
    requires CarefulSignals(factory, l, signals, faults) && KeepRow(signals, id)
    requires factory(event).subscriptionID == id && factory(event).hostname == hostname
    ensures var s := LoopAfter(factory, l, signals, faults);
            var t, stamp := LoopNext(factory, s, EventSignal(Some(event), now), NO_FAULTS), factory(event).createdAt;
            && (now <= Subs.Instant(at) + 89 * Subs.NANOS_PER_DAY ==>
                && t.service.saved == s.service.saved + [RumEvent(hostname, stamp, id, event)]
                && t.service.hosts == s.service.hosts[hostname := stamp])
            && (now > Subs.Instant(at) + 92 * Subs.NANOS_PER_DAY ==>
                t.service == s.service.(expired := s.service.expired + [event]))
  {
    var s := LoopAfter(factory, l, signals, faults);
    AnswersAreDirect(factory, l, signals, faults);
    RowStays(factory, l, signals, faults, id);
    Subs.TrialWindow(at, hostname, now);
    Subs.HostnameIsKept(at, hostname);
    Subs.LookupIs(s.subs, id, hostname, now);
    hide Subs.NewSubscription, Subs.Instant, LoopAfter, CarefulSignals, Subs.Coherent;
  }

  /** No signal deletes the row or registers its identifier. */
  predicate KeepRow(signals: seq<Signal>, id: string) {
    forall i :: 0 <= i < |signals| ==>
      !(signals[i].RegisterSignal? && signals[i].id == id) && !(signals[i].DeleteSignal? && signals[i].id == id)
  }

  lemma {:induction false} RowStays(factory: Factory, l: Loop, signals: seq<Signal>, faults: seq<Faults>, id: string)
    requires |signals| == |faults| && KeepRow(signals, id) && id in l.subs.rows
    ensures var rows := LoopAfter(factory, l, signals, faults).subs.rows; id in rows && rows[id] == l.subs.rows[id]
  {
    if signals != [] {
      hide LoopNext, SubsNext;
      RowStays(factory, l, Front(signals), Front(faults), id);
      var before := LoopAfter(factory, l, Front(signals), Front(faults));
      SubsOfNext(factory, before, Last(signals), Last(faults));
      RowStaysOnce(factory, before.subs, Last(signals), Last(faults), id);
    }
  }

  lemma RowStaysOnce(factory: Factory, subs: Subs.State, signal: Signal, f: Faults, id: string)
    requires !(signal.RegisterSignal? && signal.id == id) && !(signal.DeleteSignal? && signal.id == id) && id in subs.rows
    ensures var rows := SubsNext(factory, subs, signal, f).rows; id in rows && rows[id] == subs.rows[id]
  {
    hide Subs.NewSubscription;
  }

  /** A registration that succeeds puts the row there, and a deletion takes it away. */
  lemma RowComesAndGoes(factory: Factory, l: Loop, id: string, hostname: string, at: Subs.UtcMoment)
    ensures LoopNext(factory, l, RegisterSignal(id, hostname, at), NO_FAULTS).subs.rows
         == l.subs.rows[id := Subs.NewSubscription(at, hostname)]
    ensures LoopNext(factory, l, DeleteSignal(id), NO_FAULTS).subs.rows == l.subs.rows - {id}
  {
    hide Subs.NewSubscription;
  }
}
