/** Trial subscriptions and their read-through cache (types/owner_hostname.go,
    service/subscription/caching/caching.go). */
module Subscriptions {
  import opened Text
  import opened Calendar

  /** `SubscriptionWithHostname`; instants are nanoseconds, as in Go. */
  datatype Item = Item(expiresAt: int, hostname: string)

  datatype Lookup = FoundLookup | NotFoundLookup | ExpiredLookup

  predicate Expired(item: Item, now: int) {
    now > item.expiresAt
  }

  /** `makeLookupResult`: expiry is looked at before the hostname. */
  function MakeLookupResult(item: Item, hostname: string, now: int): Lookup {
    if Expired(item, now) then ExpiredLookup
    else if item.hostname != hostname then NotFoundLookup
    else FoundLookup
  }

  type Rows = map<string, Item>

  /** What a lookup without a cache answers. */
  function Direct(rows: Rows, id: string, hostname: string, now: int): Lookup {
    if id in rows then MakeLookupResult(rows[id], hostname, now) else NotFoundLookup
  }

  /* ---- the trial ---- */

  const NANOS_PER_DAY: int := 86_400_000_000_000

  /** An instant: the UTC date and the nanosecond of the day. */
  datatype Moment = Moment(date: Date, nano: nat)

  predicate ValidMoment(m: Moment) {
    Valid(m.date) && m.nano < NANOS_PER_DAY
  }

  function Instant(m: Moment): int
    requires ValidMoment(m)
  {
    NANOS_PER_DAY * Ordinal(m.date) + m.nano
  }

  type UtcMoment = m: Moment | ValidMoment(m) witness Moment(Date(1, 1, 1), 0)

  /** `NewSubscription`, for a hostname: the time of day stays, three months on. */
  function NewSubscription(now: Moment, hostname: string): Item
    requires ValidMoment(now)
  {
    Item(Instant(Moment(AddTrial(now.date), now.nano)), hostname)
  }

  /** A trial is live for 89 days to the nanosecond and over after 92, for every moment of
      registration. */
  lemma TrialWindow(registered: Moment, hostname: string, now: int)
    requires ValidMoment(registered)
    ensures now <= Instant(registered) + 89 * NANOS_PER_DAY ==> !Expired(NewSubscription(registered, hostname), now)
    ensures now > Instant(registered) + 92 * NANOS_PER_DAY ==> Expired(NewSubscription(registered, hostname), now)
  {
    hide Valid, Ordinal, AddTrial;
    TrialLength(registered.date);
  }

  lemma TrialExpiry(registered: UtcMoment, hostname: string)
    ensures var item := NewSubscription(registered, hostname);
            && item.hostname == hostname
            && Instant(registered) + 89 * NANOS_PER_DAY <= item.expiresAt <= Instant(registered) + 92 * NANOS_PER_DAY
  {
    hide Valid, Ordinal, AddTrial;
    TrialLength(registered.date);
  }

  /** Moments in order: by day, and within a day by the nanosecond. */
  lemma InstantOrder(a: Moment, b: Moment)
    requires ValidMoment(a) && ValidMoment(b)
    ensures Instant(a) <= Instant(b)
       <==> Ordinal(a.date) < Ordinal(b.date) || (Ordinal(a.date) == Ordinal(b.date) && a.nano <= b.nano)
  {
    hide Valid, Ordinal;
  }

  /** The day of `a`'s month, if it had that many, whose trial ends on the same date as that of
      `b` in the month after. */
  function Overrun(a: Date, b: Date): nat
    requires Valid(a) && Valid(b)
  {
    MonthLength(MonthOf(a) + TRIAL_MONTHS) + b.day
  }

  /** A later registration expires no earlier, except across one month end: when the earlier day
      overruns its target month to a date past the later's end, or to the same date at a later
      time of day. */
  lemma TrialMonotoneIff(a: Moment, b: Moment, hostname: string, other: string)
    requires ValidMoment(a) && ValidMoment(b) && Instant(a) <= Instant(b)
    ensures NewSubscription(a, hostname).expiresAt <= NewSubscription(b, other).expiresAt
       <==> !(&& MonthOf(b.date) == MonthOf(a.date) + 1
              && (a.date.day > Overrun(a.date, b.date) || (a.date.day == Overrun(a.date, b.date) && a.nano > b.nano)))
  {
    hide Valid, Ordinal, MonthOf, MonthLength, AddTrial, Instant;
    InstantOrder(a, b);
    OrdinalOrder(a.date, b.date);
    TrialDates(a.date, b.date);
    InstantOrder(Moment(AddTrial(a.date), a.nano), Moment(AddTrial(b.date), b.nano));
  }

  const NANOS_PER_HOUR: int := 3_600_000_000_000

  /** 29 November 2022 at 23:00 against 1 December 2022 at 01:00: both trials end on 1 March
      2023, the later one 22 hours earlier. */
  lemma TrialNotMonotone(hostname: string)
    ensures var a := Moment(Date(2022, 11, 29), 23 * NANOS_PER_HOUR);
            var b := Moment(Date(2022, 12, 1), NANOS_PER_HOUR);
            && ValidMoment(a) && ValidMoment(b) && Instant(a) < Instant(b)
            && NewSubscription(b, hostname).expiresAt == NewSubscription(a, hostname).expiresAt - 22 * NANOS_PER_HOUR
  {
    TrialsEndTogether();
    OrdinalOrder(Date(2022, 11, 29), Date(2022, 12, 1));
    hide Ordinal, AddTrial;
  }

  /* ---- the cache and the database around it ---- */

  /** A nil map, which a failed `Load` can leave, reads as empty and panics on a write. */
  type Cache = Option<Rows>

  /** `held` is history: every row the database ever had. */
  datatype State = State(rows: Rows, cache: Cache, held: set<(string, Item)>)

  datatype Step =
    | Load
    | LoadFails(partial: Cache)
    | Get(id: string, hostname: string, now: int, fails: bool)
    | Put(id: string, item: Item)
    | Delete(id: string)

  datatype Reply = Answer(lookup: Lookup) | Error(lookup: Lookup) | Panic | Quiet

  predicate Cached(s: State, id: string) {
    s.cache.Some? && id in s.cache.value
  }

  predicate Within(part: Rows, rows: Rows) {
    forall id :: id in part ==> id in rows && part[id] == rows[id]
  }

  /** A failed `GetSubscriptions` returns nil or the rows read so far. */
  predicate Legal(s: State, step: Step) {
    step.LoadFails? && step.partial.Some? ==> Within(step.partial.value, s.rows)
  }

  /** `GetSubscription`: from the cache if the id is there, otherwise from the database. */
  function ReplyTo(s: State, step: Step): Reply {
    match step
    case Get(id, hostname, now, fails) =>
      if Cached(s, id) then Answer(MakeLookupResult(s.cache.value[id], hostname, now))
      else if fails then Error(NotFoundLookup)
      else if id !in s.rows then Answer(NotFoundLookup)
      else if s.cache.None? then Panic
      else Answer(MakeLookupResult(s.rows[id], hostname, now))
    case _ => Quiet
  }

  function Next(s: State, step: Step): State {
    match step
    case Load => s.(cache := Some(s.rows))
    case LoadFails(partial) => s.(cache := partial)
    case Get(id, _, _, fails) =>
      if Cached(s, id) || fails || id !in s.rows || s.cache.None? then s
      else s.(cache := Some(s.cache.value[id := s.rows[id]]))
    case Put(id, item) => s.(rows := s.rows[id := item], held := s.held + {(id, item)})
    case Delete(id) => s.(rows := s.rows - {id})
  }

  function After(s: State, steps: seq<Step>): State
    decreases steps
  {
    if steps == [] then s else After(Next(s, steps[0]), steps[1..])
  }

  function Replies(s: State, steps: seq<Step>): seq<Reply>
    decreases steps
  {
    if steps == [] then [] else [ReplyTo(s, steps[0])] + Replies(Next(s, steps[0]), steps[1..])
  }

  ghost predicate LegalRun(s: State, steps: seq<Step>)
    decreases steps
  {
    steps == [] || (Legal(s, steps[0]) && LegalRun(Next(s, steps[0]), steps[1..]))
  }

  /* ---- cached entries were true once ---- */

  predicate Recorded(m: Rows, held: set<(string, Item)>) {
    forall id :: id in m ==> (id, m[id]) in held
  }

  predicate Honest(s: State) {
    Recorded(s.rows, s.held) && (s.cache.Some? ==> Recorded(s.cache.value, s.held))
  }

  /** In every run, whatever rows come and go and whichever calls fail: each cached entry is a
      row the database held for that id, then or before. */
  lemma {:induction false} CacheIsHonest(s: State, steps: seq<Step>)
    requires Honest(s) && LegalRun(s, steps)
    ensures Honest(After(s, steps))
    decreases steps
  {
    if steps != [] {
      CacheIsHonest(Next(s, steps[0]), steps[1..]);
    }
  }

  /** In terms of the steps: a cached row was cached or in the database at the start, or was
      inserted for that id by one of them. */
  lemma {:induction false} CachedWasThere(s: State, steps: seq<Step>, id: string)
    requires LegalRun(s, steps) && Cached(After(s, steps), id)
    ensures var item := After(s, steps).cache.value[id];
            || (s.cache.Some? && id in s.cache.value && s.cache.value[id] == item)
            || (id in s.rows && s.rows[id] == item)
            || exists i :: 0 <= i < |steps| && steps[i] == Put(id, item)
    decreases steps
  {
    if steps != [] {
      var t := Next(s, steps[0]);
      CachedWasThere(t, steps[1..], id);
      var item := After(s, steps).cache.value[id];
      if i :| 0 <= i < |steps[1..]| && steps[1..][i] == Put(id, item) {
        assert steps[i + 1] == Put(id, item);
      } else {
        assert steps[0].Put? && steps[0].id == id && steps[0].item == item ==> steps[0] == Put(id, item);
      }
    }
  }

  /* ---- when the cache answers as the database would ---- */

  /** For one id, the cache is transparent exactly when the id is not cached or its row is
      still the cached one; an id in the database also needs a cache that is not nil. */
  lemma CacheAgreesIff(s: State, id: string)
    ensures (forall hostname, now :: ReplyTo(s, Get(id, hostname, now, false)) == Answer(Direct(s.rows, id, hostname, now)))
       <==> if Cached(s, id) then id in s.rows && s.rows[id] == s.cache.value[id]
            else id in s.rows ==> s.cache.Some?
  {
    if Cached(s, id) {
      var c := s.cache.value[id];
      if id !in s.rows {
        assert ReplyTo(s, Get(id, c.hostname, c.expiresAt, false)) == Answer(FoundLookup);
      } else if s.rows[id] != c {
        var r := s.rows[id];
        var later := if r.expiresAt < c.expiresAt then c.expiresAt else r.expiresAt;
        var sooner := if r.expiresAt < c.expiresAt then r.expiresAt else c.expiresAt;
        assert ReplyTo(s, Get(id, c.hostname, later, false)) == Answer(Direct(s.rows, id, c.hostname, later))
            && ReplyTo(s, Get(id, c.hostname, sooner, false)) == Answer(Direct(s.rows, id, c.hostname, sooner))
            ==> false;
      }
    } else if id in s.rows && s.cache.None? {
      assert ReplyTo(s, Get(id, "", 0, false)) == Panic;
    }
  }

  /** The cache is loaded and agrees with the database. */
  predicate Coherent(s: State) {
    s.cache.Some? && Within(s.cache.value, s.rows)
  }

  /** No cached row is removed or replaced, and no load leaves a nil map. A failed load that
      leaves a part of the rows does no harm. */
  predicate Careful(s: State, step: Step) {
    match step
    case LoadFails(partial) => partial.Some? && Within(partial.value, s.rows)
    case Put(id, item) => Cached(s, id) ==> s.cache.value[id] == item
    case Delete(id) => !Cached(s, id)
    case _ => true
  }

  ghost predicate CarefulRun(s: State, steps: seq<Step>)
    decreases steps
  {
    steps == [] || (Careful(s, steps[0]) && CarefulRun(Next(s, steps[0]), steps[1..]))
  }

  /** The database's own answer at that point; when it fails, ids that are not cached get an
      error, and cached ids the answer it would have given. */
  predicate AsDirect(s: State, step: Step, reply: Reply) {
    match step
    case Get(id, hostname, now, fails) =>
      reply == if fails && !Cached(s, id) then Error(NotFoundLookup) else Answer(Direct(s.rows, id, hostname, now))
    case _ => reply == Quiet
  }

  /** The cache refines the database: in every such run every lookup is answered as by the
      database at that point, misses are not remembered, and only a failing database shows. */
  lemma {:induction false} CacheRefines(s: State, steps: seq<Step>, i: nat)
    requires Coherent(s) && CarefulRun(s, steps) && i < |steps|
    ensures Coherent(After(s, steps[..i]))
    ensures |Replies(s, steps)| == |steps|
    ensures AsDirect(After(s, steps[..i]), steps[i], Replies(s, steps)[i])
    decreases steps
  {
    RepliesLength(s, steps);
    if i == 0 {
      assert steps[..0] == [];
    } else {
      CarefulKeepsCoherent(s, steps[0]);
      CacheRefines(Next(s, steps[0]), steps[1..], i - 1);
      assert steps[..i][0] == steps[0] && steps[..i][1..] == steps[1..][..i - 1];
    }
  }

  /** The same, from any state, once a load has succeeded. */
  lemma LoadedCacheRefines(s: State, steps: seq<Step>, i: nat)
    requires CarefulRun(Next(s, Load), steps) && i < |steps|
    ensures |Replies(s, [Load] + steps)| == |steps| + 1
    ensures AsDirect(After(s, [Load] + steps[..i]), steps[i], Replies(s, [Load] + steps)[i + 1])
  {
    assert ([Load] + steps)[1..] == steps && ([Load] + steps[..i])[1..] == steps[..i];
    CacheRefines(Next(s, Load), steps, i);
  }

  lemma {:induction false} RepliesLength(s: State, steps: seq<Step>)
    ensures |Replies(s, steps)| == |steps|
    decreases steps
  {
    if steps != [] {
      RepliesLength(Next(s, steps[0]), steps[1..]);
    }
  }

  /** Careful steps are exactly those that keep the cache coherent. */
  lemma CarefulKeepsCoherent(s: State, step: Step)
    requires Coherent(s)
    ensures Careful(s, step) <==> Coherent(Next(s, step))
  {
    match step
    case Put(id, item) =>
      if Cached(s, id) && s.cache.value[id] != item {
        assert id in Next(s, step).cache.value;
      }
    case Delete(id) =>
      if Cached(s, id) {
        assert id in Next(s, step).cache.value;
      }
    case _ =>
  }

  /* ---- what is answered, in terms of the rows alone ---- */

  /** From a coherent cache: found for the registered hostname until the trial ends, expired after
      that, and not found otherwise. */
  lemma LookupIs(s: State, id: string, hostname: string, now: int)
    requires s.cache.Some? && forall k :: k in s.cache.value ==> k in s.rows && s.rows[k] == s.cache.value[k]
    ensures var reply := ReplyTo(s, Get(id, hostname, now, false));
            && (reply == Answer(FoundLookup) <==>
                id in s.rows && s.rows[id].hostname == hostname && now <= s.rows[id].expiresAt)
            && (reply == Answer(ExpiredLookup) <==> id in s.rows && now > s.rows[id].expiresAt)
            && (reply == Answer(NotFoundLookup) <==>
                id in s.rows ==> s.rows[id].hostname != hostname && now <= s.rows[id].expiresAt)
  {
  }

  /** After a load every row is answered even by a failing database, and the cache is coherent. */
  lemma LoadCachesAll(s: State, id: string, hostname: string, now: int)
    requires id in s.rows
    ensures Next(s, Load).rows == s.rows && Coherent(Next(s, Load))
    ensures ReplyTo(Next(s, Load), Get(id, hostname, now, true)) == ReplyTo(Next(s, Load), Get(id, hostname, now, false))
  {
  }

  /** A lookup that reads a row keeps it: later lookups of the id do without the database. */
  lemma HitIsCached(s: State, id: string, hostname: string, now: int, other: string, later: int)
    requires Coherent(s) && id in s.rows
    ensures var t := Next(s, Get(id, hostname, now, false));
            && t.rows == s.rows && Coherent(t)
            && ReplyTo(t, Get(id, other, later, true)) == ReplyTo(t, Get(id, other, later, false))
            && ReplyTo(t, Get(id, other, later, false)) == ReplyTo(s, Get(id, other, later, false))
  {
  }

  /** A registered hostname: found under its identifier for 89 days, for no other hostname, and
      expired after 92 days; and not found once its row is deleted. */
  lemma RegisteredTrial(s: State, id: string, hostname: string, at: UtcMoment, other: string, now: int)
    requires Coherent(s) && !Cached(s, id)
    ensures var t := Next(s, Put(id, NewSubscription(at, hostname)));
            && Coherent(t)
            && (now <= Instant(at) + 89 * NANOS_PER_DAY ==> ReplyTo(t, Get(id, hostname, now, false)) == Answer(FoundLookup))
            && (now <= Instant(at) + 89 * NANOS_PER_DAY && other != hostname ==>
                ReplyTo(t, Get(id, other, now, false)) == Answer(NotFoundLookup))
            && (now > Instant(at) + 92 * NANOS_PER_DAY ==> ReplyTo(t, Get(id, other, now, false)) == Answer(ExpiredLookup))
            && ReplyTo(Next(t, Delete(id)), Get(id, other, now, false)) == Answer(NotFoundLookup)
  {
    hide Instant;
    TrialWindow(at, hostname, now);
    hide NewSubscription;
    HostnameIsKept(at, hostname);
  }

  lemma HostnameIsKept(at: UtcMoment, hostname: string)
    ensures NewSubscription(at, hostname).hostname == hostname
  {
  }

  lemma NanosOfDay()
    ensures NANOS_PER_HOUR == 60 * 60 * 1_000_000_000 && NANOS_PER_DAY == 24 * NANOS_PER_HOUR
  {
  }

  /** A miss leaves no trace, so a row inserted later is seen. */
  lemma MissIsNotCached(s: State, id: string, hostname: string, now: int, item: Item, later: int)
    requires s.cache.Some? && !Cached(s, id) && id !in s.rows
    ensures var missed := Next(s, Get(id, hostname, now, false));
            && missed == s
            && ReplyTo(Next(missed, Put(id, item)), Get(id, hostname, later, false))
               == Answer(MakeLookupResult(item, hostname, later))
  {
  }

  /* ---- the order of answers ---- */

  predicate NoLoad(steps: seq<Step>) {
    forall i :: 0 <= i < |steps| ==> !steps[i].Load? && !steps[i].LoadFails?
  }

  /** Between loads a cached entry never changes. */
  lemma {:induction false} EntryStays(s: State, steps: seq<Step>, id: string)
    requires Cached(s, id) && NoLoad(steps)
    ensures Cached(After(s, steps), id) && After(s, steps).cache.value[id] == s.cache.value[id]
    decreases steps
  {
    if steps != [] {
      EntryStays(Next(s, steps[0]), steps[1..], id);
    }
  }

  /** Between loads, for a cached id, as the clock goes on: once one hostname is answered with
      expired, every hostname is; for one hostname found and not found never change places;
      and no two hostnames are found. */
  lemma AnswersAreOrdered(s: State, steps: seq<Step>, id: string, hostname: string, other: string,
                          t0: int, t1: int, f0: bool, f1: bool)
    requires Cached(s, id) && NoLoad(steps) && t0 <= t1
    ensures var first := ReplyTo(s, Get(id, hostname, t0, f0));
            var second := ReplyTo(After(s, steps), Get(id, other, t1, f1));
            && first.Answer? && second.Answer?
            && (first.lookup.ExpiredLookup? ==> second.lookup.ExpiredLookup?)
            && (first.lookup.FoundLookup? && hostname == other ==> !second.lookup.NotFoundLookup?)
            && (first.lookup.NotFoundLookup? && hostname == other ==> !second.lookup.FoundLookup?)
            && (first.lookup.FoundLookup? && hostname != other ==> !second.lookup.FoundLookup?)
  {
    EntryStays(s, steps, id);
  }
}
