/** The objects of service/service.go and service/subscription/caching/caching.go, with the
    database adapter behind them; each is proved against its step machine. */
module Service {
  import opened Text
  import Subs = Subscriptions
  import opened Hosts
  import opened EventLoop

  /** The database adapter: any call can fail. */
  class Database {
    var rows: Subs.Rows
    var hostTable: Table
    var events: seq<RumEvent>
    /** Every row it ever had. */
    ghost var held: set<(string, Subs.Item)>
    /** How many calls of each kind have failed so far. */
    ghost var failedLoads: nat
    ghost var failedLookups: nat
    ghost var failedSaves: nat
    ghost var failedHosts: nat
    ghost var failedChanges: nat

    constructor ()
      ensures rows == map[] && hostTable == map[] && events == [] && held == {}
      ensures failedLoads == failedLookups == failedSaves == failedHosts == failedChanges == 0
    {
      rows, hostTable, events, held := map[], map[], [], {};
      failedLoads, failedLookups, failedSaves, failedHosts, failedChanges := 0, 0, 0, 0, 0;
    }

    method GetSubscriptions() returns (result: Subs.Cache, failed: bool)
      modifies `failedLoads
      ensures failedLoads == old(failedLoads) + Count(failed)
      ensures !failed ==> result == Some(rows)
      ensures failed && result.Some? ==> Subs.Within(result.value, rows)
    {
      failed := *;
      failedLoads := failedLoads + Count(failed);
      if !failed {
        return Some(rows), false;
      }
      return None, true;
    }

    method GetSubscription(id: string) returns (item: Option<Subs.Item>, failed: bool)
      modifies `failedLookups
      ensures failedLookups == old(failedLookups) + Count(failed)
      ensures !failed ==> item == if id in rows then Some(rows[id]) else None
    {
      failed := *;
      failedLookups := failedLookups + Count(failed);
      item := if !failed && id in rows then Some(rows[id]) else None;
    }

    method Save(rumEvent: RumEvent) returns (failed: bool)
      modifies `events, `failedSaves
      ensures failedSaves == old(failedSaves) + Count(failed)
      ensures events == if failed then old(events) else old(events) + [rumEvent]
    {
      failed := *;
      failedSaves := failedSaves + Count(failed);
      if !failed {
        events := events + [rumEvent];
      }
    }

    /** An upsert. */
    method SaveHost(hostname: string, createdAt: string) returns (failed: bool)
      modifies `hostTable, `failedHosts
      ensures failedHosts == old(failedHosts) + Count(failed)
      ensures hostTable == if failed then old(hostTable) else old(hostTable)[hostname := createdAt]
    {
      failed := *;
      failedHosts := failedHosts + Count(failed);
      if !failed {
        hostTable := hostTable[hostname := createdAt];
      }
    }

    method InsertOwnerHostname(id: string, item: Subs.Item) returns (failed: bool)
      modifies `rows, `held, `failedChanges
      ensures failedChanges == old(failedChanges) + Count(failed)
      ensures rows == if failed then old(rows) else old(rows)[id := item]
      ensures held == if failed then old(held) else old(held) + {(id, item)}
    {
      failed := *;
      failedChanges := failedChanges + Count(failed);
      if !failed {
        rows := rows[id := item];
        held := held + {(id, item)};
      }
    }

    /** One row of those that belong to a hostname and its owner. */
    method DeleteOwnerHostname(id: string) returns (failed: bool)
      modifies `rows, `failedChanges
      ensures failedChanges == old(failedChanges) + Count(failed)
      ensures rows == if failed then old(rows) else old(rows) - {id}
    {
      failed := *;
      failedChanges := failedChanges + Count(failed);
      if !failed {
        rows := rows - {id};
      }
    }
  }

  class SubscriptionService {
    const dao: Database
    var cache: Subs.Cache

    constructor (dao: Database)
      ensures this.dao == dao && cache == Some(map[])
    {
      this.dao := dao;
      cache := Some(map[]);
    }

    ghost function Model(): Subs.State
      reads this, dao
    {
      Subs.State(dao.rows, cache, dao.held)
    }

    /** The result is assigned even when the call failed. */
    method Load() returns (failed: bool)
      modifies `cache, dao`failedLoads
      ensures dao.failedLoads == old(dao.failedLoads) + Count(failed)
      ensures Model() == Subs.Next(old(Model()), if failed then Subs.LoadFails(cache) else Subs.Load)
      ensures failed ==> Subs.Legal(old(Model()), Subs.LoadFails(cache))
    {
      var result;
      result, failed := dao.GetSubscriptions();
      cache := result;
    }

    method GetSubscription(id: string, hostname: string, now: int) returns (reply: Subs.Reply, ghost failed: bool)
      modifies `cache, dao`failedLookups
      ensures dao.failedLookups == old(dao.failedLookups) + Count(failed)
      ensures !failed && Subs.Coherent(old(Model())) ==>
        && (reply == Subs.Answer(Subs.FoundLookup) <==>
            id in dao.rows && dao.rows[id].hostname == hostname && now <= dao.rows[id].expiresAt)
        && (reply == Subs.Answer(Subs.ExpiredLookup) <==> id in dao.rows && now > dao.rows[id].expiresAt)
        && reply.Answer?
      ensures old(cache).Some? ==> cache.Some? && (reply.Answer? || reply.Error?)
      ensures reply == Subs.ReplyTo(old(Model()), Subs.Get(id, hostname, now, failed))
      ensures Model() == Subs.Next(old(Model()), Subs.Get(id, hostname, now, failed))
    {
      failed := false;
      if cache.Some? && id in cache.value {
        return Subs.Answer(Subs.MakeLookupResult(cache.value[id], hostname, now)), false;
      }
      var item, error := dao.GetSubscription(id);
      if error {
        return Subs.Error(Subs.NotFoundLookup), true;
      }
      if item == None {
        return Subs.Answer(Subs.NotFoundLookup), false;
      }
      if cache == None {
        return Subs.Panic, false;
      }
      cache := Some(cache.value[id := item.value]);
      return Subs.Answer(Subs.MakeLookupResult(item.value, hostname, now)), false;
    }
  }

  /** The backups for events that are not saved. */
  class Backup {
    var expired: seq<Event>
    var unknown: seq<Event>

    constructor ()
      ensures expired == [] && unknown == []
    {
      expired, unknown := [], [];
    }

    method SaveExpired(event: Event)
      modifies `expired
      ensures expired == old(expired) + [event]
    {
      expired := expired + [event];
    }

    method SaveUnknown(event: Event)
      modifies `unknown
      ensures unknown == old(unknown) + [event]
    {
      unknown := unknown + [event];
    }
  }

  class EventService {
    const factory: Factory
    const dao: Database
    const subscriptions: SubscriptionService
    const backup: Backup
    var hosts: Table

    /** One database adapter serves the events and the subscriptions. */
    constructor (factory: Factory, dao: Database, subscriptions: SubscriptionService, backup: Backup)
      requires subscriptions.dao == dao
      ensures this.factory == factory && this.dao == dao
      ensures this.subscriptions == subscriptions && this.backup == backup
      ensures hosts == map[]
    {
      this.factory, this.dao, this.subscriptions, this.backup := factory, dao, subscriptions, backup;
      hosts := map[];
    }

    ghost function Model(): State
      reads this, dao, backup
    {
      State(hosts, dao.hostTable, dao.events, backup.expired, backup.unknown)
    }

    /** The service and the subscriptions it asks. */
    ghost function Whole(): Loop
      reads this, dao, backup, subscriptions, subscriptions.dao
    {
      Loop(subscriptions.Model(), Model())
    }

    /** How many calls have failed. */
    ghost function Failures(): Counts
      reads dao, subscriptions, subscriptions.dao
    {
      Counts(subscriptions.dao.failedLookups, dao.failedSaves, dao.failedHosts, dao.failedChanges)
    }

    /** The program starts only after a successful `Load`. */
    ghost predicate Ready()
      reads this, subscriptions
    {
      subscriptions.cache.Some? && subscriptions.dao == dao
    }

    /** One event: looked up, then saved and buffered, or handed to a backup. */
    method ProcessEvent(event: Option<Event>, now: int) returns (ghost f: Faults)
      requires Ready()
      modifies this, dao`events, dao`failedSaves, backup, subscriptions`cache, subscriptions.dao`failedLookups
      ensures Ready()
      ensures Failures() == Counted(old(Failures()), f)
      ensures Whole() == LoopNext(factory, old(Whole()), EventSignal(event, now), f)
    {
      hide Subs.Next, Subs.Coherent;
      f := NO_FAULTS;
      if event == None {
        return;
      }
      var rumEvent := Create(factory, event.value);
      var reply, lookupFailed := subscriptions.GetSubscription(rumEvent.subscriptionID, rumEvent.hostname, now);
      f := f.(lookup := lookupFailed);
      if reply.Error? {
        return;
      }
      match reply.lookup {
        case FoundLookup =>
          ghost var saveFailed := ProcessRumEvent(rumEvent);
          f := f.(save := saveFailed);
        case ExpiredLookup => backup.SaveExpired(event.value);
        case NotFoundLookup => backup.SaveUnknown(event.value);
      }
    }

    /** The host is buffered even when saving the event failed. */
    method ProcessRumEvent(rumEvent: RumEvent) returns (failed: bool)
      modifies this, dao`events, dao`failedSaves
      ensures dao.failedSaves == old(dao.failedSaves) + Count(failed)
      ensures dao.events == if failed then old(dao.events) else old(dao.events) + [rumEvent]
      ensures hosts == old(hosts)[rumEvent.hostname := rumEvent.createdAt]
      ensures Model() == Next(old(Model()), Arrival(rumEvent, Some(Subs.FoundLookup), failed))
    {
      failed := dao.Save(rumEvent);
      hosts := hosts[rumEvent.hostname := rumEvent.createdAt];
    }

    /** Every buffered host is written, in any order; then the buffer is cleared, whether or not
        the writes succeeded. */
    method ProcessHosts() returns (ghost failed: set<string>)
      modifies this, dao`hostTable, dao`failedHosts
      ensures dao.failedHosts == old(dao.failedHosts) + |failed|
      ensures failed <= old(hosts).Keys && hosts == map[]
      ensures forall h :: h in old(hosts) && h !in failed ==>
        h in dao.hostTable && dao.hostTable[h] == old(hosts)[h]
      ensures Model() == Next(old(Model()), Tick(failed))
    {
      var left := hosts.Keys;
      failed := {};
      ghost var before := dao.hostTable;
      WrittenNothing(before, hosts);
      while left != {}
        invariant left <= hosts.Keys && failed <= hosts.Keys - left
        invariant hosts == old(hosts) && dao.failedHosts == old(dao.failedHosts) + |failed|
        invariant dao.hostTable == before + (hosts - left - failed)
        decreases left
      {
        var hostname :| hostname in left;
        var error := dao.SaveHost(hostname, hosts[hostname]);
        WrittenOneMore(before, hosts, left, failed, hostname);
        left := left - {hostname};
        if error {
          failed := failed + {hostname};
        }
      }
      assert hosts - {} - failed == hosts - failed;
      ClearHosts();
    }

    method ClearHosts()
      modifies `hosts
      ensures hosts == map[]
    {
      hosts := map[];
    }

    /** The new subscription's identifier is a parameter. */
    method RegisterHostname(id: string, hostname: string, now: Subs.UtcMoment) returns (ghost f: Faults)
      requires Ready()
      modifies dao`rows, dao`held, dao`failedChanges
      ensures !f.change ==>
        && dao.rows.Keys == old(dao.rows).Keys + {id} && dao.rows[id].hostname == hostname
        && Subs.Instant(now) + 89 * Subs.NANOS_PER_DAY <= dao.rows[id].expiresAt <= Subs.Instant(now) + 92 * Subs.NANOS_PER_DAY
        && forall k :: k in old(dao.rows) && k != id ==> dao.rows[k] == old(dao.rows)[k]
      ensures f.change ==> dao.rows == old(dao.rows)
      ensures Whole() == LoopNext(factory, old(Whole()), RegisterSignal(id, hostname, now), f)
      ensures Failures() == Counted(old(Failures()), f)
    {
      var failed := dao.InsertOwnerHostname(id, Subs.NewSubscription(now, hostname));
      f := NO_FAULTS.(change := failed);
      Subs.TrialExpiry(now, hostname);
    }

    method DeleteHostname(id: string) returns (ghost f: Faults)
      requires Ready()
      modifies dao`rows, dao`failedChanges
      ensures dao.rows == if f.change then old(dao.rows) else old(dao.rows) - {id}
      ensures Whole() == LoopNext(factory, old(Whole()), DeleteSignal(id), f)
      ensures Failures() == Counted(old(Failures()), f)
    {
      var failed := dao.DeleteOwnerHostname(id);
      f := NO_FAULTS.(change := failed);
    }

    /** A tick. */
    method ProcessTick() returns (ghost f: Faults)
      modifies this, dao`hostTable, dao`failedHosts
      ensures Whole() == LoopNext(factory, old(Whole()), TickSignal, f)
      ensures Failures() == Counted(old(Failures()), f)
    {
      ghost var failed := ProcessHosts();
      f := NO_FAULTS.(hosts := failed);
    }

    /** The loop over events and ticks, with registrations and deletions between: for the signals
        and the calls that fail, the service runs exactly as the two machines do together. */
    method Run(signals: seq<Signal>) returns (ghost faults: seq<Faults>)
      requires Ready()
      modifies this, dao, backup, subscriptions`cache
      ensures |faults| == |signals|
      ensures Whole() == LoopAfter(factory, old(Whole()), signals, faults)
      ensures Failures() == AllCounted(old(Failures()), faults)
      ensures Failures() == old(Failures()) && Subs.Coherent(old(subscriptions.Model()))
        && CarefulSignals(factory, old(Whole()), signals, faults)
        ==> ServedDirectly(factory, old(dao.rows), old(Model()), Model(), signals)
    {
      hide LoopNext, Counted, ServedDirectly, CarefulSignal, Subs.Coherent;
      faults := [];
      for i := 0 to |signals|
        invariant Ready() && |faults| == i
        invariant Whole() == LoopAfter(factory, old(Whole()), signals[..i], faults)
        invariant Failures() == AllCounted(old(Failures()), faults)
      {
        ghost var f, before := NO_FAULTS, faults;
        match signals[i] {
          case EventSignal(event, now) => f := ProcessEvent(event, now);
          case TickSignal => f := ProcessTick();
          case RegisterSignal(id, hostname, at) => f := RegisterHostname(id, hostname, at);
          case DeleteSignal(id) => f := DeleteHostname(id);
        }
        faults := faults + [f];
        assert Front(faults) == before && Front(signals[..i + 1]) == signals[..i];
      }
      assert signals[..|signals|] == signals;
      if Failures() == old(Failures()) && Subs.Coherent(old(subscriptions.Model()))
        && CarefulSignals(factory, old(Whole()), signals, faults) {
        NoneCounted(old(Failures()), faults);
        LoopIsDirect(factory, old(Whole()), signals, faults);
      }
    }
  }

  lemma WrittenNothing(stored: Table, hosts: Table)
    ensures stored + (hosts - hosts.Keys - {}) == stored
  {
  }

  /** One more host written, or failed. */
  lemma WrittenOneMore(stored: Table, hosts: Table, left: set<string>, failed: set<string>, host: string)
    requires host in left && left <= hosts.Keys && failed <= hosts.Keys - left
    ensures stored + (hosts - (left - {host}) - failed) == (stored + (hosts - left - failed))[host := hosts[host]]
    ensures hosts - (left - {host}) - (failed + {host}) == hosts - left - failed
  {
  }
}
