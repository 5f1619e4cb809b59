/** EventDAO: the outbox table event_store held in memory, with the three
    operations the DAO offers. The database's sequence for event_id is the
    counter `nextId`; CURRENT_TIMESTAMP is the reading of `clock`. Whether
    the database accepts a statement is not modelled: each operation that
    writes takes the database's verdict as the argument `rejected`, and a
    rejected statement raises SqlException and changes nothing. */
module EventDao {
  import opened Sql
  import opened EventStore

  class EventDao {
    var events: seq<EventRecord>
    var nextId: nat
    var clock: nat

    /** event_id is a key, and every id handed out so far is below the next
        one the sequence will give. */
    ghost predicate Valid()
      reads this
    {
      0 < nextId &&
      UniqueIds(events) &&
      forall e :: e in events ==> e.eventId < nextId
    }

    constructor (start: nat)
      ensures Valid()
      ensures events == [] && nextId == 1 && clock == start
    {
      events := [];
      nextId := 1;
      clock := start;
    }

    /** Time passes. */
    method Tick(elapsed: nat)
      modifies this`clock
      ensures clock == old(clock) + elapsed
    {
      clock := clock + elapsed;
    }

    /** storeEvent: appends one row holding the three arguments and
        returns its generated id, which differs from every id already in
        the table. */
    method StoreEvent(eventType: string, subject: string, data: string, rejected: bool) returns (r: Result<nat>)
      requires Valid()
      modifies this`events, this`nextId
      ensures Valid()
      ensures rejected ==> r == Err(SqlException) && events == old(events) && nextId == old(nextId)
      ensures !rejected ==>
                r == Ok(old(nextId)) && nextId == old(nextId) + 1 &&
                r.value !in IdsOf(old(events)) &&
                events == old(events) + [NewEvent(r.value, eventType, subject, data, clock)] &&
                Find(events, r.value) == Some(NewEvent(r.value, eventType, subject, data, clock))
    {
      if rejected {
        return Err(SqlException);
      }
      var eventId := nextId;
      AppendFresh(events, eventId, eventType, subject, data, clock);
      events := events + [NewEvent(eventId, eventType, subject, data, clock)];
      nextId := nextId + 1;
      r := Ok(eventId);
    }

    /** markEventProcessed: the UPDATE of the row with id `eventId`. The
        count of updated rows is ignored, so an unknown id is no error. */
    method MarkEventProcessed(eventId: int, success: bool, errorMessage: Option<string>, rejected: bool) returns (r: Result<()>)
      requires Valid()
      modifies this`events
      ensures Valid()
      ensures rejected ==> r == Err(SqlException) && events == old(events)
      ensures !rejected ==> r == Ok(()) && events == MarkProcessed(old(events), eventId, success, errorMessage, clock)
      ensures !rejected && Find(old(events), eventId).Some? ==>
                var e := Find(old(events), eventId).value;
                Find(events, eventId).Some? &&
                var e' := Find(events, eventId).value;
                SameEvent(e', e) &&
                e'.attempts == e.attempts + 1 &&
                e'.processed == YesNo(success) &&
                e'.processTime == Some(clock) &&
                e'.errorMessage == errorMessage
      ensures !rejected && Find(old(events), eventId).None? ==> events == old(events)
      ensures forall other :: other != eventId ==> Find(events, other) == Find(old(events), other)
    {
      if rejected {
        return Err(SqlException);
      }
      var before := events;
      events := MarkProcessed(events, eventId, success, errorMessage, clock);
      if Find(before, eventId).Some? {
        MarkUpdatesRecord(before, eventId, success, errorMessage, clock);
      } else {
        MarkUnknownIdIsNoop(before, eventId, success, errorMessage, clock);
      }
      forall other | other != eventId ensures Find(events, other) == Find(before, other) {
        MarkKeepsOthers(before, eventId, success, errorMessage, clock, other);
      }
      r := Ok(());
    }

    /** getUnprocessedEvents: the selected columns of at most `limit` rows
        that are unprocessed and below `maxAttempts` attempts, oldest
        first, none of the matching rows left out being older than one
        returned. A query the database refuses (`rejected`) raises
        SqlException. Being a function, it reads the table and changes
        nothing. */
    function GetUnprocessedEvents(maxAttempts: int, limit: int, rejected: bool): (r: Result<seq<PendingEvent>>)
      reads this
      requires Valid()
      ensures rejected ==> r == Err(SqlException)
      ensures !rejected ==> r.Ok? && IsRetryBatch(events, maxAttempts, limit, r.value)
    {
      if rejected then Err(SqlException)
      else
        ScanColumns(events, maxAttempts, limit);
        Ok(ColumnsOf(Scan(events, maxAttempts, limit)))
    }
  }

  // The life of one event, as a client of the class sees it: stored and
  // picked up, failing until the cutoff hides it, then uncovered again by
  // a larger cutoff.

  /** Stores the event and picks it up. */
  method StoreAndPickUp() returns (store: EventDao, e: EventRecord)
    ensures fresh(store) && store.Valid() && store.clock == 0
    ensures store.events == [e] && e == NewEvent(1, "UserCreated", "users/create", "{\"id\":1}", 0)
  {
    store := new EventDao(0);
    var r := store.StoreEvent("UserCreated", "users/create", "{\"id\":1}", false);
    assert r == Ok(1);
    e := NewEvent(1, "UserCreated", "users/create", "{\"id\":1}", 0);
    PickUpFresh(store, e);
  }

  /** A freshly stored row is picked up under cutoff 3. */
  method PickUpFresh(store: EventDao, e: EventRecord)
    requires store.Valid() && store.events == [e]
    requires e.processed == 'N' && e.attempts == 0
  {
    var batch := store.GetUnprocessedEvents(3, 10, false);
    OnlyRowBatch(e, 3, 10, batch.value);
    assert batch == Ok([Columns(e)]);
  }

  /** One failed report on the only row of the table. */
  method FailOnce(store: EventDao, e: EventRecord) returns (e': EventRecord)
    requires store.Valid() && store.events == [e] && e.eventId == 1
    modifies store
    ensures store.Valid() && store.clock == old(store.clock)
    ensures store.events == [e'] && e' == Reported(e, false, Some("db timeout"), store.clock)
  {
    var ok := store.MarkEventProcessed(1, false, Some("db timeout"), false);
    e' := Reported(e, false, Some("db timeout"), store.clock);
  }

  /** One failed report that leaves the row eligible under cutoff 3. */
  method FailAndPickUp(store: EventDao, e: EventRecord) returns (e': EventRecord)
    requires store.Valid() && store.events == [e] && e.eventId == 1
    requires e.processed == 'N' && e.attempts < 2
    modifies store
    ensures store.Valid() && store.clock == old(store.clock)
    ensures store.events == [e'] && e' == Reported(e, false, Some("db timeout"), store.clock)
  {
    e' := FailOnce(store, e);
    var batch := store.GetUnprocessedEvents(3, 10, false);
    OnlyRowBatch(e', 3, 10, batch.value);
    assert batch == Ok([Columns(e')]);
  }

  /** After the third failure the row is hidden under cutoff 3 and
      returned again under cutoff 5. */
  method ExhaustedThenUncovered(store: EventDao, e: EventRecord)
    requires store.Valid() && store.events == [e]
    requires e.processed == 'N' && e.attempts == 3
  {
    var batch := store.GetUnprocessedEvents(3, 10, false);
    OnlyRowBatch(e, 3, 10, batch.value);
    assert batch == Ok([]);
    batch := store.GetUnprocessedEvents(5, 10, false);
    OnlyRowBatch(e, 5, 10, batch.value);
    assert batch == Ok([Columns(e)]);
    var refused := store.GetUnprocessedEvents(5, 10, true);
    assert refused == Err(SqlException);
  }

  method LifecycleScenario()
  {
    var store, e := StoreAndPickUp();
    e := FailAndPickUp(store, e);
    assert e.attempts == 1 && e.processed == 'N';
    e := FailAndPickUp(store, e);
    e := FailOnce(store, e);
    assert e.attempts == 3 && e.processed == 'N';
    ExhaustedThenUncovered(store, e);
  }
}
