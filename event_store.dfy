/** The table event_store and the meaning of the three SQL statements that
    EventDAO issues against it, as functions over the table's rows (in
    insertion order). The class in module EventDao holds one such table. */
module EventStore {
  import opened Sql

  /** One row of event_store. `processed` is the CHAR(1) flag 'Y'/'N';
      `eventTime` and `processTime` are readings of the store's clock. */
  datatype EventRecord = EventRecord(
    eventId: nat,
    eventType: string,
    subject: string,
    data: string,
    eventTime: nat,
    processed: char,
    processTime: Option<nat>,
    attempts: nat,
    errorMessage: Option<string>)

  /** The columns the retry scan selects: event_id, event_type, subject,
      data, processing_attempts. */
  datatype PendingEvent = PendingEvent(
    eventId: nat,
    eventType: string,
    subject: string,
    data: string,
    attempts: nat)

  function Columns(e: EventRecord): (p: PendingEvent)
    ensures p.eventId == e.eventId && p.eventType == e.eventType && p.subject == e.subject
    ensures p.data == e.data && p.attempts == e.attempts
  {
    PendingEvent(e.eventId, e.eventType, e.subject, e.data, e.attempts)
  }

  /** A report handed back by a consumer: the arguments of one
      markEventProcessed call and the clock reading at that call. */
  datatype Report = Report(success: bool, errorMessage: Option<string>, time: nat)

  // ---------------------------------------------------------------------
  // Table-wide facts

  function IdsOf(t: seq<EventRecord>): set<nat>
  {
    set e | e in t :: e.eventId
  }

  /** event_id is the primary key. */
  predicate UniqueIds(t: seq<EventRecord>)
  {
    forall i, j :: 0 <= i < j < |t| ==> t[i].eventId != t[j].eventId
  }

  /** The columns markEventProcessed never writes. */
  predicate SameEvent(a: EventRecord, b: EventRecord)
  {
    a.eventId == b.eventId && a.eventType == b.eventType && a.subject == b.subject &&
    a.data == b.data && a.eventTime == b.eventTime
  }

  /** The row with event_id `id`, if there is one. */
  function Find(t: seq<EventRecord>, id: int): (r: Option<EventRecord>)
    ensures r.Some? ==> r.value in t && r.value.eventId == id
    ensures r.None? ==> forall e :: e in t ==> e.eventId != id
  {
    if t == [] then None
    else if t[0].eventId == id then Some(t[0])
    else Find(t[1..], id)
  }

  /** Under a primary key, looking a row up by its id finds that very row. */
  lemma FindMember(t: seq<EventRecord>, e: EventRecord)
    requires UniqueIds(t) && e in t
    ensures Find(t, e.eventId) == Some(e)
  {
  }

  /** Under a primary key a row occurs at most once. */
  lemma {:induction false} KeyOccursOnce(t: seq<EventRecord>, x: EventRecord)
    requires UniqueIds(t)
    ensures multiset(t)[x] <= 1
  {
    if t != [] {
      assert t == [t[0]] + t[1..];
      assert UniqueIds(t[1..]) by {
        forall i, j | 0 <= i < j < |t[1..]| ensures t[1..][i].eventId != t[1..][j].eventId {
          assert t[1..][i] == t[i + 1] && t[1..][j] == t[j + 1];
        }
      }
      KeyOccursOnce(t[1..], x);
      if t[0] == x {
        forall k | 0 <= k < |t[1..]| ensures t[1..][k] != x {
          assert t[1..][k] == t[k + 1];
        }
        assert x !in t[1..];
      }
    }
  }

  /** A row occurring at two positions occurs at least twice. */
  lemma TwiceCounted(s: seq<EventRecord>, i: nat, j: nat)
    requires i < j < |s| && s[i] == s[j]
    ensures multiset(s)[s[i]] >= 2
  {
    assert s == s[..j] + s[j..];
    assert s[..j][i] == s[i];
    assert s[j..][0] == s[j];
  }

  /** Rows drawn from a keyed table, none more often than in the table,
      have distinct ids. */
  lemma DistinctUnderKey(t: seq<EventRecord>, s: seq<EventRecord>)
    requires UniqueIds(t) && multiset(s) <= multiset(t)
    ensures UniqueIds(s)
  {
    forall i, j | 0 <= i < j < |s| ensures s[i].eventId != s[j].eventId {
      if s[i].eventId == s[j].eventId {
        assert s[i] in multiset(s) && s[j] in multiset(s);
        FindMember(t, s[i]);
        FindMember(t, s[j]);
        TwiceCounted(s, i, j);
        KeyOccursOnce(t, s[i]);
      }
    }
  }

  // ---------------------------------------------------------------------
  // storeEvent: INSERT INTO event_store (event_type, subject, data)

  /** The row the INSERT creates. It supplies only event_type, subject and
      data; the other columns take the table's defaults, which are
      assumptions of this model: event_time is the current clock reading,
      processed is 'N', processing_attempts is 0, process_time and
      error_message are NULL. */
  function NewEvent(id: nat, eventType: string, subject: string, data: string, now: nat): (e: EventRecord)
    ensures e.eventId == id && e.eventType == eventType && e.subject == subject && e.data == data
    ensures e.eventTime == now && e.processed == 'N' && e.attempts == 0
    ensures e.processTime == None && e.errorMessage == None
    ensures forall maxAttempts :: maxAttempts > 0 ==> Eligible(e, maxAttempts)
  {
    EventRecord(id, eventType, subject, data, now, 'N', None, 0, None)
  }

  /** Appending a row under an id above every existing id keeps event_id a
      key, the new id is fresh, and the new row is pending for every
      positive retry cutoff. */
  lemma AppendFresh(t: seq<EventRecord>, id: nat, eventType: string, subject: string, data: string, now: nat)
    requires UniqueIds(t) && forall e :: e in t ==> e.eventId < id
    ensures id !in IdsOf(t)
    ensures UniqueIds(t + [NewEvent(id, eventType, subject, data, now)])
    ensures Find(t + [NewEvent(id, eventType, subject, data, now)], id) == Some(NewEvent(id, eventType, subject, data, now))
    ensures forall maxAttempts :: maxAttempts > 0 ==>
              NewEvent(id, eventType, subject, data, now) in Pending(t + [NewEvent(id, eventType, subject, data, now)], maxAttempts)
  {
    var e := NewEvent(id, eventType, subject, data, now);
    var t' := t + [e];
    assert forall i :: 0 <= i < |t| ==> t'[i] == t[i];
    assert t'[|t|] == e;
    FindMember(t', e);
  }

  // ---------------------------------------------------------------------
  // markEventProcessed:
  //   UPDATE event_store SET processed = ?, process_time = CURRENT_TIMESTAMP,
  //     processing_attempts = processing_attempts + 1, error_message = ?
  //   WHERE event_id = ?

  /** The SET list applied to one row. Whatever `success` and the row's
      previous state, processed becomes YesNo(success) and error_message
      becomes the argument. */
  function Reported(e: EventRecord, success: bool, errorMessage: Option<string>, now: nat): (r: EventRecord)
    ensures SameEvent(r, e)
    ensures r.attempts == e.attempts + 1
    ensures r.processed == 'Y' <==> success
    ensures r.processTime == Some(now) && r.errorMessage == errorMessage
  {
    e.(processed := YesNo(success), processTime := Some(now),
       attempts := e.attempts + 1, errorMessage := errorMessage)
  }

  /** The UPDATE: every row whose id matches gets the SET list, every other
      row is kept. What it leaves alone is stated here; the lemmas below say
      what it does to the matched row. */
  function MarkProcessed(t: seq<EventRecord>, id: int, success: bool, errorMessage: Option<string>, now: nat): (r: seq<EventRecord>)
    ensures |r| == |t|
    ensures forall i :: 0 <= i < |t| ==> SameEvent(r[i], t[i]) && r[i].attempts >= t[i].attempts
    ensures UniqueIds(t) ==> UniqueIds(r)
    ensures IdsOf(r) == IdsOf(t)
  {
    var r := seq(|t|, i requires 0 <= i < |t| =>
                if t[i].eventId == id then Reported(t[i], success, errorMessage, now) else t[i]);
    SameIds(t, r);
    r
  }

  /** Two tables with the same ids position by position have the same ids. */
  lemma SameIds(t: seq<EventRecord>, r: seq<EventRecord>)
    requires |r| == |t| && forall i :: 0 <= i < |t| ==> r[i].eventId == t[i].eventId
    ensures IdsOf(r) == IdsOf(t)
  {
    forall x | x in IdsOf(r) ensures x in IdsOf(t) {
      var e :| e in r && e.eventId == x;
      var i :| 0 <= i < |r| && r[i] == e;
      assert t[i] in t;
    }
    forall x | x in IdsOf(t) ensures x in IdsOf(r) {
      var e :| e in t && e.eventId == x;
      var i :| 0 <= i < |t| && t[i] == e;
      assert r[i] in r;
    }
  }

  /** On an existing id: the attempts counter goes up by exactly one, the
      flag becomes YesNo(success) (so a failed report re-opens a processed
      row), process_time is the clock reading, error_message is the
      argument (also when success is true), and nothing else of the row
      changes. */
  lemma MarkUpdatesRecord(t: seq<EventRecord>, id: int, success: bool, errorMessage: Option<string>, now: nat)
    requires UniqueIds(t) && Find(t, id).Some?
    ensures var r := MarkProcessed(t, id, success, errorMessage, now);
            var e := Find(t, id).value;
            Find(r, id).Some? &&
            var e' := Find(r, id).value;
            SameEvent(e', e) &&
            e'.attempts == e.attempts + 1 &&
            e'.processed == YesNo(success) &&
            e'.processTime == Some(now) &&
            e'.errorMessage == errorMessage
  {
    var r := MarkProcessed(t, id, success, errorMessage, now);
    var e := Find(t, id).value;
    var k :| 0 <= k < |t| && t[k] == e;
    assert r[k] == Reported(e, success, errorMessage, now);
    FindMember(r, r[k]);
  }

  /** Every other row keeps its state, looked up by its id. */
  lemma MarkKeepsOthers(t: seq<EventRecord>, id: int, success: bool, errorMessage: Option<string>, now: nat, other: int)
    requires UniqueIds(t) && other != id
    ensures Find(MarkProcessed(t, id, success, errorMessage, now), other) == Find(t, other)
  {
    var r := MarkProcessed(t, id, success, errorMessage, now);
    match Find(t, other)
    case Some(e) =>
      var k :| 0 <= k < |t| && t[k] == e;
      assert r[k] == e;
      FindMember(r, r[k]);
    case None =>
  }

  /** An id that matches no row updates nothing (and raises nothing: the
      updated-row count is ignored). */
  lemma MarkUnknownIdIsNoop(t: seq<EventRecord>, id: int, success: bool, errorMessage: Option<string>, now: nat)
    requires Find(t, id).None?
    ensures MarkProcessed(t, id, success, errorMessage, now) == t
  {
    var r := MarkProcessed(t, id, success, errorMessage, now);
    forall i | 0 <= i < |t| ensures r[i] == t[i] {
      assert t[i] in t;
    }
  }

  /** The table after a run of reports for one id, in order. */
  function ReportAll(t: seq<EventRecord>, id: int, reports: seq<Report>): (r: seq<EventRecord>)
    ensures |r| == |t| && IdsOf(r) == IdsOf(t)
    ensures UniqueIds(t) ==> UniqueIds(r)
    ensures forall i :: 0 <= i < |t| ==> SameEvent(r[i], t[i]) && r[i].attempts >= t[i].attempts
    decreases |reports|
  {
    if reports == [] then t
    else ReportAll(MarkProcessed(t, id, reports[0].success, reports[0].errorMessage, reports[0].time), id, reports[1..])
  }

  /** After N reports the attempts counter has grown by exactly N, whatever
      the mix of successes and failures, and the flag is that of the last
      report (success is not sticky). */
  lemma {:induction false} ReportsCountAttempts(t: seq<EventRecord>, id: int, reports: seq<Report>)
    requires UniqueIds(t) && Find(t, id).Some?
    ensures var r := ReportAll(t, id, reports);
            Find(r, id).Some? &&
            SameEvent(Find(r, id).value, Find(t, id).value) &&
            Find(r, id).value.attempts == Find(t, id).value.attempts + |reports| &&
            (reports != [] ==> Find(r, id).value.processed == YesNo(reports[|reports| - 1].success))
    decreases |reports|
  {
    if reports != [] {
      var rep := reports[0];
      var t1 := MarkProcessed(t, id, rep.success, rep.errorMessage, rep.time);
      MarkUpdatesRecord(t, id, rep.success, rep.errorMessage, rep.time);
      ReportsCountAttempts(t1, id, reports[1..]);
      if |reports| > 1 {
        assert reports[1..][|reports[1..]| - 1] == reports[|reports| - 1];
      }
    }
  }

  // ---------------------------------------------------------------------
  // getUnprocessedEvents:
  //   SELECT ... WHERE processed = 'N' AND processing_attempts < ?
  //   ORDER BY event_time ASC FETCH FIRST ? ROWS ONLY

  /** The WHERE clause of the retry scan. */
  predicate Eligible(e: EventRecord, maxAttempts: int)
    ensures maxAttempts <= 0 ==> !Eligible(e, maxAttempts)
    ensures Eligible(e, maxAttempts) ==> e.processed != 'Y'
  {
    e.processed == 'N' && e.attempts < maxAttempts
  }

  /** The rows that match the WHERE clause, in table order, each as often
      as it occurs in the table. */
  function Pending(t: seq<EventRecord>, maxAttempts: int): (r: seq<EventRecord>)
    ensures forall x :: multiset(r)[x] == if Eligible(x, maxAttempts) then multiset(t)[x] else 0
    ensures forall x :: x in r <==> x in t && Eligible(x, maxAttempts)
  {
    if t == [] then []
    else
      assert t == [t[0]] + t[1..];
      (if Eligible(t[0], maxAttempts) then [t[0]] else []) + Pending(t[1..], maxAttempts)
  }

  predicate SortedByTime(s: seq<EventRecord>)
  {
    forall i, j :: 0 <= i < j < |s| ==> s[i].eventTime <= s[j].eventTime
  }

  lemma SortedTail(s: seq<EventRecord>)
    requires SortedByTime(s) && s != []
    ensures SortedByTime(s[1..])
  {
    forall i, j | 0 <= i < j < |s[1..]| ensures s[1..][i].eventTime <= s[1..][j].eventTime {
      assert s[1..][i] == s[i + 1] && s[1..][j] == s[j + 1];
    }
  }

  lemma SortedCons(x: EventRecord, s: seq<EventRecord>)
    requires SortedByTime(s) && (s != [] ==> x.eventTime <= s[0].eventTime)
    ensures SortedByTime([x] + s)
  {
    var r := [x] + s;
    forall i, j | 0 <= i < j < |r| ensures r[i].eventTime <= r[j].eventTime {
      if i == 0 && j > 1 {
        assert s[0].eventTime <= s[j - 1].eventTime;
      }
    }
  }

  /** Inserts `e` before the first row that is strictly younger. */
  function InsertByTime(e: EventRecord, s: seq<EventRecord>): (r: seq<EventRecord>)
    requires SortedByTime(s)
    ensures SortedByTime(r)
    ensures multiset(r) == multiset(s) + multiset{e}
    ensures r[0] == e || (s != [] && r[0] == s[0])
  {
    if s == [] then [e]
    else if e.eventTime <= s[0].eventTime then
      SortedCons(e, s);
      [e] + s
    else
      SortedTail(s);
      var rest := InsertByTime(e, s[1..]);
      assert rest[0] == e || rest[0] == s[1];
      SortedCons(s[0], rest);
      assert s == [s[0]] + s[1..];
      [s[0]] + rest
  }

  /** ORDER BY event_time ASC, as a stable insertion sort: rows with equal
      event_time keep their table order (SQL leaves that order open). */
  function SortByTime(s: seq<EventRecord>): (r: seq<EventRecord>)
    ensures SortedByTime(r)
    ensures multiset(r) == multiset(s)
  {
    if s == [] then []
    else
      assert s == [s[0]] + s[1..];
      InsertByTime(s[0], SortByTime(s[1..]))
  }

  /** FETCH FIRST n ROWS ONLY on `available` rows (a count below zero is
      taken as zero). */
  function FetchCount(limit: int, available: nat): (n: nat)
    ensures n <= available
    ensures limit <= 0 ==> n == 0
    ensures limit >= available ==> n == available
    ensures 0 <= limit <= available ==> n == limit
  {
    if limit <= 0 then 0 else if limit < available then limit else available
  }

  /** In a list sorted by age, every row of a prefix is at least as old as
      every row outside the prefix. */
  lemma PrefixIsOldest(s: seq<EventRecord>, n: nat)
    requires SortedByTime(s) && n <= |s|
    ensures forall x, y :: x in s[..n] && y in s && y !in s[..n] ==> x.eventTime <= y.eventTime
  {
    forall x, y | x in s[..n] && y in s && y !in s[..n] ensures x.eventTime <= y.eventTime {
      var i :| 0 <= i < n && s[..n][i] == x;
      var j :| 0 <= j < |s| && s[j] == y;
    }
  }

  /** A prefix holds no row more often than the whole list. */
  lemma PrefixDrawn(s: seq<EventRecord>, n: nat)
    requires n <= |s|
    ensures multiset(s[..n]) <= multiset(s)
  {
    assert s == s[..n] + s[n..];
  }

  /** Sorting the matching rows keeps exactly the matching rows. */
  lemma SortedPending(t: seq<EventRecord>, maxAttempts: int)
    ensures |SortByTime(Pending(t, maxAttempts))| == |Pending(t, maxAttempts)|
    ensures forall x :: x in SortByTime(Pending(t, maxAttempts)) <==> x in t && Eligible(x, maxAttempts)
  {
    var p := Pending(t, maxAttempts);
    var s := SortByTime(p);
    assert |multiset(s)| == |multiset(p)|;
    forall x ensures x in s <==> x in p {
      assert x in s <==> x in multiset(s);
      assert x in p <==> x in multiset(p);
    }
  }

  /** The retry scan: only unprocessed rows below the attempt cutoff, oldest
      first, at most `limit` of them, and no matching row left out is older
      than one returned. */
  function Scan(t: seq<EventRecord>, maxAttempts: int, limit: int): (r: seq<EventRecord>)
    ensures forall x :: x in r ==> x in t && Eligible(x, maxAttempts)
    ensures multiset(r) <= multiset(Pending(t, maxAttempts))
    ensures SortedByTime(r)
    ensures |r| == FetchCount(limit, |Pending(t, maxAttempts)|)
    ensures forall x, y :: x in r && y in t && Eligible(y, maxAttempts) && y !in r ==> x.eventTime <= y.eventTime
  {
    var s := SortByTime(Pending(t, maxAttempts));
    SortedPending(t, maxAttempts);
    var n := FetchCount(limit, |s|);
    PrefixIsOldest(s, n);
    assert forall x :: x in s[..n] ==> x in s;
    PrefixDrawn(s, n);
    s[..n]
  }

  /** Under a primary key the scan returns no row twice. */
  lemma ScanDistinct(t: seq<EventRecord>, maxAttempts: int, limit: int)
    requires UniqueIds(t)
    ensures UniqueIds(Scan(t, maxAttempts, limit))
  {
    var p := Pending(t, maxAttempts);
    assert multiset(p) <= multiset(t) by {
      forall x ensures multiset(p)[x] <= multiset(t)[x] {
      }
    }
    DistinctUnderKey(t, Scan(t, maxAttempts, limit));
  }

  /** When the limit leaves room for every matching row, every matching
      row is returned. */
  lemma ScanReturnsAllWhenRoom(t: seq<EventRecord>, maxAttempts: int, limit: int)
    requires limit >= |Pending(t, maxAttempts)|
    ensures forall y :: y in t && Eligible(y, maxAttempts) ==> y in Scan(t, maxAttempts, limit)
  {
    var s := SortByTime(Pending(t, maxAttempts));
    SortedPending(t, maxAttempts);
    assert Scan(t, maxAttempts, limit) == s[..|s|] == s;
  }

  /** A processed row is never returned, for any cutoff and limit. */
  lemma ProcessedIsHidden(t: seq<EventRecord>, e: EventRecord, maxAttempts: int, limit: int)
    requires e.processed == 'Y'
    ensures e !in Scan(t, maxAttempts, limit)
  {
  }

  /** Poison-message cutoff: an unprocessed row that has used up its
      attempts under `maxAttempts` is not returned, but it is matched again
      under any larger cutoff, and returned when the limit leaves room. */
  lemma RaisingCutoffUncoversExhausted(t: seq<EventRecord>, e: EventRecord, maxAttempts: int, maxAttempts2: int, limit: int)
    requires e in t && e.processed == 'N'
    requires maxAttempts <= e.attempts < maxAttempts2
    ensures e !in Scan(t, maxAttempts, limit)
    ensures e in Pending(t, maxAttempts2)
    ensures limit >= |Pending(t, maxAttempts2)| ==> e in Scan(t, maxAttempts2, limit)
  {
    if limit >= |Pending(t, maxAttempts2)| {
      ScanReturnsAllWhenRoom(t, maxAttempts2, limit);
    }
  }

  /** A failed report on a row that had been processed makes it unprocessed
      again; it is matched again while its attempts stay below the cutoff. */
  lemma FailedReportReopens(t: seq<EventRecord>, id: int, errorMessage: Option<string>, now: nat, maxAttempts: int)
    requires UniqueIds(t) && Find(t, id).Some? && Find(t, id).value.processed == 'Y'
    ensures var r := MarkProcessed(t, id, false, errorMessage, now);
            Find(r, id).Some? && Find(r, id).value.processed == 'N' &&
            (Find(t, id).value.attempts + 1 < maxAttempts ==> Find(r, id).value in Pending(r, maxAttempts))
  {
    MarkUpdatesRecord(t, id, false, errorMessage, now);
  }

  /** A successful report takes the row out of every scan. */
  lemma SuccessfulReportHides(t: seq<EventRecord>, id: int, errorMessage: Option<string>, now: nat, maxAttempts: int, limit: int)
    requires UniqueIds(t) && Find(t, id).Some?
    ensures var r := MarkProcessed(t, id, true, errorMessage, now);
            Find(r, id).Some? && Find(r, id).value !in Scan(r, maxAttempts, limit)
  {
    MarkUpdatesRecord(t, id, true, errorMessage, now);
  }

  // ---------------------------------------------------------------------
  // The columns of the scanned rows, looked up again by id

  function ColumnsOf(s: seq<EventRecord>): (r: seq<PendingEvent>)
    ensures |r| == |s|
    ensures forall i :: 0 <= i < |s| ==> r[i] == Columns(s[i])
  {
    seq(|s|, i requires 0 <= i < |s| => Columns(s[i]))
  }

  /** The ids among the rows a scan returned. */
  function ReturnedIds(r: seq<PendingEvent>): set<nat>
  {
    set p | p in r :: p.eventId
  }

  /** event_time of the row with id `id` (0 if there is none). */
  function EventTime(t: seq<EventRecord>, id: int): nat
  {
    match Find(t, id)
    case Some(e) => e.eventTime
    case None => 0
  }

  /** Under a primary key, every returned id denotes the scanned row. */
  lemma ScanRowsFound(t: seq<EventRecord>, s: seq<EventRecord>)
    requires UniqueIds(t) && forall x :: x in s ==> x in t
    ensures forall i :: 0 <= i < |s| ==> ColumnsOf(s)[i].eventId == s[i].eventId
    ensures forall i :: 0 <= i < |s| ==> Find(t, s[i].eventId) == Some(s[i])
    ensures forall i :: 0 <= i < |s| ==> EventTime(t, s[i].eventId) == s[i].eventTime
  {
    forall i | 0 <= i < |s| ensures Find(t, s[i].eventId) == Some(s[i]) {
      assert s[i] in s;
      FindMember(t, s[i]);
    }
  }

  /** A row whose id is not among the returned ids was not returned. */
  lemma NotReturned(s: seq<EventRecord>, e: EventRecord)
    requires e.eventId !in ReturnedIds(ColumnsOf(s))
    ensures e !in s
  {
    forall i | 0 <= i < |s| ensures s[i].eventId in ReturnedIds(ColumnsOf(s)) {
      assert ColumnsOf(s)[i] in ColumnsOf(s);
    }
  }

  /** What getUnprocessedEvents promises of its rows `r`, each identified
      with the table row of its event_id: min(limit, number of matching
      rows) rows; each carries the columns of an unprocessed row below the
      cutoff; no event twice; oldest first; and no matching row left out is
      older than a returned one. */
  predicate IsRetryBatch(t: seq<EventRecord>, maxAttempts: int, limit: int, r: seq<PendingEvent>)
  {
    && |r| == FetchCount(limit, |Pending(t, maxAttempts)|)
    && (forall i :: 0 <= i < |r| ==>
          Find(t, r[i].eventId).Some? &&
          Eligible(Find(t, r[i].eventId).value, maxAttempts) &&
          Columns(Find(t, r[i].eventId).value) == r[i])
    && (forall i, j :: 0 <= i < j < |r| ==> r[i].eventId != r[j].eventId)
    && (forall i, j :: 0 <= i < j < |r| ==> EventTime(t, r[i].eventId) <= EventTime(t, r[j].eventId))
    && (forall e, i :: e in t && Eligible(e, maxAttempts) && e.eventId !in ReturnedIds(r) && 0 <= i < |r| ==>
          EventTime(t, r[i].eventId) <= e.eventTime)
  }

  /** On a table of one row, a retry batch with room for a row is that
      row's columns when the row matches, and empty otherwise. */
  lemma OnlyRowBatch(e: EventRecord, maxAttempts: int, limit: int, r: seq<PendingEvent>)
    requires limit > 0 && IsRetryBatch([e], maxAttempts, limit, r)
    ensures r == if Eligible(e, maxAttempts) then [Columns(e)] else []
  {
    assert [e] == [e] + [];
    if Eligible(e, maxAttempts) {
      assert Pending([e], maxAttempts) == [e];
      assert |r| == 1;
      assert Find([e], r[0].eventId).value == e;
    } else {
      assert Pending([e], maxAttempts) == [];
    }
  }

  /** Rows of a keyed table, looked up again by their selected ids. */
  lemma BatchRowsFound(t: seq<EventRecord>, s: seq<EventRecord>, maxAttempts: int)
    requires UniqueIds(t) && forall x :: x in s ==> x in t && Eligible(x, maxAttempts)
    ensures forall i :: 0 <= i < |s| ==>
              Find(t, ColumnsOf(s)[i].eventId).Some? &&
              Eligible(Find(t, ColumnsOf(s)[i].eventId).value, maxAttempts) &&
              Columns(Find(t, ColumnsOf(s)[i].eventId).value) == ColumnsOf(s)[i]
  {
    ScanRowsFound(t, s);
    forall i | 0 <= i < |s|
      ensures Find(t, ColumnsOf(s)[i].eventId) == Some(s[i]) && Eligible(s[i], maxAttempts)
    {
      assert s[i] in s;
    }
  }

  /** Distinct rows keep distinct selected ids. */
  lemma BatchDistinct(s: seq<EventRecord>)
    requires UniqueIds(s)
    ensures forall i, j :: 0 <= i < j < |s| ==> ColumnsOf(s)[i].eventId != ColumnsOf(s)[j].eventId
  {
  }

  /** Rows sorted by event_time keep that order when looked up by id. */
  lemma BatchOrdered(t: seq<EventRecord>, s: seq<EventRecord>)
    requires UniqueIds(t) && (forall x :: x in s ==> x in t) && SortedByTime(s)
    ensures forall i, j :: 0 <= i < j < |s| ==>
              EventTime(t, ColumnsOf(s)[i].eventId) <= EventTime(t, ColumnsOf(s)[j].eventId)
  {
    ScanRowsFound(t, s);
  }

  /** No matching row left out of the scan is older than a selected one. */
  lemma BatchOldest(t: seq<EventRecord>, maxAttempts: int, limit: int)
    requires UniqueIds(t)
    ensures var r := ColumnsOf(Scan(t, maxAttempts, limit));
            forall e, i :: e in t && Eligible(e, maxAttempts) && e.eventId !in ReturnedIds(r) && 0 <= i < |r| ==>
              EventTime(t, r[i].eventId) <= e.eventTime
  {
    var s := Scan(t, maxAttempts, limit);
    var r := ColumnsOf(s);
    ScanRowsFound(t, s);
    forall e, i | e in t && Eligible(e, maxAttempts) && e.eventId !in ReturnedIds(r) && 0 <= i < |r|
      ensures EventTime(t, r[i].eventId) <= e.eventTime
    {
      NotReturned(s, e);
      assert s[i] in s;
    }
  }

  /** The properties of the scan, restated for the selected columns. */
  lemma ScanColumns(t: seq<EventRecord>, maxAttempts: int, limit: int)
    requires UniqueIds(t)
    ensures IsRetryBatch(t, maxAttempts, limit, ColumnsOf(Scan(t, maxAttempts, limit)))
  {
    var s := Scan(t, maxAttempts, limit);
    BatchRowsFound(t, s, maxAttempts);
    ScanDistinct(t, maxAttempts, limit);
    BatchDistinct(s);
    BatchOrdered(t, s);
    BatchOldest(t, maxAttempts, limit);
  }
}
