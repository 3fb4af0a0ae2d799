/**
 The subscription registry of run.py: the scheduler's jobs keyed by id,
 the `user_services` table as a set of rows, the register_* / stop_*
 handlers that change both, and schedule_services, which rebuilds the jobs
 from the table at start-up.

 The handlers change the scheduler FIRST and only then call the store,
 whose failures are printed and swallowed (or, when the connection cannot
 even be opened, escape the handler after the scheduler has changed). The
 store outcome is therefore a parameter, and the two can drift apart.
 */
module Registry {
  import opened Wrappers
  import opened Runtime
  import opened Jobs

  /** One row of `user_services`. */
  datatype Row = Row(serviceType: string, chatId: int)

  /** The row register_service writes for a chat's service. */
  function RowFor(k: ServiceKind, chat: int): Row {
    Row(KindName(k), chat)
  }

  /** The scheduler's jobs by id, and the rows of the store. */
  datatype State = State(jobs: map<string, Job>, store: set<Row>)

  /**
   How a store call ends: committed; failed inside the `try` (the error is
   printed and swallowed); or failed to connect, after which the `finally`
   block reads an unbound `connection` and an UnboundLocalError escapes.
   */
  datatype StoreOutcome = Committed | QueryFailed | ConnectFailed

  datatype StoreOp = Insert(row: Row) | Delete(row: Row)

  /** Every row other than `row` is in both stores or in neither. */
  ghost predicate OtherRowsUnchanged(before: set<Row>, after: set<Row>, row: Row) {
    forall r :: r != row ==> (r in before <==> r in after)
  }

  /**
   The store after a call with the given outcome: no other row is touched,
   and the call's row is present afterwards when a committed insert wrote
   it, or when it was there and no committed delete removed it.
   */
  function ApplyStore(store: set<Row>, op: StoreOp, outcome: StoreOutcome): (s: set<Row>)
    ensures OtherRowsUnchanged(store, s, op.row)
    ensures op.row in s <==> (op.Insert? && outcome == Committed) || (op.row in store && !(op.Delete? && outcome == Committed))
  {
    if outcome != Committed then store
    else match op
      case Insert(row) => store + {row}
      case Delete(row) => store - {row}
  }

  /** The text the handler edits the menu message into. */
  datatype Reply = Registered(kind: ServiceKind) | AlreadyRegistered | Stopped(kind: ServiceKind)

  function ReplyText(r: Reply): string {
    match r
    case AlreadyRegistered => "Serviço já registrado."
    case Registered(Jaculatoria) =>
      ":white_check_mark: Serviço de envio de jaculatórias registrado, serão enviadas automaticamente 3 vezes ao dia."
    case Registered(Santo) =>
      ":white_check_mark: Serviço de envio de Santo do Dia registrado, será enviado automaticamente 1 vez ao dia."
    case Registered(Meditacao) =>
      ":white_check_mark: Serviço de envio de Meditação Diária registrado, será enviada automaticamente 1 vez ao dia."
    case Registered(AngelusReginaCaeli) =>
      ":white_check_mark: Serviço de envio de Angelus/Regina Caeli registrado, será enviado automaticamente todo dia às 12h."
    case Stopped(Jaculatoria) => ":x: Serviço de envio de jaculatórias interrompido."
    case Stopped(Santo) => ":x: Serviço de envio do Santo do Dia interrompido."
    case Stopped(Meditacao) => ":x: Serviço de envio de Meditação Diária interrompido."
    case Stopped(AngelusReginaCaeli) => ":x: Serviço de envio do Angelus/Regina Caeli interrompido."
  }

  /**
   What one handler call did: the new state, the reply it gave (if any), the
   store call it made (if any), and whether an exception escaped it.
   */
  datatype Step = Step(state: State, reply: Option<Reply>, storeOp: Option<StoreOp>, raised: bool)

  /** Every job other than `id` is present in both maps, with the same contents, or in neither. */
  ghost predicate OthersUnchanged(before: map<string, Job>, after: map<string, Job>, id: string) {
    forall other :: other != id ==>
      (other in before <==> other in after) && (other in before ==> before[other] == after[other])
  }


  /** register_aspiration / register_saint / register_meditation / register_angelus_regina_caeli. */
  function Register(s: State, k: ServiceKind, chat: int, db: StoreOutcome): (r: Step)
    // a new subscription: exactly one job added under its id, with the service's schedule
    ensures JobId(k, chat) !in s.jobs ==>
      && JobId(k, chat) in r.state.jobs
      && r.state.jobs[JobId(k, chat)] == ServiceJob(k, chat)
      && |r.state.jobs| == |s.jobs| + 1
      && r.reply == Some(Registered(k))
      && r.storeOp == Some(Insert(RowFor(k, chat)))
    // the job is added whatever the store does; the row only when the insert commits
    ensures JobId(k, chat) !in s.jobs ==>
      (RowFor(k, chat) in r.state.store <==> RowFor(k, chat) in s.store || db == Committed)
    ensures r.raised <==> JobId(k, chat) !in s.jobs && db == ConnectFailed
    // an existing subscription: nothing changes, no store call, "already registered"
    ensures JobId(k, chat) in s.jobs ==>
      r.state == s && r.reply == Some(AlreadyRegistered) && r.storeOp == None
    ensures OthersUnchanged(s.jobs, r.state.jobs, JobId(k, chat))
    ensures OtherRowsUnchanged(s.store, r.state.store, RowFor(k, chat))
  {
    var id := JobId(k, chat);
    if id !in s.jobs then
      var op := Insert(RowFor(k, chat));
      Step(State(s.jobs[id := ServiceJob(k, chat)], ApplyStore(s.store, op, db)),
           Some(Registered(k)), Some(op), db == ConnectFailed)
    else
      Step(s, Some(AlreadyRegistered), None, false)
  }

  /** stop_aspiration / stop_saint / stop_meditation / stop_angelus_regina_caeli. */
  function Stop(s: State, k: ServiceKind, chat: int, db: StoreOutcome): (r: Step)
    ensures JobId(k, chat) !in r.state.jobs
    // an existing subscription: exactly that job removed, whatever the store does
    ensures JobId(k, chat) in s.jobs ==>
      && |r.state.jobs| == |s.jobs| - 1
      && r.reply == Some(Stopped(k))
      && r.storeOp == Some(Delete(RowFor(k, chat)))
      && (RowFor(k, chat) in r.state.store <==> RowFor(k, chat) in s.store && db != Committed)
    ensures r.raised <==> JobId(k, chat) in s.jobs && db == ConnectFailed
    // no subscription: no change, no reply, no store call
    ensures JobId(k, chat) !in s.jobs ==> r.state == s && r.reply == None && r.storeOp == None
    ensures OthersUnchanged(s.jobs, r.state.jobs, JobId(k, chat))
    ensures OtherRowsUnchanged(s.store, r.state.store, RowFor(k, chat))
  {
    var id := JobId(k, chat);
    if id in s.jobs then
      var op := Delete(RowFor(k, chat));
      Step(State(s.jobs - {id}, ApplyStore(s.store, op, db)),
           Some(Stopped(k)), Some(op), db == ConnectFailed)
    else
      Step(s, None, None, false)
  }

  /** Registering a second time changes nothing and reports "already registered". */
  lemma RegisterIdempotent(s: State, k: ServiceKind, chat: int, db1: StoreOutcome, db2: StoreOutcome)
    ensures var once := Register(s, k, chat, db1);
            var twice := Register(once.state, k, chat, db2);
            twice.state == once.state && twice.reply == Some(AlreadyRegistered)
            && twice.storeOp == None && !twice.raised
  {
  }

  /** Stopping a second time changes nothing, replies nothing and calls no store. */
  lemma StopIdempotent(s: State, k: ServiceKind, chat: int, db1: StoreOutcome, db2: StoreOutcome)
    ensures var once := Stop(s, k, chat, db1);
            var twice := Stop(once.state, k, chat, db2);
            twice.state == once.state && twice.reply == None && twice.storeOp == None && !twice.raised
  {
  }

  /** The store's outcome never rolls back or alters the scheduler change, nor the reply. */
  lemma StoreOutcomeDoesNotAffectJobs(s: State, k: ServiceKind, chat: int, db1: StoreOutcome, db2: StoreOutcome)
    ensures Register(s, k, chat, db1).state.jobs == Register(s, k, chat, db2).state.jobs
    ensures Register(s, k, chat, db1).reply == Register(s, k, chat, db2).reply
    ensures Stop(s, k, chat, db1).state.jobs == Stop(s, k, chat, db2).state.jobs
    ensures Stop(s, k, chat, db1).reply == Stop(s, k, chat, db2).reply
  {
  }

  /** The row's `service_type` is one schedule_services knows. */
  predicate Known(row: Row) {
    KindOf(row.serviceType).Some?
  }

  /** The id schedule_services gives the job of a known row. */
  function RowId(row: Row): string
    requires Known(row)
  {
    JobId(KindOf(row.serviceType).value, row.chatId)
  }

  /** The job schedule_services creates for a known row. */
  function RowJob(row: Row): Job
    requires Known(row)
  {
    ServiceJob(KindOf(row.serviceType).value, row.chatId)
  }

  /** The row registration stores is known, and restores the id and job registration used. */
  lemma RowForRoundTrip(k: ServiceKind, chat: int)
    ensures Known(RowFor(k, chat))
    ensures RowId(RowFor(k, chat)) == JobId(k, chat)
    ensures RowJob(RowFor(k, chat)) == ServiceJob(k, chat)
  {
    match k
    case Jaculatoria =>
    case Santo =>
    case Meditacao =>
    case AngelusReginaCaeli =>
  }

  /** Distinct known rows get distinct job ids. */
  lemma RowIdInjective(r1: Row, r2: Row)
    requires Known(r1) && Known(r2) && RowId(r1) == RowId(r2)
    ensures r1 == r2
  {
    var k1, k2 := KindOf(r1.serviceType).value, KindOf(r2.serviceType).value;
    JobIdInjective(k1, r1.chatId, k2, r2.chatId);
  }

  /**
   The scheduler and the store agree: every subscription job sits under its
   own id with its service's schedule and has a row, and every row names a
   known service whose job is scheduled.
   */
  ghost predicate Consistent(s: State) {
    && (forall id :: id in s.jobs && s.jobs[id].action.SendService? ==>
          var a := s.jobs[id].action;
          id == JobId(a.kind, a.chat) && s.jobs[id] == ServiceJob(a.kind, a.chat)
          && RowFor(a.kind, a.chat) in s.store)
    && (forall row :: row in s.store ==>
          Known(row) && RowId(row) in s.jobs && s.jobs[RowId(row)] == RowJob(row))
  }

  /** With a committed insert, registering keeps scheduler and store in agreement. */
  lemma RegisterKeepsConsistent(s: State, k: ServiceKind, chat: int)
    requires Consistent(s)
    ensures Consistent(Register(s, k, chat, Committed).state)
  {
    var t := Register(s, k, chat, Committed).state;
    RowForRoundTrip(k, chat);
    if JobId(k, chat) !in s.jobs {
      forall row | row in t.store
        ensures Known(row) && RowId(row) in t.jobs && t.jobs[RowId(row)] == RowJob(row)
      {
        if row != RowFor(k, chat) {
          assert row in s.store;
        }
      }
    }
  }

  /** With a committed delete, stopping keeps scheduler and store in agreement. */
  lemma StopKeepsConsistent(s: State, k: ServiceKind, chat: int)
    requires Consistent(s)
    ensures Consistent(Stop(s, k, chat, Committed).state)
  {
    var t := Stop(s, k, chat, Committed).state;
    var id := JobId(k, chat);
    RowForRoundTrip(k, chat);
    if id in s.jobs {
      forall other | other in t.jobs && t.jobs[other].action.SendService?
        ensures var a := t.jobs[other].action; RowFor(a.kind, a.chat) in t.store
      {
        var a := t.jobs[other].action;
        JobIdInjective(a.kind, a.chat, k, chat);
        assert KindOf(KindName(a.kind)) == Some(a.kind) by { RowForRoundTrip(a.kind, a.chat); }
      }
      forall row | row in t.store
        ensures Known(row) && RowId(row) in t.jobs && t.jobs[RowId(row)] == RowJob(row)
      {
        assert row in s.store;
        if RowId(row) == id {
          RowIdInjective(row, RowFor(k, chat));
        }
      }
    }
  }

  /** A failed insert leaves a scheduled job the store does not know about. */
  lemma FailedInsertDiverges(s: State, k: ServiceKind, chat: int, db: StoreOutcome)
    requires Consistent(s) && JobId(k, chat) !in s.jobs && db != Committed
    ensures !Consistent(Register(s, k, chat, db).state)
  {
    var t := Register(s, k, chat, db).state;
    RowForRoundTrip(k, chat);
    assert RowFor(k, chat) !in s.store;
    assert t.jobs[JobId(k, chat)].action == SendService(k, chat);
  }

  /** A failed delete leaves a stored row whose job is gone. */
  lemma FailedDeleteDiverges(s: State, k: ServiceKind, chat: int, db: StoreOutcome)
    requires Consistent(s) && RowFor(k, chat) in s.store && db != Committed
    ensures !Consistent(Stop(s, k, chat, db).state)
  {
    var t := Stop(s, k, chat, db).state;
    RowForRoundTrip(k, chat);
    assert JobId(k, chat) in s.jobs;
    assert RowFor(k, chat) in t.store;
  }

  /** Stopping right after a fresh, committed registration restores the state before it. */
  lemma StopUndoesRegister(s: State, k: ServiceKind, chat: int)
    requires JobId(k, chat) !in s.jobs && RowFor(k, chat) !in s.store
    ensures Stop(Register(s, k, chat, Committed).state, k, chat, Committed).state == s
  {
    var t := Stop(Register(s, k, chat, Committed).state, k, chat, Committed).state;
    assert t.jobs == s.jobs;
    assert t.store == s.store;
  }

  /** Registering right after a committed stop of a stored, consistent subscription restores it. */
  lemma RegisterUndoesStop(s: State, k: ServiceKind, chat: int)
    requires Consistent(s) && RowFor(k, chat) in s.store
    ensures Register(Stop(s, k, chat, Committed).state, k, chat, Committed).state == s
  {
    var t := Register(Stop(s, k, chat, Committed).state, k, chat, Committed).state;
    RowForRoundTrip(k, chat);
    assert t.jobs == s.jobs;
    assert t.store == s.store;
  }

  /**
   load_services: it raises exactly when the connection cannot be opened,
   never returns a row the table does not hold, returns the whole listing
   when the query commits, and loses every row when the query fails.
   */
  function LoadServices(listing: seq<Row>, db: StoreOutcome): (r: Result<seq<Row>, Exception>)
    ensures r.Err? <==> db == ConnectFailed
    ensures r.Err? ==> r.error == UnboundLocalError
    ensures r.Ok? ==> forall row :: row in r.value ==> row in listing
    ensures db == Committed ==> r.Ok? && r.value == listing
    ensures db == QueryFailed ==> r.Ok? && |r.value| == 0
  {
    match db
    case Committed => Ok(listing)
    case QueryFailed => Ok([])
    case ConnectFailed => Err(UnboundLocalError)
  }

  /**
   The loop of schedule_services: each known row adds its service's job;
   unknown `service_type`s are skipped; an id already in use raises.
   */
  function ScheduleRows(rows: seq<Row>, jobs: map<string, Job>): Result<map<string, Job>, Exception>
    decreases |rows|
  {
    if rows == [] then Ok(jobs)
    else if !Known(rows[0]) then ScheduleRows(rows[1..], jobs)
    else if RowId(rows[0]) in jobs then Err(ConflictingIdError)
    else ScheduleRows(rows[1..], jobs[RowId(rows[0]) := RowJob(rows[0])])
  }

  /** schedule_services. */
  function ScheduleServices(listing: seq<Row>, db: StoreOutcome, jobs: map<string, Job>): Result<map<string, Job>, Exception> {
    match LoadServices(listing, db)
    case Err(e) => Err(e)
    case Ok(rows) => ScheduleRows(rows, jobs)
  }

  /** The ids schedule_services creates for the known rows of a listing. */
  ghost function RowIds(rows: seq<Row>): set<string> {
    set row | row in rows && Known(row) :: RowId(row)
  }

  ghost predicate Distinct(rows: seq<Row>) {
    forall i, j :: 0 <= i < j < |rows| ==> rows[i] != rows[j]
  }

  /** Without clashes, scheduling a listing keeps every job and adds exactly the known rows' jobs. */
  lemma {:induction false} ScheduleRowsAdds(rows: seq<Row>, jobs: map<string, Job>)
    requires Distinct(rows)
    requires forall row :: row in rows && Known(row) ==> RowId(row) !in jobs
    ensures ScheduleRows(rows, jobs).Ok?
    ensures ScheduleRows(rows, jobs).value.Keys == jobs.Keys + RowIds(rows)
    ensures forall id :: id in jobs ==> ScheduleRows(rows, jobs).value[id] == jobs[id]
    ensures forall row :: row in rows && Known(row) ==>
      ScheduleRows(rows, jobs).value[RowId(row)] == RowJob(row)
    decreases |rows|
  {
    if rows != [] {
      var rest := rows[1..];
      assert Distinct(rest) by {
        forall i, j | 0 <= i < j < |rest| ensures rest[i] != rest[j] {
          assert rest[i] == rows[i + 1] && rest[j] == rows[j + 1];
        }
      }
      assert forall row :: row in rows <==> row == rows[0] || row in rest;
      if !Known(rows[0]) {
        ScheduleRowsAdds(rest, jobs);
        assert RowIds(rows) == RowIds(rest);
      } else {
        var id := RowId(rows[0]);
        var jobs' := jobs[id := RowJob(rows[0])];
        forall row | row in rest && Known(row)
          ensures RowId(row) !in jobs'
        {
          var i :| 0 <= i < |rest| && rest[i] == row;
          assert rows[i + 1] == row;
          if RowId(row) == id {
            RowIdInjective(row, rows[0]);
          }
        }
        ScheduleRowsAdds(rest, jobs');
        assert RowIds(rows) == {id} + RowIds(rest);
      }
    }
  }

  /** The subscription jobs of a scheduler, leaving out the daily data-refresh jobs. */
  ghost function ServiceJobs(jobs: map<string, Job>): map<string, Job> {
    map id | id in jobs && jobs[id].action.SendService? :: jobs[id]
  }

  /** Every subscription job a rebuild produces was scheduled, identically, before the restart. */
  lemma RebuiltJobsWereScheduled(s: State, listing: seq<Row>, j: map<string, Job>)
    requires Consistent(s)
    requires forall row :: row in listing ==> row in s.store
    requires j.Keys == DailyJobs().Keys + RowIds(listing)
    requires forall row :: row in listing && Known(row) ==> j[RowId(row)] == RowJob(row)
    requires forall id :: id in DailyJobs() ==> j[id] == DailyJobs()[id]
    ensures forall id :: id in j && j[id].action.SendService? ==> id in s.jobs && s.jobs[id] == j[id]
  {
    forall id | id in j && j[id].action.SendService?
      ensures id in s.jobs && s.jobs[id] == j[id]
    {
      if id !in DailyJobs() {
        assert id in RowIds(listing);
        var row :| row in listing && Known(row) && RowId(row) == id;
        assert row in s.store;
      }
    }
  }

  /** Every subscription job scheduled before the restart is rebuilt, identically. */
  lemma ScheduledJobsAreRebuilt(s: State, listing: seq<Row>, j: map<string, Job>)
    requires Consistent(s)
    requires forall row :: row in s.store ==> row in listing
    requires j.Keys == DailyJobs().Keys + RowIds(listing)
    requires forall row :: row in listing && Known(row) ==> j[RowId(row)] == RowJob(row)
    ensures forall id :: id in s.jobs && s.jobs[id].action.SendService? ==> id in j && j[id] == s.jobs[id]
  {
    forall id | id in s.jobs && s.jobs[id].action.SendService?
      ensures id in j && j[id] == s.jobs[id]
    {
      var a := s.jobs[id].action;
      var row := RowFor(a.kind, a.chat);
      RowForRoundTrip(a.kind, a.chat);
      assert row in listing;
      assert RowId(row) in RowIds(listing);
    }
  }

  /**
   A restart restores every subscription: when scheduler and store agree,
   main()'s daily jobs plus schedule_services over a listing of the store
   reproduce exactly the subscription jobs that were scheduled before.
   */
  lemma RestartRestoresSubscriptions(s: State, listing: seq<Row>)
    requires Consistent(s)
    requires Distinct(listing) && forall row :: row in listing <==> row in s.store
    ensures ScheduleServices(listing, Committed, DailyJobs()).Ok?
    ensures ServiceJobs(ScheduleServices(listing, Committed, DailyJobs()).value) == ServiceJobs(s.jobs)
  {
    ScheduleRowsAdds(listing, DailyJobs());
    var j := ScheduleRows(listing, DailyJobs()).value;
    RebuiltJobsWereScheduled(s, listing, j);
    ScheduledJobsAreRebuilt(s, listing, j);
    SameServiceJobs(j, s.jobs);
  }

  /** After a restart from a consistent state, the rebuilt scheduler agrees with the store again. */
  lemma RestartKeepsConsistent(s: State, listing: seq<Row>)
    requires Consistent(s)
    requires Distinct(listing) && forall row :: row in listing <==> row in s.store
    ensures ScheduleServices(listing, Committed, DailyJobs()).Ok?
    ensures Consistent(State(ScheduleServices(listing, Committed, DailyJobs()).value, s.store))
  {
    ScheduleRowsAdds(listing, DailyJobs());
    var j := ScheduleRows(listing, DailyJobs()).value;
    RebuiltJobsWereScheduled(s, listing, j);
    forall row | row in s.store
      ensures Known(row) && RowId(row) in j && j[RowId(row)] == RowJob(row)
    {
      assert row in listing;
    }
  }

  /** Two schedulers with the same subscription jobs under the same ids have equal ServiceJobs. */
  lemma SameServiceJobs(a: map<string, Job>, b: map<string, Job>)
    requires forall id :: id in a && a[id].action.SendService? ==> id in b && b[id] == a[id]
    requires forall id :: id in b && b[id].action.SendService? ==> id in a && a[id] == b[id]
    ensures ServiceJobs(a) == ServiceJobs(b)
  {
    assert ServiceJobs(a).Keys == ServiceJobs(b).Keys;
  }

  /** A failed load at start-up silently drops every subscription for the whole run. */
  lemma FailedLoadDropsSubscriptions(listing: seq<Row>)
    ensures ScheduleServices(listing, QueryFailed, DailyJobs()) == Ok(DailyJobs())
    ensures ServiceJobs(DailyJobs()) == map[]
  {
  }
}
