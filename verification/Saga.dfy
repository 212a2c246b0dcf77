/**
  Crediting and debiting a user: any number of requests, each a sequence of steps over the
  worker and the table `transactions`, interleaved in any order. A request that is never
  scheduled again has stopped where it was.
 */
module Saga {
  import opened Wrappers
  import opened Numbers
  import opened Uuids
  import opened Ledgers
  import opened WorkerSpec
  import opened StoreCalls

  datatype Direction = Credit | Debit

  /** The answers other than the status SUCCESS. */
  datatype Response = AlreadyProcessed(id: Uuid) | NotFound | Rejected | InternalError

  /** How far a request has come. */
  datatype Phase =
    | Arrived
    | AccountKnown(user: Uuid)
    | KeyUnused(user: Uuid)
    | ProviderKnown(user: Uuid, provider: Uuid)
    | PriorityCleared(user: Uuid, provider: Uuid)
    | Waiting(user: Uuid, provider: Uuid, responder: nat)
    | Accepted(user: Uuid, provider: Uuid, responder: nat)
    | Recorded(user: Uuid, provider: Uuid, rowId: Uuid)
    | Succeeded(user: Uuid, provider: Uuid, rowId: Uuid)
    | Finished(response: Response)

  datatype Request = Request(direction: Direction, key: Uuid, amount: u64, userId: Uuid, providerId: Uuid, phase: Phase)

  /** A row of `transactions` as the two inserts write it; its status is SUCCESS. */
  datatype Row = Row(
    id: Uuid, idempotencyKey: string, direction: Direction, amount: i64,
    drAccount: Uuid, crAccount: Uuid, providerId: Uuid, userId: Uuid)

  datatype System = System(worker: State, requests: seq<Request>, rows: seq<Row>)

  const INITIAL := System(START, [], [])

  // The two records of one movement of money

  /** The transfer sent to the ledger. */
  function TransferOf(r: Request, user: Uuid, provider: Uuid): Transfer {
    match r.direction
    case Credit => Transfer(AsU128(r.key), AsU128(provider), AsU128(user), r.amount)
    case Debit => Transfer(AsU128(r.key), AsU128(user), AsU128(provider), r.amount)
  }

  /** The row offered to the database, with `amount as i64`. */
  function RowOf(r: Request, user: Uuid, provider: Uuid, id: Uuid): Row {
    match r.direction
    case Credit => Row(id, ToString(r.key), Credit, WrapI64(r.amount), provider, user, r.providerId, r.userId)
    case Debit => Row(id, ToString(r.key), Debit, WrapI64(r.amount), user, provider, r.providerId, r.userId)
  }

  function FindRow(rows: seq<Row>, key: string): (r: Option<Row>)
    ensures r.Some? ==> r.value in rows && r.value.idempotencyKey == key
    ensures r.None? ==> forall row | row in rows :: row.idempotencyKey != key
  {
    if rows == [] then None
    else if rows[0].idempotencyKey == key then Some(rows[0])
    else FindRow(rows[1..], key)
  }

  /** CHECK (amount > 0), the unique idempotency key and the primary key. */
  predicate RowAdmitted(rows: seq<Row>, row: Row) {
    row.amount > 0 && forall r | r in rows :: r.idempotencyKey != row.idempotencyKey && r.id != row.id
  }

  function FindReply(log: seq<Event>, responder: nat): Option<Reply> {
    if log == [] then None
    else
      var n := |log| - 1;
      if log[n].Replied? && log[n].responder == responder then Some(log[n].answer) else FindReply(log[..n], responder)
  }

  // Actions

  datatype Fetched = DbError | Absent | Present(account: Uuid)

  datatype Action =
    | Arrive(direction: Direction, key: Uuid, amount: u64, userId: Uuid, providerId: Uuid)
    | FetchAccount(i: nat, account: Fetched)
    | CheckKey(i: nat, readOk: bool)
    | FetchProvider(i: nat, providerAccount: Fetched)
    | ClearPriority(i: nat, cleared: bool)
    | Enqueue(i: nat, responder: nat)
    | Observe(i: nat)
    | Insert(i: nat, rowId: Uuid, commit: Commit)
    | Respond(i: nat, balanceRead: bool)
    | WorkerStep(step: Step)

  /** Ready to enqueue: a debit has dealt with the active priority first. */
  predicate Ready(r: Request) {
    match r.direction
    case Credit => r.phase.ProviderKnown?
    case Debit => r.phase.PriorityCleared?
  }

  ghost predicate Possible(s: System, a: Action) {
    match a
    case Arrive(_, _, _, _, _) => true
    case FetchAccount(i, _) => i < |s.requests| && s.requests[i].phase.Arrived?
    case CheckKey(i, _) => i < |s.requests| && s.requests[i].phase.AccountKnown?
    case FetchProvider(i, _) => i < |s.requests| && s.requests[i].phase.KeyUnused?
    case ClearPriority(i, _) => i < |s.requests| && s.requests[i].direction.Debit? && s.requests[i].phase.ProviderKnown?
    case Enqueue(i, responder) =>
      i < |s.requests| && Ready(s.requests[i]) && !s.worker.closed && Fresh(s.worker.log, responder)
    case Observe(i) =>
      && i < |s.requests| && s.requests[i].phase.Waiting?
      && (FindReply(s.worker.log, s.requests[i].phase.responder).Some? || s.worker.exited)
    case Insert(i, _, _) => i < |s.requests| && s.requests[i].phase.Accepted?
    case Respond(i, _) => i < |s.requests| && s.requests[i].phase.Recorded?
    // Only credits and debits send transfers; the other commands come from anywhere.
    case WorkerStep(step) => Enabled(s.worker, step) && (step.Send? ==> !step.command.CreateTransfer?)
  }

  function Move(s: System, i: nat, phase: Phase): System
    requires i < |s.requests|
  {
    s.(requests := s.requests[i := s.requests[i].(phase := phase)])
  }

  function AfterReply(reply: Option<Reply>, user: Uuid, provider: Uuid, responder: nat): Phase {
    match reply
    case Some(Created(Ok(results))) => if results == [] then Accepted(user, provider, responder) else Finished(Rejected)
    case _ => Finished(InternalError)
  }

  function Do(p: Policy, max: nat, s: System, a: Action): System {
    match a
    case Arrive(direction, key, amount, userId, providerId) =>
      s.(requests := s.requests + [Request(direction, key, amount, userId, providerId, Arrived)])
    case FetchAccount(i, account) =>
      if i >= |s.requests| then s
      else
        Move(s, i,
             match account
             case DbError => Finished(InternalError)
             case Absent => Finished(NotFound)
             case Present(user) => AccountKnown(user))
    case CheckKey(i, readOk) =>
      if i >= |s.requests| || !s.requests[i].phase.AccountKnown? then s
      else
        var row := FindRow(s.rows, ToString(s.requests[i].key));
        // A failed read is treated as finding nothing.
        Move(s, i,
             if readOk && row.Some? then Finished(AlreadyProcessed(row.value.id))
             else KeyUnused(s.requests[i].phase.user))
    case FetchProvider(i, account) =>
      if i >= |s.requests| || !s.requests[i].phase.KeyUnused? then s
      else
        Move(s, i,
             match account
             case DbError => Finished(InternalError)
             case Absent => Finished(NotFound)
             case Present(provider) => ProviderKnown(s.requests[i].phase.user, provider))
    case ClearPriority(i, cleared) =>
      if i >= |s.requests| || !s.requests[i].phase.ProviderKnown? then s
      else
        var phase := s.requests[i].phase;
        Move(s, i, if cleared then PriorityCleared(phase.user, phase.provider) else Finished(InternalError))
    case Enqueue(i, responder) =>
      if i >= |s.requests| || !Ready(s.requests[i]) then s
      else
        var r := s.requests[i];
        var command := CreateTransfer(TransferOf(r, r.phase.user, r.phase.provider), responder);
        Move(s, i, Waiting(r.phase.user, r.phase.provider, responder))
          .(worker := Next(p, max, s.worker, Send(command)))
    case Observe(i) =>
      if i >= |s.requests| || !s.requests[i].phase.Waiting? then s
      else
        var phase := s.requests[i].phase;
        Move(s, i, AfterReply(FindReply(s.worker.log, phase.responder), phase.user, phase.provider, phase.responder))
    case Insert(i, rowId, commit) =>
      if i >= |s.requests| || !s.requests[i].phase.Accepted? then s
      else
        var r := s.requests[i];
        var row := RowOf(r, r.phase.user, r.phase.provider, rowId);
        var written := commit != Aborted && RowAdmitted(s.rows, row);
        Move(s, i, if written && commit == Committed then Recorded(r.phase.user, r.phase.provider, rowId)
                   else Finished(InternalError))
          .(rows := if written then s.rows + [row] else s.rows)
    case Respond(i, balanceRead) =>
      if i >= |s.requests| || !s.requests[i].phase.Recorded? then s
      else
        var phase := s.requests[i].phase;
        Move(s, i, if balanceRead then Succeeded(phase.user, phase.provider, phase.rowId) else Finished(InternalError))
    case WorkerStep(step) => s.(worker := Next(p, max, s.worker, step))
  }

  ghost predicate IsHistory(p: Policy, max: nat, states: seq<System>, actions: seq<Action>) {
    && |states| == |actions| + 1
    && states[0] == INITIAL
    && forall i | 0 <= i < |actions| ::
         Possible(states[i], actions[i]) && states[i + 1] == Do(p, max, states[i], actions[i])
  }

  ghost predicate Occurs(p: Policy, max: nat, s: System) {
    exists states, actions :: IsHistory(p, max, states, actions) && s == states[|actions|]
  }
}
