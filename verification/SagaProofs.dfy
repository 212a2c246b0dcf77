/** Safety of credits and debits over every interleaving, wherever requests stop. */
module SagaProofs {
  import opened Wrappers
  import opened Numbers
  import opened Uuids
  import opened Ledgers
  import opened WorkerSpec
  import opened StoreCalls
  import WorkerProofs
  import WorkerResults
  import WorkerAnswers
  import opened Saga

  // The invariant

  /** The ledger transfer that stands behind a row: same key, same amount, same two accounts. */
  ghost predicate Backs(t: Transfer, row: Row) {
    && Parse(row.idempotencyKey).Some?
    && t.id == AsU128(Parse(row.idempotencyKey).value)
    && t.amount == row.amount
    && t.debitId == AsU128(row.drAccount)
    && t.creditId == AsU128(row.crAccount)
  }

  ghost predicate Backed(posted: seq<Transfer>, row: Row) {
    exists t :: t in posted && Backs(t, row)
  }

  ghost predicate RowsDistinct(rows: seq<Row>) {
    forall i, j | 0 <= i < j < |rows| :: rows[i].idempotencyKey != rows[j].idempotencyKey && rows[i].id != rows[j].id
  }

  ghost predicate HasRow(rows: seq<Row>, key: Uuid, id: Uuid) {
    exists row :: row in rows && row.idempotencyKey == ToString(key) && row.id == id
  }

  /**
    The row `id` and a posted transfer are the two records of this request, with nothing lost in the
    cast of its amount.
   */
  ghost predicate OwnRow(s: System, r: Request, user: Uuid, provider: Uuid, id: Uuid) {
    && 0 < r.amount < TWO_63
    && RowOf(r, user, provider, id) in s.rows
    && TransferOf(r, user, provider) in s.worker.ledger.posted
  }

  /** What a request may rely on in its phase. */
  ghost predicate PhaseOk(s: System, r: Request) {
    match r.phase
    case Waiting(user, provider, responder) =>
      CreateTransfer(TransferOf(r, user, provider), responder) in SentCommands(s.worker.log)
    case Accepted(user, provider, _) => TransferOf(r, user, provider) in s.worker.ledger.posted
    case Recorded(user, provider, id) => OwnRow(s, r, user, provider, id)
    case Succeeded(user, provider, id) => OwnRow(s, r, user, provider, id)
    case Finished(AlreadyProcessed(id)) => HasRow(s.rows, r.key, id)
    case _ => true
  }

  ghost predicate Safe(p: Policy, max: nat, s: System) {
    && Reachable(p, max, s.worker)
    && (forall r | r in s.requests :: PhaseOk(s, r))
    && RowsDistinct(s.rows)
    && (forall row | row in s.rows :: Backed(s.worker.ledger.posted, row))
  }

  // The worker's part

  lemma FlushGrows(p: Policy, w: State, k: Kind, o: Outcome)
    ensures w.log <= FlushIfAny(p, w, k, o).log
  {
    hide ReplyTo, ApplyAll, Broadcast, Effect;
  }

  lemma TickGrows(p: Policy, w: State, o: Outcomes)
    ensures w.log <= OnTick(p, w, o).log
  {
    hide FlushIfAny;
    var w1 := FlushIfAny(p, w, Transfers, o.transfers);
    var w2 := FlushIfAny(p, w1, Accounts, o.accounts);
    var w3 := FlushIfAny(p, w2, AccountLookups, o.accountLookups);
    FlushGrows(p, w, Transfers, o.transfers);
    FlushGrows(p, w1, Accounts, o.accounts);
    FlushGrows(p, w2, AccountLookups, o.accountLookups);
    FlushGrows(p, w3, TransferLookups, o.transferLookups);
    assert w.log <= w1.log <= w2.log <= w3.log;
  }

  lemma LogGrows(p: Policy, max: nat, w: State, step: Step)
    requires Enabled(w, step)
    ensures w.log <= Next(p, max, w, step).log
  {
    hide ReplyTo, ApplyAll, Broadcast;
    match step
    case Tick(o) => TickGrows(p, w, o);
    case _ =>
  }

  lemma SentWithLog(log: seq<Event>, log': seq<Event>)
    requires log <= log'
    ensures forall c | c in SentCommands(log) :: c in SentCommands(log')
  {
    hide Collect;
    assert log' == log + log'[|log|..];
    WorkerProofs.CollectAppend(log, log'[|log|..], SentIn);
  }

  lemma PostedWithLog(p: Policy, max: nat, w: State, w': State)
    requires Reachable(p, max, w) && Reachable(p, max, w') && w.log <= w'.log
    ensures w.ledger.posted <= w'.ledger.posted
  {
    hide Reachable, Collect;
    var more := w'.log[|w.log|..];
    WorkerResults.BatchingRefinesOneAtATime(p, max, w);
    WorkerResults.BatchingRefinesOneAtATime(p, max, w');
    assert w'.log == w.log + more;
    WorkerProofs.CollectAppend(w.log, more, EffectIn);
    ApplyAllAppend(p, EMPTY_LEDGER, Effects(w.log), Effects(more));
    PostedGrows(p, w.ledger, Effects(more));
  }

  lemma WorkerGrows(p: Policy, max: nat, w: State, step: Step)
    requires Reachable(p, max, w) && Enabled(w, step)
    ensures w.log <= Next(p, max, w, step).log
    ensures w.ledger.posted <= Next(p, max, w, step).ledger.posted
    ensures forall c | c in SentCommands(w.log) :: c in SentCommands(Next(p, max, w, step).log)
  {
    hide Reachable, ApplyAll, Broadcast, Collect;
    var w' := Next(p, max, w, step);
    LogGrows(p, max, w, step);
    WorkerResults.NextReachable(p, max, w, step);
    PostedWithLog(p, max, w, w');
    SentWithLog(w.log, w'.log);
  }

  lemma {:induction false} ReplyFound(log: seq<Event>, responder: nat, answer: Reply) returns (j: nat)
    requires FindReply(log, responder) == Some(answer)
    ensures j < |log| && log[j] == Replied(responder, answer)
  {
    var n := |log| - 1;
    if log[n].Replied? && log[n].responder == responder {
      j := n;
    } else {
      j := ReplyFound(log[..n], responder, answer);
    }
  }

  // Steps

  lemma RowOutlives(rows: seq<Row>, rows': seq<Row>, key: Uuid, id: Uuid)
    requires HasRow(rows, key, id) && rows <= rows'
    ensures HasRow(rows', key, id)
  {
    hide ToString;
    var row :| row in rows && row.idempotencyKey == ToString(key) && row.id == id;
    assert row in rows';
  }

  /** What other requests and rows rely on outlives any growth of the stores. */
  lemma PhaseOutlives(s: System, s': System, r: Request)
    requires PhaseOk(s, r)
    requires forall c | c in SentCommands(s.worker.log) :: c in SentCommands(s'.worker.log)
    requires s.worker.ledger.posted <= s'.worker.ledger.posted && s.rows <= s'.rows
    ensures PhaseOk(s', r)
  {
    hide SentCommands;
    match r.phase
    case Finished(AlreadyProcessed(id)) => RowOutlives(s.rows, s'.rows, r.key, id);
    case _ =>
  }

  lemma BackingOutlives(posted: seq<Transfer>, posted': seq<Transfer>, row: Row)
    requires Backed(posted, row) && posted <= posted'
    ensures Backed(posted', row)
  {
    hide Backs;
    var t :| t in posted && Backs(t, row);
    assert t in posted';
  }

  /** A step that moves request i, and lets the worker and the table only grow. */
  lemma MoveKeeps(p: Policy, max: nat, s: System, s': System, i: nat, phase: Phase)
    requires Safe(p, max, s) && i < |s.requests|
    requires s'.requests == s.requests[i := s.requests[i].(phase := phase)]
    requires Reachable(p, max, s'.worker)
    requires forall c | c in SentCommands(s.worker.log) :: c in SentCommands(s'.worker.log)
    requires s.worker.ledger.posted <= s'.worker.ledger.posted && s.rows <= s'.rows
    requires PhaseOk(s', s.requests[i].(phase := phase))
    requires RowsDistinct(s'.rows)
    requires forall row | row in s'.rows && row !in s.rows :: Backed(s'.worker.ledger.posted, row)
    ensures Safe(p, max, s')
  {
    hide Reachable, SentCommands, PhaseOk, Backed, RowsDistinct;
    forall r | r in s'.requests
      ensures PhaseOk(s', r)
    {
      if r in s.requests {
        PhaseOutlives(s, s', r);
      }
    }
    forall row | row in s'.rows
      ensures Backed(s'.worker.ledger.posted, row)
    {
      if row in s.rows {
        BackingOutlives(s.worker.ledger.posted, s'.worker.ledger.posted, row);
      }
    }
  }

  lemma WorkerStepKeeps(p: Policy, max: nat, s: System, step: Step)
    requires Safe(p, max, s) && Enabled(s.worker, step)
    ensures Safe(p, max, s.(worker := Next(p, max, s.worker, step)))
  {
    hide Reachable, SentCommands, PhaseOk, Backed, RowsDistinct, Next, Enabled;
    var s' := s.(worker := Next(p, max, s.worker, step));
    WorkerGrows(p, max, s.worker, step);
    WorkerResults.NextReachable(p, max, s.worker, step);
    forall r | r in s'.requests
      ensures PhaseOk(s', r)
    {
      PhaseOutlives(s, s', r);
    }
    forall row | row in s'.rows
      ensures Backed(s'.worker.ledger.posted, row)
    {
      BackingOutlives(s.worker.ledger.posted, s'.worker.ledger.posted, row);
    }
  }

  lemma EnqueueKeeps(p: Policy, max: nat, s: System, i: nat, responder: nat)
    requires Safe(p, max, s) && Possible(s, Enqueue(i, responder))
    ensures Safe(p, max, Do(p, max, s, Enqueue(i, responder)))
  {
    hide Reachable, Backed, RowsDistinct, Collect, ApplyAll;
    var r := s.requests[i];
    var command := CreateTransfer(TransferOf(r, r.phase.user, r.phase.provider), responder);
    var step := Send(command);
    var s' := Do(p, max, s, Enqueue(i, responder));
    assert Enabled(s.worker, step);
    WorkerGrows(p, max, s.worker, step);
    WorkerResults.NextReachable(p, max, s.worker, step);
    WorkerProofs.EventAdds(s.worker.log, Sent(command), SentIn);
    assert command in SentCommands(s'.worker.log);
    MoveKeeps(p, max, s, s', i, Waiting(r.phase.user, r.phase.provider, responder));
  }

  lemma ObserveKeeps(p: Policy, max: nat, s: System, i: nat)
    requires Safe(p, max, s) && Possible(s, Observe(i))
    ensures Safe(p, max, Do(p, max, s, Observe(i)))
  {
    hide Reachable, Backed, RowsDistinct, Collect, FindReply;
    var r := s.requests[i];
    var phase := r.phase;
    var reply := FindReply(s.worker.log, phase.responder);
    var next := AfterReply(reply, phase.user, phase.provider, phase.responder);
    if next.Accepted? {
      var t := TransferOf(r, phase.user, phase.provider);
      var j := ReplyFound(s.worker.log, phase.responder, reply.value);
      assert PhaseOk(s, r);
      WorkerAnswers.EmptyAnswerMeansPosted(p, max, s.worker, t, phase.responder, j);
    }
    MoveKeeps(p, max, s, Do(p, max, s, Observe(i)), i, next);
  }

  /** The wrapped amount passes the check only if nothing was lost in the cast. */
  lemma PositiveUnwrapped(amount: u64)
    ensures WrapI64(amount) > 0 <==> 0 < amount < TWO_63
    ensures WrapI64(amount) > 0 ==> WrapI64(amount) == amount
  {
  }

  lemma InsertKeeps(p: Policy, max: nat, s: System, i: nat, rowId: Uuid, commit: Commit)
    requires Safe(p, max, s) && Possible(s, Insert(i, rowId, commit))
    ensures Safe(p, max, Do(p, max, s, Insert(i, rowId, commit)))
  {
    hide Reachable, SentCommands, ToString, AsU128, Parse;
    var r := s.requests[i];
    var t := TransferOf(r, r.phase.user, r.phase.provider);
    var row := RowOf(r, r.phase.user, r.phase.provider, rowId);
    var s' := Do(p, max, s, Insert(i, rowId, commit));
    assert PhaseOk(s, r);
    if commit != Aborted && RowAdmitted(s.rows, row) {
      PositiveUnwrapped(r.amount);
      ParseRoundTrip(r.key);
      assert Backs(t, row);
      assert row in s'.rows;
      var next := if commit == Committed then Recorded(r.phase.user, r.phase.provider, rowId)
          else Finished(InternalError);
      MoveKeeps(p, max, s, s', i, next);
    } else {
      MoveKeeps(p, max, s, s', i, Finished(InternalError));
    }
  }

  lemma CheckKeyKeeps(p: Policy, max: nat, s: System, i: nat, readOk: bool)
    requires Safe(p, max, s) && Possible(s, CheckKey(i, readOk))
    ensures Safe(p, max, Do(p, max, s, CheckKey(i, readOk)))
  {
    hide Reachable, SentCommands, ToString, Backed, RowsDistinct;
    var r := s.requests[i];
    var row := FindRow(s.rows, ToString(r.key));
    var next := if readOk && row.Some? then Finished(AlreadyProcessed(row.value.id)) else KeyUnused(r.phase.user);
    MoveKeeps(p, max, s, Do(p, max, s, CheckKey(i, readOk)), i, next);
  }

  lemma QuietMoveKeeps(p: Policy, max: nat, s: System, a: Action)
    requires Safe(p, max, s) && Possible(s, a)
    requires a.FetchAccount? || a.FetchProvider? || a.ClearPriority? || a.Respond?
    ensures Safe(p, max, Do(p, max, s, a))
  {
    hide Reachable, SentCommands, ToString, Backed, RowsDistinct, HasRow;
    var s' := Do(p, max, s, a);
    assert PhaseOk(s, s.requests[a.i]);
    MoveKeeps(p, max, s, s', a.i, s'.requests[a.i].phase);
  }

  lemma ArriveKeeps(p: Policy, max: nat, s: System, a: Action)
    requires Safe(p, max, s) && a.Arrive?
    ensures Safe(p, max, Do(p, max, s, a))
  {
    hide Reachable, SentCommands, Backed, RowsDistinct, HasRow;
    var s' := Do(p, max, s, a);
    forall r | r in s'.requests
      ensures PhaseOk(s', r)
    {
      if r in s.requests {
        PhaseOutlives(s, s', r);
      }
    }
  }

  lemma WorkerActionKeeps(p: Policy, max: nat, s: System, step: Step)
    requires Safe(p, max, s) && Possible(s, WorkerStep(step))
    ensures Safe(p, max, Do(p, max, s, WorkerStep(step)))
  {
    hide Safe;
    WorkerStepKeeps(p, max, s, step);
  }

  lemma DoKeeps(p: Policy, max: nat, s: System, a: Action)
    requires Safe(p, max, s) && Possible(s, a)
    ensures Safe(p, max, Do(p, max, s, a))
  {
    hide Safe, Do;
    match a
    case Arrive(_, _, _, _, _) => ArriveKeeps(p, max, s, a);
    case FetchAccount(_, _) => QuietMoveKeeps(p, max, s, a);
    case CheckKey(i, readOk) => CheckKeyKeeps(p, max, s, i, readOk);
    case FetchProvider(_, _) => QuietMoveKeeps(p, max, s, a);
    case ClearPriority(_, _) => QuietMoveKeeps(p, max, s, a);
    case Enqueue(i, responder) => EnqueueKeeps(p, max, s, i, responder);
    case Observe(i) => ObserveKeeps(p, max, s, i);
    case Insert(i, rowId, commit) => InsertKeeps(p, max, s, i, rowId, commit);
    case Respond(_, _) => QuietMoveKeeps(p, max, s, a);
    case WorkerStep(step) => WorkerActionKeeps(p, max, s, step);
  }

  lemma {:induction false} HistoryKeeps(p: Policy, max: nat, states: seq<System>, actions: seq<Action>, n: nat)
    requires IsHistory(p, max, states, actions) && n < |states|
    ensures Safe(p, max, states[n])
  {
    hide Do, Possible;
    if n == 0 {
      WorkerResults.StartReachable(p, max);
    } else {
      HistoryKeeps(p, max, states, actions, n - 1);
      assert states[n] == Do(p, max, states[n - 1], actions[n - 1]);
      DoKeeps(p, max, states[n - 1], actions[n - 1]);
    }
  }

  lemma AlwaysSafe(p: Policy, max: nat, s: System)
    requires Occurs(p, max, s)
    ensures Safe(p, max, s)
  {
    hide Do, Possible, Safe;
    var states, actions :| IsHistory(p, max, states, actions) && s == states[|actions|];
    HistoryKeeps(p, max, states, actions, |actions|);
  }

  // The claims

  /** Exactly one posted transfer has the row's key as its id, and it has the row's amount and both of its accounts. */
  ghost predicate BackedOnce(posted: seq<Transfer>, row: Row) {
    exists t :: t in posted && Backs(t, row) && forall u | u in posted && u.id == t.id :: u == t
  }

  /** Cross-store safety: behind every row there is exactly one posted ledger transfer, and it agrees with the row. */
  lemma RowsAreBacked(p: Policy, max: nat, s: System)
    requires Occurs(p, max, s)
    ensures forall row | row in s.rows :: BackedOnce(s.worker.ledger.posted, row)
  {
    hide Occurs, Reachable, Backs, PhaseOk;
    AlwaysSafe(p, max, s);
    WorkerResults.BatchingRefinesOneAtATime(p, max, s.worker);
    forall row | row in s.rows
      ensures BackedOnce(s.worker.ledger.posted, row)
    {
      assert Backed(s.worker.ledger.posted, row);
      var t :| t in s.worker.ledger.posted && Backs(t, row);
      WorkerAnswers.OneWithId(s.worker.ledger.posted, t);
    }
  }

  /** At most once: a key is the id of at most one posted transfer and the key of at most one row. */
  lemma AtMostOnce(p: Policy, max: nat, s: System, a: Uuid, b: Uuid)
    requires Occurs(p, max, s)
    ensures forall t, u |
              t in s.worker.ledger.posted && u in s.worker.ledger.posted && t.id == AsU128(a) && u.id == AsU128(a) ::
              t == u
    ensures forall x, y |
              x in s.rows && y in s.rows && x.idempotencyKey == ToString(a) && y.idempotencyKey == ToString(a) ::
              x == y
    ensures a != b ==> ToString(a) != ToString(b) && AsU128(a) != AsU128(b)
  {
    hide Occurs, Reachable, PhaseOk, ToString, AsU128, Backed;
    KeyFormsInjective(a, b);
    AlwaysSafe(p, max, s);
    WorkerResults.BatchingRefinesOneAtATime(p, max, s.worker);
    forall t, u | t in s.worker.ledger.posted && u in s.worker.ledger.posted && t.id == AsU128(a) && u.id == AsU128(a)
      ensures t == u
    {
      WorkerAnswers.OneWithId(s.worker.ledger.posted, t);
    }
  }

  /**
    A success is the request's own: the row it names has the request's key, direction, amount, user and
    provider and the two accounts it found, no other row has that id, and its transfer is posted.
   */
  lemma SuccessIsOwn(p: Policy, max: nat, s: System, r: Request, user: Uuid, provider: Uuid, id: Uuid)
    requires Occurs(p, max, s) && r in s.requests && r.phase == Succeeded(user, provider, id)
    ensures 0 < r.amount < TWO_63
    ensures var (dr, cr) := if r.direction == Credit then (provider, user) else (user, provider);
            && Row(id, ToString(r.key), r.direction, r.amount, dr, cr, r.providerId, r.userId) in s.rows
            && Transfer(AsU128(r.key), AsU128(dr), AsU128(cr), r.amount) in s.worker.ledger.posted
    ensures forall x, y | x in s.rows && y in s.rows && x.id == id == y.id :: x == y
  {
    hide Occurs, Reachable, ToString, AsU128, Backed;
    AlwaysSafe(p, max, s);
    assert PhaseOk(s, r);
    PositiveUnwrapped(r.amount);
  }

  /** A repeated request is answered with a row that has its key, and a transfer with that key is posted. */
  lemma ResponsesAreTrue(p: Policy, max: nat, s: System, r: Request, id: Uuid)
    requires Occurs(p, max, s) && r in s.requests && r.phase == Finished(AlreadyProcessed(id))
    ensures HasRow(s.rows, r.key, id)
    ensures exists t :: t in s.worker.ledger.posted && t.id == AsU128(r.key)
  {
    hide Occurs, Reachable, ToString, AsU128, Parse;
    AlwaysSafe(p, max, s);
    assert PhaseOk(s, r);
    var row :| row in s.rows && row.idempotencyKey == ToString(r.key) && row.id == id;
    RowsAreBacked(p, max, s);
    var t :| t in s.worker.ledger.posted && Backs(t, row);
    ParseRoundTrip(r.key);
  }

  /**
    Request i is late: a row already has its key, and the request has not yet got past the check
    of the key, or has ended there.
   */
  ghost predicate Late(s: System, i: nat, rowId: Uuid) {
    && i < |s.requests|
    && HasRow(s.rows, s.requests[i].key, rowId)
    && match s.requests[i].phase
       case Arrived => true
       case AccountKnown(_) => true
       case Finished(NotFound) => true
       case Finished(InternalError) => true
       case Finished(AlreadyProcessed(id)) => id == rowId
       case _ => false
  }

  ghost predicate Concerns(a: Action, i: nat) {
    match a
    case Arrive(_, _, _, _, _) => false
    case WorkerStep(_) => false
    case _ => a.i == i
  }

  lemma OneRow(rows: seq<Row>, key: Uuid, id: Uuid)
    requires RowsDistinct(rows) && HasRow(rows, key, id)
    ensures FindRow(rows, ToString(key)).Some? && FindRow(rows, ToString(key)).value.id == id
  {
    hide ToString;
    var row :| row in rows && row.idempotencyKey == ToString(key) && row.id == id;
  }

  lemma LateMoves(p: Policy, max: nat, s: System, a: Action, i: nat, rowId: Uuid)
    requires Safe(p, max, s) && Possible(s, a) && Late(s, i, rowId) && a != CheckKey(i, false) && Concerns(a, i)
    ensures Late(Do(p, max, s, a), i, rowId)
    ensures Do(p, max, s, a).worker == s.worker && Do(p, max, s, a).rows == s.rows
    ensures a == CheckKey(i, true) ==> Do(p, max, s, a).requests[i].phase == Finished(AlreadyProcessed(rowId))
  {
    hide Reachable, ToString, PhaseOk, Backed, HasRow, Next, FindReply, RowAdmitted, FindRow;
    assert RowsDistinct(s.rows) && HasRow(s.rows, s.requests[i].key, rowId);
    hide RowsDistinct;
    OneRow(s.rows, s.requests[i].key, rowId);
  }

  lemma LateWaits(p: Policy, max: nat, s: System, a: Action, i: nat, rowId: Uuid)
    requires Possible(s, a) && Late(s, i, rowId) && !Concerns(a, i)
    ensures Late(Do(p, max, s, a), i, rowId)
  {
    hide ToString, HasRow, Next, FindReply, RowAdmitted, FindRow;
    RowOutlives(s.rows, Do(p, max, s, a).rows, s.requests[i].key, rowId);
  }

  /**
    Replays are harmless: once a row has the key, a request that reads the key successfully
    changes neither the ledger nor the table, and ends in that row's id or in an earlier error.
   */
  lemma LateStaysLate(p: Policy, max: nat, s: System, a: Action, i: nat, rowId: Uuid)
    requires Occurs(p, max, s) && Possible(s, a) && Late(s, i, rowId) && a != CheckKey(i, false)
    ensures Late(Do(p, max, s, a), i, rowId)
    ensures Concerns(a, i) ==> Do(p, max, s, a).worker == s.worker && Do(p, max, s, a).rows == s.rows
    ensures a == CheckKey(i, true) ==> Do(p, max, s, a).requests[i].phase == Finished(AlreadyProcessed(rowId))
  {
    hide Occurs, Do, Possible, Safe, Late, ToString;
    if Concerns(a, i) {
      AlwaysSafe(p, max, s);
      LateMoves(p, max, s, a, i, rowId);
    } else {
      LateWaits(p, max, s, a, i, rowId);
    }
  }

  lemma Extend(p: Policy, max: nat, s: System, a: Action) returns (t: System)
    requires Occurs(p, max, s) && Possible(s, a)
    ensures t == Do(p, max, s, a) && Occurs(p, max, t)
  {
    hide Do, Possible;
    t := Do(p, max, s, a);
    var states, actions :| IsHistory(p, max, states, actions) && s == states[|actions|];
    var states', actions' := states + [t], actions + [a];
    forall i | 0 <= i < |actions'|
      ensures Possible(states'[i], actions'[i]) && states'[i + 1] == Do(p, max, states'[i], actions'[i])
    {
      if i < |actions| {
        assert Possible(states[i], actions[i]);
      }
    }
    assert IsHistory(p, max, states', actions');
  }

  lemma HistoryPrefix(p: Policy, max: nat, states: seq<System>, actions: seq<Action>, n: nat)
    requires IsHistory(p, max, states, actions) && n < |states|
    ensures Occurs(p, max, states[n])
  {
    hide Do, Possible;
    assert IsHistory(p, max, states[..n + 1], actions[..n]);
  }

  /** The same over any number of steps of the whole system: none of the request's own steps changes a store. */
  lemma {:induction false} LateForever(p: Policy, max: nat, states: seq<System>, actions: seq<Action>, m: nat,
          n: nat, i: nat, rowId: Uuid)
    requires IsHistory(p, max, states, actions) && m <= n < |states|
    requires Late(states[m], i, rowId)
    requires forall k | m <= k < n :: actions[k] != CheckKey(i, false)
    ensures Late(states[n], i, rowId)
    ensures forall k | m <= k < n && Concerns(actions[k], i) ::
              states[k + 1].worker == states[k].worker && states[k + 1].rows == states[k].rows
    decreases n
  {
    hide Do, Possible, Late, Concerns;
    if m < n {
      LateForever(p, max, states, actions, m, n - 1, i, rowId);
      HistoryPrefix(p, max, states, actions, n - 1);
      assert states[n] == Do(p, max, states[n - 1], actions[n - 1]);
      LateStaysLate(p, max, states[n - 1], actions[n - 1], i, rowId);
    }
  }
}
