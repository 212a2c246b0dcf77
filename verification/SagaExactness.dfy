/** Exactly when an accepted transfer gets its row in the database. */
module SagaExactness {
  import opened Wrappers
  import opened Numbers
  import opened Uuids
  import opened Ledgers
  import opened WorkerSpec
  import opened StoreCalls
  import WorkerProofs
  import WorkerResults
  import WorkerAnswers
  import opened Saga
  import opened SagaProofs

  // An id is accepted once

  ghost predicate AnsweredEmpty(log: seq<Event>, responder: nat) {
    exists j :: 0 <= j < |log| && log[j] == Replied(responder, Created(Ok([])))
  }

  /** The command was answered with an empty list. */
  ghost predicate AcceptedCommand(log: seq<Event>, c: Command) {
    c.CreateTransfer? && c in SentCommands(log) && AnsweredEmpty(log, c.responder)
  }

  lemma PostedUpTo(p: Policy, log: seq<Event>, k1: nat, k2: nat)
    requires k1 <= k2 <= |log|
    ensures WorkerProofs.LedgerAt(p, log[..k1]).posted <= WorkerProofs.LedgerAt(p, log[..k2]).posted
  {
    hide Collect, ApplyAll;
    var more := log[k1..k2];
    assert log[..k2] == log[..k1] + more;
    WorkerProofs.CollectAppend(log[..k1], more, EffectIn);
    ApplyAllAppend(p, EMPTY_LEDGER, Effects(log[..k1]), Effects(more));
    PostedGrows(p, WorkerProofs.LedgerAt(p, log[..k1]), Effects(more));
  }

  lemma {:induction false} AllTransfers(cs: seq<Create>)
    requires forall i | 0 <= i < |cs| :: cs[i].NewTransfer?
    ensures |TransfersOf(cs)| == |cs| && forall i | 0 <= i < |cs| :: TransfersOf(cs)[i] == cs[i].transfer
  {
    if cs != [] {
      AllTransfers(cs[..|cs| - 1]);
    }
  }

  /** An accepted call appends the transfers of its batch to those posted before it. */
  lemma CallAppends(p: Policy, max: nat, w: State, k: nat)
    requires Reachable(p, max, w) && k < |w.log| && w.log[k].Called?
    requires w.log[k].kind == Transfers && w.log[k].reply == Created(Ok([]))
    ensures WorkerProofs.LedgerAt(p, w.log[..k + 1]).posted
            == WorkerProofs.LedgerAt(p, w.log[..k]).posted + TransfersOf(CreatesOf(w.log[k].batch))
    ensures |TransfersOf(CreatesOf(w.log[k].batch))| == |w.log[k].batch|
    ensures forall i | 0 <= i < |w.log[k].batch| ::
              w.log[k].batch[i].CreateTransfer?
              && TransfersOf(CreatesOf(w.log[k].batch))[i] == w.log[k].batch[i].transfer
  {
    hide Reachable, Collect, ApplyAll, Failures, CreatesOf, TransfersOf;
    var batch, before := w.log[k].batch, WorkerProofs.LedgerAt(p, w.log[..k]);
    assert WorkerProofs.CallOk(p, max, w.log, k) by { WorkerResults.ReachableOk(p, max, w); }
    WorkerAnswers.TransfersAsCreates(batch);
    EmptyAnswerPostsAll(p, before, CreatesOf(batch));
    WorkerAnswers.LedgerAfterCall(p, max, w, k);
    AllTransfers(CreatesOf(batch));
  }

  /** An accepted call for transfers. */
  ghost predicate AcceptedCall(log: seq<Event>, k: nat) {
    k < |log| && log[k].Called? && log[k].kind == Transfers && log[k].reply == Created(Ok([]))
  }

  /** Transfers of two accepted calls have different ids. */
  lemma LaterCallsDiffer(p: Policy, max: nat, w: State, k1: nat, i1: nat, k2: nat, i2: nat)
    requires Reachable(p, max, w) && k1 < k2 && AcceptedCall(w.log, k1) && AcceptedCall(w.log, k2)
    requires i1 < |w.log[k1].batch| && i2 < |w.log[k2].batch|
    requires w.log[k1].batch[i1].CreateTransfer? && w.log[k2].batch[i2].CreateTransfer?
    ensures w.log[k1].batch[i1].transfer.id != w.log[k2].batch[i2].transfer.id
  {
    hide Reachable, CreatesOf, TransfersOf, WorkerProofs.LedgerAt;
    CallAppends(p, max, w, k1);
    CallAppends(p, max, w, k2);
    PostedUpTo(p, w.log, k1 + 1, k2);
    var before, after := WorkerProofs.LedgerAt(p, w.log[..k2]).posted, WorkerProofs.LedgerAt(p, w.log[..k2 + 1]).posted;
    assert IdsDistinct(after) by { WorkerAnswers.BooksAtCall(p, w.log[..k2 + 1]); }
    assert after[|before| + i2] == w.log[k2].batch[i2].transfer;
    var place := |WorkerProofs.LedgerAt(p, w.log[..k1]).posted| + i1;
    assert before[place] == w.log[k1].batch[i1].transfer;
    assert after[place] == before[place];
  }

  /** In accepted calls, the same id is at the same place. */
  lemma SamePlace(p: Policy, max: nat, w: State, k1: nat, i1: nat, k2: nat, i2: nat)
    requires Reachable(p, max, w) && k1 <= k2 && AcceptedCall(w.log, k1) && AcceptedCall(w.log, k2)
    requires i1 < |w.log[k1].batch| && i2 < |w.log[k2].batch|
    requires w.log[k1].batch[i1].CreateTransfer? && w.log[k2].batch[i2].CreateTransfer?
    requires w.log[k1].batch[i1].transfer.id == w.log[k2].batch[i2].transfer.id
    ensures k1 == k2 && i1 == i2
  {
    hide Reachable, CreatesOf, TransfersOf, WorkerProofs.LedgerAt;
    if k1 < k2 {
      LaterCallsDiffer(p, max, w, k1, i1, k2, i2);
    } else {
      CallAppends(p, max, w, k2);
      var before := WorkerProofs.LedgerAt(p, w.log[..k2]).posted;
      var after := WorkerProofs.LedgerAt(p, w.log[..k2 + 1]).posted;
      assert IdsDistinct(after) by { WorkerAnswers.BooksAtCall(p, w.log[..k2 + 1]); }
      assert after[|before| + i1] == w.log[k1].batch[i1].transfer;
      assert after[|before| + i2] == w.log[k2].batch[i2].transfer;
    }
  }

  /** Two different commands with the same transfer id are not both accepted. */
  lemma AcceptedOnce(p: Policy, max: nat, w: State, c: Command, d: Command)
    requires Reachable(p, max, w) && AcceptedCommand(w.log, c) && AcceptedCommand(w.log, d)
    requires c.transfer.id == d.transfer.id
    ensures c == d
  {
    hide Reachable, SentCommands;
    var jc :| 0 <= jc < |w.log| && w.log[jc] == Replied(c.responder, Created(Ok([])));
    var jd :| 0 <= jd < |w.log| && w.log[jd] == Replied(d.responder, Created(Ok([])));
    var _, kc, ic := WorkerResults.CallBehindReply(p, max, w, c, jc);
    var _, kd, id := WorkerResults.CallBehindReply(p, max, w, d, jd);
    if kc <= kd {
      SamePlace(p, max, w, kc, ic, kd, id);
    } else {
      SamePlace(p, max, w, kd, id, kc, ic);
    }
  }

  // Which responder stands behind a row

  ghost predicate Busy(r: Request) {
    r.phase.Waiting? || r.phase.Accepted?
  }

  /** The command behind a busy request. */
  ghost predicate Behind(log: seq<Event>, r: Request) {
    match r.phase
    case Waiting(user, provider, responder) =>
      CreateTransfer(TransferOf(r, user, provider), responder) in SentCommands(log)
    case Accepted(user, provider, responder) =>
      AcceptedCommand(log, CreateTransfer(TransferOf(r, user, provider), responder))
    case _ => true
  }

  /** An accepted command with the row's key that no busy request is waiting for. */
  ghost predicate Witness(s: System, row: Row, c: Command) {
    && AcceptedCommand(s.worker.log, c)
    && Parse(row.idempotencyKey).Some? && c.transfer.id == AsU128(Parse(row.idempotencyKey).value)
    && forall r | r in s.requests && Busy(r) :: r.phase.responder != c.responder
  }

  ghost predicate HasWitness(s: System, row: Row) {
    exists c :: Witness(s, row, c)
  }

  ghost predicate Tracked(s: System) {
    && (forall r | r in s.requests :: Behind(s.worker.log, r))
    && (forall i, j | 0 <= i < j < |s.requests| && Busy(s.requests[i]) && Busy(s.requests[j]) ::
          s.requests[i].phase.responder != s.requests[j].phase.responder)
    && (forall row | row in s.rows :: HasWitness(s, row))
  }

  lemma AcceptedOutlives(log: seq<Event>, log': seq<Event>, c: Command)
    requires AcceptedCommand(log, c) && log <= log'
    ensures AcceptedCommand(log', c)
  {
    hide SentCommands;
    SentWithLog(log, log');
    var j :| 0 <= j < |log| && log[j] == Replied(c.responder, Created(Ok([])));
    assert log'[j] == log[j];
  }

  lemma BehindOutlives(log: seq<Event>, log': seq<Event>, r: Request)
    requires Behind(log, r) && log <= log'
    ensures Behind(log', r)
  {
    hide SentCommands, TransferOf;
    SentWithLog(log, log');
    if r.phase.Accepted? {
      AcceptedOutlives(log, log', CreateTransfer(TransferOf(r, r.phase.user, r.phase.provider), r.phase.responder));
    }
  }

  lemma WitnessOutlives(s: System, s': System, row: Row)
    requires HasWitness(s, row) && s.worker.log <= s'.worker.log
    requires forall r | r in s'.requests && Busy(r) ::
               (exists q :: q in s.requests && Busy(q) && q.phase.responder == r.phase.responder)
               || (forall c | c in SentCommands(s.worker.log) :: c.responder != r.phase.responder)
    ensures HasWitness(s', row)
  {
    hide SentCommands, Parse, AsU128;
    var c :| Witness(s, row, c);
    AcceptedOutlives(s.worker.log, s'.worker.log, c);
    assert Witness(s', row, c);
  }

  /** The log after an action. */
  lemma LogAfter(p: Policy, max: nat, s: System, a: Action)
    requires Safe(p, max, s) && Possible(s, a)
    ensures s.worker.log <= Do(p, max, s, a).worker.log
  {
    hide Reachable, PhaseOk, Backed, RowsDistinct, SentCommands, FindReply, FindRow, RowAdmitted;
    match a
    case Enqueue(i, responder) =>
    case WorkerStep(step) => WorkerGrows(p, max, s.worker, step);
    case _ =>
  }

  lemma EnqueueTracks(p: Policy, max: nat, s: System, i: nat, responder: nat)
    requires Safe(p, max, s) && Tracked(s) && Possible(s, Enqueue(i, responder))
    ensures Tracked(Do(p, max, s, Enqueue(i, responder)))
  {
    hide Reachable, Safe, Collect, Parse, AsU128, ToString;
    var r := s.requests[i];
    var command := CreateTransfer(TransferOf(r, r.phase.user, r.phase.provider), responder);
    var s' := Do(p, max, s, Enqueue(i, responder));
    LogAfter(p, max, s, Enqueue(i, responder));
    WorkerProofs.EventAdds(s.worker.log, Sent(command), SentIn);
    assert command in SentCommands(s'.worker.log);
    forall q | q in s.requests && Busy(q)
      ensures q.phase.responder != responder
    {
      assert Behind(s.worker.log, q);
    }
    forall q | q in s'.requests
      ensures Behind(s'.worker.log, q)
    {
      if q in s.requests {
        BehindOutlives(s.worker.log, s'.worker.log, q);
      }
    }
    forall row | row in s'.rows
      ensures HasWitness(s', row)
    {
      WitnessOutlives(s, s', row);
    }
  }

  lemma ObserveTracks(p: Policy, max: nat, s: System, i: nat)
    requires Tracked(s) && Possible(s, Observe(i))
    ensures Tracked(Do(p, max, s, Observe(i)))
  {
    hide Collect, Parse, AsU128, ToString, FindReply;
    var r, s' := s.requests[i], Do(p, max, s, Observe(i));
    var phase := r.phase;
    var reply := FindReply(s.worker.log, phase.responder);
    assert Behind(s.worker.log, r);
    if s'.requests[i].phase.Accepted? {
      var j := ReplyFound(s.worker.log, phase.responder, reply.value);
      assert AnsweredEmpty(s.worker.log, phase.responder);
    }
    forall q | q in s'.requests
      ensures Behind(s'.worker.log, q)
      ensures Busy(q) ==> exists b :: b in s.requests && Busy(b) && b.phase.responder == q.phase.responder
    {
      if q !in s.requests {
        assert q == s'.requests[i] && r in s.requests;
      }
    }
    forall row | row in s'.rows
      ensures HasWitness(s', row)
    {
      WitnessOutlives(s, s', row);
    }
  }

  /** Moving a request out of its busy phases leaves the rest of the requests as tracked as before. */
  lemma QuietRequests(s: System, s': System, i: nat)
    requires Tracked(s) && i < |s.requests| && s'.worker == s.worker
    requires |s'.requests| == |s.requests| && forall k | 0 <= k < |s.requests| && k != i ::
             s'.requests[k] == s.requests[k]
    requires !Busy(s'.requests[i])
    ensures forall r | r in s'.requests :: Behind(s'.worker.log, r)
    ensures forall j, k | 0 <= j < k < |s'.requests| && Busy(s'.requests[j]) && Busy(s'.requests[k]) ::
              s'.requests[j].phase.responder != s'.requests[k].phase.responder
  {
    hide SentCommands, AcceptedCommand, HasWitness;
    forall r | r in s'.requests
      ensures Behind(s'.worker.log, r)
    {
      var k :| 0 <= k < |s'.requests| && s'.requests[k] == r;
      if k != i {
        assert s.requests[k] in s.requests;
      }
    }
  }

  lemma InsertTracks(p: Policy, max: nat, s: System, i: nat, rowId: Uuid, commit: Commit)
    requires Tracked(s) && Possible(s, Insert(i, rowId, commit))
    ensures Tracked(Do(p, max, s, Insert(i, rowId, commit)))
  {
    hide Collect, Parse, AsU128, ToString, AcceptedCommand, RowAdmitted;
    var r, s' := s.requests[i], Do(p, max, s, Insert(i, rowId, commit));
    var c := CreateTransfer(TransferOf(r, r.phase.user, r.phase.provider), r.phase.responder);
    var row := RowOf(r, r.phase.user, r.phase.provider, rowId);
    assert Behind(s.worker.log, r);
    ParseRoundTrip(r.key);
    forall q | q in s'.requests && Busy(q)
      ensures q in s.requests && q.phase.responder != c.responder
    {
      var k :| 0 <= k < |s'.requests| && s'.requests[k] == q;
      assert k != i;
    }
    assert Witness(s', row, c);
    forall x | x in s'.rows
      ensures HasWitness(s', x)
    {
      if x in s.rows {
        WitnessOutlives(s, s', x);
      }
    }
    QuietRequests(s, s', i);
  }

  lemma QuietTracks(p: Policy, max: nat, s: System, a: Action)
    requires Tracked(s) && Possible(s, a)
    requires a.FetchAccount? || a.CheckKey? || a.FetchProvider? || a.ClearPriority? || a.Respond?
    ensures Tracked(Do(p, max, s, a))
  {
    hide SentCommands, AcceptedCommand, HasWitness, ToString, FindRow;
    var s' := Do(p, max, s, a);
    QuietRequests(s, s', a.i);
    forall r | r in s'.requests && Busy(r)
      ensures r in s.requests
    {
      var k :| 0 <= k < |s'.requests| && s'.requests[k] == r;
      assert k != a.i && s.requests[k] == r;
    }
    forall row | row in s'.rows
      ensures HasWitness(s', row)
    {
      WitnessOutlives(s, s', row);
    }
  }

  lemma WorkerTracks(p: Policy, max: nat, s: System, step: Step)
    requires Safe(p, max, s) && Tracked(s) && Possible(s, WorkerStep(step))
    ensures Tracked(Do(p, max, s, WorkerStep(step)))
  {
    hide Reachable, SentCommands, AcceptedCommand, HasWitness, Behind, Next, Safe, Enabled;
    var s' := Do(p, max, s, WorkerStep(step));
    LogAfter(p, max, s, WorkerStep(step));
    forall r | r in s'.requests
      ensures Behind(s'.worker.log, r)
    {
      BehindOutlives(s.worker.log, s'.worker.log, r);
    }
    forall row | row in s'.rows
      ensures HasWitness(s', row)
    {
      WitnessOutlives(s, s', row);
    }
  }

  lemma ArriveTracks(p: Policy, max: nat, s: System, a: Action)
    requires Tracked(s) && a.Arrive?
    ensures Tracked(Do(p, max, s, a))
  {
    hide SentCommands, AcceptedCommand, HasWitness;
    var s' := Do(p, max, s, a);
    forall row | row in s'.rows
      ensures HasWitness(s', row)
    {
      WitnessOutlives(s, s', row);
    }
  }

  lemma DoTracks(p: Policy, max: nat, s: System, a: Action)
    requires Safe(p, max, s) && Tracked(s) && Possible(s, a)
    ensures Tracked(Do(p, max, s, a))
  {
    hide Safe, Tracked, Do, Possible;
    match a
    case Arrive(_, _, _, _, _) => ArriveTracks(p, max, s, a);
    case Enqueue(i, responder) => EnqueueTracks(p, max, s, i, responder);
    case Observe(i) => ObserveTracks(p, max, s, i);
    case Insert(i, rowId, commit) => InsertTracks(p, max, s, i, rowId, commit);
    case WorkerStep(step) => WorkerTracks(p, max, s, step);
    case _ => QuietTracks(p, max, s, a);
  }

  lemma {:induction false} HistoryTracks(p: Policy, max: nat, states: seq<System>, actions: seq<Action>, n: nat)
    requires IsHistory(p, max, states, actions) && n < |states|
    ensures Tracked(states[n])
  {
    hide Do, Possible, Safe;
    if n > 0 {
      HistoryTracks(p, max, states, actions, n - 1);
      HistoryKeeps(p, max, states, actions, n - 1);
      assert states[n] == Do(p, max, states[n - 1], actions[n - 1]);
      DoTracks(p, max, states[n - 1], actions[n - 1]);
    }
  }

  lemma AlwaysTracked(p: Policy, max: nat, s: System)
    requires Occurs(p, max, s)
    ensures Tracked(s)
  {
    hide Do, Possible, Tracked;
    var states, actions :| IsHistory(p, max, states, actions) && s == states[|actions|];
    HistoryTracks(p, max, states, actions, |actions|);
  }

  // Exactly when the row is written

  lemma SameTransferId(p: Policy, max: nat, w: State, c: Command, d: Command)
    requires Reachable(p, max, w) && AcceptedCommand(w.log, c) && AcceptedCommand(w.log, d)
             && c.transfer.id == d.transfer.id
    ensures c.responder == d.responder
  {
    AcceptedOnce(p, max, w, c, d);
  }

  /** A request whose transfer the ledger accepted finds no row with its key. */
  lemma AcceptedFindsNoRow(p: Policy, max: nat, s: System, r: Request, row: Row)
    requires Occurs(p, max, s) && r in s.requests && r.phase.Accepted? && row in s.rows
    ensures row.idempotencyKey != ToString(r.key)
  {
    hide Occurs, Reachable, Parse, AsU128, ToString, AcceptedCommand;
    AlwaysSafe(p, max, s);
    AlwaysTracked(p, max, s);
    if row.idempotencyKey == ToString(r.key) {
      var c :| Witness(s, row, c);
      ParseRoundTrip(r.key);
      assert Behind(s.worker.log, r);
      SameTransferId(p, max, s.worker, c,
                     CreateTransfer(TransferOf(r, r.phase.user, r.phase.provider), r.phase.responder));
      assert false;
    }
  }

  /**
    Exactly when an accepted transfer gets its row: the database commits, the amount is positive
    and below 2^63, and the drawn row id is new. The idempotency key never stands in the way.
   */
  lemma RowWrittenExactly(p: Policy, max: nat, s: System, i: nat, rowId: Uuid, commit: Commit)
    requires Occurs(p, max, s) && Possible(s, Insert(i, rowId, commit))
    ensures HasRow(Do(p, max, s, Insert(i, rowId, commit)).rows, s.requests[i].key, rowId) <==>
            commit != Aborted && 0 < s.requests[i].amount < TWO_63 && forall row | row in s.rows :: row.id != rowId
  {
    hide Occurs, ToString;
    var r := s.requests[i];
    var row := RowOf(r, r.phase.user, r.phase.provider, rowId);
    PositiveUnwrapped(r.amount);
    forall x | x in s.rows
      ensures x.idempotencyKey != ToString(r.key)
    {
      AcceptedFindsNoRow(p, max, s, r, x);
    }
    var s' := Do(p, max, s, Insert(i, rowId, commit));
    if RowAdmitted(s.rows, row) && commit != Aborted {
      assert row in s'.rows;
    }
  }
}
