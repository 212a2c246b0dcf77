/** Exactly when a posted transfer may still get its row, and what becomes of the others. */
module SagaOrphans {
  import opened Wrappers
  import opened Numbers
  import opened Uuids
  import opened Ledgers
  import opened WorkerSpec
  import opened StoreCalls
  import WorkerProofs
  import WorkerResults
  import WorkerAnswers
  import opened Saga
  import opened SagaProofs
  import opened SagaExactness

  // Accepted commands and the calls that accepted them

  lemma PostedStays(p: Policy, log: seq<Event>, k1: nat, k2: nat, id: u128)
    requires k1 <= k2 <= |log| && IsPosted(WorkerProofs.LedgerAt(p, log[..k1]).posted, id)
    ensures IsPosted(WorkerProofs.LedgerAt(p, log[..k2]).posted, id)
  {
    hide WorkerProofs.LedgerAt;
    PostedUpTo(p, log, k1, k2);
    var before, after := WorkerProofs.LedgerAt(p, log[..k1]).posted, WorkerProofs.LedgerAt(p, log[..k2]).posted;
    var i :| 0 <= i < |before| && before[i].id == id;
    assert after[i] == before[i];
  }

  /** An accepted call posts an id that was not posted before it and is from then on. */
  lemma AcceptedCallPostsNew(p: Policy, max: nat, w: State, k: nat, i: nat)
    requires Reachable(p, max, w) && AcceptedCall(w.log, k) && i < |w.log[k].batch| && w.log[k].batch[i].CreateTransfer?
    ensures !IsPosted(WorkerProofs.LedgerAt(p, w.log[..k]).posted, w.log[k].batch[i].transfer.id)
    ensures IsPosted(WorkerProofs.LedgerAt(p, w.log[..k + 1]).posted, w.log[k].batch[i].transfer.id)
  {
    hide Reachable, CreatesOf, TransfersOf, WorkerProofs.LedgerAt;
    CallAppends(p, max, w, k);
    var before, after := WorkerProofs.LedgerAt(p, w.log[..k]).posted, WorkerProofs.LedgerAt(p, w.log[..k + 1]).posted;
    assert IdsDistinct(after) by { WorkerAnswers.BooksAtCall(p, w.log[..k + 1]); }
    var t := w.log[k].batch[i].transfer;
    assert after[|before| + i] == t;
    forall n | 0 <= n < |before|
      ensures before[n].id != t.id
    {
      assert after[n] == before[n];
    }
  }

  lemma CallOfAccepted(p: Policy, max: nat, w: State, c: Command) returns (k: nat, i: nat)
    requires Reachable(p, max, w) && AcceptedCommand(w.log, c)
    ensures AcceptedCall(w.log, k) && WorkerResults.CalledAt(w.log, k, i, c)
  {
    hide Reachable, SentCommands;
    var j :| 0 <= j < |w.log| && w.log[j] == Replied(c.responder, Created(Ok([])));
    var sent;
    sent, k, i := WorkerResults.CallBehindReply(p, max, w, c, j);
  }

  lemma {:induction false} InResponders(cs: seq<Command>, c: Command)
    requires c in cs
    ensures c.responder in WorkerProofs.Responders(cs)
  {
    var n := |cs| - 1;
    if cs[n] != c {
      assert cs == cs[..n] + [cs[n]];
      InResponders(cs[..n], c);
    }
  }

  /** Every command of an accepted call has been told so. */
  lemma AcceptedByCall(p: Policy, max: nat, w: State, c: Command, k: nat, i: nat)
    requires Reachable(p, max, w) && AcceptedCall(w.log, k) && WorkerResults.CalledAt(w.log, k, i, c)
             && c.CreateTransfer?
    ensures AcceptedCommand(w.log, c)
  {
    hide Reachable, WorkerProofs.LogOk, WorkerProofs.AllInOrder, Collect;
    WorkerResults.ReachableOk(p, max, w);
    WorkerResults.CollectIn(w.log, k, CalledIn, c);
    WorkerResults.CalledWasSent(p, max, w, c);
    InResponders(CalledCommands(w.log), c);
    assert c.responder in Answered(w.log);
    var j := WorkerResults.InCollect(w.log, RepliedIn, c.responder);
    var _, k2, i2 := WorkerResults.CallBehindReply(p, max, w, c, j);
    WorkerResults.CalledTwice(p, max, w, k, i, k2, i2, c);
    assert w.log[j] == Replied(c.responder, Created(Ok([])));
  }

  /** Once an id is posted, no step of the worker accepts a further command with it. */
  lemma NoLateAcceptance(p: Policy, max: nat, w: State, step: Step, c: Command)
    requires Reachable(p, max, w) && Enabled(w, step) && AcceptedCommand(Next(p, max, w, step).log, c)
    requires IsPosted(w.ledger.posted, c.transfer.id)
    ensures AcceptedCommand(w.log, c)
  {
    hide Reachable, Next, Enabled, Collect, WorkerProofs.LogOk, WorkerProofs.AllInOrder, WorkerProofs.LedgerAt;
    var w' := Next(p, max, w, step);
    WorkerResults.NextReachable(p, max, w, step);
    WorkerGrows(p, max, w, step);
    var k, i := CallOfAccepted(p, max, w', c);
    if k < |w.log| {
      assert w'.log[k] == w.log[k];
      AcceptedByCall(p, max, w, c, k, i);
    } else {
      WorkerResults.ReachableOk(p, max, w);
      assert w'.log[..|w.log|] == w.log;
      PostedStays(p, w'.log, |w.log|, k, c.transfer.id);
      AcceptedCallPostsNew(p, max, w', k, i);
    }
  }

  // Orphans

  ghost predicate KeyPosted(s: System, key: Uuid) {
    IsPosted(s.worker.ledger.posted, AsU128(key))
  }

  ghost predicate HasKey(rows: seq<Row>, key: Uuid) {
    exists row :: row in rows && row.idempotencyKey == ToString(key)
  }

  function CommandOf(r: Request): Command
    requires Busy(r)
  {
    CreateTransfer(TransferOf(r, r.phase.user, r.phase.provider), r.phase.responder)
  }

  /** The request still has a row to write: its own command was accepted, and its amount passes the check. */
  ghost predicate OwedBy(s: System, key: Uuid, r: Request) {
    r in s.requests && r.key == key && Busy(r) && AcceptedCommand(s.worker.log, CommandOf(r)) && 0 < r.amount < TWO_63
  }

  ghost predicate Owed(s: System, key: Uuid) {
    exists r :: OwedBy(s, key, r)
  }

  /** Posted, without a row, and with nobody left who would write one. */
  ghost predicate Orphan(s: System, key: Uuid) {
    KeyPosted(s, key) && !HasKey(s.rows, key) && !Owed(s, key)
  }

  lemma IsOwed(s: System, key: Uuid, r: Request)
    requires OwedBy(s, key, r)
    ensures Owed(s, key)
  {
  }

  lemma KeyStaysPosted(s: System, s': System, key: Uuid)
    requires KeyPosted(s, key) && s.worker.ledger.posted <= s'.worker.ledger.posted
    ensures KeyPosted(s', key)
  {
    hide AsU128;
    var i :| 0 <= i < |s.worker.ledger.posted| && s.worker.ledger.posted[i].id == AsU128(key);
    assert s'.worker.ledger.posted[i] == s.worker.ledger.posted[i];
  }

  /** Nothing new is owed when every busy request stood for the same command before. */
  lemma QuietOwes(s: System, s': System, key: Uuid)
    requires s'.worker == s.worker && forall r | r in s'.requests && Busy(r) ::
               exists b ::
                 b in s.requests && Busy(b) && b.key == r.key && b.amount == r.amount && CommandOf(b) == CommandOf(r)
    ensures Owed(s', key) ==> Owed(s, key)
  {
    hide AcceptedCommand, CommandOf;
    if Owed(s', key) {
      var r :| OwedBy(s', key, r);
      var b :| b in s.requests && Busy(b) && b.key == r.key && b.amount == r.amount && CommandOf(b) == CommandOf(r);
      IsOwed(s, key, b);
    }
  }

  lemma SamePostings(s: System, s': System, key: Uuid)
    requires KeyPosted(s, key) && s.worker == s'.worker
    ensures KeyPosted(s', key)
  {
  }

  lemma MoveKeepsOrphan(p: Policy, max: nat, s: System, a: Action, key: Uuid)
    requires Possible(s, a) && Orphan(s, key)
    requires a.FetchAccount? || a.CheckKey? || a.FetchProvider? || a.ClearPriority?
             || a.Respond? || a.Observe? || a.Arrive?
    ensures Orphan(Do(p, max, s, a), key)
  {
    hide Owed, HasKey, KeyPosted, ToString, AsU128, FindRow, FindReply;
    var s' := Do(p, max, s, a);
    forall r | r in s'.requests && Busy(r)
      ensures exists b ::
                b in s.requests && Busy(b) && b.key == r.key && b.amount == r.amount && CommandOf(b) == CommandOf(r)
    {
      var k :| 0 <= k < |s'.requests| && s'.requests[k] == r;
      assert k < |s.requests|;
      assert s.requests[k] in s.requests && CommandOf(s.requests[k]) == CommandOf(r);
    }
    QuietOwes(s, s', key);
    hide *;
    SamePostings(s, s', key);
  }

  lemma OwedOne(s: System, key: Uuid) returns (r: Request)
    requires Owed(s, key)
    ensures OwedBy(s, key, r)
  {
    r :| OwedBy(s, key, r);
  }

  lemma WorkerOwes(p: Policy, max: nat, s: System, step: Step, key: Uuid)
    requires Safe(p, max, s) && Enabled(s.worker, step) && KeyPosted(s, key)
    ensures Owed(s.(worker := Next(p, max, s.worker, step)), key) ==> Owed(s, key)
  {
    hide Reachable, Next, Enabled, AcceptedCommand, AsU128, Owed;
    var s' := s.(worker := Next(p, max, s.worker, step));
    if Owed(s', key) {
      var r := OwedOne(s', key);
      NoLateAcceptance(p, max, s.worker, step, CommandOf(r));
      IsOwed(s, key, r);
    }
  }

  lemma WorkerKeepsOrphan(p: Policy, max: nat, s: System, step: Step, key: Uuid)
    requires Safe(p, max, s) && Possible(s, WorkerStep(step)) && Orphan(s, key)
    ensures Orphan(Do(p, max, s, WorkerStep(step)), key)
  {
    hide HasKey, Reachable, Next, Enabled, Owed, AsU128;
    WorkerGrows(p, max, s.worker, step);
    KeyStaysPosted(s, Do(p, max, s, WorkerStep(step)), key);
    WorkerOwes(p, max, s, step, key);
  }

  lemma EnqueueOwes(p: Policy, max: nat, s: System, i: nat, responder: nat, key: Uuid)
    requires Safe(p, max, s) && Possible(s, Enqueue(i, responder)) && KeyPosted(s, key)
    ensures Owed(Do(p, max, s, Enqueue(i, responder)), key) ==> Owed(s, key)
  {
    hide Reachable, Collect, AsU128, IsPosted, Owed;
    var r := s.requests[i];
    var step := Send(CreateTransfer(TransferOf(r, r.phase.user, r.phase.provider), responder));
    var s' := Do(p, max, s, Enqueue(i, responder));
    assert s'.worker == Next(p, max, s.worker, step);
    if Owed(s', key) {
      var q := OwedOne(s', key);
      NoLateAcceptance(p, max, s.worker, step, CommandOf(q));
      assert CommandOf(q).responder != responder;
      IsOwed(s, key, q);
    }
  }

  lemma EnqueueKeepsOrphan(p: Policy, max: nat, s: System, i: nat, responder: nat, key: Uuid)
    requires Safe(p, max, s) && Possible(s, Enqueue(i, responder)) && Orphan(s, key)
    ensures Orphan(Do(p, max, s, Enqueue(i, responder)), key)
  {
    hide HasKey, Owed, Safe, Possible, AsU128;
    EnqueueOwes(p, max, s, i, responder, key);
    KeyStaysPosted(s, Do(p, max, s, Enqueue(i, responder)), key);
  }

  lemma InsertOwes(p: Policy, max: nat, s: System, i: nat, rowId: Uuid, commit: Commit, key: Uuid)
    requires Tracked(s) && Possible(s, Insert(i, rowId, commit))
    ensures Owed(Do(p, max, s, Insert(i, rowId, commit)), key) ==> Owed(s, key)
    ensures HasKey(Do(p, max, s, Insert(i, rowId, commit)).rows, key) ==> HasKey(s.rows, key) || Owed(s, key)
  {
    hide AcceptedCommand, AsU128, ToString, HasWitness, Owed;
    var r, s' := s.requests[i], Do(p, max, s, Insert(i, rowId, commit));
    assert Behind(s.worker.log, r);
    KeyFormsInjective(r.key, key);
    PositiveUnwrapped(r.amount);
    forall q | q in s'.requests && Busy(q)
      ensures q in s.requests
    {
      var k :| 0 <= k < |s'.requests| && s'.requests[k] == q;
      assert k != i;
    }
    if Owed(s', key) {
      var q := OwedOne(s', key);
      IsOwed(s, key, q);
    }
    if s'.rows != s.rows && r.key == key {
      IsOwed(s, key, r);
    }
  }

  lemma InsertKeepsOrphan(p: Policy, max: nat, s: System, i: nat, rowId: Uuid, commit: Commit, key: Uuid)
    requires Tracked(s) && Possible(s, Insert(i, rowId, commit)) && Orphan(s, key)
    ensures Orphan(Do(p, max, s, Insert(i, rowId, commit)), key)
  {
    hide HasKey, Owed, Tracked, Possible, AsU128, RowAdmitted;
    InsertOwes(p, max, s, i, rowId, commit, key);
  }

  lemma DoKeepsOrphan(p: Policy, max: nat, s: System, a: Action, key: Uuid)
    requires Safe(p, max, s) && Tracked(s) && Possible(s, a) && Orphan(s, key)
    ensures Orphan(Do(p, max, s, a), key)
  {
    hide Safe, Tracked, Do, Possible, Orphan;
    match a
    case Enqueue(i, responder) => EnqueueKeepsOrphan(p, max, s, i, responder, key);
    case Insert(i, rowId, commit) => InsertKeepsOrphan(p, max, s, i, rowId, commit, key);
    case WorkerStep(step) => WorkerKeepsOrphan(p, max, s, step, key);
    case _ => MoveKeepsOrphan(p, max, s, a, key);
  }

  // What may come

  /** States and actions that lead on from `s`. */
  ghost predicate IsPath(p: Policy, max: nat, s: System, states: seq<System>, actions: seq<Action>) {
    && |states| == |actions| + 1
    && states[0] == s
    && forall i | 0 <= i < |actions| ::
         Possible(states[i], actions[i]) && states[i + 1] == Do(p, max, states[i], actions[i])
  }

  /** An orphan stays one, whatever happens and however often the request is repeated: it never gets a row. */
  lemma {:induction false} OrphanForever(p: Policy, max: nat, s: System, states: seq<System>, actions: seq<Action>,
          n: nat, key: Uuid)
    requires Occurs(p, max, s) && Orphan(s, key) && IsPath(p, max, s, states, actions) && n < |states|
    ensures Occurs(p, max, states[n]) && Orphan(states[n], key)
  {
    hide Occurs, Do, Possible, Orphan, Safe, Tracked;
    if n > 0 {
      OrphanForever(p, max, s, states, actions, n - 1, key);
      assert Possible(states[n - 1], actions[n - 1]);
      AlwaysSafe(p, max, states[n - 1]);
      AlwaysTracked(p, max, states[n - 1]);
      DoKeepsOrphan(p, max, states[n - 1], actions[n - 1], key);
      var t := Extend(p, max, states[n - 1], actions[n - 1]);
    }
  }

  /** The key has a row, or comes to have one on some path. */
  ghost predicate RowMayCome(p: Policy, max: nat, s: System, key: Uuid) {
    exists states: seq<System>, actions :: IsPath(p, max, s, states, actions) && HasKey(states[|actions|].rows, key)
  }

  lemma {:induction false} SomeReply(log: seq<Event>, responder: nat, j: nat)
    requires j < |log| && log[j].Replied? && log[j].responder == responder
    ensures FindReply(log, responder).Some?
  {
    var n := |log| - 1;
    if j < n {
      SomeReply(log[..n], responder, j);
    }
  }

  /** All replies to a command are the same. */
  lemma ReplyIsEmpty(p: Policy, max: nat, w: State, c: Command)
    requires Reachable(p, max, w) && AcceptedCommand(w.log, c)
    ensures FindReply(w.log, c.responder) == Some(Created(Ok([])))
  {
    hide Reachable, SentCommands, FindReply;
    var j :| 0 <= j < |w.log| && w.log[j] == Replied(c.responder, Created(Ok([])));
    SomeReply(w.log, c.responder, j);
    var n := ReplyFound(w.log, c.responder, FindReply(w.log, c.responder).value);
    var _, k1, i1 := WorkerResults.CallBehindReply(p, max, w, c, j);
    var _, k2, i2 := WorkerResults.CallBehindReply(p, max, w, c, n);
    WorkerResults.CalledTwice(p, max, w, k1, i1, k2, i2, c);
  }

  /** The insert of an accepted request with a good amount and a new row id writes the row. */
  lemma AcceptedGetsRow(p: Policy, max: nat, s: System, i: nat, rowId: Uuid)
    requires Occurs(p, max, s) && i < |s.requests| && s.requests[i].phase.Accepted? && 0 < s.requests[i].amount < TWO_63
    requires forall row | row in s.rows :: row.id != rowId
    ensures Possible(s, Insert(i, rowId, Committed))
            && HasKey(Do(p, max, s, Insert(i, rowId, Committed)).rows, s.requests[i].key)
  {
    hide Occurs, ToString;
    RowWrittenExactly(p, max, s, i, rowId, Committed);
  }

  lemma ObserveAccepts(p: Policy, max: nat, s: System, i: nat)
    requires Reachable(p, max, s.worker) && i < |s.requests| && s.requests[i].phase.Waiting?
    requires AcceptedCommand(s.worker.log, CommandOf(s.requests[i]))
    ensures Possible(s, Observe(i))
    ensures var r, t := s.requests[i], Do(p, max, s, Observe(i));
            t.rows == s.rows && |t.requests| == |s.requests|
            && t.requests[i] == r.(phase := Accepted(r.phase.user, r.phase.provider, r.phase.responder))
  {
    hide Reachable, AcceptedCommand, FindReply, TransferOf;
    ReplyIsEmpty(p, max, s.worker, CommandOf(s.requests[i]));
  }

  lemma AcceptedMayCome(p: Policy, max: nat, s: System, i: nat, rowId: Uuid)
    requires Occurs(p, max, s) && i < |s.requests| && s.requests[i].phase.Accepted? && 0 < s.requests[i].amount < TWO_63
    requires forall row | row in s.rows :: row.id != rowId
    ensures RowMayCome(p, max, s, s.requests[i].key)
  {
    hide Occurs, HasKey, Do, Possible;
    var insert := Insert(i, rowId, Committed);
    AcceptedGetsRow(p, max, s, i, rowId);
    assert IsPath(p, max, s, [s, Do(p, max, s, insert)], [insert]);
  }

  lemma PathFromNext(p: Policy, max: nat, s: System, a: Action, key: Uuid)
    requires Possible(s, a) && RowMayCome(p, max, Do(p, max, s, a), key)
    ensures RowMayCome(p, max, s, key)
  {
    hide HasKey, Do, Possible;
    var states: seq<System>, actions :|
        IsPath(p, max, Do(p, max, s, a), states, actions) && HasKey(states[|actions|].rows, key);
    var states', actions' := [s] + states, [a] + actions;
    forall i | 0 <= i < |actions'|
      ensures Possible(states'[i], actions'[i]) && states'[i + 1] == Do(p, max, states'[i], actions'[i])
    {
      if i > 0 {
        assert Possible(states[i - 1], actions[i - 1]);
      }
    }
    assert IsPath(p, max, s, states', actions');
  }

  lemma OwedMayCome(p: Policy, max: nat, s: System, key: Uuid, rowId: Uuid)
    requires Occurs(p, max, s) && Owed(s, key) && forall row | row in s.rows :: row.id != rowId
    ensures RowMayCome(p, max, s, key)
  {
    hide Occurs, RowMayCome, AcceptedCommand, Do, Possible, CommandOf;
    var r := OwedOne(s, key);
    var i :| 0 <= i < |s.requests| && s.requests[i] == r;
    if r.phase.Accepted? {
      AcceptedMayCome(p, max, s, i, rowId);
    } else {
      assert Reachable(p, max, s.worker) by { AlwaysSafe(p, max, s); }
      ObserveAccepts(p, max, s, i);
      var t := Extend(p, max, s, Observe(i));
      AcceptedMayCome(p, max, t, i, rowId);
      PathFromNext(p, max, s, Observe(i), key);
    }
  }

  /**
    Exactly when a posted transfer has a row or may still come to have one, given that some row id is
    unused: a row has its key, or a request with the key, whose own command was accepted and whose amount
    is positive and below 2^63, has not yet inserted. No retry makes up for it.
   */
  lemma RowComesExactly(p: Policy, max: nat, s: System, key: Uuid, rowId: Uuid)
    requires Occurs(p, max, s) && KeyPosted(s, key) && forall row | row in s.rows :: row.id != rowId
    ensures RowMayCome(p, max, s, key) <==> HasKey(s.rows, key) || Owed(s, key)
  {
    hide Occurs, Owed, HasKey, KeyPosted, Do, Possible;
    if HasKey(s.rows, key) {
      assert IsPath(p, max, s, [s], []);
    } else if Owed(s, key) {
      OwedMayCome(p, max, s, key, rowId);
    } else if RowMayCome(p, max, s, key) {
      var states: seq<System>, actions :| IsPath(p, max, s, states, actions) && HasKey(states[|actions|].rows, key);
      OrphanForever(p, max, s, states, actions, |actions|, key);
    }
  }

  lemma LedgerOfLog(p: Policy, max: nat, w: State)
    requires Reachable(p, max, w)
    ensures w.ledger == WorkerProofs.LedgerAt(p, w.log)
  {
    WorkerResults.ReachableOk(p, max, w);
  }

  /** No accepted call carries an id that a call with another answer has posted. */
  lemma NotAccepted(p: Policy, max: nat, w: State, k: nat, c: Command, key: Uuid)
    requires Reachable(p, max, w) && k < |w.log| && w.log[k].Called? && w.log[k].reply != Created(Ok([]))
    requires !IsPosted(WorkerProofs.LedgerAt(p, w.log[..k]).posted, AsU128(key))
    requires IsPosted(WorkerProofs.LedgerAt(p, w.log[..k + 1]).posted, AsU128(key))
    requires c.CreateTransfer? && c.transfer.id == AsU128(key)
    ensures !AcceptedCommand(w.log, c)
  {
    hide Reachable, AsU128, WorkerProofs.LedgerAt, IsPosted, AcceptedCommand;
    if AcceptedCommand(w.log, c) {
      var n, i := CallOfAccepted(p, max, w, c);
      AcceptedCallPostsNew(p, max, w, n, i);
      if n < k {
        PostedStays(p, w.log, n + 1, k, AsU128(key));
      } else if n > k {
        PostedStays(p, w.log, k + 1, n, AsU128(key));
      }
    }
  }

  /**
    Where orphans come from, besides an insert that fails: a transfer posted by a call whose answer was
    lost or lists any refusal, even of another transfer, is an orphan from then on.
   */
  lemma UnheardIsOrphan(p: Policy, max: nat, s: System, k: nat, key: Uuid)
    requires Occurs(p, max, s) && k < |s.worker.log| && s.worker.log[k].Called?
             && s.worker.log[k].reply != Created(Ok([]))
    requires !IsPosted(WorkerProofs.LedgerAt(p, s.worker.log[..k]).posted, AsU128(key))
    requires IsPosted(WorkerProofs.LedgerAt(p, s.worker.log[..k + 1]).posted, AsU128(key))
    ensures Orphan(s, key)
  {
    hide Occurs, Reachable, AsU128, ToString, Parse, Collect, WorkerProofs.LedgerAt, IsPosted, AnsweredEmpty;
    AlwaysSafe(p, max, s);
    AlwaysTracked(p, max, s);
    var w := s.worker;
    PostedStays(p, w.log, k + 1, |w.log|, AsU128(key));
    assert w.log[..|w.log|] == w.log;
    assert w.ledger == WorkerProofs.LedgerAt(p, w.log) by { LedgerOfLog(p, max, w); }
    if HasKey(s.rows, key) {
      var row :| row in s.rows && row.idempotencyKey == ToString(key);
      var c :| Witness(s, row, c);
      ParseRoundTrip(key);
      NotAccepted(p, max, w, k, c, key);
    }
    if r :| OwedBy(s, key, r) {
      NotAccepted(p, max, w, k, CommandOf(r), key);
    }
  }
}
