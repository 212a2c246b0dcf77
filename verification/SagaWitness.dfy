/** Requests from start to end without a fault: what they achieve, and that a debit that clears its priority goes on. */
module SagaWitness {
  import opened Wrappers
  import opened Numbers
  import opened Uuids
  import opened Ledgers
  import opened WorkerSpec
  import opened StoreCalls
  import opened WorkerWitness
  import opened Saga
  import opened SagaProofs
  import opened SagaExactness

  lemma ReplyOfServed(p: Policy, w: State, c: Command)
    requires Idle(w, c.responder)
    ensures FindReply(Served(p, w, c).log, c.responder) == Some(Answer(p, w.ledger, KindOf(c), [c]))
  {
    hide Answer, Served;
    ServedAtOnce(p, w, c);
  }

  // Building a history

  lemma OneEvent(l: Ledger, e: Create)
    ensures ApplyAll(LENIENT, l, [e]) == Apply(LENIENT, l, e)
    ensures Failures(LENIENT, l, [e]) == [] <==> Verdict(LENIENT, l, e).None?
  {
    hide Verdict, Apply;
    assert [e][..0] == [];
    assert ApplyAll(LENIENT, l, []) == l && Failures(LENIENT, l, []) == [];
  }

  lemma OneCreate(l: Ledger, c: Command, e: Create)
    requires (c.CreateAccount? && e == NewAccount(c.account)) || (c.CreateTransfer? && e == NewTransfer(c.transfer))
    ensures CreatesOf([c]) == [e]
    ensures ApplyAll(LENIENT, l, [e]) == Apply(LENIENT, l, e)
    ensures Verdict(LENIENT, l, e).None? <==> Answer(LENIENT, l, KindOf(c), [c]) == Created(Ok([]))
    ensures Answer(LENIENT, l, KindOf(c), [c]).Created? && Answer(LENIENT, l, KindOf(c), [c]).results.Ok?
  {
    hide Verdict, Apply, ApplyAll, Failures;
    assert [c][..0] == [];
    assert CreatesOf([c]) == CreatesOf([]) + [e];
    OneEvent(l, e);
  }

  /** Opening an account from anywhere in the system. */
  lemma OpenAccount(s: System, a: Account, responder: nat) returns (t: System)
    requires Occurs(LENIENT, 1, s) && Idle(s.worker, responder) && a.id !in s.worker.ledger.accounts
    requires a.debitsPending == a.debitsPosted == a.creditsPending == a.creditsPosted == 0
    ensures Occurs(LENIENT, 1, t) && Idle(t.worker, responder + 1) && t.requests == s.requests && t.rows == s.rows
    ensures t.worker.ledger == s.worker.ledger.(accounts := s.worker.ledger.accounts[a.id := a])
  {
    hide Occurs, Idle, Next;
    var c := CreateAccount(a, responder);
    ServedAtOnce(LENIENT, s.worker, c);
    t := Extend(LENIENT, 1, s, WorkerStep(Send(c)));
    t := Extend(LENIENT, 1, t, WorkerStep(Receive(Done)));
    OneCreate(s.worker.ledger, c, NewAccount(a));
  }

  // One request from start to end

  /** The phase from which a request enqueues its transfer. */
  function ReadyPhase(d: Direction, user: Uuid, provider: Uuid): Phase {
    match d
    case Credit => ProviderKnown(user, provider)
    case Debit => PriorityCleared(user, provider)
  }

  /** A request that has passed its reads and, for a debit, the priority step. */
  lemma ReadsPass(s: System, r: Request, user: Uuid, provider: Uuid) returns (t: System)
    requires Occurs(LENIENT, 1, s) && r.phase == Arrived && FindRow(s.rows, ToString(r.key)).None?
    ensures Occurs(LENIENT, 1, t)
    ensures t == s.(requests := s.requests + [r.(phase := ReadyPhase(r.direction, user, provider))])
  {
    hide Occurs, Next, AsU128, ToString, Fresh, Enabled, FindRow;
    var i := |s.requests|;
    t := Extend(LENIENT, 1, s, Arrive(r.direction, r.key, r.amount, r.userId, r.providerId));
    t := Extend(LENIENT, 1, t, FetchAccount(i, Present(user)));
    t := Extend(LENIENT, 1, t, CheckKey(i, true));
    t := Extend(LENIENT, 1, t, FetchProvider(i, Present(provider)));
    if r.direction == Debit {
      t := Extend(LENIENT, 1, t, ClearPriority(i, true));
    }
    assert t.requests == s.requests + [r.(phase := ReadyPhase(r.direction, user, provider))];
  }

  lemma CanSend(w: State, c: Command)
    requires Enabled(w, Send(c))
    ensures !w.closed && Fresh(w.log, c.responder)
  {
  }

  /** The ledger's answer to a ready request: accepted if its transfer meets no objection, rejected otherwise. */
  lemma LedgerAnswers(s: System, r: Request, user: Uuid, provider: Uuid, responder: nat) returns (t: System)
    requires Occurs(LENIENT, 1, s) && Idle(s.worker, responder)
    requires s.requests != [] && s.requests[|s.requests| - 1] == r && r.phase == ReadyPhase(r.direction, user, provider)
    ensures Occurs(LENIENT, 1, t) && Idle(t.worker, responder + 1) && t.rows == s.rows
    ensures t.worker.ledger == Apply(LENIENT, s.worker.ledger, NewTransfer(TransferOf(r, user, provider)))
    ensures t.requests == s.requests[|s.requests| - 1 := r.(phase :=
              if Verdict(LENIENT, s.worker.ledger, NewTransfer(TransferOf(r, user, provider))).None? then
                Accepted(user, provider, responder)
              else Finished(Rejected))]
  {
    hide Occurs, Idle, Next, Collect, FindReply, TransferOf, Answer, CreatesOf, ApplyAll, Verdict, Apply, Enabled;
    var i := |s.requests| - 1;
    var c := CreateTransfer(TransferOf(r, user, provider), responder);
    ServedAtOnce(LENIENT, s.worker, c);
    ReplyOfServed(LENIENT, s.worker, c);
    OneCreate(s.worker.ledger, c, NewTransfer(c.transfer));
    assert !s.worker.closed && Fresh(s.worker.log, responder) by { CanSend(s.worker, c); }
    t := Extend(LENIENT, 1, s, Enqueue(i, responder));
    assert t.requests[i] == r.(phase := Waiting(user, provider, responder));
    t := Extend(LENIENT, 1, t, WorkerStep(Receive(Done)));
    assert t.worker == Served(LENIENT, s.worker, c);
    t := Extend(LENIENT, 1, t, Observe(i));
  }

  /** An accepted request whose insert and answer meet no fault. */
  lemma InsertAnswers(s: System, r: Request, user: Uuid, provider: Uuid, responder: nat, rowId: Uuid)
          returns (t: System)
    requires Occurs(LENIENT, 1, s) && s.requests != [] && s.requests[|s.requests| - 1] == r
    requires r.phase == Accepted(user, provider, responder)
    requires forall row | row in s.rows :: row.idempotencyKey != ToString(r.key) && row.id != rowId
    ensures Occurs(LENIENT, 1, t) && t.worker == s.worker
    ensures t.requests == s.requests[|s.requests| - 1 := r.(phase :=
              if 0 < r.amount < TWO_63 then Succeeded(user, provider, rowId) else Finished(InternalError))]
    ensures t.rows == if 0 < r.amount < TWO_63 then s.rows + [RowOf(r, user, provider, rowId)] else s.rows
  {
    hide Occurs, ToString, WrapI64;
    var i := |s.requests| - 1;
    PositiveUnwrapped(r.amount);
    t := Extend(LENIENT, 1, s, Insert(i, rowId, Committed));
    if 0 < r.amount < TWO_63 {
      t := Extend(LENIENT, 1, t, Respond(i, true));
    }
  }

  /** A whole request, of either direction, that meets no fault. */
  lemma Serve(s: System, r: Request, user: Uuid, provider: Uuid, responder: nat, rowId: Uuid) returns (t: System)
    requires Occurs(LENIENT, 1, s) && Idle(s.worker, responder) && r.phase == Arrived
    requires forall row | row in s.rows :: row.idempotencyKey != ToString(r.key) && row.id != rowId
    ensures Occurs(LENIENT, 1, t) && Idle(t.worker, responder + 1)
    ensures t.worker.ledger == Apply(LENIENT, s.worker.ledger, NewTransfer(TransferOf(r, user, provider)))
    ensures var accepted := Verdict(LENIENT, s.worker.ledger, NewTransfer(TransferOf(r, user, provider))).None?;
            var written := accepted && 0 < r.amount < TWO_63;
            && t.rows == (if written then s.rows + [RowOf(r, user, provider, rowId)] else s.rows)
            && t.requests == s.requests + [r.(phase :=
                 if written then Succeeded(user, provider, rowId)
                 else if accepted then Finished(InternalError)
                 else Finished(Rejected))]
  {
    hide Occurs, Idle, Apply, Verdict, AsU128, ToString, Do, Possible;
    t := ReadsPass(s, r, user, provider);
    var ready := r.(phase := ReadyPhase(r.direction, user, provider));
    assert TransferOf(ready, user, provider) == TransferOf(r, user, provider);
    t := LedgerAnswers(t, ready, user, provider, responder);
    if Verdict(LENIENT, s.worker.ledger, NewTransfer(TransferOf(r, user, provider))).None? {
      var accepted := r.(phase := Accepted(user, provider, responder));
      t := InsertAnswers(t, accepted, user, provider, responder, rowId);
    }
  }

  lemma FirstState() returns (s: System)
    ensures s == INITIAL && Occurs(LENIENT, 1, s) && Idle(s.worker, 0)
  {
    s := INITIAL;
    assert IsHistory(LENIENT, 1, [INITIAL], []);
  }

  /** A system in which the accounts of a provider and of a user with it have been opened. */
  lemma Opened(user: Uuid, provider: Uuid) returns (s: System)
    requires AsU128(user) != AsU128(provider)
    ensures Occurs(LENIENT, 1, s) && Idle(s.worker, 2) && s.requests == [] && s.rows == []
    ensures s.worker.ledger
            == Ledger(map[AsU128(provider) := Account(AsU128(provider), 0, 0, 0, 0, false)]
                         [AsU128(user) := Account(AsU128(user), 0, 0, 0, 0, true)], [])
  {
    hide Occurs, Idle, Next, AsU128, Do, Possible, Verdict;
    s := FirstState();
    s := OpenAccount(s, Account(AsU128(provider), 0, 0, 0, 0, false), 0);
    s := OpenAccount(s, Account(AsU128(user), 0, 0, 0, 0, true), 1);
  }

  /** The ledger of `Opened` after a first credit. */
  lemma Credited(l: Ledger, user: u128, provider: u128, id: u128, amount: u64)
    requires user != provider
    requires
      l == Ledger(map[provider := Account(provider, 0, 0, 0, 0, false)][user := Account(user, 0, 0, 0, 0, true)], [])
    ensures var t := Transfer(id, provider, user, amount);
            && Verdict(LENIENT, l, NewTransfer(t)).None?
            && Apply(LENIENT, l, NewTransfer(t))
               == Ledger(map[provider := Account(provider, 0, amount, 0, 0, false)]
                            [user := Account(user, 0, 0, 0, amount, true)], [t])
  {
  }

  /** A debit of an account that holds `funds`: refused exactly when it asks for more. */
  lemma Debited(l: Ledger, user: u128, provider: u128, first: Transfer, funds: u64, id: u128, amount: u64)
    requires user != provider && first.id != id
    requires l == Ledger(map[provider := Account(provider, 0, funds, 0, 0, false)]
                            [user := Account(user, 0, 0, 0, funds, true)], [first])
    ensures var t := Transfer(id, user, provider, amount);
            && (Verdict(LENIENT, l, NewTransfer(t)).None? <==> amount <= funds)
            && Apply(LENIENT, l, NewTransfer(t)).posted == if amount <= funds then [first, t] else [first]
  {
    assert !IsPosted(l.posted, id);
  }

  /**
    A credit of any amount in a system without faults: both accounts are opened, the credit arrives,
    and every call succeeds. Its transfer is posted. Its row is written, and the response is a
    success, only if the amount is positive and below 2^63; otherwise the money has moved, there is
    no row, and the response is an error.
   */
  lemma FaultlessCredit(key: Uuid, amount: u64, userId: Uuid, providerId: Uuid, user: Uuid, provider: Uuid, rowId: Uuid)
    returns (s: System)
    requires user != provider
    ensures Occurs(LENIENT, 1, s) && |s.requests| == 1
    ensures s.worker.ledger.posted == [Transfer(AsU128(key), AsU128(provider), AsU128(user), amount)]
    ensures 0 < amount < TWO_63 ==>
              && s.rows == [Row(rowId, ToString(key), Credit, amount, provider, user, providerId, userId)]
              && s.requests[0].phase == Succeeded(user, provider, rowId)
    ensures !(0 < amount < TWO_63) ==> s.rows == [] && s.requests[0].phase == Finished(InternalError)
  {
    hide Occurs, Idle, AsU128, ToString, Verdict, Apply, WrapI64;
    KeyFormsInjective(user, provider);
    PositiveUnwrapped(amount);
    s := Opened(user, provider);
    var r := Request(Credit, key, amount, userId, providerId, Arrived);
    Credited(s.worker.ledger, AsU128(user), AsU128(provider), AsU128(key), amount);
    s := Serve(s, r, user, provider, 2, rowId);
  }

  /**
    A debit of any amount from an account that a credit has funded, in a system without faults. If the
    account covers it, its transfer is posted, from the user to the provider; its row is written and it
    succeeds if its amount is positive. If the account does not cover it, nothing is posted and it is
    rejected.
   */
  lemma FaultlessDebit(fundKey: Uuid, funds: u64, key: Uuid, amount: u64, userId: Uuid, providerId: Uuid,
          user: Uuid, provider: Uuid, fundRow: Uuid, rowId: Uuid)
    returns (s: System)
    requires user != provider && fundKey != key && fundRow != rowId
    ensures Occurs(LENIENT, 1, s) && |s.requests| == 2
    ensures var first := Transfer(AsU128(fundKey), AsU128(provider), AsU128(user), funds);
            var debit := Transfer(AsU128(key), AsU128(user), AsU128(provider), amount);
            s.worker.ledger.posted == if amount <= funds then [first, debit] else [first]
    ensures amount <= funds && 0 < amount < TWO_63 ==>
              && s.requests[1].phase == Succeeded(user, provider, rowId)
              && s.rows != []
              && s.rows[|s.rows| - 1] == Row(rowId, ToString(key), Debit, amount, user, provider, providerId, userId)
    ensures amount <= funds && !(0 < amount < TWO_63) ==>
              s.requests[1].phase == Finished(InternalError) && forall row | row in s.rows :: row.direction == Credit
    ensures amount > funds ==>
              s.requests[1].phase == Finished(Rejected) && forall row | row in s.rows :: row.direction == Credit
  {
    hide Occurs, Idle, AsU128, ToString, Verdict, Apply, WrapI64;
    KeyFormsInjective(user, provider);
    KeyFormsInjective(fundKey, key);
    PositiveUnwrapped(amount);
    PositiveUnwrapped(funds);
    s := Opened(user, provider);
    Credited(s.worker.ledger, AsU128(user), AsU128(provider), AsU128(fundKey), funds);
    s := Serve(s, Request(Credit, fundKey, funds, userId, providerId, Arrived), user, provider, 2, fundRow);
    Debited(s.worker.ledger, AsU128(user), AsU128(provider), s.worker.ledger.posted[0], funds, AsU128(key), amount);
    s := Serve(s, Request(Debit, key, amount, userId, providerId, Arrived), user, provider, 3, rowId);
  }

  // Going on

  /**
    The action that hands over request i's transfer, as the source builds it: a credit from the
    provider, a debit from the user.
   */
  ghost predicate HandsOver(p: Policy, max: nat, s: System, i: nat, responder: nat, user: Uuid, provider: Uuid) {
    && i < |s.requests| && Possible(s, Enqueue(i, responder))
    && var r, t := s.requests[i], Do(p, max, s, Enqueue(i, responder));
       var (dr, cr) := if r.direction == Credit then (provider, user) else (user, provider);
       && t.requests == s.requests[i := r.(phase := Waiting(user, provider, responder))]
       && t.rows == s.rows
       && t.worker.log == s.worker.log
                          + [Sent(CreateTransfer(Transfer(AsU128(r.key), AsU128(dr), AsU128(cr), r.amount), responder))]
  }

  /**
    Which requests go on to the ledger, wherever they are in whatever history. With both of its accounts
    known, a credit can hand its transfer over at once; a debit cannot, but can after its priority step
    if that step succeeded, and has ended if it did not.
   */
  lemma GoesOnExactly(p: Policy, max: nat, s: System, i: nat, responder: nat, cleared: bool)
    requires i < |s.requests| && s.requests[i].phase.ProviderKnown?
    requires !s.worker.closed && Fresh(s.worker.log, responder)
    ensures var r := s.requests[i];
            && (r.direction == Credit ==>
                  && HandsOver(p, max, s, i, responder, r.phase.user, r.phase.provider)
                  && !Possible(s, ClearPriority(i, cleared)))
            && (r.direction == Debit ==>
                  && !Possible(s, Enqueue(i, responder))
                  && Possible(s, ClearPriority(i, cleared))
                  && var t := Do(p, max, s, ClearPriority(i, cleared));
                     && t.worker == s.worker && t.rows == s.rows && i < |t.requests|
                     && (HandsOver(p, max, t, i, responder, r.phase.user, r.phase.provider) <==> cleared)
                     && (t.requests[i].phase == Finished(InternalError) <==> !cleared))
  {
    hide AsU128, Collect;
  }

  /** The same call of the same request, ending in whatever way. */
  ghost predicate SameCall(a: Action, b: Action) {
    match a
    case FetchAccount(i, _) => b.FetchAccount? && b.i == i
    case CheckKey(i, _) => b.CheckKey? && b.i == i
    case FetchProvider(i, _) => b.FetchProvider? && b.i == i
    case ClearPriority(i, _) => b.ClearPriority? && b.i == i
    case Insert(i, _, _) => b.Insert? && b.i == i
    case Respond(i, _) => b.Respond? && b.i == i
    case _ => false
  }

  /** The request has not ended, and nothing it needs of the worker is missing. */
  ghost predicate CanMove(s: System, i: nat)
    requires i < |s.requests|
  {
    match s.requests[i].phase
    case Finished(_) => false
    case Succeeded(_, _, _) => false
    case Waiting(_, _, responder) => FindReply(s.worker.log, responder).Some? || s.worker.exited
    case PriorityCleared(_, _) => !s.worker.closed && s.requests[i].direction == Debit
    case ProviderKnown(_, _) => s.requests[i].direction == Credit ==> !s.worker.closed
    case _ => true
  }

  lemma {:induction false} SomeFresh(cs: seq<Command>) returns (responder: nat)
    ensures forall c | c in cs :: c.responder < responder
  {
    if cs == [] {
      responder := 0;
    } else {
      var rest := SomeFresh(cs[1..]);
      responder := if cs[0].responder < rest then rest else cs[0].responder + 1;
      assert forall c | c in cs :: c == cs[0] || c in cs[1..];
    }
  }

  /**
    No request that has not ended is stuck, but for one that waits for a loop that still runs; one that has
    ended takes no further step; and each call may end in every way.
   */
  lemma MovesExactly(s: System, i: nat)
    requires i < |s.requests|
    ensures (exists a :: Concerns(a, i) && Possible(s, a)) <==> CanMove(s, i)
    ensures forall a, b | SameCall(a, b) :: Possible(s, a) <==> Possible(s, b)
  {
    hide AsU128, ToString, FindReply, SentCommands;
    if CanMove(s, i) {
      var responder := SomeFresh(SentCommands(s.worker.log));
      assert Fresh(s.worker.log, responder);
      var a := match s.requests[i].phase
        case Arrived => FetchAccount(i, Absent)
        case AccountKnown(_) => CheckKey(i, true)
        case KeyUnused(_) => FetchProvider(i, Absent)
        case ProviderKnown(_, _) =>
          if s.requests[i].direction == Credit then Enqueue(i, responder) else ClearPriority(i, true)
        case PriorityCleared(_, _) => Enqueue(i, responder)
        case Waiting(_, _, _) => Observe(i)
        case Accepted(_, _, _) => Insert(i, s.requests[i].key, Committed)
        case _ => Respond(i, true);
      assert Concerns(a, i) && Possible(s, a);
    }
  }

  /** The row with this key is the one whose id the answer names. */
  ghost predicate NamesRow(rows: seq<Row>, key: Uuid, id: Uuid) {
    exists row :: row in rows && row.idempotencyKey == ToString(key) && row.id == id
  }

  /**
    When and how a request ends. Each answer is given in exactly these cases, and there are no others:
    404 for a missing account, the id of the row for a key that has one and could be read, 400 for a
    refusal in the ledger's answer, the success after its row was written, and 500 for every failed call.
   */
  lemma EndsExactly(p: Policy, max: nat, s: System, a: Action, i: nat)
    requires Occurs(p, max, s) && Possible(s, a) && Concerns(a, i)
    ensures var r, phase := s.requests[i], Do(p, max, s, a).requests[i].phase;
            && (phase == Finished(NotFound) <==> a == FetchAccount(i, Absent) || a == FetchProvider(i, Absent))
            && (forall id ::
                  phase == Finished(AlreadyProcessed(id)) <==> a == CheckKey(i, true) && NamesRow(s.rows, r.key, id))
            && (phase == Finished(Rejected) <==>
                  && a == Observe(i)
                  && exists list ::
                       list != [] && FindReply(s.worker.log, r.phase.responder) == Some(Created(Ok(list))))
            && (phase.Succeeded? <==> a == Respond(i, true))
            && (phase.Succeeded? ==> phase == Succeeded(r.phase.user, r.phase.provider, r.phase.rowId))
  {
    hide Occurs, ToString, FindReply, WrapI64, AsU128, Next;
    AlwaysSafe(p, max, s);
    hide Reachable, PhaseOk, Backed;
    if a == CheckKey(i, true) {
      assert RowsDistinct(s.rows);
    }
  }

  lemma AdmittedExactly(p: Policy, max: nat, s: System, i: nat, rowId: Uuid)
    requires Occurs(p, max, s) && i < |s.requests| && s.requests[i].phase.Accepted?
    ensures var r := s.requests[i];
            RowAdmitted(s.rows, RowOf(r, r.phase.user, r.phase.provider, rowId)) <==>
              0 < r.amount < TWO_63 && forall row | row in s.rows :: row.id != rowId
  {
    hide Occurs, ToString;
    var r := s.requests[i];
    PositiveUnwrapped(r.amount);
    forall x | x in s.rows
      ensures x.idempotencyKey != ToString(r.key)
    {
      AcceptedFindsNoRow(p, max, s, r, x);
    }
  }

  /** And 500 exactly here. */
  lemma ErrsExactly(p: Policy, max: nat, s: System, a: Action, i: nat)
    requires Occurs(p, max, s) && Possible(s, a) && Concerns(a, i)
    ensures Do(p, max, s, a).requests[i].phase == Finished(InternalError) <==>
            match a
            case FetchAccount(_, account) => account == DbError
            case FetchProvider(_, account) => account == DbError
            case ClearPriority(_, cleared) => !cleared
            case Observe(_) =>
              !exists list :: FindReply(s.worker.log, s.requests[i].phase.responder) == Some(Created(Ok(list)))
            case Insert(_, rowId, commit) =>
              !(&& commit == Committed && 0 < s.requests[i].amount < TWO_63
                && forall row | row in s.rows :: row.id != rowId)
            case Respond(_, balanceRead) => !balanceRead
            case _ => false
  {
    hide Occurs, ToString, FindReply, AsU128, Next, RowAdmitted, RowOf;
    if a.Insert? {
      AdmittedExactly(p, max, s, i, a.rowId);
    }
  }
}
