/** What an answer of the worker tells the one who receives it. */
module WorkerAnswers {
  import opened Wrappers
  import opened Numbers
  import opened Uuids
  import opened Ledgers
  import opened WorkerSpec
  import opened WorkerProofs
  import opened WorkerResults

  // Creates

  lemma {:induction false} TransfersAsCreates(cs: seq<Command>)
    requires forall c | c in cs :: KindOf(c) == Transfers
    ensures |CreatesOf(cs)| == |cs|
    ensures forall i | 0 <= i < |cs| :: cs[i].CreateTransfer? && CreatesOf(cs)[i] == NewTransfer(cs[i].transfer)
  {
    if cs != [] {
      var n := |cs| - 1;
      assert cs[n] in cs;
      TransfersAsCreates(cs[..n]);
      assert forall i | 0 <= i < n :: cs[..n][i] == cs[i];
    }
  }

  /** The ledger just after the call at k, and the ledger now, from the ledger just before it. */
  lemma LedgerAfterCall(p: Policy, max: nat, s: State, k: nat)
    requires Reachable(p, max, s) && k < |s.log| && s.log[k].Called?
    ensures LedgerAt(p, s.log[..k + 1])
            == ApplyAll(p, LedgerAt(p, s.log[..k]), Effect(s.log[k].batch, s.log[k].outcome))
    ensures LedgerAt(p, s.log[..k + 1]).posted <= s.ledger.posted
  {
    hide Reachable, Collect, ApplyAll, CreatesOf;
    var log := s.log;
    assert s.ledger == LedgerAt(p, log) by { ReachableOk(p, max, s); }
    assert log[..k + 1] == log[..k] + [log[k]];
    EventAdds(log[..k], log[k], EffectIn);
    ApplyAllAppend(p, EMPTY_LEDGER, Effects(log[..k]), EffectIn(log[k]));
    assert log == log[..k + 1] + log[k + 1..];
    CollectAppend(log[..k + 1], log[k + 1..], EffectIn);
    ApplyAllAppend(p, EMPTY_LEDGER, Effects(log[..k + 1]), Effects(log[k + 1..]));
    PostedGrows(p, LedgerAt(p, log[..k + 1]), Effects(log[k + 1..]));
  }

  lemma PostedByEmptyAnswer(p: Policy, max: nat, s: State, k: nat, i: nat)
    requires Reachable(p, max, s) && k < |s.log| && s.log[k].Called? && i < |s.log[k].batch|
    requires s.log[k].kind == Transfers && s.log[k].reply == Created(Ok([]))
    ensures s.log[k].batch[i].CreateTransfer?
    ensures s.log[k].batch[i].transfer in LedgerAt(p, s.log[..k + 1]).posted
  {
    hide Reachable, Collect, ApplyAll, Failures, CreatesOf, TransfersOf;
    var batch, before := s.log[k].batch, LedgerAt(p, s.log[..k]);
    assert CallOk(p, max, s.log, k) by { ReachableOk(p, max, s); }
    TransfersAsCreates(batch);
    assert s.log[k].outcome.Done? && Failures(p, before, CreatesOf(batch)) == [];
    EmptyAnswerPostsAll(p, before, CreatesOf(batch));
    InTransfersOf(CreatesOf(batch), batch[i].transfer);
    assert CreatesOf(batch)[i] == NewTransfer(batch[i].transfer);
    LedgerAfterCall(p, max, s, k);
  }

  lemma OneWithId(ts: seq<Transfer>, t: Transfer)
    requires IdsDistinct(ts) && t in ts
    ensures forall u | u in ts && u.id == t.id :: u == t
  {
    forall u | u in ts && u.id == t.id
      ensures u == t
    {
      var i :| 0 <= i < |ts| && ts[i] == t;
      var j :| 0 <= j < |ts| && ts[j] == u;
      assert i == j;
    }
  }

  /**
    An empty answer to a transfer means that the sender's own transfer is posted, and that no
    other posted transfer has its id.
   */
  lemma EmptyAnswerMeansPosted(p: Policy, max: nat, s: State, t: Transfer, responder: nat, j: nat)
    requires Reachable(p, max, s) && CreateTransfer(t, responder) in SentCommands(s.log)
    requires j < |s.log| && s.log[j] == Replied(responder, Created(Ok([])))
    ensures t in s.ledger.posted
    ensures forall u | u in s.ledger.posted && u.id == t.id :: u == t
  {
    hide Reachable, Collect, ApplyAll, Failures, CreatesOf, TransfersOf;
    var c := CreateTransfer(t, responder);
    var _, k, i := CallBehindReply(p, max, s, c, j);
    PostedByEmptyAnswer(p, max, s, k, i);
    LedgerAfterCall(p, max, s, k);
    BatchingRefinesOneAtATime(p, max, s);
    OneWithId(s.ledger.posted, t);
  }

  /**
    When the answer is broadcast: it is empty exactly when the call was answered and no event of
    the whole batch was refused, whoever sent it.
   */
  lemma EmptyAnswerExactly(p: Policy, max: nat, s: State, k: nat)
    requires Reachable(p, max, s) && k < |s.log| && s.log[k].Called? && s.log[k].kind == Transfers
    ensures s.log[k].reply == Created(Ok([])) <==>
            s.log[k].outcome.Done? && forall i | 0 <= i < |s.log[k].batch| ::
              AcceptedAt(p, LedgerAt(p, s.log[..k]), CreatesOf(s.log[k].batch), i)
  {
    ReachableOk(p, max, s);
    assert CallOk(p, max, s.log, k);
    var before, cs := LedgerAt(p, s.log[..k]), CreatesOf(s.log[k].batch);
    TransfersAsCreates(s.log[k].batch);
    var results := Failures(p, before, cs);
    if results == [] {
      forall i | 0 <= i < |cs|
        ensures AcceptedAt(p, before, cs, i)
      {
        if Verdict(p, ApplyAll(p, before, cs[..i]), cs[i]).Some? {
          FailuresAreOneAtATime(p, before, cs, EventResult(i, Verdict(p, ApplyAll(p, before, cs[..i]), cs[i]).value));
        }
      }
    } else {
      FailuresAreOneAtATime(p, before, cs, results[0]);
      assert !AcceptedAt(p, before, cs, results[0].index);
    }
  }

  /**
    What the call at k posts: exactly the transfers of its batch that, each on its own in its
    turn, are not refused, and nothing if the batch did not get through.
   */
  lemma CallPostsExactly(p: Policy, max: nat, s: State, k: nat, t: Transfer)
    requires Reachable(p, max, s) && k < |s.log| && s.log[k].Called?
    ensures t in LedgerAt(p, s.log[..k + 1]).posted <==>
            || t in LedgerAt(p, s.log[..k]).posted
            || (s.log[k].outcome != Lost(false)
                && Accepts(p, LedgerAt(p, s.log[..k]), CreatesOf(s.log[k].batch), t))
  {
    LedgerAfterCall(p, max, s, k);
    PostedExactly(p, LedgerAt(p, s.log[..k]), Effect(s.log[k].batch, s.log[k].outcome), t);
  }

  lemma {:induction false} AccountsAsCreates(cs: seq<Command>)
    requires forall c | c in cs :: KindOf(c) == Accounts
    ensures |CreatesOf(cs)| == |cs|
    ensures forall i | 0 <= i < |cs| :: cs[i].CreateAccount? && CreatesOf(cs)[i] == NewAccount(cs[i].account)
  {
    if cs != [] {
      var n := |cs| - 1;
      assert cs[n] in cs;
      AccountsAsCreates(cs[..n]);
      assert forall i | 0 <= i < n :: cs[..n][i] == cs[i];
    }
  }

  // What senders are told

  /** The ledger event of a create command. */
  ghost function EventOf(c: Command): Create
    requires c.CreateTransfer? || c.CreateAccount?
  {
    if c.CreateTransfer? then NewTransfer(c.transfer) else NewAccount(c.account)
  }

  ghost predicate AllCreates(batch: seq<Command>) {
    forall i | 0 <= i < |batch| :: batch[i].CreateTransfer? || batch[i].CreateAccount?
  }

  /** The events of the first n commands of a batch. */
  ghost function EventsOf(batch: seq<Command>, n: nat): seq<Create>
    requires n <= |batch| && AllCreates(batch)
  {
    seq(n, i requires 0 <= i < n => EventOf(batch[i]))
  }

  /** Command i of the batch is refused for this reason, after those before it. */
  ghost predicate RefusedAt(p: Policy, at: Ledger, batch: seq<Command>, i: nat, why: Refusal)
    requires AllCreates(batch)
  {
    i < |batch| && Verdict(p, ApplyAll(p, at, EventsOf(batch, i)), EventOf(batch[i])) == Some(why)
  }

  /** The list has each refused command of the batch, with its reason, once and in order, and nothing else. */
  ghost predicate ListsRefusals(p: Policy, at: Ledger, batch: seq<Command>, list: seq<EventResult>)
    requires AllCreates(batch)
  {
    && (forall i, j | 0 <= i < j < |list| :: list[i].index < list[j].index)
    && (forall e: EventResult :: e in list <==> RefusedAt(p, at, batch, e.index, e.refusal))
  }

  lemma {:induction false} CreatesNothing(cs: seq<Command>)
    requires forall c | c in cs :: KindOf(c) != Transfers && KindOf(c) != Accounts
    ensures CreatesOf(cs) == []
  {
    if cs != [] {
      var n := |cs| - 1;
      assert cs[n] in cs;
      CreatesNothing(cs[..n]);
    }
  }

  lemma BatchEvents(batch: seq<Command>, k: Kind)
    requires (k == Transfers || k == Accounts) && forall c | c in batch :: KindOf(c) == k
    ensures AllCreates(batch) && CreatesOf(batch) == EventsOf(batch, |batch|)
  {
    if k == Transfers {
      TransfersAsCreates(batch);
    } else {
      AccountsAsCreates(batch);
    }
  }

  lemma FailuresListRefusals(p: Policy, at: Ledger, batch: seq<Command>)
    requires AllCreates(batch) && CreatesOf(batch) == EventsOf(batch, |batch|)
    ensures ListsRefusals(p, at, batch, Failures(p, at, CreatesOf(batch)))
  {
    var cs := CreatesOf(batch);
    hide Failures, Verdict, ApplyAll, CreatesOf;
    FailuresAscend(p, at, cs);
    forall e: EventResult
      ensures e in Failures(p, at, cs) <==> RefusedAt(p, at, batch, e.index, e.refusal)
    {
      FailuresAreOneAtATime(p, at, cs, e);
      if e.index < |batch| {
        assert cs[..e.index] == EventsOf(batch, e.index);
      }
    }
  }

  lemma ApplyNothing(p: Policy, l: Ledger)
    ensures ApplyAll(p, l, []) == l
  {
  }

  /**
    What a call does to the ledger: a create call that gets through, answered or not, applies the events
    of its batch one after the other; every other call leaves it as it is.
   */
  lemma CallEffectExactly(p: Policy, max: nat, s: State, k: nat)
    requires Reachable(p, max, s) && k < |s.log| && s.log[k].Called?
    ensures var batch, before, after := s.log[k].batch, LedgerAt(p, s.log[..k]), LedgerAt(p, s.log[..k + 1]);
            if (s.log[k].kind == Transfers || s.log[k].kind == Accounts) && s.log[k].outcome != Lost(false) then
              AllCreates(batch) && after == ApplyAll(p, before, EventsOf(batch, |batch|))
            else after == before
  {
    hide Reachable, CreatesOf, LedgerAt, ApplyAll;
    assert CallOk(p, max, s.log, k) by { ReachableOk(p, max, s); }
    LedgerAfterCall(p, max, s, k);
    assert ApplyAll(p, LedgerAt(p, s.log[..k]), []) == LedgerAt(p, s.log[..k]) by {
      ApplyNothing(p, LedgerAt(p, s.log[..k]));
    }
    if s.log[k].kind == Transfers || s.log[k].kind == Accounts {
      BatchEvents(s.log[k].batch, s.log[k].kind);
    } else {
      CreatesNothing(s.log[k].batch);
    }
  }

  /**
    The answer of a create call, of transfers or of accounts: if it was answered, the whole list of the
    batch's refusals, computed from the ledger as it was at the call; an error if it was not.
   */
  lemma CreateAnswerExactly(p: Policy, max: nat, s: State, k: nat)
    requires Reachable(p, max, s) && k < |s.log| && s.log[k].Called?
    requires s.log[k].kind == Transfers || s.log[k].kind == Accounts
    ensures AllCreates(s.log[k].batch)
    ensures s.log[k].outcome.Done? ==>
              && s.log[k].reply.Created? && s.log[k].reply.results.Ok?
              && ListsRefusals(p, LedgerAt(p, s.log[..k]), s.log[k].batch, s.log[k].reply.results.value)
    ensures !s.log[k].outcome.Done? ==> s.log[k].reply == Created(Err)
  {
    hide Reachable, Failures, CreatesOf, LedgerAt, ListsRefusals;
    assert CallOk(p, max, s.log, k) by { ReachableOk(p, max, s); }
    BatchEvents(s.log[k].batch, s.log[k].kind);
    FailuresListRefusals(p, LedgerAt(p, s.log[..k]), s.log[k].batch);
  }

  /**
    What each sender of a create command is told: the list of all refusals of the batch it shared, in
    which its own index stands exactly when its own command was refused, or an error.
   */
  lemma SenderIsTold(p: Policy, max: nat, s: State, c: Command, j: nat) returns (k: nat, i: nat)
    requires Reachable(p, max, s) && c in SentCommands(s.log) && (c.CreateTransfer? || c.CreateAccount?)
    requires j < |s.log| && s.log[j].Replied? && s.log[j].responder == c.responder
    ensures CalledAt(s.log, k, i, c) && k < j && AllCreates(s.log[k].batch)
    ensures s.log[k].outcome.Done? ==>
              && s.log[j].answer.Created? && s.log[j].answer.results.Ok?
              && ListsRefusals(p, LedgerAt(p, s.log[..k]), s.log[k].batch, s.log[j].answer.results.value)
              && forall why :: EventResult(i, why) in s.log[j].answer.results.value
                               <==> RefusedAt(p, LedgerAt(p, s.log[..k]), s.log[k].batch, i, why)
    ensures !s.log[k].outcome.Done? ==> s.log[j].answer == Created(Err)
  {
    hide Reachable, Collect, LedgerAt, RefusedAt, ReplyTo;
    var sent;
    sent, k, i := CallBehindReply(p, max, s, c, j);
    CreateAnswerExactly(p, max, s, k);
  }

  /** The balances are those of the accounts, one each, in their order. */
  ghost predicate BalancesAre(bs: seq<Balance>, accounts: seq<Account>) {
    && |bs| == |accounts|
    && forall n | 0 <= n < |bs| ::
         && bs[n].accountId == accounts[n].id
         && Difference(bs[n].posted, accounts[n].creditsPosted, accounts[n].debitsPosted)
         && Difference(bs[n].pending, accounts[n].creditsPending, accounts[n].debitsPending)
  }

  // Lookups

  lemma {:induction false} LookupIds(cs: seq<Command>)
    requires forall c | c in cs :: KindOf(c) == AccountLookups
    ensures |IdsOf(cs)| == |cs|
    ensures forall i | 0 <= i < |cs| :: cs[i].LookupAccount? && IdsOf(cs)[i] == cs[i].id
  {
    if cs != [] {
      var n := |cs| - 1;
      assert cs[n] in cs;
      LookupIds(cs[..n]);
      assert forall i | 0 <= i < n :: cs[..n][i] == cs[i];
    }
  }

  lemma {:induction false} TransferLookupIds(cs: seq<Command>)
    requires forall c | c in cs :: KindOf(c) == TransferLookups
    ensures |IdsOf(cs)| == |cs|
    ensures forall i | 0 <= i < |cs| :: cs[i].LookupTransfer? && IdsOf(cs)[i] == cs[i].id
  {
    if cs != [] {
      var n := |cs| - 1;
      assert cs[n] in cs;
      TransferLookupIds(cs[..n]);
      assert forall i | 0 <= i < n :: cs[..n][i] == cs[i];
    }
  }

  lemma OneDirect(cs: seq<Command>, c: Command)
    requires cs == [c] && (c.LookupAccountsNow? || c.GetAccountBalances?)
    ensures IdsOf(cs) == c.ids
  {
    assert cs[..0] == [] && IdsOf(cs[..0]) == [];
  }

  lemma BalanceRight(a: Account)
    ensures BalanceOf(a).accountId == a.id
    ensures Difference(BalanceOf(a).posted, a.creditsPosted, a.debitsPosted)
    ensures Difference(BalanceOf(a).pending, a.creditsPending, a.debitsPending)
  {
    hide Difference, WrapI128;
    WrapDifference(a.creditsPosted, a.debitsPosted);
    WrapDifference(a.creditsPending, a.debitsPending);
  }

  lemma BalancesRight(accounts: seq<Account>)
    ensures BalancesAre(BalancesOf(accounts), accounts)
  {
    hide Difference, BalanceOf;
    forall n | 0 <= n < |accounts|
      ensures Difference(BalanceOf(accounts[n]).posted, accounts[n].creditsPosted, accounts[n].debitsPosted)
      ensures Difference(BalanceOf(accounts[n]).pending, accounts[n].creditsPending, accounts[n].debitsPending)
      ensures BalanceOf(accounts[n]).accountId == accounts[n].id
    {
      BalanceRight(accounts[n]);
    }
  }

  /** The ids that single lookups ask for, in order. */
  ghost function BatchIds(batch: seq<Command>): seq<u128> {
    seq(|batch|, i requires 0 <= i < |batch| =>
      if batch[i].LookupAccount? || batch[i].LookupTransfer? then batch[i].id else 0)
  }

  /** The answer of a batched lookup: the ledger's, at the call, for the ids of the batch in order; or an error. */
  lemma LookupAnswerExactly(p: Policy, max: nat, s: State, k: nat)
    requires Reachable(p, max, s) && k < |s.log| && s.log[k].Called?
    ensures s.log[k].kind == AccountLookups ==>
              && (forall i | 0 <= i < |s.log[k].batch| :: s.log[k].batch[i].LookupAccount?)
              && s.log[k].reply == FoundAccounts(
                   if !s.log[k].outcome.Done? then Err
                   else Ok(LookupAccounts(LedgerAt(p, s.log[..k]), BatchIds(s.log[k].batch))))
    ensures s.log[k].kind == TransferLookups ==>
              && (forall i | 0 <= i < |s.log[k].batch| :: s.log[k].batch[i].LookupTransfer?)
              && s.log[k].reply == FoundTransfers(
                   if !s.log[k].outcome.Done? then Err
                   else Ok(LookupTransfers(LedgerAt(p, s.log[..k]), BatchIds(s.log[k].batch))))
  {
    hide Reachable, LedgerAt, LookupAccounts, LookupTransfers;
    assert CallOk(p, max, s.log, k) by { ReachableOk(p, max, s); }
    var batch := s.log[k].batch;
    if s.log[k].kind == AccountLookups {
      LookupIds(batch);
      assert IdsOf(batch) == BatchIds(batch);
    } else if s.log[k].kind == TransferLookups {
      TransferLookupIds(batch);
      assert IdsOf(batch) == BatchIds(batch);
    }
  }

  /**
    The answer of a direct command, which has a call of its own: the ledger's for its ids, as accounts
    or as balances; or an error.
   */
  lemma DirectAnswerExactly(p: Policy, max: nat, s: State, k: nat)
    requires Reachable(p, max, s) && k < |s.log| && s.log[k].Called? && Direct(s.log[k].kind)
    ensures |s.log[k].batch| == 1
    ensures var c := s.log[k].batch[0];
            && (s.log[k].kind == DirectLookups ==>
                  && c.LookupAccountsNow?
                  && s.log[k].reply == FoundAccounts(
                       if s.log[k].outcome.Done? then Ok(LookupAccounts(LedgerAt(p, s.log[..k]), c.ids)) else Err))
            && (s.log[k].kind == DirectBalances ==>
                  && c.GetAccountBalances? && s.log[k].reply.Balances?
                  && (!s.log[k].outcome.Done? ==> s.log[k].reply.balances == Err)
                  && (s.log[k].outcome.Done? ==>
                        && s.log[k].reply.balances.Ok?
                        && BalancesAre(s.log[k].reply.balances.value, LookupAccounts(LedgerAt(p, s.log[..k]), c.ids))))
  {
    hide Reachable, LedgerAt, LookupAccounts, BalancesAre, BalancesOf, IdsOf;
    assert CallOk(p, max, s.log, k) by { ReachableOk(p, max, s); }
    var c := s.log[k].batch[0];
    assert s.log[k].batch == [c] && c in s.log[k].batch;
    OneDirect(s.log[k].batch, c);
    BalancesRight(LookupAccounts(LedgerAt(p, s.log[..k]), c.ids));
  }

  lemma BooksAtCall(p: Policy, log: seq<Event>)
    ensures BooksBalance(LedgerAt(p, log))
  {
    BooksAlwaysBalance(p, EMPTY_LEDGER, Effects(log));
  }

  /** An answered lookup of accounts, from the call behind the reply. */
  lemma LookupBehindReply(p: Policy, max: nat, s: State, c: Command, j: nat) returns (k: nat, i: nat)
    requires Reachable(p, max, s) && c in SentCommands(s.log) && c.LookupAccount?
    requires j < |s.log| && s.log[j].Replied? && s.log[j].responder == c.responder
    requires s.log[j].answer.FoundAccounts? && s.log[j].answer.accounts.Ok?
    ensures CalledAt(s.log, k, i, c) && k < j
    ensures c.id in IdsOf(s.log[k].batch)
    ensures s.log[j].answer.accounts.value == LookupAccounts(LedgerAt(p, s.log[..k]), IdsOf(s.log[k].batch))
  {
    var sent;
    sent, k, i := CallBehindReply(p, max, s, c, j);
    ReachableOk(p, max, s);
    assert CallOk(p, max, s.log, k);
    LookupIds(s.log[k].batch);
    assert IdsOf(s.log[k].batch)[i] == c.id;
  }

  lemma FirstEntries(l: Ledger, ids: seq<u128>, id: u128)
    requires BooksBalance(l) && id in l.accounts
    ensures forall f: nat | FirstFound(l, ids, f) ::
              LookupAccounts(l, ids) != [] && (LookupAccounts(l, ids)[0] == l.accounts[id] <==> id == ids[f])
  {
    forall f: nat | FirstFound(l, ids, f)
      ensures LookupAccounts(l, ids) != [] && (LookupAccounts(l, ids)[0] == l.accounts[id] <==> id == ids[f])
    {
      FirstEntry(l, ids, f, id);
    }
  }

  /**
    A batched account lookup, searched by the sender's own id, is the lookup of that id alone at
    the time of the flush. The first entry is the sender's account, where it has one, exactly when
    its id is the first of the batch to have one; there is no first entry at all exactly when no id
    of the batch has one, so a sender without an account may well receive some.
   */
  lemma BatchedLookup(p: Policy, max: nat, s: State, c: Command, j: nat) returns (k: nat, i: nat)
    requires Reachable(p, max, s) && c in SentCommands(s.log) && c.LookupAccount?
    requires j < |s.log| && s.log[j].Replied? && s.log[j].responder == c.responder
    requires s.log[j].answer.FoundAccounts? && s.log[j].answer.accounts.Ok?
    ensures CalledAt(s.log, k, i, c) && k < j
    ensures var found, at := s.log[j].answer.accounts.value, LedgerAt(p, s.log[..k]);
            && FindAccount(found, c.id) == Held(at, c.id)
            && (c.id in at.accounts ==>
                  forall f: nat | FirstFound(at, IdsOf(s.log[k].batch), f) ::
                    found != [] && (found[0] == at.accounts[c.id] <==> c.id == IdsOf(s.log[k].batch)[f]))
            && (found == [] <==> forall id | id in IdsOf(s.log[k].batch) :: id !in at.accounts)
  {
    hide Reachable, Collect, LookupAccounts, IdsOf, BooksBalance;
    k, i := LookupBehindReply(p, max, s, c, j);
    var ids, at := IdsOf(s.log[k].batch), LedgerAt(p, s.log[..k]);
    BooksAtCall(p, s.log[..k]);
    SearchedLookup(at, ids, c.id);
    NoneFound(at, ids);
    if c.id in at.accounts {
      FirstEntries(at, ids, c.id);
    }
  }

  /**
    A batched transfer lookup, searched by the sender's own id, is the posted transfer with that id at
    the time of the flush.
   */
  lemma BatchedTransferLookup(p: Policy, max: nat, s: State, c: Command, j: nat) returns (k: nat, i: nat)
    requires Reachable(p, max, s) && c in SentCommands(s.log) && c.LookupTransfer?
    requires j < |s.log| && s.log[j].Replied? && s.log[j].responder == c.responder
    requires s.log[j].answer.FoundTransfers? && s.log[j].answer.transfers.Ok?
    ensures CalledAt(s.log, k, i, c) && k < j
    ensures FindTransfer(s.log[j].answer.transfers.value, c.id) == FindTransfer(LedgerAt(p, s.log[..k]).posted, c.id)
  {
    var sent;
    sent, k, i := CallBehindReply(p, max, s, c, j);
    ReachableOk(p, max, s);
    assert CallOk(p, max, s.log, k);
    TransferLookupIds(s.log[k].batch);
    assert IdsOf(s.log[k].batch)[i] == c.id;
    SearchedTransferLookup(LedgerAt(p, s.log[..k]), IdsOf(s.log[k].batch), c.id);
  }
}
