/**
  The worker in the form of its source: one loop over four batch vectors and four parallel
  responder vectors, flushed in place. Each method takes the object from one state of
  `WorkerSpec` to the next, and `Valid()` ties the vectors to that state.
 */
module WorkerLoop {
  import opened Wrappers
  import opened Numbers
  import opened Uuids
  import opened Ledgers
  import opened WorkerSpec
  import opened WorkerProofs
  import opened WorkerResults
  import opened WorkerAnswers

  // A batch and its responders, read as the commands they came from

  ghost predicate ReadTransfers(batch: seq<Transfer>, responders: seq<nat>, cs: seq<Command>) {
    |batch| == |responders| == |cs| && forall i | 0 <= i < |cs| :: cs[i] == CreateTransfer(batch[i], responders[i])
  }

  ghost predicate ReadAccounts(batch: seq<Account>, responders: seq<nat>, cs: seq<Command>) {
    |batch| == |responders| == |cs| && forall i | 0 <= i < |cs| :: cs[i] == CreateAccount(batch[i], responders[i])
  }

  ghost predicate ReadAccountLookups(batch: seq<u128>, responders: seq<nat>, cs: seq<Command>) {
    |batch| == |responders| == |cs| && forall i | 0 <= i < |cs| :: cs[i] == LookupAccount(batch[i], responders[i])
  }

  ghost predicate ReadTransferLookups(batch: seq<u128>, responders: seq<nat>, cs: seq<Command>) {
    |batch| == |responders| == |cs| && forall i | 0 <= i < |cs| :: cs[i] == LookupTransfer(batch[i], responders[i])
  }

  lemma NothingToRead()
    ensures ReadTransfers([], [], NONE_WAITING[Transfers]) && ReadAccounts([], [], NONE_WAITING[Accounts])
    ensures ReadAccountLookups([], [], NONE_WAITING[AccountLookups])
            && ReadTransferLookups([], [], NONE_WAITING[TransferLookups])
    ensures NONE_WAITING[DirectLookups] == [] == NONE_WAITING[DirectBalances]
  {
  }

  ghost function AnswerIn(e: Event): seq<(nat, Reply)> {
    if e.Replied? then [(e.responder, e.answer)] else []
  }

  ghost function AnswersTo(cs: seq<Command>, r: Reply): seq<(nat, Reply)> {
    seq(|cs|, i requires 0 <= i < |cs| => (cs[i].responder, r))
  }

  lemma {:induction false} BroadcastPairs(cs: seq<Command>, r: Reply)
    ensures Collect(Broadcast(cs, r), AnswerIn) == AnswersTo(cs, r)
  {
    if cs != [] {
      BroadcastPairs(cs[..|cs| - 1], r);
    }
  }

  lemma FlushPairs(log: seq<Event>, k: Kind, batch: seq<Command>, o: Outcome, r: Reply)
    ensures Collect(log + [Called(k, batch, o, r)] + Broadcast(batch, r), AnswerIn)
            == Collect(log, AnswerIn) + AnswersTo(batch, r)
  {
    hide Collect;
    FlushAdds(log, k, batch, o, r, AnswerIn);
    BroadcastPairs(batch, r);
    assert log + [Called(k, batch, o, r)] + Broadcast(batch, r) == log + FlushLog(k, batch, o, r);
  }

  lemma DirectReply(p: Policy, l: Ledger, c: Command, o: Outcome)
    requires Direct(KindOf(c))
    ensures Effect([c], o) == []
    ensures ReplyTo(p, l, KindOf(c), [c], o)
            == if !o.Done? then Failure(KindOf(c))
               else if c.LookupAccountsNow? then FoundAccounts(Ok(LookupAccounts(l, c.ids)))
               else Balances(Ok(BalancesOf(LookupAccounts(l, c.ids))))
  {
    var batch := [c];
    assert batch[..0] == [] && CreatesOf(batch[..0]) == [] && IdsOf(batch[..0]) == [];
    assert CreatesOf(batch) == [] && IdsOf(batch) == c.ids;
  }

  lemma DirectAnswer(p: Policy, max: nat, s: State, o: Outcome, r: Reply)
    requires s.channel != [] && Direct(KindOf(s.channel[0])) && s.buffers[KindOf(s.channel[0])] == []
    requires r == if !o.Done? then Failure(KindOf(s.channel[0]))
                  else if s.channel[0].LookupAccountsNow? then
                    FoundAccounts(Ok(LookupAccounts(s.ledger, s.channel[0].ids)))
                  else Balances(Ok(BalancesOf(LookupAccounts(s.ledger, s.channel[0].ids))))
    ensures var t := OnReceive(p, max, s, o);
            && t.channel == s.channel[1..] && t.closed == s.closed && t.exited == s.exited
            && t.buffers == s.buffers && t.ledger == s.ledger
            && Collect(t.log, AnswerIn) == Collect(s.log, AnswerIn) + [(s.channel[0].responder, r)]
  {
    hide Collect, AnswerIn, Broadcast, ReplyTo, Effect, LookupAccounts, BalancesOf;
    var c := s.channel[0];
    var k, batch := KindOf(c), [c];
    DirectReply(p, s.ledger, c, o);
    assert Take(s).buffers[k] == batch;
    assert Take(s).buffers[k := []] == s.buffers;
    FlushPairs(s.log, k, batch, o, r);
    assert AnswersTo(batch, r) == [(c.responder, r)];
  }

  // The loop on states

  /**
    What a choice does: a send or a close where the channel is open, a tick, or whatever `recv` gives;
    nothing while that waits.
   */
  ghost function LoopStep(p: Policy, max: nat, s: State, choice: Step): State {
    if s.exited then s
    else
      match choice
      case Tick(o) => OnTick(p, s, o)
      case Receive(o) => if s.channel != [] then OnReceive(p, max, s, o) else if s.closed then OnExit(s) else s
      case Send(_) => if s.closed then s else Next(p, max, s, choice)
      case Close => if s.closed then s else Next(p, max, s, choice)
      case Exit => s
  }

  ghost function LoopAll(p: Policy, max: nat, s: State, choices: seq<Step>): State {
    if choices == [] then s else LoopStep(p, max, LoopAll(p, max, s, choices[..|choices| - 1]), choices[|choices| - 1])
  }

  lemma {:induction false} ExitedStays(p: Policy, max: nat, s: State, choices: seq<Step>, i: nat)
    requires i <= |choices| && LoopAll(p, max, s, choices[..i]).exited
    ensures LoopAll(p, max, s, choices) == LoopAll(p, max, s, choices[..i])
    decreases |choices| - i
  {
    hide OnReceive, OnTick, OnExit, Next;
    if i < |choices| {
      assert choices[..i + 1][..i] == choices[..i];
      ExitedStays(p, max, s, choices, i + 1);
    } else {
      assert choices[..i] == choices;
    }
  }

  /** The step of the state machine that a choice stands for; None when nothing happens. */
  ghost function StepOf(s: State, choice: Step): Option<Step> {
    if s.exited then None
    else
      match choice
      case Tick(_) => Some(choice)
      case Receive(_) => if s.channel != [] then Some(choice) else if s.closed then Some(Exit) else None
      case Send(_) => if s.closed then None else Some(choice)
      case Close => if s.closed then None else Some(choice)
      case Exit => None
  }

  lemma StepTaken(p: Policy, max: nat, s: State, choice: Step)
    ensures StepOf(s, choice).None? ==> LoopStep(p, max, s, choice) == s
    ensures StepOf(s, choice).Some? ==> LoopStep(p, max, s, choice) == Next(p, max, s, StepOf(s, choice).value)
    ensures StepOf(s, choice).Some? && (choice.Send? ==> Fresh(s.log, choice.command.responder)) ==>
              Enabled(s, StepOf(s, choice).value)
  {
    hide OnReceive, OnTick, OnExit, Fresh;
  }

  /** Every sender has a responder of its own. */
  ghost predicate FreshSends(log: seq<Event>, choices: seq<Step>) {
    && (forall i | 0 <= i < |choices| && choices[i].Send? :: Fresh(log, choices[i].command.responder))
    && (forall i, j | 0 <= i < j < |choices| && choices[i].Send? && choices[j].Send? ::
          choices[i].command.responder != choices[j].command.responder)
  }

  lemma StepSends(s: State, choice: Step)
    requires StepOf(s, choice).Some?
    ensures StepOf(s, choice).value.Send? ==> StepOf(s, choice).value == choice
  {
  }

  lemma SentByFlush(p: Policy, s: State, k: Kind, o: Outcome)
    ensures SentCommands(Flush(p, s, k, o).log) == SentCommands(s.log)
    ensures SentCommands(FlushIfAny(p, s, k, o).log) == SentCommands(s.log)
  {
    hide Collect, Broadcast, ReplyTo;
    var batch := s.buffers[k];
    var r := ReplyTo(p, s.ledger, k, batch, o);
    FlushRecords(s.log, k, batch, o, r);
    assert s.log + [Called(k, batch, o, r)] + Broadcast(batch, r) == s.log + FlushLog(k, batch, o, r);
  }

  lemma SentByStep(p: Policy, s: State, max: nat, step: Step)
    ensures SentCommands(Next(p, max, s, step).log) == SentCommands(s.log) + if step.Send? then [step.command] else []
  {
    hide Collect, FlushIfAny, Flush;
    match step
    case Send(c) => EventAdds(s.log, Sent(c), SentIn);
    case Receive(o) =>
      if s.channel != [] {
        SentByFlush(p, Take(s), KindOf(s.channel[0]), o);
      }
    case Tick(o) =>
      var s1 := FlushIfAny(p, s, Transfers, o.transfers);
      var s2 := FlushIfAny(p, s1, Accounts, o.accounts);
      var s3 := FlushIfAny(p, s2, AccountLookups, o.accountLookups);
      SentByFlush(p, s, Transfers, o.transfers);
      SentByFlush(p, s1, Accounts, o.accounts);
      SentByFlush(p, s2, AccountLookups, o.accountLookups);
      SentByFlush(p, s3, TransferLookups, o.transferLookups);
    case _ =>
  }

  /** The senders in the log are those who were there and those who came. */
  lemma {:induction false} SendersKnown(p: Policy, max: nat, s: State, choices: seq<Step>, c: Command)
    requires Reachable(p, max, s) && FreshSends(s.log, choices) && c in SentCommands(LoopAll(p, max, s, choices).log)
    ensures c in SentCommands(s.log) || Send(c) in choices
  {
    hide Collect, Reachable, Next, LoopStep, StepOf, Fresh;
    if choices != [] {
      var n := |choices| - 1;
      var t := LoopAll(p, max, s, choices[..n]);
      assert choices == choices[..n] + [choices[n]];
      StepTaken(p, max, t, choices[n]);
      if StepOf(t, choices[n]).Some? {
        SentByStep(p, t, max, StepOf(t, choices[n]).value);
        StepSends(t, choices[n]);
      }
      if c in SentCommands(t.log) {
        SendersKnown(p, max, s, choices[..n], c);
      }
    }
  }

  /** The loop passes through reachable states only, so all that holds of those holds of the object. */
  lemma {:induction false} LoopReaches(p: Policy, max: nat, s: State, choices: seq<Step>)
    requires Reachable(p, max, s) && FreshSends(s.log, choices)
    ensures Reachable(p, max, LoopAll(p, max, s, choices))
  {
    hide Reachable, LoopStep, StepOf, Next, Collect, Enabled;
    if choices != [] {
      var n := |choices| - 1;
      LoopReaches(p, max, s, choices[..n]);
      var t, choice := LoopAll(p, max, s, choices[..n]), choices[n];
      StepTaken(p, max, t, choice);
      if StepOf(t, choice).Some? {
        if choice.Send? {
          forall c | c in SentCommands(t.log)
            ensures c.responder != choice.command.responder
          {
            SendersKnown(p, max, s, choices[..n], c);
          }
        }
        NextReachable(p, max, t, StepOf(t, choice).value);
      }
    }
  }

  /** The loop stops on its own: the step Exit is what a `recv` from the closed and drained channel does. */
  ghost function ChoiceOf(step: Step): Step {
    if step.Exit? then Receive(Done) else step
  }

  ghost function ChoicesOf(steps: seq<Step>): seq<Step> {
    seq(|steps|, i requires 0 <= i < |steps| => ChoiceOf(steps[i]))
  }

  lemma EnabledTaken(s: State, step: Step)
    requires Enabled(s, step) && (s.exited ==> s.closed)
    ensures StepOf(s, ChoiceOf(step)) == Some(step)
  {
    hide Fresh;
  }

  /** And it passes through all of them: every run of the state machine is what the loop does for some choices. */
  lemma {:induction false} RunsAreLoops(p: Policy, max: nat, states: seq<State>, steps: seq<Step>, n: nat)
    requires IsRun(p, max, states, steps) && n <= |steps|
    ensures LoopAll(p, max, START, ChoicesOf(steps[..n])) == states[n]
  {
    hide Next, LoopStep;
    if n > 0 {
      RunsAreLoops(p, max, states, steps, n - 1);
      var s, step := states[n - 1], steps[n - 1];
      assert ChoicesOf(steps[..n])[..n - 1] == ChoicesOf(steps[..n - 1]);
      assert Enabled(s, step) && states[n] == Next(p, max, s, step);
      assert s.exited ==> s.closed by {
        RunKeeps(p, max, states, steps, n - 1);
      }
      EnabledTaken(s, step);
      StepTaken(p, max, s, ChoiceOf(step));
    }
  }

  class Worker {
    const policy: Policy
    const maxSize: nat  // batch_max_size

    // The receiving end of the channel, and whether every sender is gone
    var channel: seq<Command>
    var closed: bool
    var exited: bool

    // The vectors of the loop
    var transferBatch: seq<Transfer>
    var transferResponders: seq<nat>
    var accountBatch: seq<Account>
    var accountResponders: seq<nat>
    var lookupAccBatch: seq<u128>
    var lookupAccResponders: seq<nat>
    var lookupTxBatch: seq<u128>
    var lookupTxResponders: seq<nat>

    // The ledger behind the client, and the replies given to the one-shot channels
    var ledger: Ledger
    var outbox: seq<(nat, Reply)>

    // The state of the specification this object is in
    ghost var now: State

    ghost predicate Valid()
      reads this
    {
      && channel == now.channel && closed == now.closed && exited == now.exited && ledger == now.ledger
      && ReadTransfers(transferBatch, transferResponders, now.buffers[Transfers])
      && ReadAccounts(accountBatch, accountResponders, now.buffers[Accounts])
      && ReadAccountLookups(lookupAccBatch, lookupAccResponders, now.buffers[AccountLookups])
      && ReadTransferLookups(lookupTxBatch, lookupTxResponders, now.buffers[TransferLookups])
      && now.buffers[DirectLookups] == [] == now.buffers[DirectBalances]
      && outbox == Collect(now.log, AnswerIn)
    }

    constructor (policy: Policy, maxSize: nat)
      ensures Valid() && now == START && this.policy == policy && this.maxSize == maxSize
    {
      this.policy, this.maxSize := policy, maxSize;
      channel, closed, exited := [], false, false;
      transferBatch, transferResponders := [], [];
      accountBatch, accountResponders := [], [];
      lookupAccBatch, lookupAccResponders := [], [];
      lookupTxBatch, lookupTxResponders := [], [];
      ledger, outbox, now := EMPTY_LEDGER, [], START;
    }

    /** Answers every responder, in order, with a copy of one reply. */
    method Drain(responders: seq<nat>, reply: Reply, ghost batch: seq<Command>)
      requires |responders| == |batch| && forall i | 0 <= i < |batch| :: responders[i] == batch[i].responder
      modifies this`outbox
      ensures outbox == old(outbox) + AnswersTo(batch, reply)
    {
      var left := responders;
      ghost var n := 0;
      while left != []
        invariant n <= |batch| && left == responders[n..]
        invariant outbox == old(outbox) + AnswersTo(batch[..n], reply)
        decreases |left|
      {
        outbox := outbox + [(left[0], reply)];
        left, n := left[1..], n + 1;
      }
      assert batch[..n] == batch;
    }

    // The ledger calls, with the batch mapped to ledger events and the results mapped back

    method CallCreateTransfers(o: Outcome) returns (reply: Reply, after: Ledger)
      requires ReadTransfers(transferBatch, transferResponders, now.buffers[Transfers]) && ledger == now.ledger
      ensures reply == ReplyTo(policy, now.ledger, Transfers, now.buffers[Transfers], o)
      ensures after == ApplyAll(policy, now.ledger, Effect(now.buffers[Transfers], o))
    {
      TransfersAsCreates(now.buffers[Transfers]);
      var events := seq(|transferBatch|, i requires 0 <= i < |transferBatch| reads this =>
                        NewTransfer(transferBatch[i]));
      assert events == CreatesOf(now.buffers[Transfers]);
      reply := Created(if o.Done? then Ok(Failures(policy, ledger, events)) else Err);
      after := if o == Lost(false) then ledger else ApplyAll(policy, ledger, events);
    }

    method CallCreateAccounts(o: Outcome) returns (reply: Reply, after: Ledger)
      requires ReadAccounts(accountBatch, accountResponders, now.buffers[Accounts]) && ledger == now.ledger
      ensures reply == ReplyTo(policy, now.ledger, Accounts, now.buffers[Accounts], o)
      ensures after == ApplyAll(policy, now.ledger, Effect(now.buffers[Accounts], o))
    {
      AccountsAsCreates(now.buffers[Accounts]);
      var events := seq(|accountBatch|, i requires 0 <= i < |accountBatch| reads this => NewAccount(accountBatch[i]));
      assert events == CreatesOf(now.buffers[Accounts]);
      reply := Created(if o.Done? then Ok(Failures(policy, ledger, events)) else Err);
      after := if o == Lost(false) then ledger else ApplyAll(policy, ledger, events);
    }

    method CallLookupAccounts(o: Outcome) returns (reply: Reply)
      requires ReadAccountLookups(lookupAccBatch, lookupAccResponders, now.buffers[AccountLookups])
               && ledger == now.ledger
      ensures reply == ReplyTo(policy, now.ledger, AccountLookups, now.buffers[AccountLookups], o)
      ensures ledger == ApplyAll(policy, now.ledger, Effect(now.buffers[AccountLookups], o))
    {
      LookupIds(now.buffers[AccountLookups]);
      assert lookupAccBatch == IdsOf(now.buffers[AccountLookups]);
      CreatesNothing(now.buffers[AccountLookups]);
      reply := FoundAccounts(if o.Done? then Ok(LookupAccounts(ledger, lookupAccBatch)) else Err);
    }

    method CallLookupTransfers(o: Outcome) returns (reply: Reply)
      requires ReadTransferLookups(lookupTxBatch, lookupTxResponders, now.buffers[TransferLookups])
               && ledger == now.ledger
      ensures reply == ReplyTo(policy, now.ledger, TransferLookups, now.buffers[TransferLookups], o)
      ensures ledger == ApplyAll(policy, now.ledger, Effect(now.buffers[TransferLookups], o))
    {
      TransferLookupIds(now.buffers[TransferLookups]);
      assert lookupTxBatch == IdsOf(now.buffers[TransferLookups]);
      CreatesNothing(now.buffers[TransferLookups]);
      reply := FoundTransfers(if o.Done? then Ok(LookupTransfers(ledger, lookupTxBatch)) else Err);
    }

    // The four flushes

    method ProcessTransfers(o: Outcome)
      requires Valid()
      modifies this`ledger, this`outbox, this`transferBatch, this`transferResponders, this`now
      ensures Valid() && now == Flush(policy, old(now), Transfers, o)
    {
      hide Answer, ReplyTo, ApplyAll, Effect, Broadcast, Collect, AnswersTo, AnswerIn;
      hide ReadAccounts, ReadAccountLookups, ReadTransferLookups;
      var results, after := CallCreateTransfers(o);
      FlushPairs(now.log, Transfers, now.buffers[Transfers], o, results);
      Drain(transferResponders, results, now.buffers[Transfers]);
      ledger := after;
      transferResponders := [];
      transferBatch := [];
      now := Flush(policy, now, Transfers, o);
    }

    method ProcessAccounts(o: Outcome)
      requires Valid()
      modifies this`ledger, this`outbox, this`accountBatch, this`accountResponders, this`now
      ensures Valid() && now == Flush(policy, old(now), Accounts, o)
    {
      hide Answer, ReplyTo, ApplyAll, Effect, Broadcast, Collect, AnswersTo, AnswerIn;
      hide ReadTransfers, ReadAccountLookups, ReadTransferLookups;
      var results, after := CallCreateAccounts(o);
      FlushPairs(now.log, Accounts, now.buffers[Accounts], o, results);
      Drain(accountResponders, results, now.buffers[Accounts]);
      ledger := after;
      accountResponders := [];
      accountBatch := [];
      now := Flush(policy, now, Accounts, o);
    }

    method ProcessLookupAccounts(o: Outcome)
      requires Valid()
      modifies this`outbox, this`lookupAccBatch, this`lookupAccResponders, this`now
      ensures Valid() && now == Flush(policy, old(now), AccountLookups, o)
    {
      hide Answer, ReplyTo, ApplyAll, Effect, Broadcast, Collect, AnswersTo, AnswerIn;
      hide ReadTransfers, ReadAccounts, ReadTransferLookups;
      var results := CallLookupAccounts(o);
      FlushPairs(now.log, AccountLookups, now.buffers[AccountLookups], o, results);
      Drain(lookupAccResponders, results, now.buffers[AccountLookups]);
      lookupAccResponders := [];
      lookupAccBatch := [];
      now := Flush(policy, now, AccountLookups, o);
    }

    method ProcessLookupTransfers(o: Outcome)
      requires Valid()
      modifies this`outbox, this`lookupTxBatch, this`lookupTxResponders, this`now
      ensures Valid() && now == Flush(policy, old(now), TransferLookups, o)
    {
      hide Answer, ReplyTo, ApplyAll, Effect, Broadcast, Collect, AnswersTo, AnswerIn;
      hide ReadTransfers, ReadAccounts, ReadAccountLookups;
      var results := CallLookupTransfers(o);
      FlushPairs(now.log, TransferLookups, now.buffers[TransferLookups], o, results);
      Drain(lookupTxResponders, results, now.buffers[TransferLookups]);
      lookupTxResponders := [];
      lookupTxBatch := [];
      now := Flush(policy, now, TransferLookups, o);
    }

    // The two branches of the select

    method ReceiveTransfer(t: Transfer, responder: nat, o: Outcome)
      requires Valid() && channel != [] && channel[0] == CreateTransfer(t, responder)
      modifies this`channel, this`ledger, this`outbox, this`transferBatch, this`transferResponders, this`now
      ensures Valid() && now == OnReceive(policy, maxSize, old(now), o)
    {
      hide Flush, Collect, AnswerIn;
      hide ReadAccounts, ReadAccountLookups, ReadTransferLookups;
      channel := channel[1..];
      transferBatch := transferBatch + [t];
      transferResponders := transferResponders + [responder];
      now := Take(now);
      if |transferBatch| >= maxSize {
        ProcessTransfers(o);
      }
    }

    method ReceiveAccount(a: Account, responder: nat, o: Outcome)
      requires Valid() && channel != [] && channel[0] == CreateAccount(a, responder)
      modifies this`channel, this`ledger, this`outbox, this`accountBatch, this`accountResponders, this`now
      ensures Valid() && now == OnReceive(policy, maxSize, old(now), o)
    {
      hide Flush, Collect, AnswerIn;
      hide ReadTransfers, ReadAccountLookups, ReadTransferLookups;
      channel := channel[1..];
      accountBatch := accountBatch + [a];
      accountResponders := accountResponders + [responder];
      now := Take(now);
      if |accountBatch| >= maxSize {
        ProcessAccounts(o);
      }
    }

    method ReceiveAccountLookup(id: u128, responder: nat, o: Outcome)
      requires Valid() && channel != [] && channel[0] == LookupAccount(id, responder)
      modifies this`channel, this`outbox, this`lookupAccBatch, this`lookupAccResponders, this`now
      ensures Valid() && now == OnReceive(policy, maxSize, old(now), o)
    {
      hide Flush, Collect, AnswerIn;
      hide ReadTransfers, ReadAccounts, ReadTransferLookups;
      channel := channel[1..];
      lookupAccBatch := lookupAccBatch + [id];
      lookupAccResponders := lookupAccResponders + [responder];
      now := Take(now);
      if |lookupAccBatch| >= maxSize {
        ProcessLookupAccounts(o);
      }
    }

    method ReceiveTransferLookup(id: u128, responder: nat, o: Outcome)
      requires Valid() && channel != [] && channel[0] == LookupTransfer(id, responder)
      modifies this`channel, this`outbox, this`lookupTxBatch, this`lookupTxResponders, this`now
      ensures Valid() && now == OnReceive(policy, maxSize, old(now), o)
    {
      hide Flush, Collect, AnswerIn;
      hide ReadTransfers, ReadAccounts, ReadAccountLookups;
      channel := channel[1..];
      lookupTxBatch := lookupTxBatch + [id];
      lookupTxResponders := lookupTxResponders + [responder];
      now := Take(now);
      if |lookupTxBatch| >= maxSize {
        ProcessLookupTransfers(o);
      }
    }

    /** A direct lookup of many ids, answered without waiting. */
    method ReceiveDirectLookup(ids: seq<u128>, responder: nat, o: Outcome)
      requires Valid() && channel != [] && channel[0] == LookupAccountsNow(ids, responder)
      modifies this`channel, this`outbox, this`now
      ensures Valid() && now == OnReceive(policy, maxSize, old(now), o)
    {
      hide Collect, AnswerIn, ApplyAll, Broadcast;
      hide ReadTransfers, ReadAccounts, ReadAccountLookups, ReadTransferLookups;
      var result := FoundAccounts(if o.Done? then Ok(LookupAccounts(ledger, ids)) else Err);
      DirectAnswer(policy, maxSize, now, o, result);
      channel := channel[1..];
      outbox := outbox + [(responder, result)];
      now := OnReceive(policy, maxSize, now, o);
    }

    /** A direct balance query: posted and pending credits minus debits of each account found. */
    method ReceiveBalanceQuery(ids: seq<u128>, responder: nat, o: Outcome)
      requires Valid() && channel != [] && channel[0] == GetAccountBalances(ids, responder)
      modifies this`channel, this`outbox, this`now
      ensures Valid() && now == OnReceive(policy, maxSize, old(now), o)
    {
      hide Collect, AnswerIn, ApplyAll, Broadcast;
      hide ReadTransfers, ReadAccounts, ReadAccountLookups, ReadTransferLookups;
      var result := Balances(if o.Done? then Ok(BalancesOf(LookupAccounts(ledger, ids))) else Err);
      DirectAnswer(policy, maxSize, now, o, result);
      channel := channel[1..];
      outbox := outbox + [(responder, result)];
      now := OnReceive(policy, maxSize, now, o);
    }

    method DropVectors()
      modifies this`transferBatch, this`transferResponders, this`accountBatch, this`accountResponders,
               this`lookupAccBatch, this`lookupAccResponders, this`lookupTxBatch, this`lookupTxResponders
      ensures transferBatch == [] && accountBatch == [] && lookupAccBatch == [] == lookupTxBatch
      ensures transferResponders == accountResponders == lookupAccResponders == lookupTxResponders == []
    {
      transferBatch, transferResponders, accountBatch, accountResponders := [], [], [], [];
      lookupAccBatch, lookupAccResponders, lookupTxBatch, lookupTxResponders := [], [], [], [];
    }

    /** The loop is left, and its vectors with it. */
    method Leave()
      requires Valid() && !exited && channel == [] && closed
      modifies this
      ensures Valid() && now == OnExit(old(now))
    {
      NothingToRead();
      hide ReadTransfers, ReadAccounts, ReadAccountLookups, ReadTransferLookups, Collect, AnswerIn;
      DropVectors();
      exited := true;
      now := OnExit(now);
    }

    /** `receiver.recv()`: the next command, or the end of the loop once the channel is closed and drained. */
    method Receive(o: Outcome)
      requires Valid() && !exited && (channel != [] || closed)
      modifies this
      ensures Valid()
      ensures now == if old(channel) != [] then OnReceive(policy, maxSize, old(now), o) else OnExit(old(now))
    {
      hide OnReceive, OnExit, Collect, AnswerIn;
      hide ReadTransfers, ReadAccounts, ReadAccountLookups, ReadTransferLookups;
      if channel == [] {
        Leave();
        return;
      }
      match channel[0]
      case CreateTransfer(t, r) => ReceiveTransfer(t, r, o);
      case CreateAccount(a, r) => ReceiveAccount(a, r, o);
      case LookupAccount(id, r) => ReceiveAccountLookup(id, r, o);
      case LookupTransfer(id, r) => ReceiveTransferLookup(id, r, o);
      case LookupAccountsNow(ids, r) => ReceiveDirectLookup(ids, r, o);
      case GetAccountBalances(ids, r) => ReceiveBalanceQuery(ids, r, o);
    }

    /** `timer.tick()`: flushes whatever waits, regardless of size. */
    method OnTimer(o: Outcomes)
      requires Valid() && !exited
      modifies this`ledger, this`outbox, this`now,
               this`transferBatch, this`transferResponders, this`accountBatch, this`accountResponders,
               this`lookupAccBatch, this`lookupAccResponders, this`lookupTxBatch, this`lookupTxResponders
      ensures Valid() && now == OnTick(policy, old(now), o)
    {
      hide Flush, Collect, AnswerIn;
      if transferBatch != [] {
        ProcessTransfers(o.transfers);
      }
      if accountBatch != [] {
        ProcessAccounts(o.accounts);
      }
      if lookupAccBatch != [] {
        ProcessLookupAccounts(o.accountLookups);
      }
      if lookupTxBatch != [] {
        ProcessLookupTransfers(o.transferLookups);
      }
    }

    /** A sender's half: the command joins the channel. */
    method Enqueue(c: Command)
      requires Valid() && !closed
      modifies this`channel, this`now
      ensures Valid() && now == Next(policy, maxSize, old(now), Send(c))
    {
      EventAdds(now.log, Sent(c), AnswerIn);
      hide Collect, ReadTransfers, ReadAccounts, ReadAccountLookups, ReadTransferLookups;
      channel := channel + [c];
      now := Next(policy, maxSize, now, Send(c));
    }

    /** The last sender goes. */
    method Close()
      requires Valid() && !closed
      modifies this`closed, this`now
      ensures Valid() && now == Next(policy, maxSize, old(now), WorkerSpec.Step.Close)
    {
      hide Collect, ReadTransfers, ReadAccounts, ReadAccountLookups, ReadTransferLookups;
      closed := true;
      now := Next(policy, maxSize, now, WorkerSpec.Step.Close);
    }

    /** What happens next: a round of the select, or something at the other end of the channel. */
    method Round(choice: Step)
      requires Valid() && !exited
      modifies this
      ensures Valid() && now == LoopStep(policy, maxSize, old(now), choice)
    {
      hide OnReceive, OnTick, OnExit, ReadTransfers, ReadAccounts, ReadAccountLookups, ReadTransferLookups, Collect;
      match choice
      case Tick(o) => OnTimer(o);
      case Receive(o) =>
        if channel != [] || closed {
          Receive(o);
        }
      case Send(c) =>
        if !closed {
          Enqueue(c);
        }
      case Close =>
        if !closed {
          Close();
        }
      case Exit =>
    }

    /**
      The loop, with sends and the closing of the channel anywhere between its rounds: it goes through the
      steps of the specification.
     */
    method Run(choices: seq<Step>)
      requires Valid()
      modifies this
      ensures Valid() && now == LoopAll(policy, maxSize, old(now), choices)
    {
      hide LoopStep, ReadTransfers, ReadAccounts, ReadAccountLookups, ReadTransferLookups, Collect;
      for i := 0 to |choices|
        invariant Valid() && now == LoopAll(policy, maxSize, old(now), choices[..i])
      {
        if exited {
          ExitedStays(policy, maxSize, old(now), choices, i);
          return;
        }
        assert choices[..i + 1][..i] == choices[..i];
        Round(choices[i]);
      }
      assert choices[..|choices|] == choices;
    }
  }
}
