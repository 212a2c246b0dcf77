/** What the senders of commands may rely on, in every reachable state of the worker. */
module WorkerResults {
  import opened Wrappers
  import opened Numbers
  import opened Uuids
  import opened Ledgers
  import opened WorkerSpec
  import opened WorkerProofs

  lemma ReachableOk(p: Policy, max: nat, s: State)
    requires Reachable(p, max, s)
    ensures Inv(p, max, s) && Small(max, s.buffers)
  {
    var states, steps :| IsRun(p, max, states, steps) && s == states[|steps|];
    RunKeeps(p, max, states, steps, |steps|);
  }

  lemma StartReachable(p: Policy, max: nat)
    ensures Reachable(p, max, START)
  {
    assert IsRun(p, max, [START], []);
  }

  lemma ExtendRun(p: Policy, max: nat, states: seq<State>, steps: seq<Step>, step: Step, t: State)
    requires IsRun(p, max, states, steps)
    requires Enabled(states[|steps|], step) && t == Next(p, max, states[|steps|], step)
    ensures Reachable(p, max, t)
  {
    hide Enabled, Next;
    var states', steps' := states + [t], steps + [step];
    forall i | 0 <= i < |steps'|
      ensures Enabled(states'[i], steps'[i]) && states'[i + 1] == Next(p, max, states'[i], steps'[i])
    {
      assert states'[i] == states[i];
      if i < |steps| {
        assert steps'[i] == steps[i] && states'[i + 1] == states[i + 1];
      }
    }
    assert IsRun(p, max, states', steps') && t == states'[|steps'|];
  }

  lemma NextReachable(p: Policy, max: nat, s: State, step: Step)
    requires Reachable(p, max, s) && Enabled(s, step)
    ensures Reachable(p, max, Next(p, max, s, step))
  {
    var states, steps :| IsRun(p, max, states, steps) && s == states[|steps|];
    ExtendRun(p, max, states, steps, step, Next(p, max, s, step));
  }

  // Linearizability

  /** Event k is a call that carries command c at position i of its batch. */
  ghost predicate CalledAt(log: seq<Event>, k: nat, i: nat, c: Command) {
    k < |log| && log[k].Called? && i < |log[k].batch| && log[k].batch[i] == c
  }

  /**
    The batched ledger is the ledger that applies the create commands put through so far one
    at a time, in flush order, and its books balance.
   */
  lemma BatchingRefinesOneAtATime(p: Policy, max: nat, s: State)
    requires Reachable(p, max, s)
    ensures s.ledger == ApplyAll(p, EMPTY_LEDGER, Effects(s.log))
    ensures BooksBalance(s.ledger)
  {
    ReachableOk(p, max, s);
    BooksAlwaysBalance(p, EMPTY_LEDGER, Effects(s.log));
  }

  /** Within a kind, the ledger is asked in the order in which the commands were sent. */
  lemma KindsKeepOrder(p: Policy, max: nat, s: State, k: Kind)
    requires Reachable(p, max, s)
    ensures OfKind(k, CalledCommands(s.log)) <= OfKind(k, SentCommands(s.log))
  {
    ReachableOk(p, max, s);
    assert InOrder(s, k);
  }

  lemma {:induction false} CollectIn<T>(log: seq<Event>, k: nat, f: Event -> seq<T>, x: T)
    requires k < |log| && x in f(log[k])
    ensures x in Collect(log, f)
    ensures x in Collect(log[..k + 1], f)
  {
    EventAdds(log[..k], log[k], f);
    assert log[..k + 1] == log[..k] + [log[k]];
    CollectAppend(log[..k + 1], log[k + 1..], f);
    assert log == log[..k + 1] + log[k + 1..];
  }

  lemma {:induction false} InCollect<T>(log: seq<Event>, f: Event -> seq<T>, x: T) returns (k: nat)
    requires x in Collect(log, f)
    ensures k < |log| && x in f(log[k])
  {
    var n := |log| - 1;
    if x in f(log[n]) {
      k := n;
    } else {
      k := InCollect(log[..n], f, x);
    }
  }

  /** A call of c follows the sending of c. */
  lemma SentBeforeCalled(p: Policy, max: nat, s: State, k: nat, i: nat, c: Command) returns (j: nat)
    requires Reachable(p, max, s) && CalledAt(s.log, k, i, c)
    ensures j < k && s.log[j] == Sent(c)
  {
    ReachableOk(p, max, s);
    assert CallOk(p, max, s.log, k);
    assert c in s.log[k].batch;
    j := InCollect(s.log[..k], SentIn, c);
  }

  lemma {:induction false} CountOfKind(k: Kind, cs: seq<Command>, c: Command)
    requires KindOf(c) == k
    ensures multiset(OfKind(k, cs))[c] == multiset(cs)[c]
  {
    if cs != [] {
      var n := |cs| - 1;
      CountOfKind(k, cs[..n], c);
      assert cs == cs[..n] + [cs[n]];
    }
  }

  lemma SentOnce(cs: seq<Command>, c: Command)
    requires DistinctResponders(cs) && c in cs
    ensures multiset(cs)[c] == 1
  {
    var i :| 0 <= i < |cs| && cs[i] == c;
    assert cs == cs[..i] + [c] + cs[i + 1..];
    assert c !in cs[..i] && c !in cs[i + 1..];
  }

  /** Where the commands are, counted. */
  lemma Whereabouts(p: Policy, max: nat, s: State, c: Command)
    requires Reachable(p, max, s)
    ensures multiset(CalledCommands(s.log))[c] + multiset(s.dropped[KindOf(c)])[c]
            + multiset(s.buffers[KindOf(c)])[c] + multiset(s.channel)[c]
            == if c in SentCommands(s.log) then 1 else 0
  {
    ReachableOk(p, max, s);
    var k := KindOf(c);
    assert InOrder(s, k);
    CountOfKind(k, SentCommands(s.log), c);
    CountOfKind(k, CalledCommands(s.log), c);
    CountOfKind(k, s.channel, c);
    if c in SentCommands(s.log) {
      SentOnce(SentCommands(s.log), c);
    }
  }

  lemma CollectTwice<T>(log: seq<Event>, i: nat, j: nat, f: Event -> seq<T>, x: T)
    requires i < j < |log| && x in f(log[i]) && x in f(log[j])
    ensures multiset(Collect(log, f))[x] >= 2
  {
    hide Collect;
    var upTo := log[..j + 1];
    CollectIn(log[..j], i, f, x);
    EventAdds(log[..j], log[j], f);
    assert upTo == log[..j] + [log[j]];
    CollectAppend(upTo, log[j + 1..], f);
    assert log == upTo + log[j + 1..];
  }

  lemma {:induction false} CollectSome<T>(log: seq<Event>, k: nat, f: Event -> seq<T>, x: T)
    requires k < |log|
    ensures multiset(Collect(log, f))[x] >= multiset(f(log[k]))[x]
  {
    hide Collect;
    EventAdds(log[..k], log[k], f);
    assert log[..k + 1] == log[..k] + [log[k]];
    CollectAppend(log[..k + 1], log[k + 1..], f);
    assert log == log[..k + 1] + log[k + 1..];
  }

  lemma TwoPlaces(cs: seq<Command>, i: nat, j: nat, c: Command)
    requires i < |cs| && j < |cs| && i != j && cs[i] == c == cs[j]
    ensures multiset(cs)[c] >= 2
  {
    var a, b := if i < j then i else j, if i < j then j else i;
    assert cs == cs[..b] + [c] + cs[b + 1..];
    assert cs[a] in cs[..b];
  }

  /** A command is put to the ledger at most once. */
  lemma CalledOnce(p: Policy, max: nat, s: State, k1: nat, i1: nat, k2: nat, i2: nat, c: Command)
    requires Reachable(p, max, s) && k1 <= k2
    requires CalledAt(s.log, k1, i1, c) && CalledAt(s.log, k2, i2, c)
    ensures k1 == k2 && i1 == i2
  {
    hide Collect, Reachable;
    Whereabouts(p, max, s, c);
    if k1 < k2 {
      CollectTwice(s.log, k1, k2, CalledIn, c);
    } else if i1 != i2 {
      TwoPlaces(s.log[k1].batch, i1, i2, c);
      CollectSome(s.log, k1, CalledIn, c);
    }
  }

  lemma SameResponder(p: Policy, max: nat, s: State, c: Command, d: Command)
    requires Reachable(p, max, s) && c in SentCommands(s.log) && d in SentCommands(s.log) && c.responder == d.responder
    ensures c == d
  {
    ReachableOk(p, max, s);
  }

  /** The call behind a reply to c: it carries c, comes after c was sent and before the reply, and gave that answer. */
  lemma CallBehindReply(p: Policy, max: nat, s: State, c: Command, j: nat) returns (sent: nat, k: nat, i: nat)
    requires Reachable(p, max, s) && c in SentCommands(s.log)
    requires j < |s.log| && s.log[j].Replied? && s.log[j].responder == c.responder
    ensures CalledAt(s.log, k, i, c) && sent < k < j
    ensures s.log[sent] == Sent(c) && s.log[k].kind == KindOf(c) && s.log[j].answer == s.log[k].reply
    ensures s.log[k].reply == ReplyTo(p, LedgerAt(p, s.log[..k]), KindOf(c), s.log[k].batch, s.log[k].outcome)
  {
    ReachableOk(p, max, s);
    assert ReplyOk(s.log, j);
    k, i :| Answers(s.log, j, k, i);
    var d := s.log[k].batch[i];
    sent := SentBeforeCalled(p, max, s, k, i, d);
    CollectIn(s.log, sent, SentIn, d);
    SameResponder(p, max, s, c, d);
    assert CallOk(p, max, s.log, k);
  }

  lemma CalledTwice(p: Policy, max: nat, s: State, k1: nat, i1: nat, k2: nat, i2: nat, c: Command)
    requires Reachable(p, max, s) && CalledAt(s.log, k1, i1, c) && CalledAt(s.log, k2, i2, c)
    ensures k1 == k2
  {
    if k1 <= k2 {
      CalledOnce(p, max, s, k1, i1, k2, i2, c);
    } else {
      CalledOnce(p, max, s, k2, i2, k1, i1, c);
    }
  }

  lemma SentCount(p: Policy, max: nat, s: State, c: Command)
    requires Reachable(p, max, s)
    ensures multiset(SentCommands(s.log))[c] <= 1
  {
    hide Collect;
    ReachableOk(p, max, s);
    if c in SentCommands(s.log) {
      SentOnce(SentCommands(s.log), c);
    }
  }

  lemma SentTwice(p: Policy, max: nat, s: State, i: nat, j: nat, c: Command)
    requires Reachable(p, max, s) && i < |s.log| && j < |s.log| && s.log[i] == Sent(c) == s.log[j]
    ensures i == j
  {
    hide Collect, Reachable;
    if i < j {
      CollectTwice(s.log, i, j, SentIn, c);
    } else if j < i {
      CollectTwice(s.log, j, i, SentIn, c);
    }
    SentCount(p, max, s, c);
  }

  /**
    Real-time order: if b is sent after a was answered, b reaches the ledger after a did.
   */
  lemma RealTimeOrder(p: Policy, max: nat, s: State,
                      a: Command, ka: nat, ia: nat, ja: nat, b: Command, kb: nat, ib: nat, sentB: nat)
    requires Reachable(p, max, s)
    requires CalledAt(s.log, ka, ia, a) && CalledAt(s.log, kb, ib, b)
    requires ja < sentB < |s.log| && s.log[ja].Replied? && s.log[ja].responder == a.responder
    requires s.log[sentB] == Sent(b)
    ensures ka < kb
  {
    var sentA := SentBeforeCalled(p, max, s, ka, ia, a);
    CollectIn(s.log, sentA, SentIn, a);
    var _, k, i := CallBehindReply(p, max, s, a, ja);
    CalledTwice(p, max, s, ka, ia, k, i, a);
    var sent := SentBeforeCalled(p, max, s, kb, ib, b);
    SentTwice(p, max, s, sent, sentB, b);
  }

  // One answer each

  lemma {:induction false} CountResponders(cs: seq<Command>, c: Command)
    requires forall d | d in cs && d.responder == c.responder :: d == c
    ensures multiset(Responders(cs))[c.responder] == multiset(cs)[c]
  {
    if cs != [] {
      var n := |cs| - 1;
      assert cs == cs[..n] + [cs[n]];
      CountResponders(cs[..n], c);
    }
  }

  lemma CalledWasSent(p: Policy, max: nat, s: State, c: Command)
    requires Reachable(p, max, s) && c in CalledCommands(s.log)
    ensures c in SentCommands(s.log)
  {
    Whereabouts(p, max, s, c);
  }

  /**
    Exactly one answer: a command that was sent is in one of four places and in no other: in
    the channel, in its buffer, answered, or dropped when the loop ended. It is there once.
   */
  lemma ExactlyOneAnswer(p: Policy, max: nat, s: State, c: Command)
    requires Reachable(p, max, s) && c in SentCommands(s.log)
    ensures multiset(s.channel)[c] + multiset(s.buffers[KindOf(c)])[c] + multiset(s.dropped[KindOf(c)])[c]
            + multiset(Answered(s.log))[c.responder] == 1
    ensures c in s.dropped[KindOf(c)] ==> c !in CalledCommands(s.log)
  {
    ReachableOk(p, max, s);
    Whereabouts(p, max, s, c);
    forall d | d in CalledCommands(s.log) && d.responder == c.responder
      ensures d == c
    {
      CalledWasSent(p, max, s, d);
      SameResponder(p, max, s, c, d);
    }
    CountResponders(CalledCommands(s.log), c);
  }

  // Size and delay

  /**
    No call is empty or larger than the configured size, where size 0 acts as 1; no buffer waits at that
    size; and a direct command has a call of its own.
   */
  lemma BatchesAreBounded(p: Policy, max: nat, s: State)
    requires Reachable(p, max, s)
    ensures forall j | 0 <= j < |s.log| && s.log[j].Called? ::
              0 < |s.log[j].batch| <= if Direct(s.log[j].kind) || max == 0 then 1 else max
    ensures forall k: Kind :: |s.buffers[k]| < if Direct(k) || max == 0 then 1 else max
  {
    ReachableOk(p, max, s);
    forall j | 0 <= j < |s.log| && s.log[j].Called?
      ensures 0 < |s.log[j].batch| <= if Direct(s.log[j].kind) || max == 0 then 1 else max
    {
      assert CallOk(p, max, s.log, j);
    }
    forall k: Kind
      ensures |s.buffers[k]| < if Direct(k) || max == 0 then 1 else max
    {
      assert |s.buffers[k]| < Bound(Limit(max, k));
    }
  }

  /** The calls of a log: what was asked, and with which batch. */
  function CallIn(e: Event): seq<(Kind, seq<Command>)> {
    if e.Called? then [(e.kind, e.batch)] else []
  }

  function WaitingCall(s: State, k: Kind): seq<(Kind, seq<Command>)> {
    if s.buffers[k] == [] then [] else [(k, s.buffers[k])]
  }

  lemma FlushIfAnyCalls(p: Policy, s: State, k: Kind, o: Outcome)
    ensures Collect(FlushIfAny(p, s, k, o).log, CallIn) == Collect(s.log, CallIn) + WaitingCall(s, k)
    ensures FlushIfAny(p, s, k, o).buffers == s.buffers[k := []]
  {
    hide Collect, ReplyTo, Broadcast;
    var batch := s.buffers[k];
    if batch != [] {
      var r := ReplyTo(p, s.ledger, k, batch, o);
      FlushAdds(s.log, k, batch, o, r, CallIn);
      BroadcastQuiet(batch, r, CallIn);
      assert s.log + [Called(k, batch, o, r)] + Broadcast(batch, r) == s.log + FlushLog(k, batch, o, r);
    } else {
      assert s.buffers[k := []] == s.buffers;
    }
  }

  /**
    A tick makes one call for each kind that has commands waiting, with all of them: transfers first,
    then accounts, then lookups.
   */
  lemma TickCallsInOrder(p: Policy, s: State, o: Outcomes)
    ensures Collect(OnTick(p, s, o).log, CallIn)
            == Collect(s.log, CallIn) + WaitingCall(s, Transfers) + WaitingCall(s, Accounts)
               + WaitingCall(s, AccountLookups) + WaitingCall(s, TransferLookups)
  {
    hide Collect, FlushIfAny;
    var s1 := FlushIfAny(p, s, Transfers, o.transfers);
    var s2 := FlushIfAny(p, s1, Accounts, o.accounts);
    var s3 := FlushIfAny(p, s2, AccountLookups, o.accountLookups);
    FlushIfAnyCalls(p, s, Transfers, o.transfers);
    FlushIfAnyCalls(p, s1, Accounts, o.accounts);
    FlushIfAnyCalls(p, s2, AccountLookups, o.accountLookups);
    FlushIfAnyCalls(p, s3, TransferLookups, o.transferLookups);
  }

  /** A tick leaves no command in any buffer. */
  lemma TickEmpties(p: Policy, max: nat, s: State, o: Outcomes, k: Kind)
    requires Reachable(p, max, s) && Enabled(s, Tick(o))
    ensures OnTick(p, s, o).buffers[k] == []
  {
    ReachableOk(p, max, s);
    TickKeeps(p, max, s, o);
  }

  /** After a tick every command taken from the channel has been answered. */
  lemma TickAnswersEveryone(p: Policy, max: nat, s: State, o: Outcomes, c: Command)
    requires Reachable(p, max, s) && Enabled(s, Tick(o))
    requires c in SentCommands(OnTick(p, s, o).log) && c !in OnTick(p, s, o).channel
    ensures multiset(Answered(OnTick(p, s, o).log))[c.responder] == 1
  {
    var t := OnTick(p, s, o);
    ReachableOk(p, max, s);
    TickKeeps(p, max, s, o);
    assert t == Next(p, max, s, Tick(o));
    NextReachable(p, max, s, Tick(o));
    ExactlyOneAnswer(p, max, t, c);
  }
}
