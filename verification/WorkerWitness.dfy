/** Runs of the worker that show what its broadcast answers do not tell. */
module WorkerWitness {
  import opened Wrappers
  import opened Numbers
  import opened Uuids
  import opened Ledgers
  import opened WorkerSpec
  import opened WorkerProofs
  import opened WorkerResults
  import opened WorkerAnswers

  /** A ledger that refuses nothing beyond what every ledger refuses. */
  const LENIENT := Policy((l: Ledger, c: Create) => None)

  /** Nothing waits, and the responders from n on are unused. */
  ghost predicate Idle(w: State, n: nat) {
    && !w.closed && !w.exited && w.channel == [] && w.buffers == NONE_WAITING
    && forall c | c in SentCommands(w.log) :: c.responder < n
  }

  // Commands that are flushed one by one

  /** The worker after it has received and answered `c`, where it flushes every command at once. */
  function Served(p: Policy, w: State, c: Command): State {
    Next(p, 1, Next(p, 1, w, Send(c)), Receive(Done))
  }

  lemma ServedAtOnce(p: Policy, w: State, c: Command)
    requires Idle(w, c.responder)
    ensures Enabled(w, Send(c)) && Enabled(Next(p, 1, w, Send(c)), Receive(Done))
    ensures Idle(Served(p, w, c), c.responder + 1)
    ensures Served(p, w, c).ledger == ApplyAll(p, w.ledger, CreatesOf([c]))
    ensures var r := Answer(p, w.ledger, KindOf(c), [c]);
            Served(p, w, c).log == w.log + [Sent(c), Called(KindOf(c), [c], Done, r)] + [Replied(c.responder, r)]
  {
    hide ApplyAll, Answer, CreatesOf, Collect;
    var k, w2 := KindOf(c), Served(p, w, c);
    var taken := Take(Next(p, 1, w, Send(c)));
    assert taken.buffers[k] == [c];
    var r := Answer(p, w.ledger, k, [c]);
    assert Broadcast([c], r) == [Replied(c.responder, r)] by { BroadcastEvents([c], r); }
    assert w2.buffers == NONE_WAITING;
    EventAdds(w.log, Sent(c), SentIn);
    FlushRecords(w.log + [Sent(c)], k, [c], Done, r);
    assert w2.log == w.log + [Sent(c)] + FlushLog(k, [c], Done, r);
    assert SentCommands(w2.log) == SentCommands(w.log) + [c];
  }

  // Commands that are flushed in pairs

  ghost predicate Told(log: seq<Event>, c: Command, r: Reply) {
    c in SentCommands(log) && Replied(c.responder, r) in log
  }

  lemma PairSent(p: Policy, w: State, c: Command, d: Command) returns (t: State)
    requires Reachable(p, 2, w) && Idle(w, c.responder) && d.responder == c.responder + 1
    ensures Reachable(p, 2, t) && t == w.(channel := [c, d], log := w.log + [Sent(c)] + [Sent(d)])
    ensures SentCommands(t.log) == SentCommands(w.log) + [c] + [d]
  {
    hide Collect, Reachable;
    NextReachable(p, 2, w, Send(c));
    t := Next(p, 2, w, Send(c));
    EventAdds(w.log, Sent(c), SentIn);
    NextReachable(p, 2, t, Send(d));
    EventAdds(t.log, Sent(d), SentIn);
    t := Next(p, 2, t, Send(d));
  }

  lemma PairReceived(p: Policy, w: State, c: Command, d: Command) returns (t: State)
    requires Reachable(p, 2, w) && !w.exited && w.channel == [c, d] && w.buffers == NONE_WAITING
    requires KindOf(c) == KindOf(d) && !Direct(KindOf(c))
    ensures Reachable(p, 2, t)
    ensures t == w.(channel := [], ledger := ApplyAll(p, w.ledger, CreatesOf([c, d])),
                    log := w.log + FlushLog(KindOf(c), [c, d], Done, Answer(p, w.ledger, KindOf(c), [c, d])))
  {
    hide ApplyAll, Answer, CreatesOf, Reachable, Broadcast;
    var k := KindOf(c);
    NextReachable(p, 2, w, Receive(Done));
    t := Next(p, 2, w, Receive(Done));
    assert w.channel[1..] == [d] && w.buffers[k] + [c] == [c];
    assert t == w.(channel := [d], buffers := w.buffers[k := [c]]);
    NextReachable(p, 2, t, Receive(Done));
    assert Take(t).buffers[k] == [c, d] && Take(t).channel == [];
    t := Next(p, 2, t, Receive(Done));
    assert t.buffers == NONE_WAITING;
  }

  /** The worker after two commands of one kind, where it flushes two at a time. */
  lemma PairServed(p: Policy, w: State, c: Command, d: Command) returns (t: State)
    requires Reachable(p, 2, w) && Idle(w, c.responder) && d.responder == c.responder + 1
    requires KindOf(c) == KindOf(d) && !Direct(KindOf(c))
    ensures Reachable(p, 2, t) && Idle(t, d.responder + 1)
    ensures t.ledger == ApplyAll(p, w.ledger, CreatesOf([c, d]))
    ensures Told(t.log, c, Answer(p, w.ledger, KindOf(c), [c, d]))
            && Told(t.log, d, Answer(p, w.ledger, KindOf(c), [c, d]))
    ensures w.log <= t.log
  {
    hide ApplyAll, Answer, CreatesOf, Collect, Reachable, Broadcast;
    var k, r := KindOf(c), Answer(p, w.ledger, KindOf(c), [c, d]);
    t := PairSent(p, w, c, d);
    var log := t.log;
    t := PairReceived(p, t, c, d);
    FlushRecords(log, k, [c, d], Done, r);
    BroadcastEvents([c, d], r);
    assert t.log[|log| + 1] == Replied(c.responder, r) && t.log[|log| + 2] == Replied(d.responder, r);
  }

  lemma ToldStays(log: seq<Event>, log': seq<Event>, c: Command, r: Reply)
    requires Told(log, c, r) && log <= log'
    ensures Told(log', c, r)
  {
    assert log' == log + log'[|log|..];
    CollectAppend(log, log'[|log|..], SentIn);
  }

  // What the ledger makes of a pair

  lemma TwoCreates(p: Policy, l: Ledger, a: Create, b: Create)
    ensures ApplyAll(p, l, [a, b]) == Apply(p, Apply(p, l, a), b)
    ensures Verdict(p, l, a).None? ==>
              Failures(p, l, [a, b])
              == match Verdict(p, Apply(p, l, a), b)
                 case None => []
                 case Some(why) => [EventResult(1, why)]
  {
    hide Verdict, Apply;
    assert [a, b][..1] == [a] && [a][..0] == [];
    assert ApplyAll(p, l, []) == l && ApplyAll(p, l, [a]) == Apply(p, l, a);
    assert Failures(p, l, []) == [];
    assert Verdict(p, l, a).None? ==> Failures(p, l, [a]) == [];
  }

  lemma PairOfAccounts(a: Account, b: Account, r: nat)
    ensures CreatesOf([CreateAccount(a, r), CreateAccount(b, r + 1)]) == [NewAccount(a), NewAccount(b)]
  {
    var cs := [CreateAccount(a, r), CreateAccount(b, r + 1)];
    assert cs[..1] == [cs[0]] && cs[..1][..0] == [] && CreatesOf([]) == [];
    assert CreatesOf([cs[0]]) == [NewAccount(a)];
  }

  lemma PairOfTransfers(t: Transfer, u: Transfer, r: nat)
    ensures CreatesOf([CreateTransfer(t, r), CreateTransfer(u, r + 1)]) == [NewTransfer(t), NewTransfer(u)]
  {
    var cs := [CreateTransfer(t, r), CreateTransfer(u, r + 1)];
    assert cs[..1] == [cs[0]] && cs[..1][..0] == [] && CreatesOf([]) == [];
    assert CreatesOf([cs[0]]) == [NewTransfer(t)];
  }

  lemma TwoOpened(a: Account, b: Account)
    requires a.id != b.id
    requires a.debitsPending == a.debitsPosted == a.creditsPending == a.creditsPosted == 0
    requires b.debitsPending == b.debitsPosted == b.creditsPending == b.creditsPosted == 0
    ensures ApplyAll(LENIENT, EMPTY_LEDGER, [NewAccount(a), NewAccount(b)]) == Ledger(map[a.id := a, b.id := b], [])
  {
    TwoCreates(LENIENT, EMPTY_LEDGER, NewAccount(a), NewAccount(b));
    hide ApplyAll;
    assert Apply(LENIENT, EMPTY_LEDGER, NewAccount(a)) == Ledger(map[a.id := a], []);
    assert map[a.id := a][b.id := b] == map[a.id := a, b.id := b];
  }

  /** A run that opens two accounts without money. */
  lemma TwoAccounts(a: Account, b: Account) returns (s: State)
    requires a.id != b.id
    requires a.debitsPending == a.debitsPosted == a.creditsPending == a.creditsPosted == 0
    requires b.debitsPending == b.debitsPosted == b.creditsPending == b.creditsPosted == 0
    ensures Reachable(LENIENT, 2, s) && Idle(s, 2)
    ensures s.ledger == Ledger(map[a.id := a, b.id := b], [])
  {
    hide Reachable, ApplyAll, CreatesOf, Answer, Told;
    StartReachable(LENIENT, 2);
    assert Idle(START, 0);
    hide Idle;
    PairOfAccounts(a, b, 0);
    TwoOpened(a, b);
    s := PairServed(LENIENT, START, CreateAccount(a, 0), CreateAccount(b, 1));
  }

  /**
    Not every posted transfer is reported as accepted: in this run two transfers share a batch, the
    first is posted, and both senders receive the refusal of the second.
   */
  lemma PostedYetReportedRefused() returns (s: State)
    ensures Reachable(LENIENT, 2, s)
    ensures var good, bad := Transfer(7, 1, 2, 50), Transfer(8, 1, 3, 50);
            var refusal := Created(Ok([EventResult(1, CreditAccountNotFound)]));
            && good in s.ledger.posted && bad !in s.ledger.posted
            && Told(s.log, CreateTransfer(good, 2), refusal) && Told(s.log, CreateTransfer(bad, 3), refusal)
  {
    hide Reachable, Told, Idle;
    s := TwoAccounts(Account(1, 0, 0, 0, 0, false), Account(2, 0, 0, 0, 0, true));
    var good, bad := Transfer(7, 1, 2, 50), Transfer(8, 1, 3, 50);
    PairOfTransfers(good, bad, 2);
    TwoCreates(LENIENT, s.ledger, NewTransfer(good), NewTransfer(bad));
    var after := Apply(LENIENT, s.ledger, NewTransfer(good));
    assert after.posted == [good] && after.accounts.Keys == {1, 2};
    assert Verdict(LENIENT, after, NewTransfer(bad)) == Some(CreditAccountNotFound);
    s := PairServed(LENIENT, s, CreateTransfer(good, 2), CreateTransfer(bad, 3));
  }

  lemma PairOfLookups(l: Ledger, id1: u128, id2: u128, r: nat)
    ensures IdsOf([LookupAccount(id1, r), LookupAccount(id2, r + 1)]) == [id1, id2]
    ensures CreatesOf([LookupAccount(id1, r), LookupAccount(id2, r + 1)]) == []
    ensures id1 in l.accounts ==>
              LookupAccounts(l, [id1, id2])
              == if id2 in l.accounts then [l.accounts[id1], l.accounts[id2]] else [l.accounts[id1]]
  {
    var cs := [LookupAccount(id1, r), LookupAccount(id2, r + 1)];
    assert cs[..1] == [cs[0]] && cs[..1][..0] == [] && CreatesOf([]) == [] && IdsOf([]) == [];
    assert CreatesOf([cs[0]]) == [] && IdsOf([cs[0]]) == [id1];
    assert [id1, id2][1..] == [id2] && [id2][1..] == [] && LookupAccounts(l, []) == [];
  }

  /**
    The first entry of a batched lookup need not be the sender's account, nor be absent when the sender
    has none: in this run the sender of the second lookup of a pair has account 2 and receives account 1
    first, and the sender of the second lookup of another pair has no account and receives account 1.
   */
  lemma FirstEntryOfAnother() returns (s: State)
    ensures Reachable(LENIENT, 2, s)
    ensures var a, b := Account(1, 0, 0, 0, 0, true), Account(2, 0, 0, 0, 0, true);
            && Held(s.ledger, 2) == Some(b) && Told(s.log, LookupAccount(2, 3), FoundAccounts(Ok([a, b])))
            && Held(s.ledger, 3) == None && Told(s.log, LookupAccount(3, 5), FoundAccounts(Ok([a])))
  {
    hide Reachable, Told, Idle, LookupAccounts, IdsOf, CreatesOf;
    var a, b := Account(1, 0, 0, 0, 0, true), Account(2, 0, 0, 0, 0, true);
    s := TwoAccounts(a, b);
    var l := s.ledger;
    PairOfLookups(l, 1, 2, 2);
    PairOfLookups(l, 1, 3, 4);
    s := PairServed(LENIENT, s, LookupAccount(1, 2), LookupAccount(2, 3));
    assert Told(s.log, LookupAccount(2, 3), FoundAccounts(Ok([a, b])));
    assert s.ledger == l;
    var log := s.log;
    s := PairServed(LENIENT, s, LookupAccount(1, 4), LookupAccount(3, 5));
    assert Told(s.log, LookupAccount(3, 5), FoundAccounts(Ok([a])));
    ToldStays(log, s.log, LookupAccount(2, 3), FoundAccounts(Ok([a, b])));
  }
}
