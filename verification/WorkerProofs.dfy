/** What every run of the worker keeps. */
module WorkerProofs {
  import opened Wrappers
  import opened Numbers
  import opened Uuids
  import opened Ledgers
  import opened WorkerSpec

  // Logs

  lemma {:induction false} CollectAppend<T>(a: seq<Event>, b: seq<Event>, f: Event -> seq<T>)
    ensures Collect(a + b, f) == Collect(a, f) + Collect(b, f)
  {
    if b == [] {
      assert a + b == a;
    } else {
      var n := |b| - 1;
      CollectAppend(a, b[..n], f);
      assert (a + b)[..|a + b| - 1] == a + b[..n];
    }
  }

  function Responders(cs: seq<Command>): seq<nat> {
    if cs == [] then [] else Responders(cs[..|cs| - 1]) + [cs[|cs| - 1].responder]
  }

  lemma {:induction false} BroadcastEvents(batch: seq<Command>, r: Reply)
    ensures |Broadcast(batch, r)| == |batch|
    ensures forall i | 0 <= i < |batch| :: Broadcast(batch, r)[i] == Replied(batch[i].responder, r)
  {
    if batch != [] {
      BroadcastEvents(batch[..|batch| - 1], r);
    }
  }

  lemma {:induction false} BroadcastAnswers(batch: seq<Command>, r: Reply)
    ensures Answered(Broadcast(batch, r)) == Responders(batch)
  {
    if batch != [] {
      BroadcastAnswers(batch[..|batch| - 1], r);
    }
  }

  lemma {:induction false} BroadcastQuiet<T>(batch: seq<Command>, r: Reply, f: Event -> seq<T>)
    requires forall i: nat :: f(Replied(i, r)) == []
    ensures Collect(Broadcast(batch, r), f) == []
  {
    if batch != [] {
      BroadcastQuiet(batch[..|batch| - 1], r, f);
    }
  }

  function FlushLog(k: Kind, batch: seq<Command>, o: Outcome, r: Reply): seq<Event> {
    [Called(k, batch, o, r)] + Broadcast(batch, r)
  }

  lemma EventAdds<T>(log: seq<Event>, e: Event, f: Event -> seq<T>)
    ensures Collect(log + [e], f) == Collect(log, f) + f(e)
  {
    assert (log + [e])[..|log|] == log;
  }

  lemma FlushAdds<T>(log: seq<Event>, k: Kind, batch: seq<Command>, o: Outcome, r: Reply, f: Event -> seq<T>)
    ensures Collect(log + FlushLog(k, batch, o, r), f)
            == Collect(log, f) + (f(Called(k, batch, o, r)) + Collect(Broadcast(batch, r), f))
  {
    var c := [Called(k, batch, o, r)];
    CollectAppend(log, FlushLog(k, batch, o, r), f);
    CollectAppend(c, Broadcast(batch, r), f);
    EventAdds([], c[0], f);
    assert [] + c == c;
  }

  /** What a flush adds to what the log records. */
  lemma FlushRecords(log: seq<Event>, k: Kind, batch: seq<Command>, o: Outcome, r: Reply)
    ensures SentCommands(log + FlushLog(k, batch, o, r)) == SentCommands(log)
    ensures CalledCommands(log + FlushLog(k, batch, o, r)) == CalledCommands(log) + batch
  {
    FlushAdds(log, k, batch, o, r, SentIn);
    BroadcastQuiet(batch, r, SentIn);
    FlushAdds(log, k, batch, o, r, CalledIn);
    BroadcastQuiet(batch, r, CalledIn);
  }

  lemma FlushEffects(log: seq<Event>, k: Kind, batch: seq<Command>, o: Outcome, r: Reply)
    ensures Effects(log + FlushLog(k, batch, o, r)) == Effects(log) + Effect(batch, o)
  {
    FlushAdds(log, k, batch, o, r, EffectIn);
    BroadcastQuiet(batch, r, EffectIn);
  }

  lemma FlushAnswers(log: seq<Event>, k: Kind, batch: seq<Command>, o: Outcome, r: Reply)
    ensures Answered(log + FlushLog(k, batch, o, r)) == Answered(log) + Responders(batch)
  {
    FlushAdds(log, k, batch, o, r, RepliedIn);
    BroadcastAnswers(batch, r);
  }

  // The invariant

  ghost function LedgerAt(p: Policy, log: seq<Event>): Ledger {
    ApplyAll(p, EMPTY_LEDGER, Effects(log))
  }

  function OfKind(k: Kind, cs: seq<Command>): seq<Command> {
    if cs == [] then []
    else OfKind(k, cs[..|cs| - 1]) + if KindOf(cs[|cs| - 1]) == k then [cs[|cs| - 1]] else []
  }

  function Bound(max: nat): nat {
    if max == 0 then 1 else max
  }

  /**
    A call is made for sent commands of one kind, is neither empty nor too large, and is answered from
    the ledger of its time.
   */
  ghost predicate CallOk(p: Policy, max: nat, log: seq<Event>, j: nat)
    requires j < |log|
  {
    match log[j]
    case Called(k, batch, o, r) =>
      && 0 < |batch| <= Bound(Limit(max, k))
      && (forall c | c in batch :: KindOf(c) == k && c in SentCommands(log[..j]))
      && r == ReplyTo(p, LedgerAt(p, log[..j]), k, batch, o)
    case _ => true
  }

  ghost predicate Answers(log: seq<Event>, j: nat, k: nat, i: nat) {
    && k < j < |log|
    && log[k].Called? && log[j].Replied?
    && i < |log[k].batch|
    && log[k].batch[i].responder == log[j].responder
    && log[k].reply == log[j].answer
  }

  /** A reply follows the call it answers, and says what that call answered. */
  ghost predicate ReplyOk(log: seq<Event>, j: nat)
    requires j < |log|
  {
    log[j].Replied? ==> exists k, i :: Answers(log, j, k, i)
  }

  ghost predicate LogOk(p: Policy, max: nat, log: seq<Event>) {
    forall j | 0 <= j < |log| :: CallOk(p, max, log, j) && ReplyOk(log, j)
  }

  /**
    Commands of a kind reach the ledger in the order in which they were sent: those put to the
    ledger, those dropped, those in the buffer and those in the channel make up those sent.
   */
  ghost predicate InOrder(s: State, k: Kind) {
    && OfKind(k, s.buffers[k]) == s.buffers[k]
    && OfKind(k, SentCommands(s.log))
       == OfKind(k, CalledCommands(s.log)) + (s.dropped[k] + (s.buffers[k] + OfKind(k, s.channel)))
  }

  ghost predicate AllInOrder(s: State) {
    forall k: Kind :: InOrder(s, k)
  }

  ghost predicate DistinctResponders(cs: seq<Command>) {
    forall i, j | 0 <= i < j < |cs| :: cs[i].responder != cs[j].responder
  }

  ghost predicate SortedBuffers(b: Buffers) {
    forall k: Kind, c | c in b[k] :: KindOf(c) == k
  }

  /** After the loop has ended nothing is left to do, and until then nothing is dropped. */
  ghost predicate ExitOk(s: State) {
    if s.exited then s.closed && s.channel == [] && s.buffers == NONE_WAITING else s.dropped == NONE_WAITING
  }

  /** Every command put to the ledger is answered, once, in order. */
  ghost predicate AllAnswered(log: seq<Event>) {
    Answered(log) == Responders(CalledCommands(log))
  }

  ghost predicate Inv(p: Policy, max: nat, s: State) {
    && ExitOk(s)
    && SortedBuffers(s.buffers)
    && AllInOrder(s)
    && DistinctResponders(SentCommands(s.log))
    && AllAnswered(s.log)
    && s.ledger == LedgerAt(p, s.log)
    && LogOk(p, max, s.log)
  }

  /** Between two steps no buffer has reached its limit. */
  ghost predicate Small(max: nat, b: Buffers) {
    forall k: Kind :: |b[k]| < Bound(Limit(max, k))
  }

  // Order

  lemma {:induction false} OfKindAppend(k: Kind, a: seq<Command>, b: seq<Command>)
    ensures OfKind(k, a + b) == OfKind(k, a) + OfKind(k, b)
  {
    if b == [] {
      assert a + b == a;
    } else {
      var n := |b| - 1;
      OfKindAppend(k, a, b[..n]);
      assert (a + b)[..|a + b| - 1] == a + b[..n];
    }
  }

  lemma {:induction false} OfOneKind(k: Kind, k': Kind, cs: seq<Command>)
    requires forall c | c in cs :: KindOf(c) == k
    ensures OfKind(k', cs) == if k == k' then cs else []
  {
    if cs != [] {
      var n := |cs| - 1;
      assert cs[n] in cs;
      OfOneKind(k, k', cs[..n]);
    }
  }

  lemma OneOfKind(k: Kind, c: Command)
    ensures OfKind(k, [c]) == if KindOf(c) == k then [c] else []
  {
    assert [c][..0] == [];
  }

  lemma Regroup<T>(a: seq<T>, b: seq<T>, c: seq<T>)
    ensures a + ([] + (b + c)) == a + b + ([] + ([] + c)) && a + [] + ([] + (b + c)) == a + ([] + (b + c))
  {
    assert a + (b + c) == a + b + c;
    assert [] + (b + c) == b + c && [] + ([] + c) == c && a + [] == a;
  }

  lemma FlushOrder(s: State, t: State, k: Kind, k': Kind)
    requires InOrder(s, k') && SortedBuffers(s.buffers)
    requires t.buffers == s.buffers[k := []] && t.channel == s.channel && t.dropped == s.dropped == NONE_WAITING
    requires SentCommands(t.log) == SentCommands(s.log)
    requires CalledCommands(t.log) == CalledCommands(s.log) + s.buffers[k]
    ensures InOrder(t, k')
  {
    var called, batch := CalledCommands(s.log), s.buffers[k];
    OfKindAppend(k', called, batch);
    OfOneKind(k, k', batch);
    Regroup(OfKind(k', called), s.buffers[k'], OfKind(k', s.channel));
    if k == k' {
      assert t.buffers[k'] == [];
    } else {
      assert t.buffers[k'] == s.buffers[k'];
    }
  }

  lemma TakeOrder(s: State, k: Kind)
    requires InOrder(s, k) && s.channel != []
    ensures InOrder(Take(s), k)
  {
    hide OfKind, Collect;
    var c, t := s.channel[0], Take(s);
    var waiting, coming := s.buffers[k], OfKind(k, t.channel);
    assert s.channel == [c] + t.channel;
    OfKindAppend(k, [c], t.channel);
    OneOfKind(k, c);
    OfKindAppend(k, waiting, [c]);
    if KindOf(c) == k {
      assert t.buffers[k] == waiting + [c];
      assert waiting + ([c] + coming) == waiting + [c] + coming;
    } else {
      assert t.buffers[k] == waiting;
      assert [] + coming == coming;
    }
  }

  lemma Reassociate<T>(a: seq<T>, b: seq<T>, c: seq<T>, d: seq<T>, e: seq<T>)
    ensures a + (b + (c + d)) + e == a + (b + (c + (d + e)))
  {
  }

  lemma SendOrder(s: State, t: State, c: Command, k: Kind)
    requires InOrder(s, k) && t.buffers == s.buffers && t.dropped == s.dropped && t.channel == s.channel + [c]
    requires SentCommands(t.log) == SentCommands(s.log) + [c]
    requires CalledCommands(t.log) == CalledCommands(s.log)
    ensures InOrder(t, k)
  {
    hide OfKind, Collect;
    OfKindAppend(k, SentCommands(s.log), [c]);
    OfKindAppend(k, s.channel, [c]);
    Reassociate(OfKind(k, CalledCommands(s.log)), s.dropped[k], s.buffers[k], OfKind(k, s.channel), OfKind(k, [c]));
  }

  lemma ExitOrder(s: State, k: Kind)
    requires InOrder(s, k) && s.dropped == NONE_WAITING && s.channel == []
    ensures InOrder(OnExit(s), k)
  {
    assert [] + (s.buffers[k] + []) == s.buffers[k] + ([] + []);
  }

  // The log

  lemma OldEvents(p: Policy, max: nat, log: seq<Event>, more: seq<Event>, j: nat)
    requires LogOk(p, max, log) && j < |log|
    ensures CallOk(p, max, log + more, j) && ReplyOk(log + more, j)
  {
    var l := log + more;
    assert l[..j] == log[..j];
    assert CallOk(p, max, log, j) && ReplyOk(log, j);
    if log[j].Replied? {
      var k, i :| Answers(log, j, k, i);
      assert Answers(l, j, k, i);
    }
  }

  /** An event that is neither a call nor a reply is no threat to the log. */
  lemma QuietEvent(p: Policy, max: nat, log: seq<Event>, e: Event)
    requires LogOk(p, max, log) && !e.Called? && !e.Replied?
    ensures LogOk(p, max, log + [e])
  {
    forall j | 0 <= j < |log + [e]|
      ensures CallOk(p, max, log + [e], j) && ReplyOk(log + [e], j)
    {
      if j < |log| {
        OldEvents(p, max, log, [e], j);
      }
    }
  }

  lemma FlushEvents(p: Policy, max: nat, log: seq<Event>, k: Kind, batch: seq<Command>, o: Outcome)
    requires LogOk(p, max, log)
    requires 0 < |batch| <= Bound(Limit(max, k))
    requires forall c | c in batch :: KindOf(c) == k && c in SentCommands(log)
    ensures LogOk(p, max, log + FlushLog(k, batch, o, ReplyTo(p, LedgerAt(p, log), k, batch, o)))
  {
    var r := ReplyTo(p, LedgerAt(p, log), k, batch, o);
    var more := FlushLog(k, batch, o, r);
    var l := log + more;
    BroadcastEvents(batch, r);
    forall j | 0 <= j < |l|
      ensures CallOk(p, max, l, j) && ReplyOk(l, j)
    {
      if j < |log| {
        OldEvents(p, max, log, more, j);
      } else if j == |log| {
        assert l[..j] == log;
      } else {
        assert Answers(l, j, |log|, j - |log| - 1);
      }
    }
  }

  lemma {:induction false} InOfKind(k: Kind, cs: seq<Command>, c: Command)
    ensures c in OfKind(k, cs) <==> c in cs && KindOf(c) == k
  {
    if cs != [] {
      var n := |cs| - 1;
      InOfKind(k, cs[..n], c);
      assert cs == cs[..n] + [cs[n]];
    }
  }

  lemma BatchWasSent(s: State, k: Kind, c: Command)
    requires InOrder(s, k) && SortedBuffers(s.buffers) && c in s.buffers[k]
    ensures KindOf(c) == k && c in SentCommands(s.log)
  {
    InOfKind(k, SentCommands(s.log), c);
  }

  lemma {:induction false} RespondersAppend(a: seq<Command>, b: seq<Command>)
    ensures Responders(a + b) == Responders(a) + Responders(b)
  {
    if b == [] {
      assert a + b == a;
    } else {
      var n := |b| - 1;
      RespondersAppend(a, b[..n]);
      assert (a + b)[..|a + b| - 1] == a + b[..n];
    }
  }

  // Steps

  lemma FlushKeeps(p: Policy, max: nat, s: State, k: Kind, o: Outcome)
    requires Inv(p, max, s) && !s.exited
    requires 0 < |s.buffers[k]| <= Bound(Limit(max, k))
    ensures Inv(p, max, Flush(p, s, k, o))
  {
    hide Collect, OfKind, Responders, ApplyAll, Broadcast, Answer, CallOk, ReplyOk;
    var batch := s.buffers[k];
    var r := ReplyTo(p, s.ledger, k, batch, o);
    var t := Flush(p, s, k, o);
    assert t.log == s.log + FlushLog(k, batch, o, r);
    FlushRecords(s.log, k, batch, o, r);
    assert AllInOrder(t) by {
      forall k': Kind
        ensures InOrder(t, k')
      {
        FlushOrder(s, t, k, k');
      }
    }
    assert AllAnswered(t.log) by {
      FlushAnswers(s.log, k, batch, o, r);
      RespondersAppend(CalledCommands(s.log), batch);
    }
    assert t.ledger == LedgerAt(p, t.log) by {
      FlushEffects(s.log, k, batch, o, r);
      ApplyAllAppend(p, EMPTY_LEDGER, Effects(s.log), Effect(batch, o));
    }
    assert LogOk(p, max, t.log) by {
      forall c | c in batch
        ensures KindOf(c) == k && c in SentCommands(s.log)
      {
        BatchWasSent(s, k, c);
      }
      FlushEvents(p, max, s.log, k, batch, o);
    }
  }

  lemma TakeKeeps(p: Policy, max: nat, s: State)
    requires Inv(p, max, s) && s.channel != []
    ensures Inv(p, max, Take(s))
  {
    var t := Take(s);
    assert AllInOrder(t) by {
      forall k: Kind
        ensures InOrder(t, k)
      {
        TakeOrder(s, k);
      }
    }
  }

  lemma SentRecords(log: seq<Event>, c: Command)
    ensures SentCommands(log + [Sent(c)]) == SentCommands(log) + [c]
    ensures CalledCommands(log + [Sent(c)]) == CalledCommands(log)
    ensures Answered(log + [Sent(c)]) == Answered(log)
    ensures Effects(log + [Sent(c)]) == Effects(log)
  {
    EventAdds(log, Sent(c), SentIn);
    EventAdds(log, Sent(c), CalledIn);
    EventAdds(log, Sent(c), RepliedIn);
    EventAdds(log, Sent(c), EffectIn);
  }

  lemma SendKeeps(p: Policy, max: nat, s: State, c: Command)
    requires Inv(p, max, s) && Enabled(s, Send(c))
    ensures Inv(p, max, Next(p, max, s, Send(c)))
  {
    var t := Next(p, max, s, Send(c));
    SentRecords(s.log, c);
    assert AllInOrder(t) by {
      forall k: Kind
        ensures InOrder(t, k)
      {
        SendOrder(s, t, c, k);
      }
    }
    assert LogOk(p, max, t.log) by {
      QuietEvent(p, max, s.log, Sent(c));
    }
  }

  lemma ExitKeeps(p: Policy, max: nat, s: State)
    requires Inv(p, max, s) && Enabled(s, Exit)
    ensures Inv(p, max, OnExit(s))
  {
    var t := OnExit(s);
    assert AllInOrder(t) by {
      forall k: Kind
        ensures InOrder(t, k)
      {
        ExitOrder(s, k);
      }
    }
  }

  /** The state `t` is as good as any state between steps, and has the buffers `b`. */
  ghost predicate Good(p: Policy, max: nat, t: State, b: Buffers) {
    Inv(p, max, t) && !t.exited && t.buffers == b && Small(max, b)
  }

  lemma FlushIfAnyKeeps(p: Policy, max: nat, s: State, b: Buffers, k: Kind, o: Outcome)
    requires Good(p, max, s, b)
    ensures Good(p, max, FlushIfAny(p, s, k, o), b[k := []])
  {
    assert |s.buffers[k]| < Bound(Limit(max, k));
    if s.buffers[k] != [] {
      FlushKeeps(p, max, s, k, o);
    } else {
      assert b[k := []] == b;
    }
  }

  lemma EmptiedBuffers(max: nat, b: Buffers)
    requires Small(max, b)
    ensures b[Transfers := []][Accounts := []][AccountLookups := []][TransferLookups := []] == NONE_WAITING
  {
    assert |b[DirectLookups]| < Bound(Limit(max, DirectLookups)) == 1;
    assert |b[DirectBalances]| < Bound(Limit(max, DirectBalances)) == 1;
    var e := b[Transfers := []][Accounts := []][AccountLookups := []][TransferLookups := []];
    forall k: Kind
      ensures e[k] == []
    {
      match k
      case Transfers =>
      case Accounts =>
      case AccountLookups =>
      case TransferLookups =>
      case DirectLookups =>
      case DirectBalances =>
    }
  }

  /** A tick leaves every buffer empty. */
  lemma TickKeeps(p: Policy, max: nat, s: State, o: Outcomes)
    requires Good(p, max, s, s.buffers)
    ensures Good(p, max, OnTick(p, s, o), NONE_WAITING)
  {
    var b1 := s.buffers[Transfers := []];
    var b2 := b1[Accounts := []];
    var b3 := b2[AccountLookups := []];
    FlushIfAnyKeeps(p, max, s, s.buffers, Transfers, o.transfers);
    var s1 := FlushIfAny(p, s, Transfers, o.transfers);
    FlushIfAnyKeeps(p, max, s1, b1, Accounts, o.accounts);
    var s2 := FlushIfAny(p, s1, Accounts, o.accounts);
    FlushIfAnyKeeps(p, max, s2, b2, AccountLookups, o.accountLookups);
    var s3 := FlushIfAny(p, s2, AccountLookups, o.accountLookups);
    FlushIfAnyKeeps(p, max, s3, b3, TransferLookups, o.transferLookups);
    EmptiedBuffers(max, s.buffers);
  }

  lemma ReceiveKeeps(p: Policy, max: nat, s: State, o: Outcome)
    requires Inv(p, max, s) && Small(max, s.buffers) && Enabled(s, Receive(o))
    ensures Inv(p, max, OnReceive(p, max, s, o)) && Small(max, OnReceive(p, max, s, o).buffers)
  {
    var k, t := KindOf(s.channel[0]), Take(s);
    TakeKeeps(p, max, s);
    assert |s.buffers[k]| < Bound(Limit(max, k));
    if |t.buffers[k]| >= Limit(max, k) {
      FlushKeeps(p, max, t, k, o);
    }
  }

  lemma NextKeeps(p: Policy, max: nat, s: State, step: Step)
    requires Inv(p, max, s) && Small(max, s.buffers) && Enabled(s, step)
    ensures Inv(p, max, Next(p, max, s, step)) && Small(max, Next(p, max, s, step).buffers)
  {
    match step
    case Send(c) => SendKeeps(p, max, s, c);
    case Receive(o) => ReceiveKeeps(p, max, s, o);
    case Tick(o) => TickKeeps(p, max, s, o);
    case Close =>
      forall k: Kind
        ensures InOrder(Next(p, max, s, step), k)
      {
        assert InOrder(s, k);
      }
    case Exit => ExitKeeps(p, max, s);
  }

  lemma StartOk(p: Policy, max: nat)
    ensures Inv(p, max, START) && Small(max, START.buffers)
  {
  }

  /** Every state of every run satisfies the invariant, for every batch size including 0. */
  lemma {:induction false} RunKeeps(p: Policy, max: nat, states: seq<State>, steps: seq<Step>, n: nat)
    requires IsRun(p, max, states, steps) && n < |states|
    ensures Inv(p, max, states[n]) && Small(max, states[n].buffers)
  {
    if n == 0 {
      StartOk(p, max);
    } else {
      RunKeeps(p, max, states, steps, n - 1);
      assert states[n] == Next(p, max, states[n - 1], steps[n - 1]);
      NextKeeps(p, max, states[n - 1], steps[n - 1]);
    }
  }
}
