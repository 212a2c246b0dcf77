/**
  The batching worker as a state machine: a channel, a buffer of waiting commands for each
  kind, the ledger, and the log of everything seen from outside. `Worker.dfy` holds the
  imperative form, whose methods are proved equal to these steps.
 */
module WorkerSpec {
  import opened Wrappers
  import opened Numbers
  import opened Uuids
  import opened Ledgers

  /** Commands sent to the worker. `responder` names the one-shot channel of the sender. */
  datatype Command =
    | CreateTransfer(transfer: Transfer, responder: nat)
    | CreateAccount(account: Account, responder: nat)
    | LookupAccount(id: u128, responder: nat)
    | LookupTransfer(id: u128, responder: nat)
    | LookupAccountsNow(ids: seq<u128>, responder: nat)
    | GetAccountBalances(ids: seq<u128>, responder: nat)

  datatype Kind = Transfers | Accounts | AccountLookups | TransferLookups | DirectLookups | DirectBalances

  function KindOf(c: Command): Kind {
    match c
    case CreateTransfer(_, _) => Transfers
    case CreateAccount(_, _) => Accounts
    case LookupAccount(_, _) => AccountLookups
    case LookupTransfer(_, _) => TransferLookups
    case LookupAccountsNow(_, _) => DirectLookups
    case GetAccountBalances(_, _) => DirectBalances
  }

  predicate Direct(k: Kind) {
    k == DirectLookups || k == DirectBalances
  }

  datatype Balance = Balance(accountId: u128, posted: int, pending: int)

  datatype Reply =
    | Created(results: Result<seq<EventResult>>)
    | FoundAccounts(accounts: Result<seq<Account>>)
    | FoundTransfers(transfers: Result<seq<Transfer>>)
    | Balances(balances: Result<seq<Balance>>)

  /** How a ledger call ends: with an answer, or with a client error after which the batch was applied or not. */
  datatype Outcome = Done | Lost(applied: bool)

  datatype Event =
    | Sent(command: Command)
    | Called(kind: Kind, batch: seq<Command>, outcome: Outcome, reply: Reply)
    | Replied(responder: nat, answer: Reply)

  const NONE_WAITING: map<Kind, seq<Command>> := map k: Kind | true :: []

  /** Commands waiting for the next flush, by kind. */
  type Buffers = b: map<Kind, seq<Command>> | forall k: Kind :: k in b witness NONE_WAITING

  datatype State = State(
    channel: seq<Command>, closed: bool, exited: bool,
    buffers: Buffers, dropped: Buffers, ledger: Ledger, log: seq<Event>)

  const START := State([], false, false, NONE_WAITING, NONE_WAITING, EMPTY_LEDGER, [])

  // What the log records

  /** Concatenates what `f` reads off each event of the log. */
  function Collect<T>(log: seq<Event>, f: Event -> seq<T>): seq<T> {
    if log == [] then [] else Collect(log[..|log| - 1], f) + f(log[|log| - 1])
  }

  function SentIn(e: Event): seq<Command> {
    if e.Sent? then [e.command] else []
  }

  function CalledIn(e: Event): seq<Command> {
    if e.Called? then e.batch else []
  }

  function RepliedIn(e: Event): seq<nat> {
    if e.Replied? then [e.responder] else []
  }

  /** The create events among some commands, in order. */
  function CreatesOf(cs: seq<Command>): seq<Create> {
    if cs == [] then []
    else
      var before := CreatesOf(cs[..|cs| - 1]);
      match cs[|cs| - 1]
      case CreateTransfer(t, _) => before + [NewTransfer(t)]
      case CreateAccount(a, _) => before + [NewAccount(a)]
      case _ => before
  }

  /** The create events a call has put through. */
  function Effect(batch: seq<Command>, o: Outcome): seq<Create> {
    if o == Lost(false) then [] else CreatesOf(batch)
  }

  /** The create events the call `e` has put through to the ledger. */
  function EffectIn(e: Event): seq<Create> {
    if e.Called? then Effect(e.batch, e.outcome) else []
  }

  function SentCommands(log: seq<Event>): seq<Command> { Collect(log, SentIn) }

  function CalledCommands(log: seq<Event>): seq<Command> { Collect(log, CalledIn) }

  function Answered(log: seq<Event>): seq<nat> { Collect(log, RepliedIn) }

  function Effects(log: seq<Event>): seq<Create> { Collect(log, EffectIn) }

  // What a call asks and answers

  /** The ids some commands look up, in order. */
  function IdsOf(cs: seq<Command>): seq<u128> {
    if cs == [] then []
    else
      var before := IdsOf(cs[..|cs| - 1]);
      match cs[|cs| - 1]
      case LookupAccount(id, _) => before + [id]
      case LookupTransfer(id, _) => before + [id]
      case LookupAccountsNow(ids, _) => before + ids
      case GetAccountBalances(ids, _) => before + ids
      case _ => before
  }

  function BalanceOf(a: Account): Balance {
    Balance(a.id,
            WrapI128(WrapI128(a.creditsPosted) - WrapI128(a.debitsPosted)),
            WrapI128(WrapI128(a.creditsPending) - WrapI128(a.debitsPending)))
  }

  function BalancesOf(accounts: seq<Account>): (r: seq<Balance>)
    ensures |r| == |accounts| && forall i | 0 <= i < |r| :: r[i] == BalanceOf(accounts[i])
  {
    if accounts == [] then [] else [BalanceOf(accounts[0])] + BalancesOf(accounts[1..])
  }

  function Answer(p: Policy, l: Ledger, k: Kind, batch: seq<Command>): Reply {
    match k
    case Transfers => Created(Ok(Failures(p, l, CreatesOf(batch))))
    case Accounts => Created(Ok(Failures(p, l, CreatesOf(batch))))
    case AccountLookups => FoundAccounts(Ok(LookupAccounts(l, IdsOf(batch))))
    case TransferLookups => FoundTransfers(Ok(LookupTransfers(l, IdsOf(batch))))
    case DirectLookups => FoundAccounts(Ok(LookupAccounts(l, IdsOf(batch))))
    case DirectBalances => Balances(Ok(BalancesOf(LookupAccounts(l, IdsOf(batch)))))
  }

  function Failure(k: Kind): Reply {
    match k
    case Transfers => Created(Err)
    case Accounts => Created(Err)
    case AccountLookups => FoundAccounts(Err)
    case TransferLookups => FoundTransfers(Err)
    case DirectLookups => FoundAccounts(Err)
    case DirectBalances => Balances(Err)
  }

  function ReplyTo(p: Policy, l: Ledger, k: Kind, batch: seq<Command>, o: Outcome): Reply {
    if o.Done? then Answer(p, l, k, batch) else Failure(k)
  }

  /** One reply to every waiter of the batch, in order. */
  function Broadcast(batch: seq<Command>, r: Reply): seq<Event> {
    if batch == [] then [] else Broadcast(batch[..|batch| - 1], r) + [Replied(batch[|batch| - 1].responder, r)]
  }

  // Steps

  datatype Outcomes = Outcomes(transfers: Outcome, accounts: Outcome, accountLookups: Outcome, transferLookups: Outcome)

  datatype Step = Send(command: Command) | Receive(outcome: Outcome) | Tick(outcomes: Outcomes) | Close | Exit

  /** The size at which a buffer is flushed; a direct command does not wait. */
  function Limit(max: nat, k: Kind): nat {
    if Direct(k) then 1 else max
  }

  /** Sends a whole buffer to the ledger and answers everyone in it. */
  function Flush(p: Policy, s: State, k: Kind, o: Outcome): State {
    var batch := s.buffers[k];
    var r := ReplyTo(p, s.ledger, k, batch, o);
    s.(buffers := s.buffers[k := []],
       ledger := ApplyAll(p, s.ledger, Effect(batch, o)),
       log := s.log + [Called(k, batch, o, r)] + Broadcast(batch, r))
  }

  function FlushIfAny(p: Policy, s: State, k: Kind, o: Outcome): State {
    if s.buffers[k] == [] then s else Flush(p, s, k, o)
  }

  /** Moves the first command of the channel to its buffer. */
  function Take(s: State): State
    requires s.channel != []
  {
    var c := s.channel[0];
    var k := KindOf(c);
    s.(channel := s.channel[1..], buffers := s.buffers[k := s.buffers[k] + [c]])
  }

  function OnReceive(p: Policy, max: nat, s: State, o: Outcome): State
    requires s.channel != []
  {
    var k := KindOf(s.channel[0]);
    var t := Take(s);
    if |t.buffers[k]| >= Limit(max, k) then Flush(p, t, k, o) else t
  }

  function OnTick(p: Policy, s: State, o: Outcomes): State {
    var s1 := FlushIfAny(p, s, Transfers, o.transfers);
    var s2 := FlushIfAny(p, s1, Accounts, o.accounts);
    var s3 := FlushIfAny(p, s2, AccountLookups, o.accountLookups);
    FlushIfAny(p, s3, TransferLookups, o.transferLookups)
  }

  /** The loop ends when the channel is closed and drained; whoever still waits loses the sender of its reply. */
  function OnExit(s: State): State {
    s.(exited := true, buffers := NONE_WAITING, dropped := s.buffers)
  }

  /** A responder is made for one command and moved into it, so no two commands share one. */
  ghost predicate Fresh(log: seq<Event>, responder: nat) {
    forall c | c in SentCommands(log) :: c.responder != responder
  }

  ghost predicate Enabled(s: State, step: Step) {
    match step
    case Send(c) => !s.closed && Fresh(s.log, c.responder)
    case Receive(_) => !s.exited && s.channel != []
    case Tick(_) => !s.exited
    case Close => !s.closed
    case Exit => s.closed && s.channel == [] && !s.exited
  }

  function Next(p: Policy, max: nat, s: State, step: Step): State {
    match step
    case Send(c) => s.(channel := s.channel + [c], log := s.log + [Sent(c)])
    case Receive(o) => if s.channel == [] then s else OnReceive(p, max, s, o)
    case Tick(o) => OnTick(p, s, o)
    case Close => s.(closed := true)
    case Exit => OnExit(s)
  }

  /** The state after each step of a schedule, from the start. */
  ghost predicate IsRun(p: Policy, max: nat, states: seq<State>, steps: seq<Step>) {
    && |states| == |steps| + 1
    && states[0] == START
    && forall i | 0 <= i < |steps| :: Enabled(states[i], steps[i]) && states[i + 1] == Next(p, max, states[i], steps[i])
  }

  ghost predicate Reachable(p: Policy, max: nat, s: State) {
    exists states, steps :: IsRun(p, max, states, steps) && s == states[|steps|]
  }
}
