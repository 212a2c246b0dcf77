/** The balance of a user over all providers, and what an accepted priority list may claim of it. */
module UserBalance {
  import opened Wrappers
  import opened Numbers
  import opened Uuids
  import opened Ledgers
  import opened WorkerSpec
  import WorkerAnswers
  import WorkerProofs
  import WorkerResults

  /** A row of the query that joins the accounts of a user with their providers. */
  datatype AccountInfo = AccountInfo(providerId: Uuid, providerName: string, ledgerAccount: Uuid)

  datatype ProviderBalance = ProviderBalance(providerId: Uuid, providerName: string, balance: i64)
  datatype BalanceResponse = BalanceResponse(total: i64, providers: seq<ProviderBalance>)

  /** Posted credits minus posted debits of one account among those found, without any width; 0 if it is missing. */
  function Exact(found: seq<Account>, id: u128): int {
    match FindAccount(found, id)
    case Some(a) => a.creditsPosted - a.debitsPosted
    case None => 0
  }

  function SumExact(found: seq<Account>, infos: seq<AccountInfo>): int {
    if infos == [] then 0
    else SumExact(found, infos[..|infos| - 1]) + Exact(found, AsU128(infos[|infos| - 1].ledgerAccount))
  }

  function IdsOfInfos(infos: seq<AccountInfo>): seq<u128> {
    seq(|infos|, i requires 0 <= i < |infos| => AsU128(infos[i].ledgerAccount))
  }

  /** One account's balance, with both casts and the subtraction in 64 bits. */
  function BalanceIn(found: seq<Account>, id: u128): (b: i64)
    ensures b == WrapI64(Exact(found, id))
  {
    match FindAccount(found, id)
    case Some(a) =>
      WrapAdd(a.creditsPosted, a.debitsPosted);
      WrapI64(WrapI64(a.creditsPosted) - WrapI64(a.debitsPosted))
    case None => 0
  }

  lemma RunningTotal(found: seq<Account>, infos: seq<AccountInfo>, k: nat)
    requires k < |infos|
    ensures WrapI64(WrapI64(SumExact(found, infos[..k])) + WrapI64(Exact(found, AsU128(infos[k].ledgerAccount))))
            == WrapI64(SumExact(found, infos[..k + 1]))
  {
    hide AsU128, Exact, WrapI64;
    assert infos[..k + 1][..k] == infos[..k];
    WrapAdd(SumExact(found, infos[..k]), Exact(found, AsU128(infos[k].ledgerAccount)));
  }

  function ProviderBalanceOf(info: AccountInfo, balance: int): ProviderBalance {
    ProviderBalance(info.providerId, info.providerName, WrapI64(balance))
  }

  function ProviderBalancesOf(infos: seq<AccountInfo>, found: seq<Account>): (r: seq<ProviderBalance>)
    ensures |r| == |infos|
    ensures forall i | 0 <= i < |infos| ::
              r[i] == ProviderBalanceOf(infos[i], Exact(found, AsU128(infos[i].ledgerAccount)))
  {
    seq(|infos|, i requires 0 <= i < |infos| =>
        ProviderBalanceOf(infos[i], Exact(found, AsU128(infos[i].ledgerAccount))))
  }

  /** The answer to a user whose accounts are `infos`, from exact sums wrapped once. */
  function ResponseOf(infos: seq<AccountInfo>, lookup: Result<seq<Account>>): Result<BalanceResponse> {
    if infos == [] then Ok(BalanceResponse(0, []))
    else
      match lookup
      case Err => Err
      case Ok(found) => Ok(BalanceResponse(WrapI64(SumExact(found, infos)), ProviderBalancesOf(infos, found)))
  }

  lemma OneMoreBalance(infos: seq<AccountInfo>, found: seq<Account>, k: nat)
    requires k < |infos|
    ensures var all := ProviderBalancesOf(infos, found);
            all[..k + 1] == all[..k] + [ProviderBalanceOf(infos[k], Exact(found, AsU128(infos[k].ledgerAccount)))]
  {
    hide Exact, AsU128, ProviderBalanceOf;
  }

  /**
    The summation loop of `get_user_balance`, in 64-bit arithmetic that wraps at every step: the
    result is the exact sum, wrapped once.
   */
  method GetUserBalance(infos: seq<AccountInfo>, lookup: Result<seq<Account>>) returns (r: Result<BalanceResponse>)
    ensures r == ResponseOf(infos, lookup)
    ensures r.Err? <==> infos != [] && lookup.Err?
    ensures r.Ok? && infos == [] ==> r.value.total == 0 && r.value.providers == []
    ensures r.Ok? && infos != [] ==> r.value.total == WrapI64(SumExact(lookup.value, infos))
    ensures r.Ok? ==> |r.value.providers| == |infos|
    ensures r.Ok? ==> forall i | 0 <= i < |infos| ::
              && r.value.providers[i].providerId == infos[i].providerId
              && r.value.providers[i].providerName == infos[i].providerName
              && r.value.providers[i].balance == WrapI64(Exact(lookup.value, AsU128(infos[i].ledgerAccount)))
  {
    if infos == [] {
      return Ok(BalanceResponse(0, []));
    }
    if lookup.Err? {
      return Err;
    }
    var found := lookup.value;
    var total: i64 := 0;
    var providers: seq<ProviderBalance> := [];
    assert WrapI64(SumExact(found, infos[..0])) == 0;
    hide AsU128, Exact, WrapI64, FindAccount, BalanceIn, SumExact, ProviderBalancesOf;
    for k := 0 to |infos|
      invariant total == WrapI64(SumExact(found, infos[..k]))
      invariant providers == ProviderBalancesOf(infos, found)[..k]
    {
      var info := infos[k];
      var balance := BalanceIn(found, AsU128(info.ledgerAccount));
      RunningTotal(found, infos, k);
      OneMoreBalance(infos, found, k);
      total := WrapI64(total + balance);
      providers := providers + [ProviderBalance(info.providerId, info.providerName, balance)];
    }
    assert infos[..|infos|] == infos && providers == ProviderBalancesOf(infos, found);
    r := Ok(BalanceResponse(total, providers));
  }

  // Balance and history

  /** What the posted transfers have brought an account, net. */
  function Net(posted: seq<Transfer>, id: u128): int {
    Credited(posted, id) - Debited(posted, id)
  }

  function SumNet(posted: seq<Transfer>, infos: seq<AccountInfo>): int {
    if infos == [] then 0
    else SumNet(posted, infos[..|infos| - 1]) + Net(posted, AsU128(infos[|infos| - 1].ledgerAccount))
  }

  /** The history of two lists of accounts together is that of each; of a single account it is its own. */
  lemma {:induction false} NetsAdd(posted: seq<Transfer>, infos: seq<AccountInfo>, more: seq<AccountInfo>)
    ensures SumNet(posted, infos + more) == SumNet(posted, infos) + SumNet(posted, more)
    ensures |more| == 1 ==> SumNet(posted, more) == Net(posted, AsU128(more[0].ledgerAccount))
  {
    hide AsU128, Net;
    if more == [] {
      assert infos + more == infos;
    } else {
      var n := |more| - 1;
      NetsAdd(posted, infos, more[..n]);
      assert (infos + more)[..|infos| + n] == infos + more[..n];
    }
  }

  lemma ExactIsNet(l: Ledger, ids: seq<u128>, id: u128)
    requires BooksBalance(l) && id in ids
    ensures Exact(LookupAccounts(l, ids), id) == Net(l.posted, id)
  {
    SearchedLookup(l, ids, id);
    if id in l.accounts {
      assert Carries(l.posted, id, l.accounts[id]);
    } else {
      UnseenAccount(l.posted, id);
    }
  }

  lemma {:induction false} SumsAgree(l: Ledger, ids: seq<u128>, infos: seq<AccountInfo>)
    requires BooksBalance(l)
    requires forall i | i in infos :: AsU128(i.ledgerAccount) in ids
    ensures SumExact(LookupAccounts(l, ids), infos) == SumNet(l.posted, infos)
  {
    hide AsU128, BooksBalance, LookupAccounts, Exact, Net;
    if infos != [] {
      var n := |infos| - 1;
      assert infos[n] in infos;
      SumsAgree(l, ids, infos[..n]);
      ExactIsNet(l, ids, AsU128(infos[n].ledgerAccount));
    }
  }

  lemma IdsListed(infos: seq<AccountInfo>)
    ensures forall info | info in infos :: AsU128(info.ledgerAccount) in IdsOfInfos(infos)
  {
    hide AsU128;
    forall info | info in infos
      ensures AsU128(info.ledgerAccount) in IdsOfInfos(infos)
    {
      var i :| 0 <= i < |infos| && infos[i] == info;
      assert IdsOfInfos(infos)[i] == AsU128(info.ledgerAccount);
    }
  }

  /**
    Balance is history: in every reachable state of the worker, what the summation makes of a lookup
    of a user's accounts is the posted credits minus the posted debits of those accounts.
   */
  lemma BalanceIsHistory(p: Policy, max: nat, s: State, infos: seq<AccountInfo>)
    requires Reachable(p, max, s)
    ensures SumExact(LookupAccounts(s.ledger, IdsOfInfos(infos)), infos) == SumNet(s.ledger.posted, infos)
  {
    hide Reachable, AsU128, LookupAccounts, IdsOfInfos, SumExact, SumNet;
    WorkerResults.BatchingRefinesOneAtATime(p, max, s);
    IdsListed(infos);
    SumsAgree(s.ledger, IdsOfInfos(infos), infos);
  }

  lemma NetOfAccount(l: Ledger, id: u128)
    requires BooksBalance(l)
    ensures id !in l.accounts ==> Net(l.posted, id) == 0
    ensures id in l.accounts && l.accounts[id].capped ==> Net(l.posted, id) >= 0
  {
    if id in l.accounts {
      assert Carries(l.posted, id, l.accounts[id]);
    } else {
      UnseenAccount(l.posted, id);
    }
  }

  /**
    The same for each account. One that the ledger does not know contributes nothing, and one with
    the flag DebitsMustNotExceedCredits is never negative.
   */
  lemma EachBalanceIsHistory(p: Policy, max: nat, s: State, infos: seq<AccountInfo>, info: AccountInfo)
    requires Reachable(p, max, s) && info in infos
    ensures var id := AsU128(info.ledgerAccount);
            && Exact(LookupAccounts(s.ledger, IdsOfInfos(infos)), id) == Net(s.ledger.posted, id)
            && (id !in s.ledger.accounts ==> Net(s.ledger.posted, id) == 0)
            && (id in s.ledger.accounts && s.ledger.accounts[id].capped ==> Net(s.ledger.posted, id) >= 0)
  {
    hide Reachable, AsU128, LookupAccounts, IdsOfInfos, Exact;
    WorkerResults.BatchingRefinesOneAtATime(p, max, s);
    IdsListed(infos);
    ExactIsNet(s.ledger, IdsOfInfos(infos), AsU128(info.ledgerAccount));
    NetOfAccount(s.ledger, AsU128(info.ledgerAccount));
  }

  lemma {:induction false} LookedUp(cs: seq<Command>, c: Command, id: u128)
    requires c in cs && c.LookupAccountsNow? && id in c.ids
    ensures id in IdsOf(cs)
  {
    var n := |cs| - 1;
    if cs[n] != c {
      assert cs == cs[..n] + [cs[n]];
      LookedUp(cs[..n], c, id);
    }
  }

  /** The numbers in 64 bits of a response are those of this history: exact wherever they fit. */
  ghost predicate Shows(r: BalanceResponse, infos: seq<AccountInfo>, posted: seq<Transfer>) {
    && r.total == WrapI64(SumNet(posted, infos))
    && (FitsI64(SumNet(posted, infos)) ==> r.total == SumNet(posted, infos))
    && |r.providers| == |infos|
    && forall i | 0 <= i < |infos| ::
         var net := Net(posted, AsU128(infos[i].ledgerAccount));
         && r.providers[i].providerId == infos[i].providerId
         && r.providers[i].providerName == infos[i].providerName
         && r.providers[i].balance == WrapI64(net)
         && (FitsI64(net) ==> r.providers[i].balance == net)
  }

  lemma ShowsNet(infos: seq<AccountInfo>, found: seq<Account>, posted: seq<Transfer>)
    requires SumExact(found, infos) == SumNet(posted, infos)
    requires forall info | info in infos ::
               Exact(found, AsU128(info.ledgerAccount)) == Net(posted, AsU128(info.ledgerAccount))
    ensures Shows(ResponseOf(infos, Ok(found)).value, infos, posted)
  {
    hide AsU128, Exact, Net, WrapI64;
    WrapExact(SumNet(posted, infos));
    var r := ResponseOf(infos, Ok(found)).value;
    assert infos == [] ==> WrapI64(SumNet(posted, infos)) == 0 by { WrapExact(0); }
    forall i | 0 <= i < |infos|
      ensures var net := Net(posted, AsU128(infos[i].ledgerAccount));
              && r.providers[i].providerId == infos[i].providerId
              && r.providers[i].providerName == infos[i].providerName
              && r.providers[i].balance == WrapI64(net) && (FitsI64(net) ==> r.providers[i].balance == net)
    {
      assert infos[i] in infos;
      WrapExact(Net(posted, AsU128(infos[i].ledgerAccount)));
    }
  }

  /**
    What the handler makes of the worker's answer: the numbers it returns are those of the transfer
    history at one moment between its question and the answer, whatever else the worker does meanwhile.
   */
  lemma AnswerIsHistory(p: Policy, max: nat, s: State, infos: seq<AccountInfo>, responder: nat, j: nat,
          found: seq<Account>)
    requires Reachable(p, max, s) && LookupAccountsNow(IdsOfInfos(infos), responder) in SentCommands(s.log)
    requires j < |s.log| && s.log[j] == Replied(responder, FoundAccounts(Ok(found)))
    ensures exists sent: nat, k: nat ::
              && sent < k < j && s.log[sent] == Sent(LookupAccountsNow(IdsOfInfos(infos), responder))
              && Shows(ResponseOf(infos, Ok(found)).value, infos, WorkerProofs.LedgerAt(p, s.log[..k]).posted)
  {
    hide Reachable, Collect, AsU128, LookupAccounts, Exact, Net, SumExact, SumNet, ApplyAll, BooksBalance, IdsOf,
        IdsOfInfos;
    hide Shows, ResponseOf;
    var c := LookupAccountsNow(IdsOfInfos(infos), responder);
    var sent, k, i := WorkerResults.CallBehindReply(p, max, s, c, j);
    var at, ids := WorkerProofs.LedgerAt(p, s.log[..k]), IdsOf(s.log[k].batch);
    WorkerAnswers.BooksAtCall(p, s.log[..k]);
    assert found == LookupAccounts(at, ids);
    IdsListed(infos);
    forall info | info in infos
      ensures AsU128(info.ledgerAccount) in ids
      ensures Exact(found, AsU128(info.ledgerAccount)) == Net(at.posted, AsU128(info.ledgerAccount))
    {
      LookedUp(s.log[k].batch, c, AsU128(info.ledgerAccount));
      ExactIsNet(at, ids, AsU128(info.ledgerAccount));
    }
    SumsAgree(at, ids, infos);
    ShowsNet(infos, found, at.posted);
  }

  // Conservation

  /** The sum of the balances of some accounts; an id without an account counts as zero. */
  function TotalOf(l: Ledger, ids: seq<u128>): int {
    if ids == [] then 0
    else
      var id := ids[|ids| - 1];
      TotalOf(l, ids[..|ids| - 1])
      + if id in l.accounts then l.accounts[id].creditsPosted - l.accounts[id].debitsPosted else 0
  }

  function NetOf(posted: seq<Transfer>, ids: seq<u128>): int {
    if ids == [] then 0 else NetOf(posted, ids[..|ids| - 1]) + Net(posted, ids[|ids| - 1])
  }

  /** How often an id is listed. */
  function Times(ids: seq<u128>, id: u128): nat {
    multiset(ids)[id]
  }

  lemma TimesLast(ids: seq<u128>, id: u128)
    requires ids != []
    ensures Times(ids, id) == Times(ids[..|ids| - 1], id) + if ids[|ids| - 1] == id then 1 else 0
  {
    assert ids == ids[..|ids| - 1] + [ids[|ids| - 1]];
  }

  lemma NetOneMore(ts: seq<Transfer>, t: Transfer, id: u128)
    ensures Net(ts + [t], id)
            == Net(ts, id) + (if t.creditId == id then t.amount else 0) - if t.debitId == id then t.amount else 0
  {
    assert (ts + [t])[..|ts|] == ts;
  }

  lemma Distribute(a: nat, m: nat, one: bool)
    ensures a * (m + if one then 1 else 0) == a * m + if one then a else 0
  {
  }

  lemma {:induction false} NetOfOneMore(ts: seq<Transfer>, t: Transfer, ids: seq<u128>)
    ensures NetOf(ts + [t], ids)
            == NetOf(ts, ids) + t.amount * Times(ids, t.creditId) - t.amount * Times(ids, t.debitId)
  {
    if ids != [] {
      hide Times, Net;
      var n := |ids| - 1;
      NetOfOneMore(ts, t, ids[..n]);
      NetOneMore(ts, t, ids[n]);
      TimesLast(ids, t.creditId);
      TimesLast(ids, t.debitId);
      Distribute(t.amount, Times(ids[..n], t.creditId), ids[n] == t.creditId);
      Distribute(t.amount, Times(ids[..n], t.debitId), ids[n] == t.debitId);
    }
  }

  lemma {:induction false} NetOfNothing(ids: seq<u128>)
    ensures NetOf([], ids) == 0
  {
    if ids != [] {
      NetOfNothing(ids[..|ids| - 1]);
    }
  }

  lemma {:induction false} TransfersCancelOut(ts: seq<Transfer>, ids: seq<u128>)
    requires forall t | t in ts :: Times(ids, t.creditId) == Times(ids, t.debitId)
    ensures NetOf(ts, ids) == 0
  {
    if ts == [] {
      NetOfNothing(ids);
    } else {
      var n := |ts| - 1;
      assert ts == ts[..n] + [ts[n]];
      TransfersCancelOut(ts[..n], ids);
      NetOfOneMore(ts[..n], ts[n], ids);
    }
  }

  lemma {:induction false} TotalIsNet(l: Ledger, ids: seq<u128>)
    requires BooksBalance(l)
    ensures TotalOf(l, ids) == NetOf(l.posted, ids)
  {
    if ids != [] {
      var n := |ids| - 1;
      TotalIsNet(l, ids[..n]);
      if ids[n] in l.accounts {
        assert Carries(l.posted, ids[n], l.accounts[ids[n]]);
      } else {
        UnseenAccount(l.posted, ids[n]);
      }
    }
  }

  /** Money is conserved: in every reachable state, the balances of all accounts, each counted once, add up to zero. */
  lemma MoneyIsConserved(p: Policy, max: nat, s: State, ids: seq<u128>)
    requires Reachable(p, max, s) && forall id | id in s.ledger.accounts :: Times(ids, id) == 1
    ensures TotalOf(s.ledger, ids) == 0
  {
    WorkerResults.BatchingRefinesOneAtATime(p, max, s);
    TotalIsNet(s.ledger, ids);
    TransfersCancelOut(s.ledger.posted, ids);
  }

  /** The handler shows exact numbers exactly when they fit in 64 bits. */
  lemma ShownExactly(found: seq<Account>, infos: seq<AccountInfo>)
    ensures WrapI64(SumExact(found, infos)) == SumExact(found, infos) <==> FitsI64(SumExact(found, infos))
    ensures forall id: u128 :: WrapI64(Exact(found, id)) == Exact(found, id) <==> FitsI64(Exact(found, id))
  {
    WrapExact(SumExact(found, infos));
    forall id: u128
      ensures WrapI64(Exact(found, id)) == Exact(found, id) <==> FitsI64(Exact(found, id))
    {
      WrapExact(Exact(found, id));
    }
  }
}
