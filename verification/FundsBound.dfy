/** An accepted priority list never claims more than the user has. */
module FundsBound {
  import opened Wrappers
  import opened Numbers
  import opened Uuids
  import opened Ledgers
  import opened WorkerSpec
  import opened StoreCalls
  import opened Priority
  import opened PriorityProofs
  import opened PriorityResults
  import opened UserBalance

  /** The ids that `create_user_priority` looks up. */
  function IdsOfData(data: seq<ItemData>): seq<u128> {
    seq(|data|, i requires 0 <= i < |data| => AsU128(data[i].userLedgerAccount))
  }

  function SumAmounts(items: seq<ItemRequest>): int {
    if items == [] then 0 else SumAmounts(items[..|items| - 1]) + items[|items| - 1].maxAmount
  }

  /** The amounts of two lists together are those of each; of a single item it is its own. */
  lemma {:induction false} AmountsAdd(items: seq<ItemRequest>, more: seq<ItemRequest>)
    ensures SumAmounts(items + more) == SumAmounts(items) + SumAmounts(more)
    ensures |more| == 1 ==> SumAmounts(more) == more[0].maxAmount
  {
    if more == [] {
      assert items + more == items;
    } else {
      var n := |more| - 1;
      AmountsAdd(items, more[..n]);
      assert (items + more)[..|items| + n] == items + more[..n];
    }
  }

  /** The rows of the query over a user's accounts: one for each linked provider. */
  ghost predicate ListsAccounts(db: Db, user: Uuid, infos: seq<AccountInfo>) {
    forall provider: Uuid | (user, provider) in db.accounts && provider in db.providers ::
      exists i :: 0 <= i < |infos|
                && infos[i].providerId == provider
                && infos[i].ledgerAccount == db.accounts[(user, provider)]
  }

  // The hash map

  lemma {:induction false} FoundAreHeld(l: Ledger, ids: seq<u128>)
    requires BooksBalance(l)
    ensures forall a | a in LookupAccounts(l, ids) :: a.id in l.accounts && a == l.accounts[a.id]
  {
    if ids != [] {
      FoundAreHeld(l, ids[1..]);
      if ids[0] in l.accounts {
        assert Carries(l.posted, ids[0], l.accounts[ids[0]]);
      }
    }
  }

  lemma {:induction false} MapHolds(accounts: seq<Account>, id: u128)
    ensures id in AccountsMap(accounts) <==> exists a :: a in accounts && a.id == id
    ensures id in AccountsMap(accounts) ==> AccountsMap(accounts)[id] in accounts && AccountsMap(accounts)[id].id == id
  {
    if accounts != [] {
      var n := |accounts| - 1;
      MapHolds(accounts[..n], id);
      assert accounts == accounts[..n] + [accounts[n]];
    }
  }

  /** Collected into a hash map, the answer of a lookup gives what a linear search of it gives. */
  lemma {:induction false} MapAgreesWithSearch(l: Ledger, ids: seq<u128>, id: u128)
    requires BooksBalance(l) && id in ids
    ensures var m := AccountsMap(LookupAccounts(l, ids));
            && (id in m <==> FindAccount(LookupAccounts(l, ids), id).Some?)
            && (id in m ==>
                  id in l.accounts && m[id] == FindAccount(LookupAccounts(l, ids), id).value == l.accounts[id])
  {
    SearchedLookup(l, ids, id);
    FoundAreHeld(l, ids);
    MapHolds(LookupAccounts(l, ids), id);
    if id in l.accounts {
      assert FindAccount(LookupAccounts(l, ids), id).value in LookupAccounts(l, ids);
    }
  }

  // Sums

  lemma {:induction false} NonNegativeSum(found: seq<Account>, infos: seq<AccountInfo>)
    requires forall i | i in infos :: Exact(found, AsU128(i.ledgerAccount)) >= 0
    ensures SumExact(found, infos) >= 0
  {
    if infos != [] {
      var n := |infos| - 1;
      assert infos[n] in infos;
      NonNegativeSum(found, infos[..n]);
    }
  }

  function Without<T>(s: seq<T>, k: nat): seq<T>
    requires k < |s|
  {
    s[..k] + s[k + 1..]
  }

  lemma {:induction false} SumWithout(found: seq<Account>, infos: seq<AccountInfo>, k: nat)
    requires k < |infos|
    ensures SumExact(found, infos) == SumExact(found, Without(infos, k)) + Exact(found, AsU128(infos[k].ledgerAccount))
    decreases |infos|
  {
    hide AsU128, Exact;
    var n := |infos| - 1;
    if k == n {
      assert Without(infos, k) == infos[..n];
    } else {
      SumWithout(found, infos[..n], k);
      assert Without(infos, k)[..n - 1] == Without(infos[..n], k);
    }
  }

  /** Request k is covered by the account at j. */
  ghost predicate Covers(found: seq<Account>, info: AccountInfo, r: ItemRequest) {
    info.providerId == r.providerId && Exact(found, AsU128(info.ledgerAccount)) >= r.maxAmount
  }

  ghost predicate Covered(found: seq<Account>, infos: seq<AccountInfo>, r: ItemRequest) {
    exists j :: 0 <= j < |infos| && Covers(found, infos[j], r)
  }

  /** Requests through different providers, each covered by its own account, ask for no more than all accounts hold. */
  lemma {:induction false} CoveredInSum(found: seq<Account>, infos: seq<AccountInfo>, requests: seq<ItemRequest>)
    requires forall i | i in infos :: Exact(found, AsU128(i.ledgerAccount)) >= 0
    requires forall k | 0 <= k < |requests| :: Covered(found, infos, requests[k])
    requires forall i, j | 0 <= i < j < |requests| :: requests[i].providerId != requests[j].providerId
    ensures SumAmounts(requests) <= SumExact(found, infos)
    decreases |requests|
  {
    hide AsU128, Exact, SumExact;
    if requests == [] {
      NonNegativeSum(found, infos);
    } else {
      var n := |requests| - 1;
      var r := requests[n];
      assert Covered(found, infos, r);
      var j :| 0 <= j < |infos| && Covers(found, infos[j], r);
      var rest := Without(infos, j);
      SumWithout(found, infos, j);
      forall k | 0 <= k < n
        ensures Covered(found, rest, requests[k])
      {
        assert Covered(found, infos, requests[k]);
        var i :| 0 <= i < |infos| && Covers(found, infos[i], requests[k]);
        assert rest[if i < j then i else i - 1] == infos[i];
      }
      CoveredInSum(found, rest, requests[..n]);
    }
  }

  // The bound

  lemma {:induction false} NoneUnfunded(found: map<u128, Account>, data: seq<ItemData>)
    requires Unfunded(found, data) == []
    ensures forall k | 0 <= k < |data| :: Funded(found, data[k])
  {
    hide Funded;
    if data != [] {
      NoneUnfunded(found, data[..|data| - 1]);
      assert forall k | 0 <= k < |data| - 1 :: data[..|data| - 1][k] == data[k];
    }
  }

  /** What an answer of `create_user_priority` with status 201 says about the request that got it. */
  lemma AcceptedRequest(s: Stores, c: CreateCall)
    requires DbOk(s.db) && CreatePriority(s, c).1.CreatedOk?
    ensures Unresolved(s.db, c.user, c.items, c.faults.lostReads) == []
    ensures c.faults.ledger.Ok?
    ensures Unfunded(AccountsMap(c.faults.ledger.value), Resolved(s.db, c.user, c.items, c.faults.lostReads)) == []
    ensures Insertable(s.db.providers, Resolved(s.db, c.user, c.items, c.faults.lostReads))
  {
    hide DbOk, Cancel, CreateTx, GetActive, FindByKey, Resolved, Unresolved, Unfunded, AccountsMap, ItemsQuery,
        Insertable;
    CancelDbKeeps(s.db, c.user);
    var db2 := if GetActive(s.db, c.user).Some? then Cancel(s.db, c.user) else s.db;
    CreateTxExactly(db2, c.key.value, c.user, Resolved(s.db, c.user, c.items, c.faults.lostReads),
                    c.expiresAt, c.configId);
    CancelOnlyConfigs(s.db, c.user);
  }

  /**
    The cast to 64 bits never raises what is available: wrapping may lower a number that is not
    negative, and no more.
   */
  lemma AvailableAtMost(a: Account)
    requires a.debitsPosted <= a.creditsPosted
    ensures Available(a) <= a.creditsPosted - a.debitsPosted
  {
  }

  /** One funded item, seen from the list of accounts. */
  lemma ItemCovered(l: Ledger, db: Db, user: Uuid, infos: seq<AccountInfo>, r: ItemRequest, d: ItemData, ids: seq<u128>)
    requires BooksBalance(l) && ListsAccounts(db, user, infos)
    requires Linked(db, user, r.providerId) == Some((d.userLedgerAccount, d.providerLedgerAccount))
    requires && d.maxAmount == r.maxAmount
    requires AsU128(d.userLedgerAccount) in ids && Funded(AccountsMap(LookupAccounts(l, ids)), d)
    requires forall i | i in infos :: Exact(LookupAccounts(l, IdsOfInfos(infos)), AsU128(i.ledgerAccount)) >= 0
    ensures Covered(LookupAccounts(l, IdsOfInfos(infos)), infos, r)
  {
    hide AsU128;
    var id := AsU128(d.userLedgerAccount);
    MapAgreesWithSearch(l, ids, id);
    var j :| 0 <= j < |infos| && infos[j].providerId == r.providerId && infos[j].ledgerAccount == d.userLedgerAccount;
    assert IdsOfInfos(infos)[j] == id;
    SearchedLookup(l, IdsOfInfos(infos), id);
    assert infos[j] in infos;
    AvailableAtMost(l.accounts[id]);
    assert Covers(LookupAccounts(l, IdsOfInfos(infos)), infos[j], r);
  }

  /**
    Over one snapshot of the ledger in which no account of the user is overdrawn, however large its
    counters: the amounts of an accepted list add up to no more than the exact total of the user's
    accounts, and so to no more than the total shown where that total fits in 64 bits.
   */
  lemma AcceptedWithinBalance(l: Ledger, s: Stores, c: CreateCall, infos: seq<AccountInfo>)
    requires BooksBalance(l) && DbOk(s.db) && ListsAccounts(s.db, c.user, infos)
    requires CreatePriority(s, c).1.CreatedOk?
    requires c.faults.ledger == Ok(LookupAccounts(l, IdsOfData(Resolved(s.db, c.user, c.items, c.faults.lostReads))))
    requires forall i | i in infos :: Exact(LookupAccounts(l, IdsOfInfos(infos)), AsU128(i.ledgerAccount)) >= 0
    ensures SumAmounts(c.items) <= SumExact(LookupAccounts(l, IdsOfInfos(infos)), infos)
    ensures FitsI64(SumExact(LookupAccounts(l, IdsOfInfos(infos)), infos)) ==>
              SumAmounts(c.items) <= WrapI64(SumExact(LookupAccounts(l, IdsOfInfos(infos)), infos))
  {
    hide CreatePriority, DbOk, BooksBalance, AsU128, LookupAccounts, AccountsMap, Resolved, Unresolved, Exact,
        SumExact, SumAmounts;
    hide ListsAccounts, Linked, Funded, Covered;
    var found, data := LookupAccounts(l, IdsOfInfos(infos)), Resolved(s.db, c.user, c.items, c.faults.lostReads);
    var ids := IdsOfData(data);
    AcceptedRequest(s, c);
    ResolvedMatches(s.db, c.user, c.items, c.faults.lostReads);
    NoneUnfunded(AccountsMap(LookupAccounts(l, ids)), data);
    forall k | 0 <= k < |c.items|
      ensures Covered(found, infos, c.items[k])
    {
      assert ids[k] == AsU128(data[k].userLedgerAccount);
      ItemCovered(l, s.db, c.user, infos, c.items[k], data[k], ids);
    }
    forall i, j | 0 <= i < j < |c.items|
      ensures c.items[i].providerId != c.items[j].providerId
    {
      assert data[i].providerId != data[j].providerId;
    }
    CoveredInSum(found, infos, c.items);
    WrapExact(SumExact(found, infos));
  }
}
