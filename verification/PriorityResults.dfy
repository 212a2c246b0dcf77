/** Cache coherence, the round trip of a configuration, and what a debit leaves behind. */
module PriorityResults {
  import opened Wrappers
  import opened Numbers
  import opened Uuids
  import opened Ledgers
  import opened WorkerSpec
  import opened StoreCalls
  import opened Priority
  import opened PriorityProofs

  // Queries over tables that grew

  lemma {:induction false} SelectAppend(a: seq<Item>, b: seq<Item>, id: Uuid)
    ensures SelectItems(a + b, id) == SelectItems(a, id) + SelectItems(b, id)
  {
    if b == [] {
      assert a + b == a;
    } else {
      var n := |b| - 1;
      SelectAppend(a, b[..n], id);
      assert (a + b)[..|a + b| - 1] == a + b[..n];
    }
  }

  lemma {:induction false} SelectNone(items: seq<Item>, id: Uuid)
    requires forall i | i in items :: i.configId != id
    ensures SelectItems(items, id) == []
  {
    if items != [] {
      assert items[|items| - 1] in items;
      SelectNone(items[..|items| - 1], id);
    }
  }

  lemma {:induction false} SelectEvery(items: seq<Item>, id: Uuid)
    requires forall i | i in items :: i.configId == id && !i.isDeleted
    ensures SelectItems(items, id) == items
  {
    if items != [] {
      assert items[|items| - 1] in items;
      SelectEvery(items[..|items| - 1], id);
    }
  }

  // ORDER BY

  ghost predicate Ascending(items: seq<Item>) {
    forall i, j | 0 <= i < j < |items| :: items[i].order <= items[j].order
  }

  lemma {:induction false} InsertKeepsRows(sorted: seq<Item>, item: Item)
    ensures multiset(InsertByOrder(sorted, item)) == multiset(sorted + [item])
  {
    if sorted != [] && sorted[|sorted| - 1].order > item.order {
      var n := |sorted| - 1;
      InsertKeepsRows(sorted[..n], item);
      assert sorted == sorted[..n] + [sorted[n]];
    }
  }

  lemma InsertBounded(sorted: seq<Item>, item: Item, bound: int)
    requires item.order <= bound && forall k | 0 <= k < |sorted| :: sorted[k].order <= bound
    ensures forall k | 0 <= k < |InsertByOrder(sorted, item)| :: InsertByOrder(sorted, item)[k].order <= bound
  {
    InsertKeepsRows(sorted, item);
    var r := InsertByOrder(sorted, item);
    hide InsertByOrder;
    forall k | 0 <= k < |r|
      ensures r[k].order <= bound
    {
      assert r[k] in multiset(sorted + [item]);
    }
  }

  lemma {:induction false} InsertSorts(sorted: seq<Item>, item: Item)
    requires Ascending(sorted)
    ensures Ascending(InsertByOrder(sorted, item))
  {
    if sorted != [] && sorted[|sorted| - 1].order > item.order {
      var n := |sorted| - 1;
      InsertSorts(sorted[..n], item);
      InsertBounded(sorted[..n], item, sorted[n].order);
    }
  }

  /** ORDER BY gives the rows of the table in ascending order, each as often as the table has it. */
  lemma {:induction false} SortSorts(items: seq<Item>)
    ensures Ascending(SortByOrder(items)) && multiset(SortByOrder(items)) == multiset(items)
  {
    if items != [] {
      var n := |items| - 1;
      SortSorts(items[..n]);
      InsertSorts(SortByOrder(items[..n]), items[n]);
      InsertKeepsRows(SortByOrder(items[..n]), items[n]);
      assert items == items[..n] + [items[n]];
    }
  }

  /** Different rows have different orders. */
  ghost predicate OrdersDiffer(items: seq<Item>) {
    forall x, y | x in items && y in items && x.order == y.order :: x == y
  }

  lemma ShorterOrdered(a: seq<Item>)
    requires a != [] && Ascending(a)
    ensures Ascending(a[..|a| - 1]) && (OrdersDiffer(a) ==> OrdersDiffer(a[..|a| - 1]))
  {
  }

  lemma InsertAtEnd(sorted: seq<Item>, item: Item)
    requires sorted == [] || sorted[|sorted| - 1].order <= item.order
    ensures InsertByOrder(sorted, item) == sorted + [item]
  {
  }

  lemma SortLast(items: seq<Item>)
    requires items != []
    ensures SortByOrder(items) == InsertByOrder(SortByOrder(items[..|items| - 1]), items[|items| - 1])
  {
  }

  lemma {:induction false} SortSorted(items: seq<Item>)
    requires Ascending(items)
    ensures SortByOrder(items) == items
  {
    if items == [] {
      assert SortByOrder([]) == [];
    } else {
      var n := |items| - 1;
      assert n > 0 ==> items[n - 1].order <= items[n].order;
      assert Ascending(items[..n]) by { ShorterOrdered(items); }
      SortLast(items);
      hide *;
      SortSorted(items[..n]);
      InsertAtEnd(items[..n], items[n]);
      assert items == items[..n] + [items[n]];
    }
  }

  lemma LastRow(a: seq<Item>, b: seq<Item>)
    requires a != [] && b != [] && multiset(a) == multiset(b)
    requires Ascending(a) && Ascending(b) && OrdersDiffer(a)
    ensures a[|a| - 1] == b[|b| - 1]
  {
    var x, y := a[|a| - 1], b[|b| - 1];
    assert y in multiset(a) && x in multiset(b);
    var i :| 0 <= i < |a| && a[i] == y;
    var j :| 0 <= j < |b| && b[j] == x;
    assert a[i].order <= x.order && b[j].order <= y.order;
  }

  lemma WithoutLast(a: seq<Item>)
    requires a != []
    ensures multiset(a[..|a| - 1]) == multiset(a) - multiset{a[|a| - 1]}
  {
    assert a == a[..|a| - 1] + [a[|a| - 1]];
  }

  lemma {:induction false} AscendingUnique(a: seq<Item>, b: seq<Item>)
    requires multiset(a) == multiset(b)
    requires Ascending(a) && Ascending(b) && OrdersDiffer(a)
    ensures a == b
  {
    hide Ascending, OrdersDiffer;
    assert |a| == |multiset(a)| == |multiset(b)| == |b|;
    if a != [] {
      var n := |a| - 1;
      LastRow(a, b);
      WithoutLast(a);
      WithoutLast(b);
      ShorterOrdered(a);
      ShorterOrdered(b);
      AscendingUnique(a[..n], b[..n]);
      assert a == a[..n] + [a[n]] && b == b[..n] + [b[n]];
    }
  }

  lemma {:induction false} SelectCounts(items: seq<Item>, id: Uuid, x: Item)
    ensures multiset(SelectItems(items, id))[x] == if x.configId == id && !x.isDeleted then multiset(items)[x] else 0
  {
    if items != [] {
      var n := |items| - 1;
      SelectCounts(items[..n], id, x);
      assert items == items[..n] + [items[n]];
    }
  }

  lemma SelectPermuted(a: seq<Item>, b: seq<Item>, id: Uuid)
    requires multiset(a) == multiset(b)
    ensures multiset(SelectItems(a, id)) == multiset(SelectItems(b, id))
  {
    forall x: Item
      ensures multiset(SelectItems(a, id))[x] == multiset(SelectItems(b, id))[x]
    {
      SelectCounts(a, id, x);
      SelectCounts(b, id, x);
    }
  }

  lemma {:induction false} SelectMembers(items: seq<Item>, id: Uuid)
    ensures forall i | i in SelectItems(items, id) :: i in items && i.configId == id
  {
    if items != [] {
      SelectMembers(items[..|items| - 1], id);
    }
  }

  /** The unique pair of configuration and order, seen from the rows of one configuration. */
  lemma SelectedOrdersDiffer(db: Db, id: Uuid)
    requires DbOk(db)
    ensures OrdersDiffer(SelectItems(db.items, id))
  {
    SelectMembers(db.items, id);
    var selected := SelectItems(db.items, id);
    hide SelectItems;
    forall x, y | x in selected && y in selected && x.order == y.order
      ensures x == y
    {
      var i :| 0 <= i < |db.items| && db.items[i] == x;
      var j :| 0 <= j < |db.items| && db.items[j] == y;
      assert i == j;
    }
  }

  lemma SamePermutation(a: seq<Item>, b: seq<Item>)
    requires multiset(a) == multiset(b) && OrdersDiffer(a)
    ensures OrdersDiffer(b)
  {
    assert forall x | x in b :: x in multiset(b) && x in multiset(a) && x in a;
  }

  /** Orders being unique, what a query of items gives does not depend on where the rows lie in the table. */
  lemma QueryIgnoresTableOrder(db: Db, items: seq<Item>, id: Uuid)
    requires DbOk(db) && multiset(items) == multiset(db.items)
    ensures ItemsQuery(db.(items := items), id) == ItemsQuery(db, id)
  {
    var a, b := SelectItems(db.items, id), SelectItems(items, id);
    SelectedOrdersDiffer(db, id);
    SelectPermuted(db.items, items, id);
    hide DbOk, SelectItems, SortByOrder, Ascending, JoinProviders;
    SortSorts(a);
    SortSorts(b);
    SamePermutation(a, SortByOrder(a));
    AscendingUnique(SortByOrder(a), SortByOrder(b));
  }

  // JOIN

  /** The answer row of an item: its columns, and its provider's ledger account and fees. */
  ghost predicate Joined(i: Item, providers: map<Uuid, ProviderTerms>, d: ItemDetails) {
    && i.providerId in providers
    && d == ItemDetails(i.providerId, i.ledgerAccount, providers[i.providerId].ledgerAccount, i.order,
                        i.usage, i.maxAmount,
                        providers[i.providerId].feeRateBps, providers[i.providerId].fixedFee)
  }

  lemma JoinedLast(items: seq<Item>, providers: map<Uuid, ProviderTerms>)
    requires items != [] && items[|items| - 1].providerId in providers
    ensures var r := JoinProviders(items, providers);
            && r != [] && r[..|r| - 1] == JoinProviders(items[..|items| - 1], providers)
            && Joined(items[|items| - 1], providers, r[|r| - 1])
  {
  }

  lemma {:induction false} JoinAll(items: seq<Item>, providers: map<Uuid, ProviderTerms>)
    requires forall i | i in items :: i.providerId in providers
    ensures |JoinProviders(items, providers)| == |items|
    ensures forall k | 0 <= k < |items| :: Joined(items[k], providers, JoinProviders(items, providers)[k])
  {
    if items != [] {
      var n := |items| - 1;
      assert items[n] in items;
      JoinAll(items[..n], providers);
      var before := JoinProviders(items[..n], providers);
      hide Joined;
      forall k | 0 <= k < n
        ensures Joined(items[k], providers, before[k])
      {
        assert items[..n][k] == items[k];
      }
      JoinedLast(items, providers);
    }
  }

  lemma {:induction false} JoinStable(items: seq<Item>, providers: map<Uuid, ProviderTerms>, p: Uuid,
          row: ProviderTerms)
    requires (forall i | i in items :: i.providerId in providers) && p !in providers
    ensures JoinProviders(items, providers[p := row]) == JoinProviders(items, providers)
  {
    if items != [] {
      var n := |items| - 1;
      assert items[n] in items;
      JoinStable(items[..n], providers, p, row);
    }
  }

  // Other users

  lemma {:induction false} CancelOthers(configs: seq<Config>, user: Uuid, other: Uuid)
    requires user != other
    ensures FindActive(CancelRows(configs, user), other) == FindActive(configs, other)
  {
    if configs != [] {
      var n := |configs| - 1;
      CancelOthers(configs[..n], user, other);
      assert CancelRows(configs, user)[..n] == CancelRows(configs[..n], user);
    }
  }

  lemma OthersKeepActive(db: Db, user: Uuid, other: Uuid)
    requires user != other
    ensures GetActive(Cancel(db, user), other) == GetActive(db, other)
  {
    hide SelectItems, SortByOrder, JoinProviders;
    CancelOthers(db.configs, user, other);
  }

  lemma SelectOther(items: seq<Item>, id: Uuid, data: seq<ItemData>, other: Uuid)
    requires other != id
    ensures SelectItems(items + Rows(id, data), other) == SelectItems(items, other)
  {
    var rows := Rows(id, data);
    SelectAppend(items, rows, other);
    SelectNone(rows, other);
  }

  lemma CreateTxOthers(db: Db, key: string, user: Uuid, data: seq<ItemData>, expiresAt: Option<int>, id: Uuid,
          other: Uuid)
    requires DbOk(db) && CreateTx(db, key, user, data, expiresAt, id).Some? && user != other
    ensures GetActive(CreateTx(db, key, user, data, expiresAt, id).value, other) == GetActive(db, other)
  {
    CreateTxExactly(db, key, user, data, expiresAt, id);
    hide CreateTx, SortByOrder, JoinProviders, SelectItems, Insertable, Rows, DbOk;
    var row := Config(id, user, key, ACTIVE, expiresAt, false);
    var configs := CancelRows(db.configs, user);
    CancelOthers(db.configs, user, other);
    assert (configs + [row])[..|configs|] == configs;
    assert FindActive(configs + [row], other) == FindActive(configs, other);
    var found := FindActive(db.configs, other);
    if found.Some? {
      assert found.value.id != id;
      SelectOther(db.items, id, data, found.value.id);
    }
  }

  lemma LinkOthers(db: Db, user: Uuid, provider: Uuid, row: ProviderTerms, account: Uuid, other: Uuid)
    requires DbOk(db)
    ensures GetActive(AddLink(db, user, provider, row, account), other) == GetActive(db, other)
  {
    hide SelectItems, SortByOrder, JoinProviders;
    var found := FindActive(db.configs, other);
    if found.Some? && provider !in db.providers {
      var selected := SelectItems(db.items, found.value.id);
      SelectMembers(db.items, found.value.id);
      SortSorts(selected);
      var sorted := SortByOrder(selected);
      forall i | i in sorted
        ensures i.providerId in db.providers
      {
        assert i in multiset(selected);
      }
      JoinStable(sorted, db.providers, provider, row);
    }
  }

  ghost predicate About(op: PriorityOp, user: Uuid) {
    match op
    case CreateOp(call) => call.user == user
    case CancelOp(u, _, _) => u == user
    case DebitOp(u, _, _, _, _) => u == user
    case ExpireOp(u) => u == user
    case LinkOp(_, _, _, _) => false
  }

  lemma CreateOthers(s: Stores, c: CreateCall, other: Uuid)
    requires DbOk(s.db) && c.user != other
    ensures var t := CreatePriority(s, c).0;
            && GetActive(t.db, other) == GetActive(s.db, other)
            && (other in t.cache <==> other in s.cache)
            && (other in s.cache ==> t.cache[other] == s.cache[other])
  {
    hide DbOk, Cancel, CreateTx, GetActive, FindByKey, Resolved, Unresolved, Unfunded, AccountsMap, ItemsQuery;
    OthersKeepActive(s.db, c.user, other);
    CancelDbKeeps(s.db, c.user);
    if CreatePriority(s, c).0.db != s.db {
      var data := Resolved(s.db, c.user, c.items, c.faults.lostReads);
      var db2 := if GetActive(s.db, c.user).Some? then Cancel(s.db, c.user) else s.db;
      if CreateTx(db2, c.key.value, c.user, data, c.expiresAt, c.configId).Some? {
        CreateTxOthers(db2, c.key.value, c.user, data, c.expiresAt, c.configId, other);
      }
    }
  }

  /** What one user's operations do is invisible to every other user, in the database and in the cache. */
  lemma OthersUntouched(s: Stores, op: PriorityOp, other: Uuid)
    requires DbOk(s.db) && !About(op, other)
    ensures GetActive(Act(s, op).db, other) == GetActive(s.db, other)
    ensures other in Act(s, op).cache <==> other in s.cache
    ensures other in s.cache ==> Act(s, op).cache[other] == s.cache[other]
  {
    hide DbOk, CreatePriority, Cancel, GetActive, AddLink;
    match op
    case CreateOp(call) => CreateOthers(s, call, other);
    case CancelOp(user, _, _) => OthersKeepActive(s.db, user, other);
    case DebitOp(user, _, _, _, _) => OthersKeepActive(s.db, user, other);
    case ExpireOp(_) =>
    case LinkOp(user, provider, row, account) => LinkOthers(s.db, user, provider, row, account, other);
  }

  // Coherence

  /** The cached value of a user is absent or is the user's active configuration. */
  ghost predicate Coherent(s: Stores, user: Uuid) {
    user in s.cache ==> GetActive(s.db, user) == Some(s.cache[user].details)
  }

  lemma NewestIsActive(db: Db, key: string, user: Uuid, data: seq<ItemData>, expiresAt: Option<int>, id: Uuid)
    requires DbOk(db) && CreateTx(db, key, user, data, expiresAt, id).Some?
    ensures var db' := CreateTx(db, key, user, data, expiresAt, id).value;
            && db'.configs != [] && db'.configs[|db'.configs| - 1] == Config(id, user, key, ACTIVE, expiresAt, false)
            && GetActive(db', user) == Some(Details(db'.configs[|db'.configs| - 1], ItemsQuery(db', id)))
  {
    CreateTxExactly(db, key, user, data, expiresAt, id);
  }

  lemma ReplaceCoherent(s: Stores, c: CreateCall, data: seq<ItemData>)
    requires DbOk(s.db) && c.key.Some?
    ensures c.faults.del != Failed(false) ==> Coherent(Replace(s, c, data).0, c.user)
    ensures c.faults.del == Failed(false) ==> Replace(s, c, data).0 == s
  {
    hide DbOk, Cancel, CreateTx, GetActive, ItemsQuery;
    CancelDbKeeps(s.db, c.user);
    var db2 := if GetActive(s.db, c.user).Some? then Cancel(s.db, c.user) else s.db;
    if CreateTx(db2, c.key.value, c.user, data, c.expiresAt, c.configId).Some? {
      NewestIsActive(db2, c.key.value, c.user, data, c.expiresAt, c.configId);
    }
  }

  /**
    Creation never spoils the cache: whatever fault strikes, and wherever, the user's cached value
    stays coherent, and if the deletion was executed it becomes coherent from any state at all.
   */
  lemma CreateCoherent(s: Stores, c: CreateCall)
    requires DbOk(s.db)
    ensures Coherent(s, c.user) ==> Coherent(CreatePriority(s, c).0, c.user)
    ensures c.key.Some? && c.faults.del != Failed(false) ==>
              forall data :: Coherent(Replace(s, c, data).0, c.user)
  {
    hide DbOk, Cancel, CreateTx, GetActive, FindByKey, Resolved, Unresolved, Unfunded, AccountsMap, ItemsQuery;
    if c.key.Some? {
      forall data
        ensures c.faults.del != Failed(false) ==> Coherent(Replace(s, c, data).0, c.user)
      {
        ReplaceCoherent(s, c, data);
      }
      var data := Resolved(s.db, c.user, c.items, c.faults.lostReads);
      ReplaceCoherent(s, c, data);
    }
  }

  /** The handler has reached the cached value: it deletes it, or fails in the attempt. */
  ghost predicate ReachesDeletion(s: Stores, c: CreateCall) {
    && c.items != [] && c.key.Some? && !Blank(c.key.value)
    && !(c.faults.keyRead && FindByKey(s.db.configs, c.key.value).Some?)
    && Unresolved(s.db, c.user, c.items, c.faults.lostReads) == []
    && c.faults.ledger.Ok?
    && Unfunded(AccountsMap(c.faults.ledger.value), Resolved(s.db, c.user, c.items, c.faults.lostReads)) == []
    && c.faults.connection
  }

  /** Self-healing: a creation that executes its deletion leaves the cache coherent, however stale it was. */
  lemma CreateHeals(s: Stores, c: CreateCall)
    requires DbOk(s.db) && ReachesDeletion(s, c) && c.faults.del != Failed(false)
    ensures Coherent(CreatePriority(s, c).0, c.user)
  {
    hide DbOk, FindByKey, Resolved, Unresolved, Unfunded, AccountsMap, Replace, Coherent;
    ReplaceCoherent(s, c, Resolved(s.db, c.user, c.items, c.faults.lostReads));
  }

  /** The operation cancels the configuration that the cache holds and does not get to remove it from the cache. */
  ghost predicate LeavesStale(s: Stores, op: PriorityOp) {
    match op
    case CancelOp(user, cancel, del) =>
      user in s.cache && GetActive(s.db, user).Some?
      && cancel != Aborted && (cancel == ConfirmationLost || del == Failed(false))
    case DebitOp(user, provider, activeRead, cancel, del) =>
      && user in s.cache && activeRead && GetActive(s.db, user).Some? && Contains(GetActive(s.db, user).value, provider)
      && cancel != Aborted && (cancel == ConfirmationLost || del == Failed(false))
    case _ => false
  }

  lemma OneMore(ops: seq<PriorityOp>, n: nat)
    requires 0 < n <= |ops|
    ensures ActAll(EMPTY_STORES, ops[..n]) == Act(ActAll(EMPTY_STORES, ops[..n - 1]), ops[n - 1])
  {
    hide Act;
    assert ops[..n][..n - 1] == ops[..n - 1];
  }

  /** The operation executes a deletion of the user's cached value, or the value expires. */
  ghost predicate Removes(s: Stores, op: PriorityOp) {
    match op
    case CreateOp(call) => ReachesDeletion(s, call) && call.faults.del != Failed(false)
    case CancelOp(user, cancel, del) => GetActive(s.db, user).Some? && cancel == Committed && del != Failed(false)
    case DebitOp(user, provider, activeRead, cancel, del) =>
      && activeRead && GetActive(s.db, user).Some? && Contains(GetActive(s.db, user).value, provider)
      && cancel == Committed && del != Failed(false)
    case ExpireOp(_) => true
    case LinkOp(_, _, _, _) => false
  }

  /** A creation that does not execute a deletion leaves both stores alone. */
  lemma CreateCoherenceExactly(s: Stores, c: CreateCall)
    requires DbOk(s.db)
    ensures Coherent(CreatePriority(s, c).0, c.user) <==>
            (ReachesDeletion(s, c) && c.faults.del != Failed(false)) || Coherent(s, c.user)
  {
    hide DbOk, FindByKey, Resolved, Unresolved, Unfunded, AccountsMap, Replace, Coherent;
    if ReachesDeletion(s, c) {
      ReplaceCoherent(s, c, Resolved(s.db, c.user, c.items, c.faults.lostReads));
    }
  }

  /**
    Exactly when a user's cached value is coherent after an operation, from any state: the operation
    removed it, or it was coherent before and was not left stale. What becomes of other users' values
    plays no part.
   */
  lemma CoherenceExactly(s: Stores, op: PriorityOp, user: Uuid)
    requires DbOk(s.db)
    ensures Coherent(Act(s, op), user) <==>
            (About(op, user) && Removes(s, op)) || (Coherent(s, user) && !(About(op, user) && LeavesStale(s, op)))
  {
    hide DbOk, CreatePriority, Cancel, GetActive, AddLink, Contains, ReachesDeletion;
    if !About(op, user) {
      OthersUntouched(s, op, user);
    } else if op.CreateOp? {
      CreateCoherenceExactly(s, op.call);
    } else {
      CancelDbKeeps(s.db, user);
    }
  }

  /**
    Over a run: from any moment m at which a user's cached value is coherent, as long as no
    cancellation or debit of that user is cut off before its deletion, it stays coherent, whatever
    befalls the other users.
   */
  lemma {:induction false} CoherentRun(ops: seq<PriorityOp>, m: nat, n: nat, user: Uuid)
    requires m <= n <= |ops| && Coherent(ActAll(EMPTY_STORES, ops[..m]), user)
    requires forall k | m <= k < n && About(ops[k], user) :: !LeavesStale(ActAll(EMPTY_STORES, ops[..k]), ops[k])
    ensures Coherent(ActAll(EMPTY_STORES, ops[..n]), user)
    decreases n
  {
    hide Act, LeavesStale, Removes, Coherent, DbOk;
    if m < n {
      CoherentRun(ops, m, n - 1, user);
      ConfigStateMachine(ops, n - 1, n - 1);
      OneMore(ops, n);
      CoherenceExactly(ActAll(EMPTY_STORES, ops[..n - 1]), ops[n - 1], user);
    }
  }

  /** Coherent moments: the beginning, and the one after any operation that removes the value. */
  lemma CoherentMoments(ops: seq<PriorityOp>, m: nat, user: Uuid)
    requires m <= |ops|
    requires m > 0 ==> About(ops[m - 1], user) && Removes(ActAll(EMPTY_STORES, ops[..m - 1]), ops[m - 1])
    ensures Coherent(ActAll(EMPTY_STORES, ops[..m]), user)
  {
    if m > 0 {
      hide Act, LeavesStale, Removes, Coherent, DbOk;
      ConfigStateMachine(ops, m - 1, m - 1);
      OneMore(ops, m);
      CoherenceExactly(ActAll(EMPTY_STORES, ops[..m - 1]), ops[m - 1], user);
    }
  }

  // Round trip

  /** When no provider is unresolved, the resolved items are the requested ones, in order, with both ledger accounts. */
  lemma {:induction false} ResolvedMatches(db: Db, user: Uuid, items: seq<ItemRequest>, lost: set<nat>)
    requires Unresolved(db, user, items, lost) == []
    ensures |Resolved(db, user, items, lost)| == |items|
    ensures forall k | 0 <= k < |items| ::
              var r, d := items[k], Resolved(db, user, items, lost)[k];
              && Linked(db, user, r.providerId) == Some((d.userLedgerAccount, d.providerLedgerAccount))
              && d.providerId == r.providerId && d.usage == r.usage && d.maxAmount == r.maxAmount
  {
    if items != [] {
      var n := |items| - 1;
      ResolvedMatches(db, user, items[..n], lost);
      assert forall k | 0 <= k < n :: items[..n][k] == items[k];
    }
  }

  /**
    The item at `index` of an answer is the requested one, numbered from 1, with the ledger accounts of
    user and provider.
   */
  ghost predicate Matches(db: Db, user: Uuid, r: ItemRequest, index: nat, d: ItemDetails) {
    && d.order == index + 1
    && d.providerId == r.providerId && d.maxAmount == r.maxAmount && d.usage == r.usage
    && Linked(db, user, r.providerId) == Some((d.userLedgerAccount, d.providerLedgerAccount))
    && r.providerId in db.providers
    && d.feeRateBps == db.providers[r.providerId].feeRateBps && d.fixedFee == db.providers[r.providerId].fixedFee
  }

  lemma RowsOfConfig(id: Uuid, data: seq<ItemData>)
    ensures forall i | i in Rows(id, data) :: i.configId == id && !i.isDeleted
  {
  }

  lemma RowsAscend(id: Uuid, data: seq<ItemData>, providers: map<Uuid, ProviderTerms>)
    requires Insertable(providers, data)
    ensures Ascending(Rows(id, data))
  {
    NewRows(id, data, providers);
  }

  lemma NewItemsQuery(db: Db, id: Uuid, data: seq<ItemData>)
    requires DbOk(db) && Insertable(db.providers, data) && forall c | c in db.configs :: c.id != id
    ensures SortByOrder(SelectItems(db.items + Rows(id, data), id)) == Rows(id, data)
  {
    NoItemsYet(db, id);
    NewRows(id, data, db.providers);
    hide *;
    var rows := Rows(id, data);
    SelectAppend(db.items, rows, id);
    SelectNone(db.items, id);
    assert forall i | i in rows :: i.configId == id && !i.isDeleted by { RowsOfConfig(id, data); }
    SelectEvery(rows, id);
    assert [] + rows == rows;
    assert Ascending(rows) by { RowsAscend(id, data, db.providers); }
    SortSorted(rows);
  }

  lemma RowsKeepData(id: Uuid, data: seq<ItemData>)
    ensures |Rows(id, data)| == |data|
    ensures forall k | 0 <= k < |data| ::
              var row := Rows(id, data)[k];
              row.ledgerAccount == data[k].userLedgerAccount && row.usage == data[k].usage
              && row.maxAmount == data[k].maxAmount
  {
  }

  lemma StoredItems(db: Db, key: string, user: Uuid, items: seq<ItemRequest>, lost: set<nat>, expiresAt: Option<int>,
          id: Uuid)
    requires DbOk(db) && Unresolved(db, user, items, lost) == []
    requires CreateTx(db, key, user, Resolved(db, user, items, lost), expiresAt, id).Some?
    ensures var stored := ItemsQuery(CreateTx(db, key, user, Resolved(db, user, items, lost), expiresAt, id).value, id);
            |stored| == |items| && forall k | 0 <= k < |items| :: Matches(db, user, items[k], k, stored[k])
  {
    var data := Resolved(db, user, items, lost);
    CreateTxExactly(db, key, user, data, expiresAt, id);
    ResolvedMatches(db, user, items, lost);
    NewItemsQuery(db, id, data);
    NewRows(id, data, db.providers);
    RowsKeepData(id, data);
    hide CreateTx, Rows, SelectItems, SortByOrder, Resolved, Unresolved, DbOk, Insertable;
    JoinAll(Rows(id, data), db.providers);
  }

  lemma {:induction false} SameLinks(db: Db, user: Uuid, items: seq<ItemRequest>, lost: set<nat>)
    ensures Resolved(Cancel(db, user), user, items, lost) == Resolved(db, user, items, lost)
    ensures Unresolved(Cancel(db, user), user, items, lost) == Unresolved(db, user, items, lost)
  {
    if items != [] {
      SameLinks(db, user, items[..|items| - 1], lost);
    }
  }

  lemma SameMatch(db: Db, user: Uuid, r: ItemRequest, index: nat, d: ItemDetails)
    ensures Matches(Cancel(db, user), user, r, index, d) == Matches(db, user, r, index, d)
  {
  }

  /**
    The round trip: after a successful creation the active configuration is what the request asked
    for, item by item and in its order, and it is what the response and the cache hold.
   */
  lemma CreateThenGet(s: Stores, c: CreateCall)
    requires DbOk(s.db) && CreatePriority(s, c).1.CreatedOk?
    ensures var t, d := CreatePriority(s, c).0, CreatePriority(s, c).1.details;
            && GetActive(t.db, c.user) == Some(d)
            && c.user in t.cache && t.cache[c.user] == Cached(d, Ttl(c.expiresAt, c.time))
            && c.key.Some? && d.config == Config(c.configId, c.user, c.key.value, ACTIVE, c.expiresAt, false)
            && |d.items| == |c.items|
            && forall k | 0 <= k < |c.items| :: Matches(s.db, c.user, c.items[k], k, d.items[k])
  {
    hide DbOk, Cancel, CreateTx, GetActive, FindByKey, Resolved, Unresolved, Unfunded, AccountsMap, ItemsQuery,
        Matches, Ttl;
    var data := Resolved(s.db, c.user, c.items, c.faults.lostReads);
    var db2 := if GetActive(s.db, c.user).Some? then Cancel(s.db, c.user) else s.db;
    CancelDbKeeps(s.db, c.user);
    SameLinks(s.db, c.user, c.items, c.faults.lostReads);
    NewestIsActive(db2, c.key.value, c.user, data, c.expiresAt, c.configId);
    StoredItems(db2, c.key.value, c.user, c.items, c.faults.lostReads, c.expiresAt, c.configId);
    var d := CreatePriority(s, c).1.details;
    forall k | 0 <= k < |c.items|
      ensures Matches(s.db, c.user, c.items[k], k, d.items[k])
    {
      SameMatch(s.db, c.user, c.items[k], k, d.items[k]);
    }
  }

  // Debits

  /** No active configuration of the user contains the provider. */
  ghost predicate NotThrough(db: Db, user: Uuid, provider: Uuid) {
    GetActive(db, user).Some? ==> !Contains(GetActive(db, user).value, provider)
  }

  /** The operation replaces the user's configuration: a creation whose transaction commits. */
  ghost predicate Recreates(s: Stores, op: PriorityOp, user: Uuid) {
    op.CreateOp? && op.call.user == user && |Act(s, op).db.configs| > |s.db.configs|
  }

  /**
    A debit that goes on has no active configuration through its provider left, and leaves every other
    configuration alone.
   */
  lemma DebitClears(s: Stores, user: Uuid, provider: Uuid, activeRead: bool, cancel: Commit, del: CacheOutcome)
    requires DbOk(s.db)
    ensures var (t, goesOn) := ClearForDebit(s, user, provider, activeRead, cancel, del);
            && (goesOn ==> NotThrough(t.db, user, provider))
            && (NotThrough(s.db, user, provider) ==> t == s)
  {
    hide DbOk, Cancel, GetActive, Contains;
    CancelDbKeeps(s.db, user);
  }

  lemma CreateSize(db: Db, key: string, user: Uuid, data: seq<ItemData>, expiresAt: Option<int>, id: Uuid)
    requires DbOk(db) && CreateTx(db, key, user, data, expiresAt, id).Some?
    ensures |CreateTx(db, key, user, data, expiresAt, id).value.configs| == |db.configs| + 1
  {
    CreateTxExactly(db, key, user, data, expiresAt, id);
  }

  lemma CancelSize(db: Db, user: Uuid)
    ensures |Cancel(db, user).configs| == |db.configs|
  {
  }

  /** A creation that does not commit leaves the active configuration as it was, or cancelled. */
  lemma FailedCreate(s: Stores, c: CreateCall)
    requires DbOk(s.db) && |CreatePriority(s, c).0.db.configs| <= |s.db.configs|
    ensures GetActive(CreatePriority(s, c).0.db, c.user) == GetActive(s.db, c.user)
            || GetActive(CreatePriority(s, c).0.db, c.user).None?
  {
    hide DbOk, Cancel, CreateTx, GetActive, FindByKey, Resolved, Unresolved, Unfunded, AccountsMap, ItemsQuery;
    CancelDbKeeps(s.db, c.user);
    CancelSize(s.db, c.user);
    if CreatePriority(s, c).0.db != s.db {
      var data := Resolved(s.db, c.user, c.items, c.faults.lostReads);
      var db2 := if GetActive(s.db, c.user).Some? then Cancel(s.db, c.user) else s.db;
      if CreateTx(db2, c.key.value, c.user, data, c.expiresAt, c.configId).Some? {
        CreateSize(db2, c.key.value, c.user, data, c.expiresAt, c.configId);
      }
    }
  }

  lemma StaysCleared(s: Stores, op: PriorityOp, user: Uuid, provider: Uuid)
    requires DbOk(s.db) && NotThrough(s.db, user, provider) && !Recreates(s, op, user)
    ensures NotThrough(Act(s, op).db, user, provider)
  {
    hide DbOk, CreatePriority, Cancel, GetActive, AddLink, Contains;
    if !About(op, user) {
      OthersUntouched(s, op, user);
    } else if op.CreateOp? {
      FailedCreate(s, op.call);
    } else {
      CancelDbKeeps(s.db, user);
    }
  }

  lemma DebitAct(s: Stores, op: PriorityOp)
    requires op.DebitOp?
    ensures Act(s, op) == ClearForDebit(s, op.user, op.provider, op.activeRead, op.cancel, op.del).0
  {
    hide ClearForDebit;
  }

  /**
    Once a debit through a provider has gone on to the ledger, no active configuration of the user
    contains the provider at any later moment of the run, until a new one of that user is created.
   */
  lemma {:induction false} DebitDisablesPriority(ops: seq<PriorityOp>, m: nat, n: nat, user: Uuid, provider: Uuid)
    requires m < n <= |ops| && ops[m].DebitOp? && ops[m].user == user && ops[m].provider == provider
    requires ClearForDebit(ActAll(EMPTY_STORES, ops[..m]), user, provider, ops[m].activeRead,
                           ops[m].cancel, ops[m].del).1
    requires forall k | m < k < n :: !Recreates(ActAll(EMPTY_STORES, ops[..k]), ops[k], user)
    ensures NotThrough(ActAll(EMPTY_STORES, ops[..n]).db, user, provider)
    decreases n
  {
    hide Act, ActAll, ClearForDebit, NotThrough, DbOk, Recreates;
    ConfigStateMachine(ops, n - 1, n - 1);
    var before := ActAll(EMPTY_STORES, ops[..n - 1]);
    OneMore(ops, n);
    if n == m + 1 {
      DebitClears(before, user, provider, ops[m].activeRead, ops[m].cancel, ops[m].del);
      DebitAct(before, ops[m]);
    } else {
      DebitDisablesPriority(ops, m, n - 1, user, provider);
      StaysCleared(before, ops[n - 1], user, provider);
    }
  }
}
