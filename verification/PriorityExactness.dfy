/** Exactly when a creation succeeds, and a run that leaves a cancelled configuration in the cache. */
module PriorityExactness {
  import opened Wrappers
  import opened Numbers
  import opened Uuids
  import opened Ledgers
  import opened WorkerSpec
  import opened StoreCalls
  import opened Priority
  import opened PriorityProofs
  import opened PriorityResults

  // Exactly when a creation succeeds

  /** What the constraints of the item table ask of a request. */
  ghost predicate ItemsAllowed(items: seq<ItemRequest>) {
    && |items| < TWO_31
    && (forall i | 0 <= i < |items| :: items[i].maxAmount >= 0)
    && (forall i, j | 0 <= i < j < |items| :: items[i].providerId != items[j].providerId)
  }

  /**
    Every call from the deletion of the cached value on is answered, the key fits its column, and the id
    and the key are new.
   */
  ghost predicate NothingFails(s: Stores, c: CreateCall)
    requires c.key.Some?
  {
    && c.faults.del == Worked && c.faults.activeRead
    && (GetActive(s.db, c.user).Some? ==> c.faults.cancel == Committed)
    && |c.key.value| <= KEY_LENGTH
    && (forall config | config in s.db.configs :: config.id != c.configId && config.idempotencyKey != c.key.value)
    && ItemsAllowed(c.items)
    && c.faults.create == Committed && c.faults.setCache == Worked
  }

  lemma ResolvedInsertable(db: Db, user: Uuid, items: seq<ItemRequest>, lost: set<nat>)
    requires Unresolved(db, user, items, lost) == []
    ensures Insertable(db.providers, Resolved(db, user, items, lost)) <==> ItemsAllowed(items)
  {
    ResolvedMatches(db, user, items, lost);
    var data := Resolved(db, user, items, lost);
    hide Resolved, Unresolved;
    assert forall k | 0 <= k < |items| ::
                  data[k].providerId == items[k].providerId && data[k].maxAmount == items[k].maxAmount;
  }

  lemma SameKeys(db: Db, user: Uuid, id: Uuid, key: string)
    ensures (forall c | c in Cancel(db, user).configs :: c.id != id && c.idempotencyKey != key)
            <==> (forall c | c in db.configs :: c.id != id && c.idempotencyKey != key)
  {
    var before, after := db.configs, Cancel(db, user).configs;
    forall i | 0 <= i < |before|
      ensures before[i] in before && after[i] in after
      ensures before[i].id == after[i].id && before[i].idempotencyKey == after[i].idempotencyKey
    {
    }
  }

  lemma ReplaceSucceedsExactly(s: Stores, c: CreateCall)
    requires DbOk(s.db) && c.key.Some? && Unresolved(s.db, c.user, c.items, c.faults.lostReads) == []
    ensures var data := Resolved(s.db, c.user, c.items, c.faults.lostReads);
            Replace(s, c, data).1.CreatedOk? <==> NothingFails(s, c)
  {
    hide DbOk, Cancel, CreateTx, GetActive, ItemsQuery, Resolved, Unresolved, Insertable, ItemsAllowed;
    var data := Resolved(s.db, c.user, c.items, c.faults.lostReads);
    CancelDbKeeps(s.db, c.user);
    ResolvedInsertable(s.db, c.user, c.items, c.faults.lostReads);
    SameKeys(s.db, c.user, c.configId, c.key.value);
    var db2 := if GetActive(s.db, c.user).Some? then Cancel(s.db, c.user) else s.db;
    assert db2.providers == s.db.providers by { CancelOnlyConfigs(s.db, c.user); }
    CreateTxExactly(db2, c.key.value, c.user, data, c.expiresAt, c.configId);
  }

  /**
    Exactly when a creation is answered with a configuration: the request passes the checks that
    come before the stores are touched, no later call fails, its key fits and is new, its id is
    new, no provider is named twice and no amount is negative.
   */
  lemma CreateSucceedsWhen(s: Stores, c: CreateCall)
    requires DbOk(s.db)
    ensures CreatePriority(s, c).1.CreatedOk? <==> ReachesDeletion(s, c) && NothingFails(s, c)
  {
    hide DbOk, FindByKey, Resolved, Unresolved, Unfunded, AccountsMap, Replace, GetActive, ItemsAllowed;
    if c.key.Some? && Unresolved(s.db, c.user, c.items, c.faults.lostReads) == [] {
      ReplaceSucceedsExactly(s, c);
    }
  }

  // What a failed creation leaves

  lemma CancelledStays(db: Db, user: Uuid, c: Config)
    requires c in db.configs
    ensures HasConfig(Cancel(db, user).configs, c.id)
  {
    assert HasConfig(db.configs, c.id);
    CancelKeepsIds(db.configs, user, c.id);
  }

  lemma ReplaceLosesActive(s: Stores, c: CreateCall, data: seq<ItemData>)
    requires DbOk(s.db) && c.key.Some? && !Replace(s, c, data).1.CreatedOk? && GetActive(s.db, c.user).Some?
    ensures GetActive(Replace(s, c, data).0.db, c.user) == GetActive(s.db, c.user) <==>
            !(c.faults.del == Worked && c.faults.activeRead && c.faults.cancel != Aborted)
  {
    hide DbOk, Cancel, CreateTx, ItemsQuery, FindActive;
    CancelDbKeeps(s.db, c.user);
    var db2 := Cancel(s.db, c.user);
    if CreateTx(db2, c.key.value, c.user, data, c.expiresAt, c.configId).Some? {
      NewestIsActive(db2, c.key.value, c.user, data, c.expiresAt, c.configId);
      CreateTxExactly(db2, c.key.value, c.user, data, c.expiresAt, c.configId);
      CancelKeepsIds(s.db.configs, c.user, c.configId);
      assert HasConfig(db2.configs, GetActive(s.db, c.user).value.config.id) by {
        CancelledStays(s.db, c.user, GetActive(s.db, c.user).value.config);
      }
    }
  }

  /**
    A creation that fails need not leave things as they were. The old configuration is cancelled by a
    transaction of its own, so it survives exactly when the handler does not come as far as that
    transaction, or that transaction aborts.
   */
  lemma FailedCreateExactly(s: Stores, c: CreateCall)
    requires DbOk(s.db) && !CreatePriority(s, c).1.CreatedOk? && GetActive(s.db, c.user).Some?
    ensures GetActive(CreatePriority(s, c).0.db, c.user) == GetActive(s.db, c.user) <==>
            !(ReachesDeletion(s, c) && c.faults.del == Worked && c.faults.activeRead && c.faults.cancel != Aborted)
  {
    hide DbOk, FindByKey, Resolved, Unresolved, Unfunded, AccountsMap, Replace, GetActive;
    if ReachesDeletion(s, c) {
      ReplaceLosesActive(s, c, Resolved(s.db, c.user, c.items, c.faults.lostReads));
    }
  }

  /**
    A creation whose transaction a constraint must stop ends as an internal error, after the old
    configuration is cancelled.
   */
  lemma RefusedCreate(s: Stores, c: CreateCall)
    requires DbOk(s.db) && ReachesDeletion(s, c)
    requires !ItemsAllowed(c.items) || exists config :: config in s.db.configs && config.idempotencyKey == c.key.value
    ensures CreatePriority(s, c).1 == Internal
    ensures c.faults.del == Worked && c.faults.activeRead && c.faults.cancel == Committed
            && GetActive(s.db, c.user).Some? ==>
              CreatePriority(s, c).0.db == Cancel(s.db, c.user)
  {
    hide DbOk, Cancel, CreateTx, GetActive, ItemsQuery, FindByKey, Resolved, Unresolved, Unfunded, AccountsMap;
    hide Insertable, ItemsAllowed;
    var data := Resolved(s.db, c.user, c.items, c.faults.lostReads);
    CancelDbKeeps(s.db, c.user);
    ResolvedInsertable(s.db, c.user, c.items, c.faults.lostReads);
    SameKeys(s.db, c.user, c.configId, c.key.value);
    CancelOnlyConfigs(s.db, c.user);
    var db2 := if GetActive(s.db, c.user).Some? then Cancel(s.db, c.user) else s.db;
    CreateTxExactly(db2, c.key.value, c.user, data, c.expiresAt, c.configId);
  }

  /**
    For instance: a list that names a provider twice, with no fault from the deletion on, leaves its
    user without an active one.
   */
  lemma NamedTwiceLosesActive(s: Stores, c: CreateCall, i: nat, j: nat)
    requires DbOk(s.db) && ReachesDeletion(s, c) && GetActive(s.db, c.user).Some?
    requires i < j < |c.items| && c.items[i].providerId == c.items[j].providerId
    requires c.faults.del == Worked && c.faults.activeRead && c.faults.cancel == Committed
    ensures CreatePriority(s, c).1 == Internal && GetActive(CreatePriority(s, c).0.db, c.user).None?
  {
    RefusedCreate(s, c);
    CancelDbKeeps(s.db, c.user);
  }

  /** The key is in use, and the read of it failed. */
  lemma TakenKeyIsInternal(s: Stores, c: CreateCall, taken: Config)
    requires DbOk(s.db) && ReachesDeletion(s, c) && taken in s.db.configs && Some(taken.idempotencyKey) == c.key
    ensures CreatePriority(s, c).1 == Internal
  {
    RefusedCreate(s, c);
  }

  // A stale cache

  /** A list of one item that claims nothing, from a caller whose every call succeeds. */
  function OneItem(user: Uuid, provider: Uuid, account: Uuid, configId: Uuid): CreateCall {
    CreateCall(user, Some("k"), [ItemRequest(provider, 0, SingleUse)], None, configId, 0,
               Faults(true, {}, Ok([Account(AsU128(account), 0, 0, 0, 0, true)]), true,
                      Worked, true, Committed, Committed, Worked))
  }

  lemma OneItemReaches(user: Uuid, provider: Uuid, row: ProviderTerms, account: Uuid, configId: Uuid)
    ensures ReachesDeletion(Act(EMPTY_STORES, LinkOp(user, provider, row, account)),
                            OneItem(user, provider, account, configId))
  {
    hide AsU128;
    var s, c := Act(EMPTY_STORES, LinkOp(user, provider, row, account)), OneItem(user, provider, account, configId);
    assert Linked(s.db, user, provider) == Some((account, row.ledgerAccount));
    assert c.items[..0] == [];
    var data := ItemData(provider, SingleUse, 0, account, row.ledgerAccount);
    assert Resolved(s.db, user, c.items[..0], {}) == [] && Unresolved(s.db, user, c.items[..0], {}) == [];
    assert Resolved(s.db, user, c.items, {}) == [data] && Unresolved(s.db, user, c.items, {}) == [];
    var accounts := c.faults.ledger.value;
    assert accounts[..0] == [] && [data][..0] == [];
    var found := AccountsMap(accounts);
    assert found == AccountsMap([])[AsU128(account) := accounts[0]];
    assert Funded(found, data);
    assert Unfunded(found, [data][..0]) == [] && Unfunded(found, [data]) == [];
    assert 'k' in c.key.value;
  }

  lemma OneItemSucceeds(user: Uuid, provider: Uuid, row: ProviderTerms, account: Uuid, configId: Uuid)
    ensures DbOk(Act(EMPTY_STORES, LinkOp(user, provider, row, account)).db)
    ensures var s := Act(EMPTY_STORES, LinkOp(user, provider, row, account));
            CreatePriority(s, OneItem(user, provider, account, configId)).1.CreatedOk?
  {
    hide AsU128, CreatePriority, ReachesDeletion, SelectItems, SortByOrder, JoinProviders;
    var s, c := Act(EMPTY_STORES, LinkOp(user, provider, row, account)), OneItem(user, provider, account, configId);
    OneItemReaches(user, provider, row, account, configId);
    assert NothingFails(s, c);
    CreateSucceedsWhen(s, c);
  }

  lemma OneItemUser(user: Uuid, provider: Uuid, account: Uuid, configId: Uuid)
    ensures OneItem(user, provider, account, configId).user == user
  {
  }

  /**
    The cache does not always agree with the database: when the cache fails during a cancellation,
    the cancelled configuration stays in it, while the database has no active one.
   */
  lemma StaleAfterCancel(user: Uuid, provider: Uuid, row: ProviderTerms, account: Uuid, configId: Uuid)
    ensures var ops := [LinkOp(user, provider, row, account), CreateOp(OneItem(user, provider, account, configId)),
                        CancelOp(user, Committed, Failed(false))];
            var s := ActAll(EMPTY_STORES, ops);
            user in s.cache && s.cache[user].details.config.status == ACTIVE && GetActive(s.db, user).None?
  {
    hide CreatePriority, GetActive, Cancel, OneItem, DbOk, AddLink;
    var link, create := LinkOp(user, provider, row, account), CreateOp(OneItem(user, provider, account, configId));
    var cancel := CancelOp(user, Committed, Failed(false));
    var ops := [link, create, cancel];
    assert ops[..2] == [link, create] && ops[..2][..1] == [link] && [link][..0] == [];
    var s1 := Act(EMPTY_STORES, link);
    assert ActAll(EMPTY_STORES, [link]) == s1;
    OneItemSucceeds(user, provider, row, account, configId);
    CreateThenGet(s1, create.call);
    var s2 := Act(s1, create);
    assert ActAll(EMPTY_STORES, ops[..2]) == s2;
    ActKeeps(s1, create);
    CancelDbKeeps(s2.db, user);
    OneItemUser(user, provider, account, configId);
    assert ActAll(EMPTY_STORES, ops) == Act(s2, cancel);
  }
}
