/** What the priority handlers keep in the database and in the cache. */
module PriorityProofs {
  import opened Wrappers
  import opened Numbers
  import opened Uuids
  import opened Ledgers
  import opened WorkerSpec
  import opened StoreCalls
  import opened Priority

  // The database invariant

  ghost predicate ConfigsOk(configs: seq<Config>) {
    && (forall c | c in configs :: !c.isDeleted && (c.status == ACTIVE || c.status == CANCELLED))
    && (forall i, j | 0 <= i < j < |configs| ::
          && configs[i].id != configs[j].id
          && configs[i].idempotencyKey != configs[j].idempotencyKey
          && !(configs[i].status == ACTIVE && configs[j].status == ACTIVE && configs[i].userId == configs[j].userId))
  }

  ghost predicate HasConfig(configs: seq<Config>, id: Uuid) {
    exists c :: c in configs && c.id == id
  }

  ghost predicate ItemsOk(items: seq<Item>, providers: map<Uuid, ProviderTerms>) {
    && (forall i | i in items :: i.providerId in providers && i.order > 0 && i.maxAmount >= 0 && !i.isDeleted)
    && (forall a, b | 0 <= a < b < |items| && items[a].configId == items[b].configId ::
          items[a].providerId != items[b].providerId && items[a].order != items[b].order)
  }

  ghost predicate DbOk(db: Db) {
    && ConfigsOk(db.configs)
    && ItemsOk(db.items, db.providers)
    && (forall i | i in db.items :: HasConfig(db.configs, i.configId))
  }

  // One active configuration

  lemma CancelKeeps(configs: seq<Config>, user: Uuid)
    requires ConfigsOk(configs)
    ensures ConfigsOk(CancelRows(configs, user))
    ensures forall c | c in CancelRows(configs, user) :: !IsActiveOf(c, user)
  {
    var r := CancelRows(configs, user);
    forall c | c in r
      ensures !c.isDeleted && (c.status == ACTIVE || c.status == CANCELLED) && !IsActiveOf(c, user)
    {
      var i :| 0 <= i < |r| && r[i] == c;
      assert configs[i] in configs;
    }
  }

  lemma CancelKeepsIds(configs: seq<Config>, user: Uuid, id: Uuid)
    ensures HasConfig(CancelRows(configs, user), id) <==> HasConfig(configs, id)
  {
    var r := CancelRows(configs, user);
    if HasConfig(r, id) {
      var c :| c in r && c.id == id;
      var i :| 0 <= i < |r| && r[i] == c;
      assert configs[i] in configs && configs[i].id == id;
    }
    if HasConfig(configs, id) {
      var c :| c in configs && c.id == id;
      var i :| 0 <= i < |configs| && configs[i] == c;
      assert r[i] in r && r[i].id == id;
    }
  }

  /**
    Because the transaction cancels first, its insert never meets the index of active rows: it is
    admitted exactly when the key fits its column and both the id and the key are new.
   */
  lemma ActiveIndexNeverViolated(configs: seq<Config>, row: Config)
    requires ConfigsOk(configs)
    ensures ConfigAdmitted(CancelRows(configs, row.userId), row) <==>
            && |row.idempotencyKey| <= KEY_LENGTH
            && forall c | c in configs :: c.id != row.id && c.idempotencyKey != row.idempotencyKey
  {
    var r := CancelRows(configs, row.userId);
    CancelKeeps(configs, row.userId);
    forall i | 0 <= i < |configs|
      ensures r[i] in r && configs[i] in configs
    {
    }
  }

  // Items

  ghost function Rows(configId: Uuid, data: seq<ItemData>): seq<Item> {
    seq(|data|, i requires 0 <= i < |data| => ItemRow(configId, data[i], i))
  }

  /** What the constraints ask of the items of a new configuration. */
  ghost predicate Insertable(providers: map<Uuid, ProviderTerms>, data: seq<ItemData>) {
    && |data| < TWO_31
    && (forall i | 0 <= i < |data| :: data[i].providerId in providers && data[i].maxAmount >= 0)
    && (forall i, j | 0 <= i < j < |data| :: data[i].providerId != data[j].providerId)
  }

  lemma ShortEnough(providers: map<Uuid, ProviderTerms>, data: seq<ItemData>)
    requires Insertable(providers, data)
    ensures |data| < TWO_31
  {
  }

  lemma InsertableLast(providers: map<Uuid, ProviderTerms>, data: seq<ItemData>)
    requires data != [] && Insertable(providers, data[..|data| - 1])
    ensures var n := |data| - 1;
            Insertable(providers, data) <==>
            && n + 1 < TWO_31 && data[n].providerId in providers && data[n].maxAmount >= 0
            && forall k | 0 <= k < n :: data[..n][k].providerId != data[n].providerId
  {
    var n := |data| - 1;
    assert forall k | 0 <= k < n :: data[..n][k] == data[k];
  }

  /**
    An item meets the constraints beside the rows of its configuration exactly when it meets them beside
    each of those.
   */
  lemma AdmittedAfter(items: seq<Item>, providers: map<Uuid, ProviderTerms>, configId: Uuid, data: seq<ItemData>,
          row: Item)
    requires row.configId == configId && |data| < TWO_31
    requires forall i | i in items :: i.configId != configId
    ensures ItemAdmitted(items + Rows(configId, data), providers, row) <==>
            && row.providerId in providers && row.order > 0 && row.maxAmount >= 0
            && forall k | 0 <= k < |data| :: data[k].providerId != row.providerId && k + 1 != row.order
  {
    var rows := Rows(configId, data);
    var all := items + rows;
    forall k | 0 <= k < |data|
      ensures rows[k] in all && rows[k].providerId == data[k].providerId
              && rows[k].order == k + 1 && rows[k].configId == configId
    {
      assert all[|items| + k] == rows[k];
    }
    forall i | i in all && i.configId == configId
      ensures exists k :: 0 <= k < |data| && i == rows[k]
    {
      var k :| 0 <= k < |all| && all[k] == i;
      assert k >= |items| && i == rows[k - |items|];
    }
  }

  lemma LastItemAdmitted(items: seq<Item>, providers: map<Uuid, ProviderTerms>, configId: Uuid, data: seq<ItemData>)
    requires data != [] && Insertable(providers, data[..|data| - 1])
    requires forall i | i in items :: i.configId != configId
    ensures var n := |data| - 1;
            ItemAdmitted(items + Rows(configId, data[..n]), providers, ItemRow(configId, data[n], n))
            <==> Insertable(providers, data)
  {
    hide Insertable, ItemAdmitted, Rows;
    var n := |data| - 1;
    assert n < TWO_31 by { ShortEnough(providers, data[..n]); }
    AdmittedAfter(items, providers, configId, data[..n], ItemRow(configId, data[n], n));
    InsertableLast(providers, data);
  }

  lemma {:induction false} InsertItemsExactly(items: seq<Item>, providers: map<Uuid, ProviderTerms>, configId: Uuid,
          data: seq<ItemData>)
    requires forall i | i in items :: i.configId != configId
    ensures InsertItems(items, providers, configId, data).Some? <==> Insertable(providers, data)
    ensures Insertable(providers, data) ==>
              InsertItems(items, providers, configId, data).value == items + Rows(configId, data)
  {
    if data != [] {
      var n := |data| - 1;
      var most := data[..n];
      InsertItemsExactly(items, providers, configId, most);
      if Insertable(providers, most) {
        var before, row := items + Rows(configId, most), ItemRow(configId, data[n], n);
        LastItemAdmitted(items, providers, configId, data);
        assert items + Rows(configId, data) == before + [row];
      } else {
        assert !Insertable(providers, data) by {
          if Insertable(providers, data) {
            assert Insertable(providers, most);
          }
        }
      }
    }
  }

  lemma OkConfigs(db: Db)
    requires DbOk(db)
    ensures ConfigsOk(db.configs)
  {
  }

  lemma NoItemsYet(db: Db, id: Uuid)
    requires DbOk(db) && forall c | c in db.configs :: c.id != id
    ensures forall i | i in db.items :: i.configId != id
  {
    forall i | i in db.items
      ensures i.configId != id
    {
      assert HasConfig(db.configs, i.configId);
    }
  }

  /** The transaction succeeds exactly when the key fits, id and key are new and the items meet their constraints. */
  lemma CreateTxExactly(db: Db, key: string, user: Uuid, data: seq<ItemData>, expiresAt: Option<int>, id: Uuid)
    requires DbOk(db)
    ensures CreateTx(db, key, user, data, expiresAt, id).Some? <==>
            && |key| <= KEY_LENGTH
            && (forall c | c in db.configs :: c.id != id && c.idempotencyKey != key)
            && Insertable(db.providers, data)
    ensures CreateTx(db, key, user, data, expiresAt, id).Some? ==>
              CreateTx(db, key, user, data, expiresAt, id).value
              == db.(configs := CancelRows(db.configs, user) + [Config(id, user, key, ACTIVE, expiresAt, false)],
                     items := db.items + Rows(id, data))
  {
    hide Insertable, DbOk, InsertItems, Rows;
    var row := Config(id, user, key, ACTIVE, expiresAt, false);
    assert ConfigsOk(db.configs) by { OkConfigs(db); }
    ActiveIndexNeverViolated(db.configs, row);
    if ConfigAdmitted(CancelRows(db.configs, user), row) {
      NoItemsYet(db, id);
      InsertItemsExactly(db.items, db.providers, id, data);
    }
  }

  lemma NewConfigOk(configs: seq<Config>, row: Config)
    requires ConfigsOk(configs) && row.status == ACTIVE && !row.isDeleted
    requires forall c | c in configs :: c.id != row.id && c.idempotencyKey != row.idempotencyKey
    ensures ConfigsOk(CancelRows(configs, row.userId) + [row])
  {
    var r := CancelRows(configs, row.userId);
    CancelKeeps(configs, row.userId);
    ActiveIndexNeverViolated(configs, row);
    forall i | 0 <= i < |r|
      ensures r[i] in r
    {
    }
  }

  lemma NewRows(id: Uuid, data: seq<ItemData>, providers: map<Uuid, ProviderTerms>)
    requires Insertable(providers, data)
    ensures var rows := Rows(id, data);
            forall k | 0 <= k < |rows| :: rows[k].configId == id && rows[k].providerId == data[k].providerId
              && rows[k].order == k + 1 && rows[k].providerId in providers
              && rows[k].maxAmount >= 0 && !rows[k].isDeleted
  {
  }

  lemma NewItemsOk(items: seq<Item>, providers: map<Uuid, ProviderTerms>, id: Uuid, data: seq<ItemData>)
    requires ItemsOk(items, providers) && Insertable(providers, data)
    requires forall i | i in items :: i.configId != id
    ensures ItemsOk(items + Rows(id, data), providers)
  {
    NewRows(id, data, providers);
    var rows := Rows(id, data);
    hide Rows;
    var all := items + rows;
    forall i | i in all
      ensures i.providerId in providers && i.order > 0 && i.maxAmount >= 0 && !i.isDeleted
    {
      if i !in items {
        var k :| 0 <= k < |rows| && rows[k] == i;
      }
    }
    forall a | 0 <= a < |all|
      ensures if a < |items| then all[a] == items[a] && all[a].configId != id
              else all[a] == rows[a - |items|] && all[a].configId == id
    {
      if a < |items| {
        assert items[a] in items;
      }
    }
    forall a, b | 0 <= a < b < |all| && all[a].configId == all[b].configId
      ensures all[a].providerId != all[b].providerId && all[a].order != all[b].order
    {
      if b >= |items| {
        var k, l := a - |items|, b - |items|;
        assert data[k].providerId != data[l].providerId;
      }
    }
  }

  lemma CreateTxKeeps(db: Db, key: string, user: Uuid, data: seq<ItemData>, expiresAt: Option<int>, id: Uuid)
    requires DbOk(db) && CreateTx(db, key, user, data, expiresAt, id).Some?
    ensures DbOk(CreateTx(db, key, user, data, expiresAt, id).value)
  {
    CreateTxExactly(db, key, user, data, expiresAt, id);
    hide CreateTx;
    var row := Config(id, user, key, ACTIVE, expiresAt, false);
    var db' := CreateTx(db, key, user, data, expiresAt, id).value;
    NewConfigOk(db.configs, row);
    NoItemsYet(db, id);
    NewItemsOk(db.items, db.providers, id, data);
    forall i | i in db'.items
      ensures HasConfig(db'.configs, i.configId)
    {
      if i in db.items {
        CancelKeepsIds(db.configs, user, i.configId);
        var c :| c in CancelRows(db.configs, user) && c.id == i.configId;
        assert c in db'.configs;
      } else {
        assert row in db'.configs;
      }
    }
  }

  // Status and history

  /** A later table of configurations: rows are added, never lost, and a status moves only from ACTIVE to CANCELLED. */
  ghost predicate Evolves(before: seq<Config>, after: seq<Config>) {
    && |before| <= |after|
    && forall i | 0 <= i < |before| ::
         after[i] == before[i] || (before[i].status == ACTIVE && after[i] == before[i].(status := CANCELLED))
  }

  lemma EvolvesOn(a: seq<Config>, b: seq<Config>, c: seq<Config>)
    requires Evolves(a, b) && Evolves(b, c)
    ensures Evolves(a, c)
  {
  }

  // Steps

  lemma CancelDbKeeps(db: Db, user: Uuid)
    requires DbOk(db)
    ensures DbOk(Cancel(db, user)) && Evolves(db.configs, Cancel(db, user).configs)
    ensures GetActive(Cancel(db, user), user).None?
  {
    CancelKeeps(db.configs, user);
    forall i | i in db.items
      ensures HasConfig(Cancel(db, user).configs, i.configId)
    {
      CancelKeepsIds(db.configs, user, i.configId);
    }
  }

  lemma SameEvolves(configs: seq<Config>)
    ensures Evolves(configs, configs)
  {
  }

  lemma CancelOnlyConfigs(db: Db, user: Uuid)
    ensures Cancel(db, user).items == db.items && Cancel(db, user).providers == db.providers
  {
  }

  lemma CreateTxEvolves(db: Db, key: string, user: Uuid, data: seq<ItemData>, expiresAt: Option<int>, id: Uuid)
    requires DbOk(db) && CreateTx(db, key, user, data, expiresAt, id).Some?
    ensures Evolves(db.configs, CreateTx(db, key, user, data, expiresAt, id).value.configs)
    ensures db.items <= CreateTx(db, key, user, data, expiresAt, id).value.items
  {
    CreateTxExactly(db, key, user, data, expiresAt, id);
  }

  lemma CreateKeeps(s: Stores, c: CreateCall)
    requires DbOk(s.db)
    ensures DbOk(CreatePriority(s, c).0.db) && Evolves(s.db.configs, CreatePriority(s, c).0.db.configs)
    ensures s.db.items <= CreatePriority(s, c).0.db.items
  {
    hide DbOk, Cancel, CreateTx, GetActive, Evolves, FindByKey, Resolved, Unresolved, Unfunded, AccountsMap, ItemsQuery;
    CancelDbKeeps(s.db, c.user);
    assert Evolves(s.db.configs, s.db.configs) by { SameEvolves(s.db.configs); }
    if CreatePriority(s, c).0.db != s.db {
      var data := Resolved(s.db, c.user, c.items, c.faults.lostReads);
      var db2 := if GetActive(s.db, c.user).Some? then Cancel(s.db, c.user) else s.db;
      CancelOnlyConfigs(s.db, c.user);
      if CreateTx(db2, c.key.value, c.user, data, c.expiresAt, c.configId).Some? {
        CreateTxEvolves(db2, c.key.value, c.user, data, c.expiresAt, c.configId);
        CreateTxKeeps(db2, c.key.value, c.user, data, c.expiresAt, c.configId);
        EvolvesOn(s.db.configs, db2.configs,
                  CreateTx(db2, c.key.value, c.user, data, c.expiresAt, c.configId).value.configs);
      }
    }
  }

  lemma LinkKeeps(db: Db, user: Uuid, provider: Uuid, row: ProviderTerms, account: Uuid)
    requires DbOk(db)
    ensures DbOk(AddLink(db, user, provider, row, account))
  {
  }

  lemma LinkSameTables(db: Db, user: Uuid, provider: Uuid, row: ProviderTerms, account: Uuid)
    ensures AddLink(db, user, provider, row, account).configs == db.configs
    ensures AddLink(db, user, provider, row, account).items == db.items
  {
  }

  lemma ActKeeps(s: Stores, op: PriorityOp)
    requires DbOk(s.db)
    ensures DbOk(Act(s, op).db) && Evolves(s.db.configs, Act(s, op).db.configs)
    ensures s.db.items <= Act(s, op).db.items
  {
    hide DbOk, CreatePriority, Cancel, GetActive, Evolves, AddLink;
    SameEvolves(s.db.configs);
    match op
    case CreateOp(call) => CreateKeeps(s, call);
    case CancelOp(user, _, _) =>
      CancelDbKeeps(s.db, user);
      CancelOnlyConfigs(s.db, user);
    case DebitOp(user, _, _, _, _) =>
      CancelDbKeeps(s.db, user);
      CancelOnlyConfigs(s.db, user);
    case ExpireOp(_) =>
    case LinkOp(user, provider, row, account) =>
      LinkKeeps(s.db, user, provider, row, account);
      LinkSameTables(s.db, user, provider, row, account);
  }

  /**
    The state machine of configurations, over every run of the handlers with any faults: each user
    has at most one active configuration, none is deleted, and from any moment m of the run to any
    later one n rows are only added and a status only moves from ACTIVE to CANCELLED.
   */
  lemma {:induction false} ConfigStateMachine(ops: seq<PriorityOp>, m: nat, n: nat)
    requires m <= n <= |ops|
    ensures DbOk(ActAll(EMPTY_STORES, ops[..n]).db)
    ensures Evolves(ActAll(EMPTY_STORES, ops[..m]).db.configs, ActAll(EMPTY_STORES, ops[..n]).db.configs)
    ensures ActAll(EMPTY_STORES, ops[..m]).db.items <= ActAll(EMPTY_STORES, ops[..n]).db.items
    decreases n
  {
    hide Act, Evolves;
    if n == 0 {
      SameEvolves([]);
    } else {
      hide DbOk;
      var before := ActAll(EMPTY_STORES, ops[..n - 1]);
      assert ops[..n][..n - 1] == ops[..n - 1];
      ConfigStateMachine(ops, if m < n then m else m - 1, n - 1);
      ActKeeps(before, ops[n - 1]);
      if m < n {
        EvolvesOn(ActAll(EMPTY_STORES, ops[..m]).db.configs, before.db.configs,
                  ActAll(EMPTY_STORES, ops[..n]).db.configs);
      } else {
        SameEvolves(ActAll(EMPTY_STORES, ops[..n]).db.configs);
      }
    }
  }
}
