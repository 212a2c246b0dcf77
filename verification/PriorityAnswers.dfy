/**
  What the priority handlers answer, and why: each answer in terms of the request, the rows and the
  ledger's numbers.
 */
module PriorityAnswers {
  import opened Wrappers
  import opened Numbers
  import opened Uuids
  import opened Ledgers
  import opened WorkerSpec
  import opened StoreCalls
  import opened Priority
  import opened PriorityProofs
  import opened PriorityResults
  import opened PriorityExactness

  // Rows as the API shows them

  /** The rows of a configuration, each once, in ascending order. */
  ghost predicate RowsOf(db: Db, id: Uuid, rows: seq<Item>) {
    && (forall row :: row in rows <==> row in db.items && row.configId == id && !row.isDeleted)
    && (forall i, j | 0 <= i < j < |rows| :: rows[i].order < rows[j].order)
  }

  ghost predicate Shown(rows: seq<Item>, providers: map<Uuid, ProviderTerms>, items: seq<ItemDetails>) {
    |items| == |rows| && forall i | 0 <= i < |rows| :: Joined(rows[i], providers, items[i])
  }

  /** The items shown are the rows of the configuration, with their providers' ledger accounts and fees. */
  ghost predicate ItemsAre(db: Db, id: Uuid, items: seq<ItemDetails>) {
    exists rows :: RowsOf(db, id, rows) && Shown(rows, db.providers, items)
  }

  lemma SelectedExactly(items: seq<Item>, id: Uuid, row: Item)
    ensures row in SelectItems(items, id) <==> row in items && row.configId == id && !row.isDeleted
  {
    SelectCounts(items, id, row);
    assert row in multiset(SelectItems(items, id)) <==> row in SelectItems(items, id);
    assert row in multiset(items) <==> row in items;
  }

  lemma {:induction false} TwicePlaces<T>(s: seq<T>, x: T) returns (i: nat, j: nat)
    requires multiset(s)[x] >= 2
    ensures i < j < |s| && s[i] == x == s[j]
  {
    var n := |s| - 1;
    assert s == s[..n] + [s[n]];
    if s[n] == x {
      j := n;
      assert x in multiset(s[..n]);
      i :| 0 <= i < n && s[..n][i] == x;
    } else {
      i, j := TwicePlaces(s[..n], x);
    }
  }

  lemma ItemOnce(items: seq<Item>, providers: map<Uuid, ProviderTerms>, row: Item)
    requires ItemsOk(items, providers)
    ensures multiset(items)[row] <= 1
  {
    if multiset(items)[row] >= 2 {
      var i, j := TwicePlaces(items, row);
    }
  }

  lemma PlacesTwice<T>(s: seq<T>, i: nat, j: nat)
    requires i < j < |s| && s[i] == s[j]
    ensures multiset(s)[s[i]] >= 2
  {
    assert s == s[..j] + [s[j]] + s[j + 1..];
    assert s[i] in s[..j];
  }

  lemma StrictlyAscending(db: Db, id: Uuid)
    requires DbOk(db)
    ensures var sorted := SortByOrder(SelectItems(db.items, id));
            forall i, j | 0 <= i < j < |sorted| :: sorted[i].order < sorted[j].order
  {
    var selected := SelectItems(db.items, id);
    var sorted := SortByOrder(selected);
    SelectedOrdersDiffer(db, id);
    SortSorts(selected);
    SamePermutation(selected, sorted);
    forall x: Item
      ensures multiset(sorted)[x] <= 1
    {
      SelectCounts(db.items, id, x);
      ItemOnce(db.items, db.providers, x);
    }
    hide SelectItems, SortByOrder, DbOk;
    forall i, j | 0 <= i < j < |sorted|
      ensures sorted[i].order < sorted[j].order
    {
      assert sorted[i] in sorted && sorted[j] in sorted;
      if sorted[i] == sorted[j] {
        PlacesTwice(sorted, i, j);
      }
    }
  }

  /** The sorted rows of the configuration are those of the table. */
  lemma SortedExactly(db: Db, id: Uuid, row: Item)
    requires DbOk(db)
    ensures row in SortByOrder(SelectItems(db.items, id)) <==> row in db.items && row.configId == id && !row.isDeleted
    ensures row in db.items ==> row.providerId in db.providers
  {
    var selected := SelectItems(db.items, id);
    SortSorts(selected);
    SelectedExactly(db.items, id, row);
    assert row in multiset(selected) <==> row in selected;
    assert row in multiset(SortByOrder(selected)) <==> row in SortByOrder(selected);
  }

  lemma SortedRowsOf(db: Db, id: Uuid)
    requires DbOk(db)
    ensures RowsOf(db, id, SortByOrder(SelectItems(db.items, id)))
  {
    StrictlyAscending(db, id);
    hide SelectItems, SortByOrder, DbOk;
    forall row: Item
      ensures row in SortByOrder(SelectItems(db.items, id)) <==> row in db.items && row.configId == id && !row.isDeleted
    {
      SortedExactly(db, id, row);
    }
  }

  /** What the query of items gives, whoever asks: exactly the configuration's rows, joined, in order. */
  lemma ItemsQueryExactly(db: Db, id: Uuid)
    requires DbOk(db)
    ensures ItemsAre(db, id, ItemsQuery(db, id))
  {
    hide SelectItems, SortByOrder, JoinProviders, DbOk, Joined, RowsOf;
    var sorted := SortByOrder(SelectItems(db.items, id));
    SortedRowsOf(db, id);
    forall row | row in sorted
      ensures row.providerId in db.providers
    {
      SortedExactly(db, id, row);
    }
    JoinAll(sorted, db.providers);
    assert Shown(sorted, db.providers, ItemsQuery(db, id));
  }

  /** The user's active row, deleted ones apart. */
  ghost predicate ActiveRow(db: Db, user: Uuid, c: Config) {
    c in db.configs && c.userId == user && c.status == ACTIVE && !c.isDeleted
  }

  ghost predicate HasActive(db: Db, user: Uuid) {
    exists c :: ActiveRow(db, user, c)
  }

  /** The active configuration as it is read: that row, with exactly its items; and nothing if there is no such row. */
  lemma GetActiveExactly(db: Db, user: Uuid)
    requires DbOk(db)
    ensures GetActive(db, user).Some? <==> HasActive(db, user)
    ensures GetActive(db, user).Some? ==>
              var d := GetActive(db, user).value;
              ActiveRow(db, user, d.config) && ItemsAre(db, d.config.id, d.items)
  {
    hide DbOk, ItemsQuery, ItemsAre;
    var found := FindActive(db.configs, user);
    assert forall c | c in db.configs :: IsActiveOf(c, user) <==> ActiveRow(db, user, c);
    if found.Some? {
      assert ActiveRow(db, user, found.value);
      ItemsQueryExactly(db, found.value.id);
    }
  }

  // Cancelling

  /** The tables after the user's active rows are cancelled: nothing else changes. */
  ghost predicate CancelledIn(db: Db, db': Db, user: Uuid) {
    && db' == db.(configs := db'.configs) && |db'.configs| == |db.configs|
    && forall i | 0 <= i < |db.configs| ::
         var c := db.configs[i];
         db'.configs[i] == if ActiveRow(db, user, c) then
                             Config(c.id, c.userId, c.idempotencyKey, CANCELLED, c.expiresAt, c.isDeleted)
                           else c
  }

  lemma CancelExactly(db: Db, user: Uuid)
    ensures CancelledIn(db, Cancel(db, user), user)
  {
    var db' := Cancel(db, user);
    forall i | 0 <= i < |db.configs|
      ensures var c := db.configs[i];
              db'.configs[i] == if ActiveRow(db, user, c) then
                                  Config(c.id, c.userId, c.idempotencyKey, CANCELLED, c.expiresAt, c.isDeleted)
                                else c
    {
      assert db.configs[i] in db.configs;
    }
  }

  lemma CancelledRow(db: Db, user: Uuid, c: Config)
    requires ActiveRow(db, user, c)
    ensures Config(c.id, c.userId, c.idempotencyKey, CANCELLED, c.expiresAt, c.isDeleted) in Cancel(db, user).configs
  {
    CancelExactly(db, user);
    var i :| 0 <= i < |db.configs| && db.configs[i] == c;
    assert Cancel(db, user).configs[i] == Config(c.id, c.userId, c.idempotencyKey, CANCELLED, c.expiresAt, c.isDeleted);
  }

  /** The cache without the user's value, if `removed`, and as it was otherwise. */
  ghost predicate CacheAfter(s: Stores, t: Stores, user: Uuid, removed: bool) {
    forall u: Uuid ::
      if removed && u == user then u !in t.cache
      else (u in t.cache <==> u in s.cache) && (u in s.cache ==> t.cache[u] == s.cache[u])
  }

  /**
    The cancellation: what it answers and what it leaves. It answers with the cancelled configuration
    exactly when there was an active one, the commit was confirmed and the deletion worked; then that
    configuration has the id, the key and the items of the active one and stands in the table as it is
    answered. It answers that there is nothing to cancel exactly when there was none and the call was
    answered, and fails otherwise.
   */
  lemma CancelAnswersExactly(s: Stores, user: Uuid, cancel: Commit, del: CacheOutcome)
    requires DbOk(s.db)
    ensures var (t, r) := CancelPriority(s, user, cancel, del);
            && (r.Cancelled? <==> HasActive(s.db, user) && cancel == Committed && del == Worked)
            && (r == NothingToCancel <==> !HasActive(s.db, user) && cancel == Committed)
            && (r == CancelFailed <==> cancel != Committed || (HasActive(s.db, user) && del != Worked))
            && (r.Cancelled? ==>
                  exists c ::
                    && ActiveRow(s.db, user, c)
                    && r.details.config == Config(c.id, user, c.idempotencyKey, CANCELLED, c.expiresAt, false)
                    && r.details.config in t.db.configs
                    && ItemsAre(s.db, c.id, r.details.items))
            && (if HasActive(s.db, user) && cancel != Aborted then CancelledIn(s.db, t.db, user) else t.db == s.db)
            && CacheAfter(s, t, user, HasActive(s.db, user) && cancel == Committed && del != Failed(false))
  {
    hide DbOk, GetActive, ItemsAre, Cancel, CancelledIn, HasActive;
    GetActiveExactly(s.db, user);
    if GetActive(s.db, user).Some? {
      CancelExactly(s.db, user);
      CancelledRow(s.db, user, GetActive(s.db, user).value.config);
    }
  }

  /** The user has an active configuration with an item through the provider. */
  ghost predicate ActiveThrough(db: Db, user: Uuid, provider: Uuid) {
    exists c, row ::
      ActiveRow(db, user, c) && row in db.items && row.configId == c.id && !row.isDeleted && row.providerId == provider
  }

  lemma OneActive(db: Db, user: Uuid, c: Config, d: Config)
    requires DbOk(db) && ActiveRow(db, user, c) && ActiveRow(db, user, d)
    ensures c == d
  {
    var i :| 0 <= i < |db.configs| && db.configs[i] == c;
    var j :| 0 <= j < |db.configs| && db.configs[j] == d;
    assert i == j;
  }

  lemma ThroughIsActive(db: Db, user: Uuid, provider: Uuid)
    ensures ActiveThrough(db, user, provider) ==> HasActive(db, user)
  {
  }

  lemma ContainsExactly(db: Db, user: Uuid, provider: Uuid)
    requires DbOk(db)
    ensures ActiveThrough(db, user, provider) <==>
            GetActive(db, user).Some? && Contains(GetActive(db, user).value, provider)
  {
    hide DbOk, GetActive;
    GetActiveExactly(db, user);
    assert ActiveThrough(db, user, provider) ==> HasActive(db, user) by { ThroughIsActive(db, user, provider); }
    if GetActive(db, user).Some? {
      var d := GetActive(db, user).value;
      var rows :| RowsOf(db, d.config.id, rows) && Shown(rows, db.providers, d.items);
      if Contains(d, provider) {
        var i :| 0 <= i < |d.items| && d.items[i].providerId == provider;
        assert Joined(rows[i], db.providers, d.items[i]) && rows[i] in rows;
        assert ActiveRow(db, user, d.config);
      }
      if ActiveThrough(db, user, provider) {
        var c, row :| ActiveRow(db, user, c) && row in db.items && row.configId == c.id && !row.isDeleted
                      && row.providerId == provider;
        OneActive(db, user, c, d.config);
        var i :| 0 <= i < |rows| && rows[i] == row;
        assert Joined(rows[i], db.providers, d.items[i]);
      }
    }
  }

  /**
    The priority step of a debit: the debit goes on exactly when the read was answered and, if there is
    an active configuration through the provider, its cancellation was confirmed. A failed deletion does
    not stop it. Without such a configuration nothing changes.
   */
  lemma ClearAnswersExactly(s: Stores, user: Uuid, provider: Uuid, activeRead: bool, cancel: Commit, del: CacheOutcome)
    requires DbOk(s.db)
    ensures var (t, goesOn) := ClearForDebit(s, user, provider, activeRead, cancel, del);
            var through := activeRead && ActiveThrough(s.db, user, provider);
            && (goesOn <==> activeRead && (through ==> cancel == Committed))
            && (if through && cancel != Aborted then CancelledIn(s.db, t.db, user) else t.db == s.db)
            && CacheAfter(s, t, user, through && cancel == Committed && del != Failed(false))
  {
    hide DbOk, GetActive, Cancel, CancelledIn, ActiveThrough, Contains;
    ContainsExactly(s.db, user, provider);
    CancelExactly(s.db, user);
  }

  // Funds

  /** Entry n is the last of the list with this id. */
  ghost predicate LastWithId(accounts: seq<Account>, id: u128, n: nat) {
    n < |accounts| && accounts[n].id == id && forall m | n < m < |accounts| :: accounts[m].id != id
  }

  lemma LastShorter(accounts: seq<Account>, id: u128, n: nat)
    requires accounts != []
    ensures accounts[|accounts| - 1].id != id ==>
              (LastWithId(accounts, id, n) <==> LastWithId(accounts[..|accounts| - 1], id, n))
    ensures accounts[|accounts| - 1].id == id ==> (LastWithId(accounts, id, n) <==> n == |accounts| - 1)
  {
  }

  lemma {:induction false} MapHasLast(accounts: seq<Account>, id: u128)
    ensures id in AccountsMap(accounts) ==>
              exists n: nat :: LastWithId(accounts, id, n) && AccountsMap(accounts)[id] == accounts[n]
    ensures forall n: nat | LastWithId(accounts, id, n) ::
              id in AccountsMap(accounts) && AccountsMap(accounts)[id] == accounts[n]
  {
    if accounts != [] {
      var last := |accounts| - 1;
      var before := AccountsMap(accounts[..last]);
      MapHasLast(accounts[..last], id);
      assert AccountsMap(accounts) == before[accounts[last].id := accounts[last]];
      forall n: nat
        ensures accounts[last].id != id ==> (LastWithId(accounts, id, n) <==> LastWithId(accounts[..last], id, n))
        ensures accounts[last].id == id ==> (LastWithId(accounts, id, n) <==> n == last)
      {
        LastShorter(accounts, id, n);
      }
      hide AccountsMap;
      if accounts[last].id == id {
        assert LastWithId(accounts, id, last);
      } else if id in before {
        var n: nat :| LastWithId(accounts[..last], id, n) && before[id] == accounts[..last][n];
        assert LastWithId(accounts, id, n);
      }
    }
  }

  /** What posted credits exceed posted debits by; nothing if they do not. */
  ghost function Left(a: Account): nat {
    if a.debitsPosted < a.creditsPosted then a.creditsPosted - a.debitsPosted else 0
  }

  ghost predicate WrapsTo(x: int, wrapped: i64) {
    (x - wrapped) % TWO_64 == 0
  }

  /** What is left covers the amount, as far as 64 bits can say: where it does not fit, the number it wraps to does. */
  ghost predicate Suffices(a: Account, amount: i64) {
    if Left(a) < TWO_63 then Left(a) >= amount
    else exists wrapped: i64 :: WrapsTo(Left(a), wrapped) && wrapped >= amount
  }

  lemma SameWrapped(x: int, a: i64, b: i64)
    requires WrapsTo(x, a) && WrapsTo(x, b)
    ensures a == b
  {
    assert (a - b) % TWO_64 == 0;
  }

  /** What is available, exactly: what is left, where it fits; nothing of an overdrawn account. */
  lemma AvailableExactly(a: Account)
    ensures Left(a) < TWO_63 ==> Available(a) == Left(a)
    ensures a.creditsPosted <= a.debitsPosted ==> Available(a) == 0
    ensures WrapsTo(Left(a), Available(a))
    ensures forall amount: i64 :: Available(a) >= amount <==> Suffices(a, amount)
  {
    WrapExact(Left(a));
    assert Available(a) == WrapI64(Left(a)) && WrapsTo(Left(a), Available(a));
    hide Available, WrapI64, WrapsTo;
    forall amount: i64
      ensures Available(a) >= amount <==> Suffices(a, amount)
    {
      if Left(a) >= TWO_63 && Suffices(a, amount) {
        var wrapped: i64 :| WrapsTo(Left(a), wrapped) && wrapped >= amount;
        SameWrapped(Left(a), Available(a), wrapped);
      }
    }
  }

  /** The accounts found hold the account, and enough is left on it. */
  ghost predicate HasFunds(accounts: seq<Account>, account: Uuid, amount: i64) {
    exists n: nat :: LastWithId(accounts, AsU128(account), n) && Suffices(accounts[n], amount)
  }

  lemma FundedExactly(accounts: seq<Account>, data: ItemData)
    ensures Funded(AccountsMap(accounts), data) <==> HasFunds(accounts, data.userLedgerAccount, data.maxAmount)
  {
    hide AsU128, Available, Suffices, AccountsMap;
    var id := AsU128(data.userLedgerAccount);
    MapHasLast(accounts, id);
    forall n: nat | LastWithId(accounts, id, n)
      ensures Available(AccountsMap(accounts)[id]) >= data.maxAmount <==> Suffices(accounts[n], data.maxAmount)
    {
      AvailableExactly(accounts[n]);
    }
  }

  // Lists of providers

  ghost predicate NamesAt<T>(list: seq<T>, all: seq<T>, chosen: set<nat>, places: seq<nat>) {
    && |places| == |list|
    && (forall i, j | 0 <= i < j < |places| :: places[i] < places[j])
    && (forall i | 0 <= i < |places| :: places[i] < |all| && list[i] == all[places[i]])
    && (forall n: nat :: n in places <==> n < |all| && n in chosen)
  }

  /** The list names the chosen ones, in order and once each. */
  ghost predicate Names<T>(list: seq<T>, all: seq<T>, chosen: set<nat>) {
    exists places: seq<nat> :: NamesAt(list, all, chosen, places)
  }

  lemma NamesNone<T>(chosen: set<nat>)
    ensures Names<T>([], [], chosen)
  {
    assert NamesAt<T>([], [], chosen, []);
  }

  lemma OnePlaceMore<T>(list: seq<T>, all: seq<T>, chosen: set<nat>, name: T, places: seq<nat>)
    requires NamesAt(list, all, chosen, places) && |all| in chosen
    ensures NamesAt(list + [name], all + [name], chosen, places + [|all|])
  {
    var more := places + [|all|];
    assert forall i | 0 <= i < |places| :: places[i] in places && more[i] == places[i];
    forall i | 0 <= i < |more|
      ensures more[i] < |all + [name]| && (list + [name])[i] == (all + [name])[more[i]]
    {
    }
    assert forall n: nat :: n in more <==> n in places || n == |all|;
  }

  lemma NamesOneMore<T>(list: seq<T>, all: seq<T>, chosen: set<nat>, name: T)
    requires Names(list, all, chosen)
    ensures Names(if |all| in chosen then list + [name] else list, all + [name], chosen)
  {
    var places: seq<nat> :| NamesAt(list, all, chosen, places);
    assert forall i | 0 <= i < |places| :: places[i] in places;
    if |all| in chosen {
      OnePlaceMore(list, all, chosen, name, places);
    } else {
      assert NamesAt(list, all + [name], chosen, places);
    }
  }

  lemma NoneChosen<T>(list: seq<T>, all: seq<T>, chosen: set<nat>)
    requires Names(list, all, chosen)
    ensures list == [] <==> forall n: nat | n < |all| :: n !in chosen
  {
    var places: seq<nat> :| NamesAt(list, all, chosen, places);
    if list != [] {
      assert places[0] in places;
    }
    if n: nat :| n < |all| && n in chosen {
      assert n in places;
    }
  }

  function ProvidersOf(items: seq<ItemRequest>): seq<Uuid> {
    seq(|items|, i requires 0 <= i < |items| => items[i].providerId)
  }

  /** Item n names a provider with which the user has an account, and the read of it was answered. */
  ghost predicate Resolves(db: Db, c: CreateCall, n: nat)
    requires n < |c.items|
  {
    n !in c.faults.lostReads && (c.user, c.items[n].providerId) in db.accounts && c.items[n].providerId in db.providers
  }

  /** Item n asks for no more than the ledger says is left. */
  ghost predicate Affords(db: Db, c: CreateCall, accounts: seq<Account>, n: nat)
    requires n < |c.items|
  {
    (c.user, c.items[n].providerId) in db.accounts
    && HasFunds(accounts, db.accounts[(c.user, c.items[n].providerId)], c.items[n].maxAmount)
  }

  lemma {:induction false} UnresolvedNames(db: Db, user: Uuid, items: seq<ItemRequest>, lost: set<nat>,
          chosen: set<nat>)
    requires forall n: nat | n < |items| ::
               n in chosen <==>
                 n in lost || (user, items[n].providerId) !in db.accounts || items[n].providerId !in db.providers
    ensures Names(Unresolved(db, user, items, lost), ProvidersOf(items), chosen)
  {
    hide Names;
    if items == [] {
      NamesNone<Uuid>(chosen);
      assert ProvidersOf(items) == [];
    } else {
      var n := |items| - 1;
      UnresolvedNames(db, user, items[..n], lost, chosen);
      assert ProvidersOf(items) == ProvidersOf(items[..n]) + [items[n].providerId];
      NamesOneMore(Unresolved(db, user, items[..n], lost), ProvidersOf(items[..n]), chosen, items[n].providerId);
    }
  }

  /** What item n resolves to; the two accounts are the user's with the provider and the provider's own. */
  ghost predicate ResolvesTo(db: Db, user: Uuid, item: ItemRequest, data: ItemData) {
    (user, item.providerId) in db.accounts && item.providerId in db.providers
    && data == ItemData(item.providerId, item.usage, item.maxAmount, db.accounts[(user, item.providerId)],
                        db.providers[item.providerId].ledgerAccount)
  }

  lemma {:induction false} ResolvedNames(db: Db, user: Uuid, items: seq<ItemRequest>, lost: set<nat>,
          all: seq<ItemData>, chosen: set<nat>)
    requires |all| == |items|
    requires forall n: nat | n < |items| ::
               n in chosen <==>
                 n !in lost && (user, items[n].providerId) in db.accounts && items[n].providerId in db.providers
    requires forall n: nat | n < |items| && n in chosen :: ResolvesTo(db, user, items[n], all[n])
    ensures Names(Resolved(db, user, items, lost), all, chosen)
  {
    hide Names;
    if items == [] {
      NamesNone<ItemData>(chosen);
    } else {
      var n := |items| - 1;
      ResolvedNames(db, user, items[..n], lost, all[..n], chosen);
      assert all == all[..n] + [all[n]];
      NamesOneMore(Resolved(db, user, items[..n], lost), all[..n], chosen, all[n]);
    }
  }

  function ProvidersOfData(data: seq<ItemData>): seq<Uuid> {
    seq(|data|, i requires 0 <= i < |data| => data[i].providerId)
  }

  /** The providers listed as short of funds are exactly those whose account is missing or does not hold enough. */
  lemma {:induction false} UnfundedNames(accounts: seq<Account>, data: seq<ItemData>, chosen: set<nat>)
    requires forall n: nat | n < |data| ::
               n in chosen <==> !HasFunds(accounts, data[n].userLedgerAccount, data[n].maxAmount)
    ensures Names(Unfunded(AccountsMap(accounts), data), ProvidersOfData(data), chosen)
  {
    hide Names, HasFunds, AccountsMap, Funded;
    if data == [] {
      NamesNone<Uuid>(chosen);
      assert ProvidersOfData(data) == [];
    } else {
      var n := |data| - 1;
      UnfundedNames(accounts, data[..n], chosen);
      FundedExactly(accounts, data[n]);
      assert ProvidersOfData(data) == ProvidersOfData(data[..n]) + [data[n].providerId];
      NamesOneMore(Unfunded(AccountsMap(accounts), data[..n]), ProvidersOfData(data[..n]), chosen, data[n].providerId);
    }
  }

  // Creating

  /** The list is not empty, and the key is there and not blank. */
  ghost predicate WellFormed(c: CreateCall) {
    && c.items != [] && c.key.Some?
    && exists i :: 0 <= i < |c.key.value| && c.key.value[i] != ' ' && c.key.value[i] != '\t'
  }

  /** The row with this key, unless it is deleted. */
  ghost predicate KeyRow(db: Db, key: string, row: Config) {
    row in db.configs && row.idempotencyKey == key && !row.isDeleted
  }

  ghost predicate KeyKnown(s: Stores, c: CreateCall)
    requires c.key.Some?
  {
    c.faults.keyRead && exists row :: KeyRow(s.db, c.key.value, row)
  }

  ghost function UnresolvedPlaces(s: Stores, c: CreateCall): set<nat> {
    set n: nat | n < |c.items| && !Resolves(s.db, c, n)
  }

  ghost function UnaffordedPlaces(s: Stores, c: CreateCall, accounts: seq<Account>): set<nat>
  {
    set n: nat | n < |c.items| && !Affords(s.db, c, accounts, n)
  }

  /** The request passes every check that comes before the stores are touched. */
  ghost predicate Passes(s: Stores, c: CreateCall) {
    && WellFormed(c) && !KeyKnown(s, c)
    && UnresolvedPlaces(s, c) == {}
    && c.faults.ledger.Ok? && UnaffordedPlaces(s, c, c.faults.ledger.value) == {}
    && c.faults.connection
  }

  lemma FormExactly(c: CreateCall)
    ensures WellFormed(c) <==> c.items != [] && c.key.Some? && !Blank(c.key.value)
  {
    if c.key.Some? {
      var key := c.key.value;
      if !Blank(key) {
        var x :| x in key && x != ' ' && x != '\t';
        var i :| 0 <= i < |key| && key[i] == x;
      }
      assert forall i | 0 <= i < |key| :: key[i] in key;
    }
  }

  lemma KnownExactly(s: Stores, c: CreateCall)
    requires c.key.Some?
    ensures KeyKnown(s, c) <==> c.faults.keyRead && FindByKey(s.db.configs, c.key.value).Some?
    ensures KeyKnown(s, c) ==> KeyRow(s.db, c.key.value, FindByKey(s.db.configs, c.key.value).value)
  {
    var found := FindByKey(s.db.configs, c.key.value);
    if found.Some? {
      assert KeyRow(s.db, c.key.value, found.value);
    }
  }

  lemma UnresolvedExactly(s: Stores, c: CreateCall)
    ensures Names(Unresolved(s.db, c.user, c.items, c.faults.lostReads), ProvidersOf(c.items), UnresolvedPlaces(s, c))
    ensures Unresolved(s.db, c.user, c.items, c.faults.lostReads) == [] <==> UnresolvedPlaces(s, c) == {}
  {
    hide Names, Unresolved;
    UnresolvedNames(s.db, c.user, c.items, c.faults.lostReads, UnresolvedPlaces(s, c));
    NoneChosen(Unresolved(s.db, c.user, c.items, c.faults.lostReads), ProvidersOf(c.items), UnresolvedPlaces(s, c));
    assert UnresolvedPlaces(s, c) == {} <==> forall n: nat | n < |c.items| :: n !in UnresolvedPlaces(s, c);
  }

  /** Whichever items resolve, those are the ones looked up in the ledger, in order. */
  lemma ResolvedExactly(s: Stores, c: CreateCall, all: seq<ItemData>)
    requires |all| == |c.items|
    requires forall n: nat | n < |c.items| && Resolves(s.db, c, n) :: ResolvesTo(s.db, c.user, c.items[n], all[n])
    ensures var places := set n: nat | n < |c.items| && Resolves(s.db, c, n);
            Names(Resolved(s.db, c.user, c.items, c.faults.lostReads), all, places)
  {
    hide Names, Resolved;
    var places := set n: nat | n < |c.items| && Resolves(s.db, c, n);
    assert forall n: nat | n < |c.items| :: n in places <==> Resolves(s.db, c, n);
    ResolvedNames(s.db, c.user, c.items, c.faults.lostReads, all, places);
  }

  lemma UnfundedExactly(s: Stores, c: CreateCall, accounts: seq<Account>)
    requires UnresolvedPlaces(s, c) == {}
    ensures var unfunded := Unfunded(AccountsMap(accounts), Resolved(s.db, c.user, c.items, c.faults.lostReads));
            && Names(unfunded, ProvidersOf(c.items), UnaffordedPlaces(s, c, accounts))
            && (unfunded == [] <==> UnaffordedPlaces(s, c, accounts) == {})
  {
    hide Names, Unresolved, Resolved, Unfunded, HasFunds, AccountsMap;
    UnresolvedExactly(s, c);
    ResolvedMatches(s.db, c.user, c.items, c.faults.lostReads);
    var data := Resolved(s.db, c.user, c.items, c.faults.lostReads);
    var places := UnaffordedPlaces(s, c, accounts);
    forall n: nat | n < |data|
      ensures n in places <==> !HasFunds(accounts, data[n].userLedgerAccount, data[n].maxAmount)
      ensures data[n].providerId == c.items[n].providerId
    {
      assert n !in UnresolvedPlaces(s, c) && Resolves(s.db, c, n);
      assert Linked(s.db, c.user, c.items[n].providerId)
             == Some((data[n].userLedgerAccount, data[n].providerLedgerAccount));
    }
    UnfundedNames(accounts, data, places);
    assert ProvidersOfData(data) == ProvidersOf(c.items);
    NoneChosen(Unfunded(AccountsMap(accounts), data), ProvidersOf(c.items), places);
    assert places == {} <==> forall n: nat | n < |c.items| :: n !in places;
  }

  lemma PassesExactly(s: Stores, c: CreateCall)
    ensures Passes(s, c) <==> ReachesDeletion(s, c)
  {
    hide Blank, WellFormed, KeyKnown, FindByKey, Unresolved, Resolved, Unfunded, AccountsMap, UnresolvedPlaces,
        UnaffordedPlaces, Names;
    FormExactly(c);
    UnresolvedExactly(s, c);
    if c.key.Some? {
      KnownExactly(s, c);
    }
    if UnresolvedPlaces(s, c) == {} && c.faults.ledger.Ok? {
      UnfundedExactly(s, c, c.faults.ledger.value);
    }
  }

  /** What the columns and indexes of both tables ask of the new rows. */
  ghost predicate ConstraintsMet(s: Stores, c: CreateCall)
    requires c.key.Some?
  {
    && |c.key.value| <= 255
    && (forall row | row in s.db.configs :: row.id != c.configId && row.idempotencyKey != c.key.value)
    && |c.items| < TWO_31
    && (forall i | 0 <= i < |c.items| :: c.items[i].maxAmount >= 0)
    && (forall i, j | 0 <= i < j < |c.items| :: c.items[i].providerId != c.items[j].providerId)
  }

  /** Every call from the deletion of the cached value on is answered, and the constraints are met. */
  ghost predicate Completes(s: Stores, c: CreateCall)
    requires c.key.Some?
  {
    && c.faults.del == Worked && c.faults.activeRead
    && (HasActive(s.db, c.user) ==> c.faults.cancel == Committed)
    && ConstraintsMet(s, c)
    && c.faults.create == Committed && c.faults.setCache == Worked
  }

  lemma PassesKey(s: Stores, c: CreateCall)
    requires Passes(s, c)
    ensures c.key.Some?
  {
  }

  /**
    Exactly when a creation is answered with a configuration, in the numbers of the request, the rows
    and the ledger: the list and the key are there, no row is known by the key, the user has an account
    with every provider named, what is left on each covers its amount, no call fails, the key fits and is
    new, the id is new, no provider is named twice and no amount is negative.
   */
  lemma CreateSucceedsExactly(s: Stores, c: CreateCall)
    requires DbOk(s.db)
    ensures CreatePriority(s, c).1.CreatedOk? <==> Passes(s, c) && Completes(s, c)
  {
    hide CreatePriority, ReachesDeletion, Passes, GetActive, HasActive, DbOk;
    CreateSucceedsWhen(s, c);
    PassesExactly(s, c);
    GetActiveExactly(s.db, c.user);
    if Passes(s, c) {
      assert c.key.Some? by { PassesKey(s, c); }
      assert NothingFails(s, c) <==> Completes(s, c);
    }
  }

  lemma ReplaceAnswers(s: Stores, c: CreateCall, data: seq<ItemData>)
    requires c.key.Some?
    ensures Replace(s, c, data).1 == Internal || Replace(s, c, data).1.CreatedOk?
  {
    hide GetActive, CreateTx, Cancel, ItemsQuery;
  }

  /**
    The other answers of a creation: 400 for a request that is not well formed; the configuration of a
    known key, as it stands and with exactly its items; 422 with the providers that are not linked, or,
    when all are, with those short of funds, in order and once each. None of these touches a store.
   */
  lemma CreateAnswersExactly(s: Stores, c: CreateCall)
    requires DbOk(s.db)
    ensures var (t, r) := CreatePriority(s, c);
            && (r == BadRequest <==> !WellFormed(c))
            && (r.Idempotent? <==> WellFormed(c) && KeyKnown(s, c))
            && (r.Idempotent? ==>
                  KeyRow(s.db, c.key.value, r.details.config) && ItemsAre(s.db, r.details.config.id, r.details.items))
            && (r.Unprocessable? <==>
                  && WellFormed(c) && !KeyKnown(s, c)
                  && (UnresolvedPlaces(s, c) == {} ==>
                        c.faults.ledger.Ok? && UnaffordedPlaces(s, c, c.faults.ledger.value) != {}))
            && (r.Unprocessable? ==>
                  Names(r.providers, ProvidersOf(c.items),
                        if UnresolvedPlaces(s, c) != {} then UnresolvedPlaces(s, c)
                        else UnaffordedPlaces(s, c, c.faults.ledger.value)))
            && (!Passes(s, c) ==> t == s)
  {
    hide DbOk, Blank, FindByKey, Unresolved, Resolved, Unfunded, AccountsMap, UnresolvedPlaces, UnaffordedPlaces,
        Names, ItemsAre;
    hide WellFormed, KeyKnown, KeyRow, ItemsQuery, Replace;
    FormExactly(c);
    UnresolvedExactly(s, c);
    PassesExactly(s, c);
    if c.key.Some? {
      KnownExactly(s, c);
      var found := FindByKey(s.db.configs, c.key.value);
      if found.Some? {
        ItemsQueryExactly(s.db, found.value.id);
      }
      ReplaceAnswers(s, c, Resolved(s.db, c.user, c.items, c.faults.lostReads));
    }
    if UnresolvedPlaces(s, c) == {} && c.faults.ledger.Ok? {
      UnfundedExactly(s, c, c.faults.ledger.value);
    }
  }

  // What a creation leaves

  /** The k-th new item row is the k-th item asked for, numbered from 1, with the user's account at its provider. */
  ghost predicate AskedFor(db: Db, c: CreateCall, k: nat, row: Item)
    requires k < |c.items|
  {
    var asked := c.items[k];
    && (c.user, asked.providerId) in db.accounts && row.order == k + 1
    && row == Item(c.configId, asked.providerId, db.accounts[(c.user, asked.providerId)], row.order, asked.usage,
                   asked.maxAmount, false)
  }

  ghost predicate AllAskedFor(db: Db, c: CreateCall, rows: seq<Item>) {
    |rows| == |c.items| && forall k | 0 <= k < |rows| :: AskedFor(db, c, k, rows[k])
  }

  /** The tables after a creation: the old active row is cancelled, the new row and its items stand at the end. */
  ghost predicate CreatedIn(db: Db, db': Db, c: CreateCall)
    requires c.key.Some?
  {
    && |db'.configs| == |db.configs| + 1
    && db' == db.(configs := db'.configs, items := db'.items)
    && CancelledIn(db, db.(configs := db'.configs[..|db.configs|]), c.user)
    && db'.configs[|db.configs|] == Config(c.configId, c.user, c.key.value, ACTIVE, c.expiresAt, false)
    && db.items <= db'.items
    && AllAskedFor(db, c, db'.items[|db.items|..])
  }

  lemma CancelTwice(configs: seq<Config>, user: Uuid)
    ensures CancelRows(CancelRows(configs, user), user) == CancelRows(configs, user)
  {
  }

  ghost predicate AllowedHere(items: seq<ItemRequest>) {
    && |items| < TWO_31
    && (forall i | 0 <= i < |items| :: items[i].maxAmount >= 0)
    && (forall i, j | 0 <= i < j < |items| :: items[i].providerId != items[j].providerId)
  }

  lemma AllowedExactly(items: seq<ItemRequest>)
    ensures ItemsAllowed(items) <==> AllowedHere(items)
  {
  }

  lemma SmallOrder(k: nat)
    requires k + 1 < TWO_31
    ensures WrapI32(k + 1) == k + 1
  {
  }

  lemma NewRowsFor(s: Stores, c: CreateCall, k: nat)
    requires DbOk(s.db) && ReachesDeletion(s, c) && |c.items| < TWO_31 && k < |c.items|
    ensures var rows := Rows(c.configId, Resolved(s.db, c.user, c.items, c.faults.lostReads));
            |rows| == |c.items| && AskedFor(s.db, c, k, rows[k])
  {
    hide DbOk, Resolved, Unresolved, Unfunded, AccountsMap, FindByKey, Blank;
    ResolvedMatches(s.db, c.user, c.items, c.faults.lostReads);
    var data := Resolved(s.db, c.user, c.items, c.faults.lostReads);
    assert Linked(s.db, c.user, c.items[k].providerId)
           == Some((data[k].userLedgerAccount, data[k].providerLedgerAccount));
    assert Rows(c.configId, data)[k] == ItemRow(c.configId, data[k], k);
    SmallOrder(k);
  }

  lemma CreateTxWhen(s: Stores, c: CreateCall, db2: Db)
    requires DbOk(s.db) && DbOk(db2) && ReachesDeletion(s, c) && (db2 == s.db || db2 == Cancel(s.db, c.user))
    ensures var data := Resolved(s.db, c.user, c.items, c.faults.lostReads);
            CreateTx(db2, c.key.value, c.user, data, c.expiresAt, c.configId).Some? <==> ConstraintsMet(s, c)
  {
    hide DbOk, CreateTx, Resolved, Unresolved, Unfunded, Insertable, ItemsAllowed, Cancel, AccountsMap, FindByKey;
    var data := Resolved(s.db, c.user, c.items, c.faults.lostReads);
    ResolvedInsertable(s.db, c.user, c.items, c.faults.lostReads);
    SameKeys(s.db, c.user, c.configId, c.key.value);
    CancelOnlyConfigs(s.db, c.user);
    CreateTxExactly(db2, c.key.value, c.user, data, c.expiresAt, c.configId);
    AllowedExactly(c.items);
  }

  lemma CreateTxLeaves(s: Stores, c: CreateCall, db2: Db)
    requires DbOk(s.db) && DbOk(db2) && ReachesDeletion(s, c) && (db2 == s.db || db2 == Cancel(s.db, c.user))
    ensures var data := Resolved(s.db, c.user, c.items, c.faults.lostReads);
            var tx := CreateTx(db2, c.key.value, c.user, data, c.expiresAt, c.configId);
            && (tx.Some? <==> ConstraintsMet(s, c))
            && (tx.Some? ==> CreatedIn(s.db, tx.value, c))
  {
    hide DbOk, CreateTx, Resolved, Unresolved, Unfunded, Insertable, CancelRows, CancelledIn, AccountsMap, FindByKey,
        AskedFor;
    var data := Resolved(s.db, c.user, c.items, c.faults.lostReads);
    CreateTxWhen(s, c, db2);
    CreateTxExactly(db2, c.key.value, c.user, data, c.expiresAt, c.configId);
    CancelTwice(s.db.configs, c.user);
    CancelExactly(s.db, c.user);
    CancelSize(s.db, c.user);
    var tx := CreateTx(db2, c.key.value, c.user, data, c.expiresAt, c.configId);
    if tx.Some? {
      var cancelled, rows := CancelRows(s.db.configs, c.user), Rows(c.configId, data);
      hide Rows;
      assert tx.value.configs[..|s.db.configs|] == cancelled;
      assert c.items != [];
      NewRowsFor(s, c, 0);
      forall k | 0 <= k < |rows|
        ensures AskedFor(s.db, c, k, rows[k])
      {
        NewRowsFor(s, c, k);
      }
      assert tx.value.items[|s.db.items|..] == rows;
    }
  }

  /**
    What a creation leaves in both stores, wherever a fault cuts it off. Each condition is the one the
    step before it left standing: the deletion worked, the active configuration was read, its cancellation
    was confirmed, the constraints are met, the commit was confirmed.
   */
  lemma CreateLeavesExactly(s: Stores, c: CreateCall)
    requires DbOk(s.db)
    ensures var t, f := CreatePriority(s, c).0, c.faults;
            var comes := Passes(s, c) && f.del == Worked && f.activeRead;
            var cancels := comes && HasActive(s.db, c.user) && f.cancel != Aborted;
            var inserts := comes && (HasActive(s.db, c.user) ==> f.cancel == Committed)
                           && c.key.Some? && ConstraintsMet(s, c) && f.create != Aborted;
            && (inserts ==> CreatedIn(s.db, t.db, c))
            && (!inserts && cancels ==> CancelledIn(s.db, t.db, c.user))
            && (!inserts && !cancels ==> t.db == s.db)
            && (if inserts && f.create == Committed && f.setCache != Failed(false) then
                  && c.user in t.cache
                  && GetActive(t.db, c.user) == Some(t.cache[c.user].details)
                  && t.cache[c.user].ttl == Ttl(c.expiresAt, c.time)
                  && CacheAfter(s, t.(cache := t.cache - {c.user}), c.user, true)
                else CacheAfter(s, t, c.user, Passes(s, c) && f.del != Failed(false)))
  {
    hide DbOk, Cancel, CreateTx, GetActive, FindByKey, Resolved, Unresolved, Unfunded, AccountsMap, ItemsQuery, Ttl,
        Blank;
    hide Passes, HasActive, ConstraintsMet, CreatedIn, CancelledIn;
    PassesExactly(s, c);
    GetActiveExactly(s.db, c.user);
    if Passes(s, c) {
      assert c.key.Some? by { PassesKey(s, c); }
      var data := Resolved(s.db, c.user, c.items, c.faults.lostReads);
      var db2 := if GetActive(s.db, c.user).Some? then Cancel(s.db, c.user) else s.db;
      CancelDbKeeps(s.db, c.user);
      CancelExactly(s.db, c.user);
      CreateTxLeaves(s, c, db2);
      if CreateTx(db2, c.key.value, c.user, data, c.expiresAt, c.configId).Some? {
        NewestIsActive(db2, c.key.value, c.user, data, c.expiresAt, c.configId);
      }
    }
  }

  /**
    A provider or an account created elsewhere is there afterwards, as it was if it was there before;
    nothing else changes.
   */
  lemma AddLinkExactly(s: Stores, user: Uuid, provider: Uuid, row: ProviderTerms, account: Uuid)
    ensures var t := Act(s, LinkOp(user, provider, row, account));
            && t.cache == s.cache && t.db.configs == s.db.configs && t.db.items == s.db.items
            && (forall id: Uuid :: id in t.db.providers <==> id in s.db.providers || id == provider)
            && (forall id | id in t.db.providers ::
                  t.db.providers[id] == if id in s.db.providers then s.db.providers[id] else row)
            && (forall pair: (Uuid, Uuid) ::
                  pair in t.db.accounts <==> pair in s.db.accounts || pair == (user, provider))
            && (forall pair | pair in t.db.accounts ::
                  t.db.accounts[pair] == if pair in s.db.accounts then s.db.accounts[pair] else account)
  {
  }

  // Times

  /** The time to live of a cached value: whole seconds up to the expiry, if there is at least one; none otherwise. */
  lemma TtlExactly(expiresAt: Option<int>, time: int)
    ensures Ttl(expiresAt, time).None? <==> expiresAt.None? || expiresAt.value - time < 1000
    ensures Ttl(expiresAt, time).Some? ==>
              var left, ttl := expiresAt.value - time, Ttl(expiresAt, time).value;
              ttl >= 1 && ttl * 1000 <= left < (ttl + 1) * 1000
  {
  }
}
