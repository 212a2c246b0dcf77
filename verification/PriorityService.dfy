/**
  The priority handlers and their repository in the form of their source: loops that push onto
  lists, and stores changed in order. Each method takes the stores from one state to the state
  that `Priority` prescribes.
 */
module PriorityHandlers {
  import opened Wrappers
  import opened Numbers
  import opened Uuids
  import opened Ledgers
  import opened WorkerSpec
  import opened StoreCalls
  import opened Priority

  datatype DbResult = DbFailed | DbNone | DbSome(details: Details)

  /** A stopped insert stops the whole list. */
  lemma {:induction false} InsertStops(items: seq<Item>, providers: map<Uuid, ProviderTerms>, configId: Uuid,
          data: seq<ItemData>, n: nat)
    requires n <= |data| && InsertItems(items, providers, configId, data[..n]).None?
    ensures InsertItems(items, providers, configId, data).None?
    decreases |data| - n
  {
    if n < |data| {
      assert data[..n + 1][..n] == data[..n];
      InsertStops(items, providers, configId, data, n + 1);
    } else {
      assert data[..n] == data;
    }
  }

  lemma LastConfig(db: Db, key: string, user: Uuid, data: seq<ItemData>, expiresAt: Option<int>, id: Uuid)
    ensures var tx := CreateTx(db, key, user, data, expiresAt, id);
            tx.Some? ==> tx.value.configs != []
                         && tx.value.configs[|tx.value.configs| - 1] == Config(id, user, key, ACTIVE, expiresAt, false)
  {
    hide InsertItems, ConfigAdmitted;
  }

  class PriorityService {
    var configs: seq<Config>
    var items: seq<Item>
    var providers: map<Uuid, ProviderTerms>
    var accounts: map<(Uuid, Uuid), Uuid>
    var cache: map<Uuid, Cached>

    function Database(): Db
      reads this
    {
      Db(configs, items, providers, accounts)
    }

    ghost function Now(): Stores
      reads this
    {
      Stores(Database(), cache)
    }

    constructor ()
      ensures Now() == EMPTY_STORES
    {
      configs, items, providers, accounts, cache := [], [], map[], map[], map[];
    }

    /** A provider or the account of a user with it is created elsewhere. */
    method InsertLink(user: Uuid, provider: Uuid, row: ProviderTerms, account: Uuid)
      modifies this`providers, this`accounts
      ensures Now() == old(Now()).(db := AddLink(old(Database()), user, provider, row, account))
    {
      if provider !in providers {
        providers := providers[provider := row];
      }
      if (user, provider) !in accounts {
        accounts := accounts[(user, provider) := account];
      }
    }

    /** The time to live of a cached value runs out, or the cache evicts it. */
    method Expire(user: Uuid)
      modifies this`cache
      ensures Now() == Forget(old(Now()), user, Worked)
    {
      cache := cache - {user};
    }

    // Repository

    method CreatePriorityConfig(key: string, user: Uuid, data: seq<ItemData>, expiresAt: Option<int>, configId: Uuid,
            end: Commit)
      returns (r: DbResult)
      modifies this`configs, this`items
      ensures var tx := CreateTx(old(Database()), key, user, data, expiresAt, configId);
              && Database() == (if tx.Some? && end != Aborted then tx.value else old(Database()))
              && r == if tx.Some? && end == Committed
                      then DbSome(Details(Config(configId, user, key, ACTIVE, expiresAt, false),
                                          ItemsQuery(tx.value, configId)))
                      else DbFailed
    {
      var configs0, items0 := configs, items;  // what a rollback restores
      configs := CancelRows(configs, user);
      var row := Config(configId, user, key, ACTIVE, expiresAt, false);
      if !ConfigAdmitted(configs, row) {
        configs := configs0;
        return DbFailed;
      }
      configs := configs + [row];
      var index := 0;
      while index < |data|
        invariant 0 <= index <= |data|
        invariant configs == CancelRows(configs0, user) + [row]
        invariant InsertItems(items0, providers, configId, data[..index]) == Some(items)
      {
        var item := ItemRow(configId, data[index], index);
        assert data[..index + 1][..index] == data[..index];
        if !ItemAdmitted(items, providers, item) {
          InsertStops(items0, providers, configId, data, index + 1);
          configs, items := configs0, items0;
          return DbFailed;
        }
        items := items + [item];
        index := index + 1;
      }
      assert data[..index] == data;
      var details := Details(row, ItemsQuery(Database(), configId));
      match end
      case Aborted =>
        configs, items := configs0, items0;
        r := DbFailed;
      case ConfirmationLost => r := DbFailed;
      case Committed => r := DbSome(details);
    }

    method CancelActivePriorityConfig(user: Uuid, end: Commit) returns (r: DbResult)
      modifies this`configs
      ensures var active := GetActive(old(Database()), user);
              && Database() == (if active.Some? && end != Aborted then Cancel(old(Database()), user)
                                else old(Database()))
              && r == if end != Committed then DbFailed
                      else if active.None? then DbNone
                      else DbSome(active.value.(config := active.value.config.(status := CANCELLED)))
    {
      var active := GetActive(Database(), user);
      if active.None? || end == Aborted {
        return if end == Committed then DbNone else DbFailed;
      }
      configs := CancelRows(configs, user);
      r := if end == Committed then DbSome(active.value.(config := active.value.config.(status := CANCELLED)))
           else DbFailed;
    }

    method Delete(user: Uuid, o: CacheOutcome)
      modifies this`cache
      ensures Now() == Forget(old(Now()), user, o)
    {
      if o != Failed(false) {
        cache := cache - {user};
      }
    }

    // Handlers

    /** The loop that resolves the ledger accounts of the requested providers. */
    method ResolveAccounts(user: Uuid, requests: seq<ItemRequest>, lost: set<nat>)
            returns (resolved: seq<ItemData>, errors: seq<Uuid>)
      ensures resolved == Resolved(Database(), user, requests, lost)
      ensures errors == Unresolved(Database(), user, requests, lost)
    {
      resolved, errors := [], [];
      for k := 0 to |requests|
        invariant resolved == Resolved(Database(), user, requests[..k], lost)
        invariant errors == Unresolved(Database(), user, requests[..k], lost)
      {
        var request := requests[k];
        assert requests[..k + 1][..k] == requests[..k];
        var link := if k in lost then None else Linked(Database(), user, request.providerId);
        match link
        case Some((userAccount, providerAccount)) =>
          resolved := resolved + [ItemData(request.providerId, request.usage, request.maxAmount,
                                             userAccount, providerAccount)];
        case None =>
          errors := errors + [request.providerId];
      }
      assert requests[..|requests|] == requests;
    }

    /** The loop that compares each amount with what the ledger account has available. */
    method ValidateFunds(found: map<u128, Account>, data: seq<ItemData>) returns (errors: seq<Uuid>)
      ensures errors == Unfunded(found, data)
    {
      errors := [];
      for k := 0 to |data|
        invariant errors == Unfunded(found, data[..k])
      {
        assert data[..k + 1][..k] == data[..k];
        var id := AsU128(data[k].userLedgerAccount);
        if id in found {
          if Available(found[id]) < data[k].maxAmount {
            errors := errors + [data[k].providerId];
          }
        } else {
          errors := errors + [data[k].providerId];
        }
      }
      assert data[..|data|] == data;
    }

    method CreateUserPriority(c: CreateCall) returns (r: CreateResult)
      modifies this
      ensures (Now(), r) == CreatePriority(old(Now()), c)
    {
      hide Linked, AccountsMap, Unfunded, Resolved, Unresolved, ItemsQuery, FindActive, FindByKey, CancelRows, Ttl,
          InsertItems, ConfigAdmitted;
      if c.items == [] {
        return BadRequest;
      }
      if c.key.None? || Blank(c.key.value) {
        return BadRequest;
      }
      var existing := FindByKey(configs, c.key.value);
      if c.faults.keyRead && existing.Some? {
        return Idempotent(DetailsOf(Database(), existing.value));
      }
      var data, errors := ResolveAccounts(c.user, c.items, c.faults.lostReads);
      if errors != [] {
        return Unprocessable(errors);
      }
      if c.faults.ledger.Err? {
        return Internal;
      }
      errors := ValidateFunds(AccountsMap(c.faults.ledger.value), data);
      if errors != [] {
        return Unprocessable(errors);
      }
      if !c.faults.connection {
        return Internal;
      }
      r := ReplaceActive(c, data);
    }

    /** From the deletion of the cached value on. */
    method ReplaceActive(c: CreateCall, data: seq<ItemData>) returns (r: CreateResult)
      requires c.key.Some?
      modifies this`configs, this`items, this`cache
      ensures (Now(), r) == Replace(old(Now()), c, data)
    {
      hide ItemsQuery, FindActive, CancelRows, Ttl, InsertItems, ConfigAdmitted;
      Delete(c.user, c.faults.del);
      if c.faults.del != Worked || !c.faults.activeRead {
        return Internal;
      }
      if GetActive(Database(), c.user).Some? {
        var cancelled := CancelActivePriorityConfig(c.user, c.faults.cancel);
        if cancelled.DbFailed? {
          return Internal;
        }
      }
      ghost var db := Database();
      var created := CreatePriorityConfig(c.key.value, c.user, data, c.expiresAt, c.configId, c.faults.create);
      if !created.DbSome? {
        return Internal;
      }
      LastConfig(db, c.key.value, c.user, data, c.expiresAt, c.configId);
      if c.faults.setCache != Failed(false) {
        cache := cache[c.user := Cached(created.details, Ttl(c.expiresAt, c.time))];
      }
      r := if c.faults.setCache == Worked then CreatedOk(created.details) else Internal;
    }

    method CancelActiveUserPriority(user: Uuid, cancel: Commit, del: CacheOutcome) returns (r: CancelResult)
      modifies this`configs, this`cache
      ensures (Now(), r) == CancelPriority(old(Now()), user, cancel, del)
    {
      hide ItemsQuery, FindActive, CancelRows;
      var result := CancelActivePriorityConfig(user, cancel);
      match result
      case DbFailed => r := CancelFailed;
      case DbNone => r := NothingToCancel;
      case DbSome(details) =>
        Delete(user, del);
        r := if del == Worked then Cancelled(details) else CancelFailed;
    }

    /** The priority step of `debit_user`: a failed deletion does not stop the debit. */
    method ClearPriorityForDebit(user: Uuid, provider: Uuid, activeRead: bool, cancel: Commit,
            del: CacheOutcome) returns (goesOn: bool)
      modifies this`configs, this`cache
      ensures (Now(), goesOn) == ClearForDebit(old(Now()), user, provider, activeRead, cancel, del)
    {
      hide ItemsQuery, FindActive, CancelRows;
      if !activeRead {
        return false;
      }
      var active := GetActive(Database(), user);
      if active.Some? {
        if Contains(active.value, provider) {
          var result := CancelActivePriorityConfig(user, cancel);
          if result.DbFailed? {
            return false;
          }
          Delete(user, del);
        }
      }
      goesOn := true;
    }
  }
}
