/**
  Priority configurations: the two tables, their indexes and checks, the cached copy of the
  active configuration, and the handlers that keep them in step. Every call to a store that
  can fail takes its outcome from a record of faults.
 */
module Priority {
  import opened Wrappers
  import opened Numbers
  import opened Uuids
  import opened Ledgers
  import opened WorkerSpec
  import opened StoreCalls

  datatype Status = ACTIVE | CONSUMED | EXPIRED | CANCELLED
  datatype Usage = SingleUse | MultiUse

  datatype Config = Config(
    id: Uuid, userId: Uuid, idempotencyKey: string, status: Status, expiresAt: Option<int>, isDeleted: bool)

  datatype Item = Item(
    configId: Uuid, providerId: Uuid, ledgerAccount: Uuid, order: i32, usage: Usage, maxAmount: i64, isDeleted: bool)

  datatype ProviderTerms = ProviderTerms(ledgerAccount: Uuid, feeRateBps: i32, fixedFee: i64)

  datatype Db = Db(
    configs: seq<Config>, items: seq<Item>,
    providers: map<Uuid, ProviderTerms>,
    accounts: map<(Uuid, Uuid), Uuid>)  // the linked account of a user with a provider

  /** A configuration with its items, as the API returns it and as the cache stores it. */
  datatype ItemDetails = ItemDetails(
    providerId: Uuid, userLedgerAccount: Uuid, providerLedgerAccount: Uuid, order: i32,
    usage: Usage, maxAmount: i64, feeRateBps: i32, fixedFee: i64)
  datatype Details = Details(config: Config, items: seq<ItemDetails>)

  /** A cached value, with the time to live in seconds it was set with. */
  datatype Cached = Cached(details: Details, ttl: Option<nat>)

  datatype Stores = Stores(db: Db, cache: map<Uuid, Cached>)

  // Reads

  /** Rows of one configuration, in table order. */
  function SelectItems(items: seq<Item>, configId: Uuid): seq<Item> {
    if items == [] then []
    else
      var before := SelectItems(items[..|items| - 1], configId);
      var last := items[|items| - 1];
      if last.configId == configId && !last.isDeleted then before + [last] else before
  }

  function InsertByOrder(sorted: seq<Item>, item: Item): seq<Item> {
    if sorted == [] || sorted[|sorted| - 1].order <= item.order then sorted + [item]
    else InsertByOrder(sorted[..|sorted| - 1], item) + [sorted[|sorted| - 1]]
  }

  /** ORDER BY priority_order ASC. */
  function SortByOrder(items: seq<Item>): seq<Item> {
    if items == [] then [] else InsertByOrder(SortByOrder(items[..|items| - 1]), items[|items| - 1])
  }

  /** JOIN providers: each item with its provider's ledger account and fees. */
  function JoinProviders(items: seq<Item>, providers: map<Uuid, ProviderTerms>): seq<ItemDetails> {
    if items == [] then []
    else
      var before := JoinProviders(items[..|items| - 1], providers);
      var i := items[|items| - 1];
      if i.providerId in providers then
        var p := providers[i.providerId];
        before + [ItemDetails(i.providerId, i.ledgerAccount, p.ledgerAccount, i.order, i.usage, i.maxAmount,
                              p.feeRateBps, p.fixedFee)]
      else before
  }

  function ItemsQuery(db: Db, configId: Uuid): seq<ItemDetails> {
    JoinProviders(SortByOrder(SelectItems(db.items, configId)), db.providers)
  }

  predicate IsActiveOf(c: Config, user: Uuid) {
    c.userId == user && c.status == ACTIVE && !c.isDeleted
  }

  function FindActive(configs: seq<Config>, user: Uuid): (r: Option<Config>)
    ensures r.Some? ==> r.value in configs && IsActiveOf(r.value, user)
    ensures r.None? ==> forall c | c in configs :: !IsActiveOf(c, user)
  {
    if configs == [] then None
    else if IsActiveOf(configs[|configs| - 1], user) then Some(configs[|configs| - 1])
    else FindActive(configs[..|configs| - 1], user)
  }

  function FindByKey(configs: seq<Config>, key: string): (r: Option<Config>)
    ensures r.Some? ==> r.value in configs && r.value.idempotencyKey == key && !r.value.isDeleted
    ensures r.None? ==> forall c | c in configs :: c.idempotencyKey == key ==> c.isDeleted
  {
    if configs == [] then None
    else if configs[0].idempotencyKey == key && !configs[0].isDeleted then Some(configs[0])
    else FindByKey(configs[1..], key)
  }

  function DetailsOf(db: Db, c: Config): Details {
    Details(c, ItemsQuery(db, c.id))
  }

  /** `get_active_priority_config`. */
  function GetActive(db: Db, user: Uuid): Option<Details> {
    match FindActive(db.configs, user)
    case Some(c) => Some(DetailsOf(db, c))
    case None => None
  }

  // Writes

  /** UPDATE ... SET status = 'CANCELLED' over the user's active rows. */
  function CancelRows(configs: seq<Config>, user: Uuid): (r: seq<Config>)
    ensures |r| == |configs|
    ensures forall i | 0 <= i < |r| ::
              r[i] == if IsActiveOf(configs[i], user) then configs[i].(status := CANCELLED) else configs[i]
  {
    seq(|configs|, i requires 0 <= i < |configs| =>
      if IsActiveOf(configs[i], user) then configs[i].(status := CANCELLED) else configs[i])
  }

  function Cancel(db: Db, user: Uuid): Db {
    db.(configs := CancelRows(db.configs, user))
  }

  const KEY_LENGTH := 255  // user_priority_configs.idempotency_key VARCHAR(255)

  /** The width of the key, the primary key, the unique idempotency key, and one ACTIVE row a user, deleted or not. */
  predicate ConfigAdmitted(configs: seq<Config>, row: Config) {
    |row.idempotencyKey| <= KEY_LENGTH && forall c | c in configs ::
      && c.id != row.id
      && c.idempotencyKey != row.idempotencyKey
      && !(c.status == ACTIVE && row.status == ACTIVE && c.userId == row.userId)
  }

  /** The foreign key, the two checks and the two unique constraints of an item. */
  predicate ItemAdmitted(items: seq<Item>, providers: map<Uuid, ProviderTerms>, row: Item) {
    && row.providerId in providers
    && row.order > 0
    && row.maxAmount >= 0
    && forall i | i in items && i.configId == row.configId :: i.providerId != row.providerId && i.order != row.order
  }

  datatype ItemData = ItemData(
    providerId: Uuid, usage: Usage, maxAmount: i64, userLedgerAccount: Uuid, providerLedgerAccount: Uuid)

  /** The row of the item at `index`; the order is `(index + 1) as i32`. */
  function ItemRow(configId: Uuid, data: ItemData, index: nat): Item {
    Item(configId, data.providerId, data.userLedgerAccount, WrapI32(index + 1), data.usage, data.maxAmount, false)
  }

  /** Inserts the items one by one; None when a constraint stops one of them. */
  function InsertItems(items: seq<Item>, providers: map<Uuid, ProviderTerms>, configId: Uuid,
          data: seq<ItemData>): Option<seq<Item>>
  {
    if data == [] then Some(items)
    else
      var n := |data| - 1;
      match InsertItems(items, providers, configId, data[..n])
      case None => None
      case Some(before) =>
        var row := ItemRow(configId, data[n], n);
        if ItemAdmitted(before, providers, row) then Some(before + [row]) else None
  }

  /** `create_priority_config`: cancel, insert the configuration, insert its items; all or nothing. */
  function CreateTx(db: Db, key: string, user: Uuid, data: seq<ItemData>, expiresAt: Option<int>,
          configId: Uuid): Option<Db>
  {
    var cancelled := CancelRows(db.configs, user);
    var row := Config(configId, user, key, ACTIVE, expiresAt, false);
    if !ConfigAdmitted(cancelled, row) then None
    else
      match InsertItems(db.items, db.providers, configId, data)
      case None => None
      case Some(items) => Some(db.(configs := cancelled + [row], items := items))
  }

  // Handlers

  datatype ItemRequest = ItemRequest(providerId: Uuid, maxAmount: i64, usage: Usage)

  /** How each fallible call of a handler ends. */
  datatype Faults = Faults(
    keyRead: bool, lostReads: set<nat>, ledger: Result<seq<Account>>, connection: bool,
    del: CacheOutcome, activeRead: bool, cancel: Commit, create: Commit, setCache: CacheOutcome)

  datatype CreateCall = CreateCall(
    user: Uuid, key: Option<string>, items: seq<ItemRequest>, expiresAt: Option<int>,
    configId: Uuid, time: int, faults: Faults)

  datatype CreateResult =
    | BadRequest
    | Idempotent(details: Details)
    | Unprocessable(providers: seq<Uuid>)
    | Internal
    | CreatedOk(details: Details)

  /** `key.trim().is_empty()` on a header value, whose only blanks are spaces and tabs. */
  predicate Blank(key: string) {
    forall c | c in key :: c == ' ' || c == '\t'
  }

  /** `get_user_provider_details`, as far as this handler reads it: the user's and the provider's ledger accounts. */
  function Linked(db: Db, user: Uuid, provider: Uuid): Option<(Uuid, Uuid)> {
    if (user, provider) in db.accounts && provider in db.providers then
      Some((db.accounts[(user, provider)], db.providers[provider].ledgerAccount))
    else None
  }

  /** The items whose providers are linked, with both ledger accounts, in order. */
  function Resolved(db: Db, user: Uuid, items: seq<ItemRequest>, lost: set<nat>): seq<ItemData> {
    if items == [] then []
    else
      var n := |items| - 1;
      var before := Resolved(db, user, items[..n], lost);
      var link := Linked(db, user, items[n].providerId);
      if n !in lost && link.Some? then
        before + [ItemData(items[n].providerId, items[n].usage, items[n].maxAmount, link.value.0, link.value.1)]
      else before
  }

  /** The providers that are not linked or whose reads were lost, in order. */
  function Unresolved(db: Db, user: Uuid, items: seq<ItemRequest>, lost: set<nat>): seq<Uuid> {
    if items == [] then []
    else
      var n := |items| - 1;
      var before := Unresolved(db, user, items[..n], lost);
      if n !in lost && Linked(db, user, items[n].providerId).Some? then before else before + [items[n].providerId]
  }

  /** `collect()` of (id, account) pairs into a hash map: the last entry for an id stays. */
  function AccountsMap(accounts: seq<Account>): map<u128, Account> {
    if accounts == [] then map[]
    else
      var a := accounts[|accounts| - 1];
      AccountsMap(accounts[..|accounts| - 1])[a.id := a]
  }

  /** `credits_posted.saturating_sub(debits_posted) as i64`. */
  function Available(a: Account): i64 {
    WrapI64(if a.debitsPosted <= a.creditsPosted then a.creditsPosted - a.debitsPosted else 0)
  }

  predicate Funded(found: map<u128, Account>, data: ItemData) {
    var id := AsU128(data.userLedgerAccount);
    id in found && Available(found[id]) >= data.maxAmount
  }

  /** The providers whose account is missing or does not cover the amount, in order. */
  function Unfunded(found: map<u128, Account>, data: seq<ItemData>): seq<Uuid> {
    if data == [] then []
    else
      var n := |data| - 1;
      var before := Unfunded(found, data[..n]);
      if Funded(found, data[n]) then before else before + [data[n].providerId]
  }

  function Forget(s: Stores, user: Uuid, o: CacheOutcome): Stores {
    if o == Failed(false) then s else s.(cache := s.cache - {user})
  }

  /** Whole seconds of a duration in milliseconds, rounded toward zero. */
  function WholeSeconds(ms: int): int {
    if ms >= 0 then ms / 1000 else -(-ms / 1000)
  }

  function Ttl(expiresAt: Option<int>, time: int): Option<nat> {
    match expiresAt
    case Some(e) => if WholeSeconds(e - time) > 0 then Some(WholeSeconds(e - time)) else None
    case None => None
  }

  /** From the deletion of the cached value to its replacement. */
  function Replace(s: Stores, c: CreateCall, data: seq<ItemData>): (Stores, CreateResult)
    requires c.key.Some?
  {
    var f := c.faults;
    var s1 := Forget(s, c.user, f.del);
    if f.del != Worked || !f.activeRead then (s1, Internal)
    else
      var hasActive := GetActive(s.db, c.user).Some?;
      var s2 := if hasActive && f.cancel != Aborted then s1.(db := Cancel(s.db, c.user)) else s1;
      if hasActive && f.cancel != Committed then (s2, Internal)
      else
        match CreateTx(s2.db, c.key.value, c.user, data, c.expiresAt, c.configId)
        case None => (s2, Internal)
        case Some(db) =>
          if f.create == Aborted then (s2, Internal)
          else
            var s3 := s2.(db := db);
            if f.create == ConfirmationLost then (s3, Internal)
            else
              var details := Details(db.configs[|db.configs| - 1], ItemsQuery(db, c.configId));
              var s4 := if f.setCache == Failed(false) then s3
                        else s3.(cache := s3.cache[c.user := Cached(details, Ttl(c.expiresAt, c.time))]);
              (s4, if f.setCache == Worked then CreatedOk(details) else Internal)
  }

  /** `create_user_priority`. */
  function CreatePriority(s: Stores, c: CreateCall): (Stores, CreateResult) {
    if c.items == [] || c.key.None? || Blank(c.key.value) then (s, BadRequest)
    else
      var existing := FindByKey(s.db.configs, c.key.value);
      if c.faults.keyRead && existing.Some? then (s, Idempotent(DetailsOf(s.db, existing.value)))
      else
        var data := Resolved(s.db, c.user, c.items, c.faults.lostReads);
        var unresolved := Unresolved(s.db, c.user, c.items, c.faults.lostReads);
        if unresolved != [] then (s, Unprocessable(unresolved))
        else if c.faults.ledger.Err? then (s, Internal)
        else
          var unfunded := Unfunded(AccountsMap(c.faults.ledger.value), data);
          if unfunded != [] then (s, Unprocessable(unfunded))
          else if !c.faults.connection then (s, Internal)
          else Replace(s, c, data)
  }

  datatype CancelResult = Cancelled(details: Details) | NothingToCancel | CancelFailed

  /** `cancel_active_user_priority`: the database first, then the cached value. */
  function CancelPriority(s: Stores, user: Uuid, cancel: Commit, del: CacheOutcome): (Stores, CancelResult) {
    match GetActive(s.db, user)
    case None => (s, if cancel == Committed then NothingToCancel else CancelFailed)
    case Some(d) =>
      if cancel == Aborted then (s, CancelFailed)
      else
        var s1 := s.(db := Cancel(s.db, user));
        if cancel == ConfirmationLost then (s1, CancelFailed)
        else
          (Forget(s1, user, del),
           if del == Worked then Cancelled(d.(config := d.config.(status := CANCELLED))) else CancelFailed)
  }

  predicate Contains(d: Details, provider: Uuid) {
    exists i | 0 <= i < |d.items| :: d.items[i].providerId == provider
  }

  /**
    The step of `debit_user` that cancels an active priority through the debited provider; true when the
    debit goes on.
   */
  function ClearForDebit(s: Stores, user: Uuid, provider: Uuid, activeRead: bool, cancel: Commit,
          del: CacheOutcome): (Stores, bool)
  {
    if !activeRead then (s, false)
    else
      match GetActive(s.db, user)
      case None => (s, true)
      case Some(d) =>
        if !Contains(d, provider) then (s, true)
        else if cancel == Aborted then (s, false)
        else
          var s1 := s.(db := Cancel(s.db, user));
          if cancel == ConfirmationLost then (s1, false)
          else (Forget(s1, user, del), true)
  }

  datatype PriorityOp =
    | CreateOp(call: CreateCall)
    | CancelOp(user: Uuid, cancel: Commit, del: CacheOutcome)
    | DebitOp(user: Uuid, provider: Uuid, activeRead: bool, cancel: Commit, del: CacheOutcome)
    | ExpireOp(user: Uuid)  // a time to live runs out, or the cache evicts the value
    // a provider or an account is created elsewhere
    | LinkOp(user: Uuid, provider: Uuid, row: ProviderTerms, account: Uuid)

  /** Rows that exist are not changed by the other handlers. */
  function AddLink(db: Db, user: Uuid, provider: Uuid, row: ProviderTerms, account: Uuid): Db {
    db.(providers := if provider in db.providers then db.providers else db.providers[provider := row],
        accounts := if (user, provider) in db.accounts then db.accounts else db.accounts[(user, provider) := account])
  }

  function Act(s: Stores, op: PriorityOp): Stores {
    match op
    case CreateOp(call) => CreatePriority(s, call).0
    case CancelOp(user, cancel, del) => CancelPriority(s, user, cancel, del).0
    case DebitOp(user, provider, activeRead, cancel, del) => ClearForDebit(s, user, provider, activeRead, cancel, del).0
    case ExpireOp(user) => Forget(s, user, Worked)
    case LinkOp(user, provider, row, account) => s.(db := AddLink(s.db, user, provider, row, account))
  }

  const EMPTY_STORES := Stores(Db([], [], map[], map[]), map[])

  function ActAll(s: Stores, ops: seq<PriorityOp>): Stores {
    if ops == [] then s else Act(ActAll(s, ops[..|ops| - 1]), ops[|ops| - 1])
  }
}
