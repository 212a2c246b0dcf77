/** Finding or creating a user, the link to a provider, and the account of that link. */
module Provisioning {
  import opened Wrappers
  import opened Numbers
  import opened Uuids
  import opened StoreCalls

  datatype User = User(id: Uuid, nid: string, metadata: string)
  datatype UserProvider = UserProvider(userId: Uuid, providerId: Uuid, metadata: string)
  datatype UserAccount = UserAccount(id: Uuid, userId: Uuid, providerId: Uuid, ledgerAccount: Uuid)
  datatype ProviderRow = ProviderRow(id: Uuid, ledgerAccount: Uuid)

  datatype Tables = Tables(
    users: seq<User>, links: seq<UserProvider>, accounts: seq<UserAccount>, providers: seq<ProviderRow>)

  const NO_ROWS := Tables([], [], [], [])

  /** The arguments of `create_or_link_user`, with the ids it draws. */
  datatype Call = Call(
    nid: string, providerId: Uuid, internalMetadata: string, externalMetadata: string,
    ledgerAccount: Uuid, newUserId: Uuid, newAccountId: Uuid)

  const NID_LENGTH := 10  // users.nid VARCHAR(10)

  // Statements

  function FindUser(users: seq<User>, nid: string): (r: Option<User>)
    ensures r.Some? ==> r.value in users && r.value.nid == nid
    ensures r.None? ==> forall u | u in users :: u.nid != nid
  {
    if users == [] then None else if users[0].nid == nid then Some(users[0]) else FindUser(users[1..], nid)
  }

  function FindUserAccount(accounts: seq<UserAccount>, userId: Uuid, providerId: Uuid): (r: Option<UserAccount>)
    ensures r.Some? ==> r.value in accounts && r.value.userId == userId && r.value.providerId == providerId
    ensures r.None? ==> forall a | a in accounts :: !(a.userId == userId && a.providerId == providerId)
  {
    if accounts == [] then None
    else if accounts[0].userId == userId && accounts[0].providerId == providerId then Some(accounts[0])
    else FindUserAccount(accounts[1..], userId, providerId)
  }

  predicate HasProvider(providers: seq<ProviderRow>, id: Uuid) {
    exists p :: p in providers && p.id == id
  }

  predicate HasLink(links: seq<UserProvider>, userId: Uuid, providerId: Uuid) {
    exists l :: l in links && l.userId == userId && l.providerId == providerId
  }

  /**
    What a column VARCHAR(10) makes of a text: longer ones are refused, unless all they have in excess
    is spaces, which are cut off.
   */
  function Stored(nid: string): (r: Option<string>)
    ensures r.Some? ==> |r.value| <= NID_LENGTH && r.value <= nid && (|nid| <= NID_LENGTH ==> r.value == nid)
  {
    if |nid| <= NID_LENGTH then Some(nid)
    else if forall c | c in nid[NID_LENGTH..] :: c == ' ' then Some(nid[..NID_LENGTH])
    else None
  }

  /** The primary key and the unique nid. */
  predicate UserAdmitted(users: seq<User>, row: User) {
    forall u | u in users :: u.id != row.id && u.nid != row.nid
  }

  /** The first statements: find the user by nid, or insert one. */
  function FindOrInsertUser(users: seq<User>, c: Call): Option<(seq<User>, User)> {
    match FindUser(users, c.nid)
    case Some(existingUser) => Some((users, existingUser))
    case None =>
      match Stored(c.nid)
      case None => None
      case Some(nid) =>
        var user := User(c.newUserId, nid, c.internalMetadata);
        if UserAdmitted(users, user) then Some((users + [user], user)) else None
  }

  predicate Joins(l: UserProvider, userId: Uuid, providerId: Uuid) {
    l.userId == userId && l.providerId == providerId
  }

  /** INSERT ... ON CONFLICT (user_id, provider_id) DO UPDATE SET external_metadata. */
  function UpsertLink(links: seq<UserProvider>, row: UserProvider): (r: seq<UserProvider>)
    ensures |r| == |links| + if HasLink(links, row.userId, row.providerId) then 0 else 1
    ensures forall i | 0 <= i < |links| :: r[i] == if Joins(links[i], row.userId, row.providerId) then row else links[i]
    ensures |r| > |links| ==> r[|links|] == row
  {
    if HasLink(links, row.userId, row.providerId) then
      seq(|links|, i requires 0 <= i < |links| => if Joins(links[i], row.userId, row.providerId) then row else links[i])
    else
      assert forall i | 0 <= i < |links| :: links[i] in links;
      links + [row]
  }

  /** The primary key, the unique ledger account and the unique pair of user and provider. */
  predicate AccountAdmitted(accounts: seq<UserAccount>, row: UserAccount) {
    forall a | a in accounts ::
      a.id != row.id && a.ledgerAccount != row.ledgerAccount
      && !(a.userId == row.userId && a.providerId == row.providerId)
  }

  // The transaction

  /** The statements of the transaction in order; None when a constraint stops one of them. */
  function LinkTx(t: Tables, c: Call): Option<(Tables, User, UserAccount)> {
    match FindOrInsertUser(t.users, c)
    case None => None
    case Some((users, user)) =>
      if !HasProvider(t.providers, c.providerId) then None
      else
        var links := UpsertLink(t.links, UserProvider(user.id, c.providerId, c.externalMetadata));
        var existing := FindUserAccount(t.accounts, user.id, c.providerId);
        var account := if existing.Some? then existing.value
                       else UserAccount(c.newAccountId, user.id, c.providerId, c.ledgerAccount);
        if existing.None? && !AccountAdmitted(t.accounts, account) then None
        else
          var accounts := if existing.Some? then t.accounts else t.accounts + [account];
          Some((Tables(users, links, accounts, t.providers), user, account))
  }

  /** A provider is inserted if its primary key and its ledger account are new. */
  function AddProvider(t: Tables, p: ProviderRow): Tables {
    if exists q :: q in t.providers && (q.id == p.id || q.ledgerAccount == p.ledgerAccount) then t
    else t.(providers := t.providers + [p])
  }

  class UserRepository {
    var users: seq<User>
    var links: seq<UserProvider>
    var accounts: seq<UserAccount>
    var providers: seq<ProviderRow>

    ghost function Now(): Tables
      reads this
    {
      Tables(users, links, accounts, providers)
    }

    constructor ()
      ensures Now() == NO_ROWS
    {
      users, links, accounts, providers := [], [], [], [];
    }

    /** A provider is inserted elsewhere. */
    method InsertProvider(p: ProviderRow)
      modifies this`providers
      ensures Now() == AddProvider(old(Now()), p)
      ensures p in providers <==>
                || p in old(providers)
                || forall q | q in old(providers) :: q.id != p.id && q.ledgerAccount != p.ledgerAccount
      ensures forall q | q != p :: q in providers <==> q in old(providers)
    {
      if !(exists q :: q in providers && (q.id == p.id || q.ledgerAccount == p.ledgerAccount)) {
        providers := providers + [p];
      }
    }

    /** `create_or_link_user`: an error of any statement rolls the whole transaction back. */
    method CreateOrLinkUser(c: Call, end: Commit) returns (r: Option<(User, UserAccount)>)
      modifies this`users, this`links, this`accounts
      ensures var tx := LinkTx(old(Now()), c);
              && Now() == (if tx.Some? && end != Aborted then tx.value.0 else old(Now()))
              && r == if tx.Some? && end == Committed then Some((tx.value.1, tx.value.2)) else None
    {
      hide FindUser, Stored, UpsertLink, FindUserAccount, UserAdmitted, AccountAdmitted, HasProvider;
      var users0, links0, accounts0 := users, links, accounts;  // what a rollback restores
      r := None;
      var found := FindUser(users, c.nid);
      var user;
      match found {
        case Some(existingUser) => user := existingUser;
        case None =>
          var nid := Stored(c.nid);
          if nid.None? {
            return;
          }
          user := User(c.newUserId, nid.value, c.internalMetadata);
          if !UserAdmitted(users, user) {
            return;
          }
          users := users + [user];
      }
      if !HasProvider(providers, c.providerId) {
        users := users0;
        return;
      }
      links := UpsertLink(links, UserProvider(user.id, c.providerId, c.externalMetadata));
      var account;
      match FindUserAccount(accounts, user.id, c.providerId) {
        case Some(existingAccount) => account := existingAccount;
        case None =>
          account := UserAccount(c.newAccountId, user.id, c.providerId, c.ledgerAccount);
          if !AccountAdmitted(accounts, account) {
            users, links := users0, links0;
            return;
          }
          accounts := accounts + [account];
      }
      match end
      case Aborted => users, links, accounts := users0, links0, accounts0;
      case ConfirmationLost =>
      case Committed => r := Some((user, account));
    }
  }

  // Runs

  datatype TableOp = LinkOp(call: Call, end: Commit) | ProviderOp(provider: ProviderRow)

  function Act(t: Tables, op: TableOp): Tables {
    match op
    case LinkOp(c, end) =>
      var tx := LinkTx(t, c);
      if tx.Some? && end != Aborted then tx.value.0 else t
    case ProviderOp(p) => AddProvider(t, p)
  }

  function ActAll(t: Tables, ops: seq<TableOp>): Tables {
    if ops == [] then t else Act(ActAll(t, ops[..|ops| - 1]), ops[|ops| - 1])
  }

  // The invariant

  ghost predicate UsersOk(users: seq<User>) {
    && (forall u | u in users :: |u.nid| <= NID_LENGTH)
    && (forall i, j | 0 <= i < j < |users| :: users[i].id != users[j].id && users[i].nid != users[j].nid)
  }

  ghost predicate LinksOk(links: seq<UserProvider>) {
    forall i, j | 0 <= i < j < |links| ::
             !(links[i].userId == links[j].userId && links[i].providerId == links[j].providerId)
  }

  ghost predicate AccountsOk(accounts: seq<UserAccount>) {
    forall i, j | 0 <= i < j < |accounts| ::
      && accounts[i].ledgerAccount != accounts[j].ledgerAccount
      && !(accounts[i].userId == accounts[j].userId && accounts[i].providerId == accounts[j].providerId)
  }

  ghost predicate ProvidersOk(providers: seq<ProviderRow>) {
    forall i, j | 0 <= i < j < |providers| :: providers[i].id != providers[j].id
  }

  ghost predicate HasAccount(accounts: seq<UserAccount>, userId: Uuid, providerId: Uuid) {
    exists a :: a in accounts && a.userId == userId && a.providerId == providerId
  }

  ghost predicate HasUser(users: seq<User>, id: Uuid) {
    exists u :: u in users && u.id == id
  }

  ghost predicate TablesOk(t: Tables) {
    && UsersOk(t.users) && LinksOk(t.links) && AccountsOk(t.accounts) && ProvidersOk(t.providers)
    && (forall l | l in t.links :: HasUser(t.users, l.userId) && HasProvider(t.providers, l.providerId))
    && (forall user: Uuid, provider: Uuid ::
         HasLink(t.links, user, provider) <==> HasAccount(t.accounts, user, provider))
  }

  lemma UpsertKeeps(links: seq<UserProvider>, row: UserProvider)
    requires LinksOk(links)
    ensures LinksOk(UpsertLink(links, row))
    ensures forall l | l in UpsertLink(links, row) :: l in links || l == row
  {
    var r := UpsertLink(links, row);
    hide UpsertLink;
    forall l | l in r
      ensures l in links || l == row
    {
      var i :| 0 <= i < |r| && r[i] == l;
    }
    forall i | 0 <= i < |links|
      ensures r[i].userId == links[i].userId && r[i].providerId == links[i].providerId
      ensures |r| > |links| ==> !(links[i].userId == row.userId && links[i].providerId == row.providerId)
    {
      assert links[i] in links;
    }
  }

  lemma UpsertPairs(links: seq<UserProvider>, row: UserProvider, user: Uuid, provider: Uuid)
    ensures HasLink(UpsertLink(links, row), user, provider)
            <==> HasLink(links, user, provider) || (user == row.userId && provider == row.providerId)
  {
    var r := UpsertLink(links, row);
    hide UpsertLink;
    if HasLink(r, user, provider) {
      var l :| l in r && l.userId == user && l.providerId == provider;
      var i :| 0 <= i < |r| && r[i] == l;
      assert i < |links| ==> links[i] in links;
    }
    if HasLink(links, user, provider) {
      var l :| l in links && l.userId == user && l.providerId == provider;
      var i :| 0 <= i < |links| && links[i] == l;
      assert r[i] in r;
    } else if user == row.userId && provider == row.providerId {
      assert r[|links|] in r;
    }
  }

  lemma AccountPairs(accounts: seq<UserAccount>, accounts': seq<UserAccount>, account: UserAccount)
    requires (accounts' == accounts && account in accounts) || accounts' == accounts + [account]
    ensures forall user: Uuid, provider: Uuid ::
              HasAccount(accounts', user, provider)
              <==> HasAccount(accounts, user, provider) || (user == account.userId && provider == account.providerId)
  {
    forall user: Uuid, provider: Uuid
      ensures HasAccount(accounts', user, provider)
              <==> HasAccount(accounts, user, provider) || (user == account.userId && provider == account.providerId)
    {
      assert account in accounts';
      if HasAccount(accounts, user, provider) {
        var a :| a in accounts && a.userId == user && a.providerId == provider;
        assert a in accounts';
      }
    }
  }

  lemma LinkTxKeeps(t: Tables, c: Call)
    requires TablesOk(t) && LinkTx(t, c).Some?
    ensures TablesOk(LinkTx(t, c).value.0)
  {
    hide UpsertLink, FindUser, FindUserAccount, LinksOk, ProvidersOk;
    var (t', user, account) := LinkTx(t, c).value;
    UpsertKeeps(t.links, UserProvider(user.id, c.providerId, c.externalMetadata));
    assert UsersOk(t'.users);
    assert AccountsOk(t'.accounts);
    forall l | l in t'.links
      ensures HasUser(t'.users, l.userId) && HasProvider(t'.providers, l.providerId)
    {
      if l in t.links {
        var u :| u in t.users && u.id == l.userId;
        assert u in t'.users;
      } else {
        assert user in t'.users;
      }
    }
    AccountPairs(t.accounts, t'.accounts, account);
    hide HasAccount, HasLink;
    forall user: Uuid, provider: Uuid
      ensures HasLink(t'.links, user, provider) <==> HasAccount(t'.accounts, user, provider)
    {
      UpsertPairs(t.links, UserProvider(account.userId, c.providerId, c.externalMetadata), user, provider);
    }
  }

  lemma ProviderKeeps(t: Tables, p: ProviderRow)
    requires TablesOk(t)
    ensures TablesOk(AddProvider(t, p))
  {
    hide UsersOk, LinksOk, AccountsOk, HasUser, HasLink, HasAccount;
    var t' := AddProvider(t, p);
    forall l | l in t'.links
      ensures HasProvider(t'.providers, l.providerId)
    {
      var q :| q in t.providers && q.id == l.providerId;
      assert q in t'.providers;
    }
  }

  lemma NoRowsOk()
    ensures TablesOk(NO_ROWS)
  {
  }

  /**
    Over every run: one user a nid, at most one link and one account a pair, and a link exactly
    where there is an account.
   */
  lemma {:induction false} AlwaysOk(ops: seq<TableOp>)
    ensures TablesOk(ActAll(NO_ROWS, ops))
  {
    hide TablesOk, LinkTx, AddProvider;
    if ops == [] {
      NoRowsOk();
    } else {
      var before := ActAll(NO_ROWS, ops[..|ops| - 1]);
      AlwaysOk(ops[..|ops| - 1]);
      match ops[|ops| - 1]
      case LinkOp(c, end) =>
        if LinkTx(before, c).Some? {
          LinkTxKeeps(before, c);
        }
      case ProviderOp(p) => ProviderKeeps(before, p);
    }
  }

  // What a caller gets

  /** When the transaction succeeds: the provider exists and whatever must be created can be. */
  lemma LinkTxExactly(t: Tables, c: Call)
    requires TablesOk(t)
    ensures LinkTx(t, c).Some? <==>
            && HasProvider(t.providers, c.providerId)
            && match FindUser(t.users, c.nid)
               case Some(u) =>
                 HasLink(t.links, u.id, c.providerId)
                 || (forall a | a in t.accounts :: a.id != c.newAccountId && a.ledgerAccount != c.ledgerAccount)
               case None =>
                 && Stored(c.nid).Some?
                 && (forall u | u in t.users :: u.id != c.newUserId && u.nid != Stored(c.nid).value)
                 && (forall a | a in t.accounts :: a.id != c.newAccountId && a.ledgerAccount != c.ledgerAccount)
  {
    hide UpsertLink, UsersOk, LinksOk, AccountsOk, ProvidersOk, Stored;
    var found := FindUser(t.users, c.nid);
    var userId := if found.Some? then found.value.id else c.newUserId;
    if found.None? && HasLink(t.links, userId, c.providerId) {
      var l :| l in t.links && l.userId == userId && l.providerId == c.providerId;
      assert HasUser(t.users, userId);
    }
    assert FindUserAccount(t.accounts, userId, c.providerId).Some? <==> HasAccount(t.accounts, userId, c.providerId);
  }

  /** The row `u` is the user of this nid, and `a` the account of that user with this provider. */
  ghost predicate Knows(t: Tables, nid: string, provider: Uuid, u: User, a: UserAccount) {
    && FindUser(t.users, nid) == Some(u) && FindUserAccount(t.accounts, u.id, provider) == Some(a)
  }

  lemma {:induction false} FoundLast(users: seq<User>, nid: string, row: User)
    ensures FindUser(users + [row], nid) == if FindUser(users, nid).Some? then FindUser(users, nid)
                                            else if row.nid == nid then Some(row) else None
  {
    if users == [] {
      assert users + [row] == [row];
    } else {
      assert (users + [row])[1..] == users[1..] + [row];
      FoundLast(users[1..], nid, row);
    }
  }

  lemma {:induction false} FoundLastAccount(accounts: seq<UserAccount>, row: UserAccount, user: Uuid, provider: Uuid)
    ensures FindUserAccount(accounts + [row], user, provider)
            == if FindUserAccount(accounts, user, provider).Some? then FindUserAccount(accounts, user, provider)
               else if row.userId == user && row.providerId == provider then Some(row) else None
  {
    if accounts == [] {
      assert accounts + [row] == [row];
    } else {
      assert (accounts + [row])[1..] == accounts[1..] + [row];
      FoundLastAccount(accounts[1..], row, user, provider);
    }
  }

  /** A call that succeeds returns the rows by which its user, under the nid as stored, and its account are known. */
  lemma CallMakesKnown(t: Tables, c: Call)
    requires TablesOk(t) && LinkTx(t, c).Some?
    ensures var (t', u, a) := LinkTx(t, c).value;
            Knows(t', u.nid, c.providerId, u, a) && Stored(c.nid) == Some(u.nid)
  {
    hide UpsertLink, LinksOk, AccountsOk, ProvidersOk;
    var user := LinkTx(t, c).value.1;
    FoundLast(t.users, user.nid, user);
    FoundLastAccount(t.accounts, UserAccount(c.newAccountId, user.id, c.providerId, c.ledgerAccount),
                     user.id, c.providerId);
  }

  /**
    Repeating a call, now or after any other operations: it succeeds whatever ids it draws, returns the
    same user and the same account, and adds no row.
   */
  lemma RepeatsReturnTheSame(t: Tables, c: Call, u: User, a: UserAccount)
    requires TablesOk(t) && Knows(t, c.nid, c.providerId, u, a)
    ensures LinkTx(t, c).Some? && LinkTx(t, c).value.1 == u && LinkTx(t, c).value.2 == a
    ensures LinkTx(t, c).value.0.users == t.users && LinkTx(t, c).value.0.accounts == t.accounts
    ensures |LinkTx(t, c).value.0.links| == |t.links|
  {
    hide UsersOk, LinksOk, AccountsOk, ProvidersOk;
    assert HasAccount(t.accounts, u.id, c.providerId);
    var l :| l in t.links && l.userId == u.id && l.providerId == c.providerId;
  }

  /** What is known stays known through every operation. */
  lemma KnownForever(t: Tables, op: TableOp, nid: string, provider: Uuid, u: User, a: UserAccount)
    requires TablesOk(t) && Knows(t, nid, provider, u, a)
    ensures Knows(Act(t, op), nid, provider, u, a)
  {
    hide UpsertLink, UsersOk, LinksOk, AccountsOk, ProvidersOk;
    match op
    case LinkOp(c, end) =>
      if LinkTx(t, c).Some? {
        var user := LinkTx(t, c).value.1;
        FoundLast(t.users, nid, user);
        FoundLastAccount(t.accounts, UserAccount(c.newAccountId, user.id, c.providerId, c.ledgerAccount),
                         u.id, provider);
      }
    case ProviderOp(p) =>
  }

  lemma {:induction false} KnownThroughout(ops: seq<TableOp>, m: nat, n: nat, nid: string, provider: Uuid, u: User,
          a: UserAccount)
    requires m <= n <= |ops| && Knows(ActAll(NO_ROWS, ops[..m]), nid, provider, u, a)
    ensures Knows(ActAll(NO_ROWS, ops[..n]), nid, provider, u, a)
    decreases n
  {
    hide Act, Knows, TablesOk;
    if m < n {
      KnownThroughout(ops, m, n - 1, nid, provider, u, a);
      AlwaysOk(ops[..n - 1]);
      assert ops[..n][..n - 1] == ops[..n - 1];
      KnownForever(ActAll(NO_ROWS, ops[..n - 1]), ops[n - 1], nid, provider, u, a);
    }
  }

  /** In these tables the call succeeds and returns this user and this account. */
  ghost predicate Gives(t: Tables, c: Call, u: User, a: UserAccount) {
    LinkTx(t, c).Some? && LinkTx(t, c).value.1 == u && LinkTx(t, c).value.2 == a
  }

  /** A padded nid is not found under itself and cannot be inserted beside the row it was cut to. */
  lemma PaddedRepeatFails(t: Tables, c: Call, u: User, a: UserAccount)
    requires TablesOk(t) && Knows(t, u.nid, c.providerId, u, a) && Stored(c.nid) == Some(u.nid) && |c.nid| > NID_LENGTH
    ensures LinkTx(t, c).None?
  {
    hide UpsertLink, LinksOk, AccountsOk, ProvidersOk, Stored;
    assert FindUser(t.users, c.nid).None?;
  }

  /**
    Find or create, over a whole run: after a call has gone through, whether or not its caller heard
    of it, a later call with the same nid and provider, whatever happened in between, returns the same
    user and the same account exactly when the nid fits its column; otherwise it fails.
   */
  lemma SameForever(ops: seq<TableOp>, m: nat, n: nat, c: Call, d: Call, u: User, a: UserAccount)
    requires m < n <= |ops| && ops[m].LinkOp? && ops[m].call == c && ops[m].end != Aborted
    requires Gives(ActAll(NO_ROWS, ops[..m]), c, u, a)
    requires d.nid == c.nid && d.providerId == c.providerId
    ensures Gives(ActAll(NO_ROWS, ops[..n]), d, u, a) <==> |c.nid| <= NID_LENGTH
  {
    hide LinkTx, Knows, TablesOk, Stored;
    var t, s := ActAll(NO_ROWS, ops[..m]), ActAll(NO_ROWS, ops[..n]);
    AlwaysOk(ops[..m]);
    AlwaysOk(ops[..n]);
    CallMakesKnown(t, c);
    assert ops[..m + 1][..m] == ops[..m];
    KnownThroughout(ops, m + 1, n, u.nid, c.providerId, u, a);
    if |c.nid| <= NID_LENGTH {
      RepeatsReturnTheSame(s, d, u, a);
    } else {
      PaddedRepeatFails(s, d, u, a);
    }
  }

  /** For instance: ten digits and a space. The first call goes through and the second does not. */
  lemma PaddedNid(p: ProviderRow, c: Call, d: Call)
    requires c.nid == d.nid == "0123456789 " && c.providerId == d.providerId == p.id
    ensures var first := LinkTx(Tables([], [], [], [p]), c);
            first.Some? && LinkTx(first.value.0, d).None?
  {
    var t := Tables([], [], [], [p]);
    assert p in t.providers;
    assert c.nid[NID_LENGTH..] == " ";
    LinkTxKeeps(t, c);
    CallMakesKnown(t, c);
    var (t', u, a) := LinkTx(t, c).value;
    PaddedRepeatFails(t', d, u, a);
  }

  /**
    The link rows with this one in: the metadata of an existing link are replaced, a new link is added,
    no other changes.
   */
  ghost predicate LinkedWith(before: seq<UserProvider>, after: seq<UserProvider>, user: Uuid, provider: Uuid,
          metadata: string) {
    && UserProvider(user, provider, metadata) in after
    && |after| == |before| + (if exists l :: l in before && l.userId == user && l.providerId == provider then 0 else 1)
    && forall i | 0 <= i < |before| ::
         && after[i].userId == before[i].userId && after[i].providerId == before[i].providerId
         && after[i].metadata ==
              if before[i].userId == user && before[i].providerId == provider then metadata else before[i].metadata
  }

  lemma UpsertExactly(links: seq<UserProvider>, row: UserProvider)
    ensures LinkedWith(links, UpsertLink(links, row), row.userId, row.providerId, row.metadata)
  {
    var r := UpsertLink(links, row);
    hide UpsertLink;
    assert HasLink(links, row.userId, row.providerId) <==>
           exists l :: l in links && l.userId == row.userId && l.providerId == row.providerId;
    if HasLink(links, row.userId, row.providerId) {
      var l :| l in links && l.userId == row.userId && l.providerId == row.providerId;
      var i :| 0 <= i < |links| && links[i] == l;
      assert r[i] == row;
    } else {
      assert r[|links|] == row;
    }
  }

  /**
    What a successful call writes. A known user keeps every column; an unknown one is added with the
    nid as stored and the internal metadata of the call. The link has the call's external metadata. A
    known account keeps its ledger account; an unknown one is added with the ledger account of the call.
   */
  lemma LinkTxWrites(t: Tables, c: Call)
    requires LinkTx(t, c).Some?
    ensures var (t', u, a) := LinkTx(t, c).value;
            && t'.providers == t.providers
            && (if exists x :: x in t.users && x.nid == c.nid then t'.users == t.users && u in t.users && u.nid == c.nid
                else t'.users == t.users + [u] && u.id == c.newUserId && u.metadata == c.internalMetadata
                     && Some(u.nid) == Stored(c.nid))
            && LinkedWith(t.links, t'.links, u.id, c.providerId, c.externalMetadata)
            && a.userId == u.id && a.providerId == c.providerId
            && (if exists x :: x in t.accounts && x.userId == u.id && x.providerId == c.providerId then
                  t'.accounts == t.accounts && a in t.accounts
                else t'.accounts == t.accounts + [a] && a.id == c.newAccountId && a.ledgerAccount == c.ledgerAccount)
  {
    hide UpsertLink, FindUser, FindUserAccount, Stored, LinkedWith, HasProvider, AccountAdmitted;
    var user := LinkTx(t, c).value.1;
    UpsertExactly(t.links, UserProvider(user.id, c.providerId, c.externalMetadata));
  }

  /**
    What the column makes of a nid: itself if it fits, its first ten characters if the rest are spaces,
    and nothing otherwise.
   */
  lemma StoredExactly(nid: string)
    ensures |nid| <= 10 ==> Stored(nid) == Some(nid)
    ensures |nid| > 10 && (forall i | 10 <= i < |nid| :: nid[i] == ' ') ==> Stored(nid) == Some(nid[..10])
    ensures |nid| > 10 && (exists i :: 10 <= i < |nid| && nid[i] != ' ') ==> Stored(nid).None?
  {
    if |nid| > 10 {
      var rest := nid[10..];
      assert forall i | 0 <= i < |rest| :: rest[i] == nid[i + 10] && rest[i] in rest;
      if i :| 10 <= i < |nid| && nid[i] != ' ' {
        assert rest[i - 10] in rest;
      }
    }
  }

  // The four-way join

  /** The rows of the join over users, links, accounts and providers for one user and one provider. */
  ghost function JoinRows(t: Tables, user: Uuid, provider: Uuid): set<(User, UserProvider, UserAccount, ProviderRow)> {
    set u, l, a, p | u in t.users && l in t.links && a in t.accounts && p in t.providers
                     && u.id == user && l.userId == u.id && a.userId == u.id
                     && l.providerId == provider && a.providerId == provider && p.id == l.providerId
      :: (u, l, a, p)
  }

  lemma OneEach(t: Tables, u: User, l: UserProvider, a: UserAccount, p: ProviderRow)
    requires UsersOk(t.users) && LinksOk(t.links) && AccountsOk(t.accounts) && ProvidersOk(t.providers)
    requires u in t.users && l in t.links && a in t.accounts && p in t.providers
    ensures forall x | x in t.users && x.id == u.id :: x == u
    ensures forall x | x in t.links && x.userId == l.userId && x.providerId == l.providerId :: x == l
    ensures forall x | x in t.accounts && x.userId == a.userId && x.providerId == a.providerId :: x == a
    ensures forall x | x in t.providers && x.id == p.id :: x == p
  {
  }

  /** The join gives one row exactly when the two are linked, and none otherwise. */
  lemma JoinIsOneRow(t: Tables, user: Uuid, provider: Uuid)
    requires TablesOk(t)
    ensures HasLink(t.links, user, provider) ==> |JoinRows(t, user, provider)| == 1
    ensures !HasLink(t.links, user, provider) ==> JoinRows(t, user, provider) == {}
  {
    var rows := JoinRows(t, user, provider);
    if HasLink(t.links, user, provider) {
      var l :| l in t.links && l.userId == user && l.providerId == provider;
      assert HasAccount(t.accounts, user, provider);
      var a :| a in t.accounts && a.userId == user && a.providerId == provider;
      assert HasUser(t.users, user) && HasProvider(t.providers, provider);
      var u :| u in t.users && u.id == user;
      var p :| p in t.providers && p.id == provider;
      assert (u, l, a, p) in rows;
      OneEach(t, u, l, a, p);
      assert rows == {(u, l, a, p)};
    }
  }
}
