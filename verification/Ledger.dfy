/**
  What the program relies on from its ledger (TigerBeetle): unlinked events are applied in
  order, a create call returns the failed indices only, ids are unique, and an account
  created with the flag DebitsMustNotExceedCredits keeps that bound. A `Policy` stands for
  every further reason the ledger may find in its books to refuse an event, so each result
  below holds for every such ledger at least as strict as this one.
 */
module Ledgers {
  import opened Wrappers
  import opened Numbers
  import opened Uuids

  datatype Account = Account(
    id: u128,
    debitsPending: u128, debitsPosted: u128,
    creditsPending: u128, creditsPosted: u128,
    capped: bool)  // DebitsMustNotExceedCredits

  datatype Transfer = Transfer(id: u128, debitId: u128, creditId: u128, amount: u128)

  datatype Ledger = Ledger(accounts: map<u128, Account>, posted: seq<Transfer>)

  const EMPTY_LEDGER := Ledger(map[], [])

  /** One create event, as it stands in a batch. */
  datatype Create = NewTransfer(transfer: Transfer) | NewAccount(account: Account)

  datatype Refusal =
    | DebitAccountNotFound | CreditAccountNotFound | AccountsMustBeDifferent
    | Exists | Overflow | ExceedsCredits | CountersMustBeZero
    | Other(code: nat)

  datatype EventResult = EventResult(index: nat, refusal: Refusal)

  datatype Policy = Policy(extra: (Ledger, Create) -> Option<Refusal>)

  predicate IsPosted(posted: seq<Transfer>, id: u128) {
    exists i | 0 <= i < |posted| :: posted[i].id == id
  }

  /** Why the ledger refuses event `c`, if it does. */
  function Verdict(p: Policy, l: Ledger, c: Create): Option<Refusal> {
    match c
    case NewAccount(a) =>
      if a.id in l.accounts then Some(Exists)
      else if a.debitsPending + a.debitsPosted + a.creditsPending + a.creditsPosted != 0 then Some(CountersMustBeZero)
      else p.extra(l, c)
    case NewTransfer(t) =>
      if t.debitId !in l.accounts then Some(DebitAccountNotFound)
      else if t.creditId !in l.accounts then Some(CreditAccountNotFound)
      else if t.debitId == t.creditId then Some(AccountsMustBeDifferent)
      else if IsPosted(l.posted, t.id) then Some(Exists)
      else
        var dr, cr := l.accounts[t.debitId], l.accounts[t.creditId];
        if dr.debitsPosted + t.amount >= TWO_128 || cr.creditsPosted + t.amount >= TWO_128 then Some(Overflow)
        else if dr.capped && dr.debitsPending + dr.debitsPosted + t.amount > dr.creditsPosted then Some(ExceedsCredits)
        else p.extra(l, c)
  }

  /** The effect of one event on its own. */
  function Apply(p: Policy, l: Ledger, c: Create): Ledger {
    if Verdict(p, l, c).Some? then l
    else
      match c
      case NewAccount(a) => l.(accounts := l.accounts[a.id := a])
      case NewTransfer(t) =>
        var dr, cr := l.accounts[t.debitId], l.accounts[t.creditId];
        Ledger(
          l.accounts[t.debitId := dr.(debitsPosted := dr.debitsPosted + t.amount)]
                    [t.creditId := cr.(creditsPosted := cr.creditsPosted + t.amount)],
          l.posted + [t])
  }

  /** Events applied one at a time, in order. */
  function ApplyAll(p: Policy, l: Ledger, cs: seq<Create>): Ledger {
    if cs == [] then l else Apply(p, ApplyAll(p, l, cs[..|cs| - 1]), cs[|cs| - 1])
  }

  /** The answer of one create call: an entry for each refused index and none for the others. */
  function Failures(p: Policy, l: Ledger, cs: seq<Create>): seq<EventResult> {
    if cs == [] then []
    else
      var n := |cs| - 1;
      var before := Failures(p, l, cs[..n]);
      match Verdict(p, ApplyAll(p, l, cs[..n]), cs[n])
      case None => before
      case Some(why) => before + [EventResult(n, why)]
  }

  /** `lookup_accounts`: the accounts found, in the order of the ids asked for. */
  function LookupAccounts(l: Ledger, ids: seq<u128>): seq<Account> {
    if ids == [] then []
    else (if ids[0] in l.accounts then [l.accounts[ids[0]]] else []) + LookupAccounts(l, ids[1..])
  }

  function FindTransfer(posted: seq<Transfer>, id: u128): (r: Option<Transfer>)
    ensures r.Some? ==> r.value in posted && r.value.id == id
    ensures r.None? ==> !IsPosted(posted, id)
  {
    if posted == [] then None
    else if posted[0].id == id then Some(posted[0])
    else FindTransfer(posted[1..], id)
  }

  /** `lookup_transfers`, in the same manner. */
  function LookupTransfers(l: Ledger, ids: seq<u128>): seq<Transfer> {
    if ids == [] then []
    else
      var rest := LookupTransfers(l, ids[1..]);
      match FindTransfer(l.posted, ids[0])
      case Some(t) => [t] + rest
      case None => rest
  }

  // Batches

  lemma {:induction false} ApplyAllAppend(p: Policy, l: Ledger, a: seq<Create>, b: seq<Create>)
    ensures ApplyAll(p, l, a + b) == ApplyAll(p, ApplyAll(p, l, a), b)
  {
    if b == [] {
      assert a + b == a;
    } else {
      var n := |b| - 1;
      ApplyAllAppend(p, l, a, b[..n]);
      assert (a + b)[..|a + b| - 1] == a + b[..n];
    }
  }

  /**
    The batch call against events applied one at a time: index i is reported with a reason
    exactly when the event at i, applied on its own after those before it, is refused for it.
   */
  lemma {:induction false} FailuresAreOneAtATime(p: Policy, l: Ledger, cs: seq<Create>, e: EventResult)
    ensures e in Failures(p, l, cs) <==>
            e.index < |cs| && Verdict(p, ApplyAll(p, l, cs[..e.index]), cs[e.index]) == Some(e.refusal)
  {
    if cs != [] {
      var n := |cs| - 1;
      FailuresAreOneAtATime(p, l, cs[..n], e);
      if e.index < n {
        assert cs[..n][..e.index] == cs[..e.index];
      }
    }
  }

  /** The answer lists at most one entry an index, in ascending order. */
  lemma {:induction false} FailuresAscend(p: Policy, l: Ledger, cs: seq<Create>)
    ensures forall e | e in Failures(p, l, cs) :: e.index < |cs|
    ensures forall i, j | 0 <= i < j < |Failures(p, l, cs)| ::
              Failures(p, l, cs)[i].index < Failures(p, l, cs)[j].index
  {
    if cs != [] {
      var n := |cs| - 1;
      FailuresAscend(p, l, cs[..n]);
      var before := Failures(p, l, cs[..n]);
      assert forall i | 0 <= i < |before| :: before[i] in before;
    }
  }

  ghost predicate InIndexOrder(rs: seq<EventResult>) {
    forall i, j | 0 <= i < j < |rs| :: rs[i].index < rs[j].index
  }

  ghost predicate SameMembers(a: seq<EventResult>, b: seq<EventResult>) {
    (forall e | e in a :: e in b) && (forall e | e in b :: e in a)
  }

  lemma SameLast(a: seq<EventResult>, b: seq<EventResult>)
    requires a != [] && b != [] && InIndexOrder(a) && InIndexOrder(b) && SameMembers(a, b)
    ensures a[|a| - 1] == b[|b| - 1]
  {
    var x, y := a[|a| - 1], b[|b| - 1];
    assert x in b && y in a;
    var i :| 0 <= i < |b| && b[i] == x;
    var j :| 0 <= j < |a| && a[j] == y;
  }

  lemma WithoutLastIn(a: seq<EventResult>, e: EventResult)
    requires a != [] && InIndexOrder(a)
    ensures e in a[..|a| - 1] <==> e in a && e != a[|a| - 1]
  {
    assert a == a[..|a| - 1] + [a[|a| - 1]];
  }

  lemma NoneIn(a: seq<EventResult>, b: seq<EventResult>)
    requires SameMembers(a, b)
    ensures a == [] <==> b == []
  {
    if b != [] {
      assert b[0] in a;
    }
    if a != [] {
      assert a[0] in b;
    }
  }

  lemma {:induction false} SameMembersSame(a: seq<EventResult>, b: seq<EventResult>)
    requires InIndexOrder(a) && InIndexOrder(b) && SameMembers(a, b)
    ensures a == b
  {
    NoneIn(a, b);
    if a != [] {
      var m, n := |a| - 1, |b| - 1;
      SameLast(a, b);
      forall e: EventResult
        ensures e in a[..m] <==> e in b[..n]
      {
        WithoutLastIn(a, e);
        WithoutLastIn(b, e);
      }
      SameMembersSame(a[..m], b[..n]);
      assert a == a[..m] + [a[m]] && b == b[..n] + [b[n]];
    }
  }

  /**
    The answer to a batch is determined: it is the one ascending list whose entries are the events
    refused in their turn, each with its reason.
   */
  lemma AnswerDetermined(p: Policy, l: Ledger, cs: seq<Create>, answer: seq<EventResult>)
    ensures answer == Failures(p, l, cs) <==>
            && InIndexOrder(answer)
            && forall e :: e in answer <==>
                 e.index < |cs| && Verdict(p, ApplyAll(p, l, cs[..e.index]), cs[e.index]) == Some(e.refusal)
  {
    hide Failures, Verdict, ApplyAll;
    FailuresAscend(p, l, cs);
    forall e: EventResult
      ensures e in Failures(p, l, cs) <==>
              e.index < |cs| && Verdict(p, ApplyAll(p, l, cs[..e.index]), cs[e.index]) == Some(e.refusal)
    {
      FailuresAreOneAtATime(p, l, cs, e);
    }
    if InIndexOrder(answer) && SameMembers(answer, Failures(p, l, cs)) {
      SameMembersSame(answer, Failures(p, l, cs));
    }
  }

  /** The transfers among some events. */
  function TransfersOf(cs: seq<Create>): seq<Transfer> {
    if cs == [] then []
    else
      var before := TransfersOf(cs[..|cs| - 1]);
      if cs[|cs| - 1].NewTransfer? then before + [cs[|cs| - 1].transfer] else before
  }

  /** An empty answer means that every transfer of the batch was posted, in batch order, and nothing else was. */
  lemma {:induction false} EmptyAnswerPostsAll(p: Policy, l: Ledger, cs: seq<Create>)
    requires Failures(p, l, cs) == []
    ensures ApplyAll(p, l, cs).posted == l.posted + TransfersOf(cs)
  {
    if cs != [] {
      EmptyAnswerPostsAll(p, l, cs[..|cs| - 1]);
    }
  }

  lemma {:induction false} InTransfersOf(cs: seq<Create>, t: Transfer)
    ensures t in TransfersOf(cs) <==> NewTransfer(t) in cs
  {
    if cs != [] {
      var n := |cs| - 1;
      InTransfersOf(cs[..n], t);
      assert cs == cs[..n] + [cs[n]];
    }
  }

  /** Posting never rewrites the past: transfers are only appended, and each comes from the batch. */
  lemma {:induction false} PostedGrows(p: Policy, l: Ledger, cs: seq<Create>)
    ensures l.posted <= ApplyAll(p, l, cs).posted
    ensures forall t | t in ApplyAll(p, l, cs).posted :: t in l.posted || NewTransfer(t) in cs
    ensures l.accounts.Keys <= ApplyAll(p, l, cs).accounts.Keys
  {
    if cs != [] {
      PostedGrows(p, l, cs[..|cs| - 1]);
    }
  }

  /** Event i of the batch, reached in its turn, is not refused. */
  ghost predicate AcceptedAt(p: Policy, l: Ledger, cs: seq<Create>, i: nat) {
    i < |cs| && Verdict(p, ApplyAll(p, l, cs[..i]), cs[i]).None?
  }

  ghost predicate Accepts(p: Policy, l: Ledger, cs: seq<Create>, t: Transfer) {
    exists i: nat :: AcceptedAt(p, l, cs, i) && cs[i] == NewTransfer(t)
  }

  lemma ApplyPosts(p: Policy, l: Ledger, c: Create, t: Transfer)
    ensures t in Apply(p, l, c).posted <==> t in l.posted || (Verdict(p, l, c).None? && c == NewTransfer(t))
  {
    hide Verdict;
  }

  lemma AcceptsLonger(p: Policy, l: Ledger, cs: seq<Create>, t: Transfer)
    requires cs != []
    ensures Accepts(p, l, cs, t) <==>
            Accepts(p, l, cs[..|cs| - 1], t) || (AcceptedAt(p, l, cs, |cs| - 1) && cs[|cs| - 1] == NewTransfer(t))
  {
    hide Verdict, ApplyAll;
    var n := |cs| - 1;
    forall i: nat | i < n
      ensures AcceptedAt(p, l, cs[..n], i) == AcceptedAt(p, l, cs, i) && cs[..n][i] == cs[i]
    {
      assert cs[..n][..i] == cs[..i];
    }
  }

  /**
    A transfer is posted after a batch exactly when it was before or some event of the batch carries it
    and is accepted.
   */
  lemma {:induction false} PostedExactly(p: Policy, l: Ledger, cs: seq<Create>, t: Transfer)
    ensures t in ApplyAll(p, l, cs).posted <==> t in l.posted || Accepts(p, l, cs, t)
  {
    hide Verdict, Apply;
    if cs != [] {
      var n := |cs| - 1;
      PostedExactly(p, l, cs[..n], t);
      ApplyPosts(p, ApplyAll(p, l, cs[..n]), cs[n], t);
      AcceptsLonger(p, l, cs, t);
    }
  }

  // The books

  function Credited(ts: seq<Transfer>, id: u128): nat {
    if ts == [] then 0
    else Credited(ts[..|ts| - 1], id) + if ts[|ts| - 1].creditId == id then ts[|ts| - 1].amount else 0
  }

  function Debited(ts: seq<Transfer>, id: u128): nat {
    if ts == [] then 0
    else Debited(ts[..|ts| - 1], id) + if ts[|ts| - 1].debitId == id then ts[|ts| - 1].amount else 0
  }

  ghost predicate IdsDistinct(ts: seq<Transfer>) {
    forall i, j | 0 <= i < j < |ts| :: ts[i].id != ts[j].id
  }

  /** Account `a` under key `id` carries exactly the history `ts`. */
  ghost predicate Carries(ts: seq<Transfer>, id: u128, a: Account) {
    && a.id == id
    && a.debitsPending == 0 == a.creditsPending
    && a.creditsPosted == Credited(ts, id)
    && a.debitsPosted == Debited(ts, id)
    && (a.capped ==> a.debitsPosted <= a.creditsPosted)
  }

  /** Every posted id is unique, and every account's counters are its transfer history. */
  ghost predicate BooksBalance(l: Ledger) {
    && IdsDistinct(l.posted)
    && (forall t | t in l.posted :: t.debitId in l.accounts && t.creditId in l.accounts && t.debitId != t.creditId)
    && (forall id | id in l.accounts :: Carries(l.posted, id, l.accounts[id]))
  }

  lemma {:induction false} UnseenAccount(ts: seq<Transfer>, id: u128)
    requires forall t | t in ts :: t.debitId != id && t.creditId != id
    ensures Credited(ts, id) == 0 == Debited(ts, id)
  {
    if ts != [] {
      var n := |ts| - 1;
      assert ts[n] in ts;
      UnseenAccount(ts[..n], id);
    }
  }

  lemma PostKeepsBooks(p: Policy, l: Ledger, t: Transfer)
    requires BooksBalance(l) && Verdict(p, l, NewTransfer(t)).None?
    ensures BooksBalance(Apply(p, l, NewTransfer(t)))
  {
    var l' := Apply(p, l, NewTransfer(t));
    assert l'.posted[..|l.posted|] == l.posted;
    forall id | id in l'.accounts
      ensures Carries(l'.posted, id, l'.accounts[id])
    {
      assert Carries(l.posted, id, l.accounts[id]);
    }
  }

  lemma OpenKeepsBooks(p: Policy, l: Ledger, a: Account)
    requires BooksBalance(l) && Verdict(p, l, NewAccount(a)).None?
    ensures BooksBalance(Apply(p, l, NewAccount(a)))
  {
    var l' := Apply(p, l, NewAccount(a));
    UnseenAccount(l.posted, a.id);
    forall id | id in l'.accounts
      ensures Carries(l'.posted, id, l'.accounts[id])
    {
      assert id != a.id ==> Carries(l.posted, id, l.accounts[id]);
    }
  }

  /** Whatever is sent to the ledger, in whatever batches, the books balance afterwards. */
  lemma {:induction false} BooksAlwaysBalance(p: Policy, l: Ledger, cs: seq<Create>)
    requires BooksBalance(l)
    ensures BooksBalance(ApplyAll(p, l, cs))
  {
    if cs != [] {
      var n := |cs| - 1;
      BooksAlwaysBalance(p, l, cs[..n]);
      var m := ApplyAll(p, l, cs[..n]);
      if Verdict(p, m, cs[n]).None? {
        match cs[n]
        case NewTransfer(t) => PostKeepsBooks(p, m, t);
        case NewAccount(a) => OpenKeepsBooks(p, m, a);
      }
    }
  }

  // Lookups

  /** Linear search, as in `iter().find(|acc| acc.id == id)`. */
  function FindAccount(accounts: seq<Account>, id: u128): (r: Option<Account>)
    ensures r.Some? ==> r.value in accounts && r.value.id == id
  {
    if accounts == [] then None
    else if accounts[0].id == id then Some(accounts[0])
    else FindAccount(accounts[1..], id)
  }

  function Held(l: Ledger, id: u128): Option<Account> {
    if id in l.accounts then Some(l.accounts[id]) else None
  }

  lemma {:induction false} NothingFound(l: Ledger, ids: seq<u128>, id: u128)
    requires BooksBalance(l) && id !in l.accounts
    ensures FindAccount(LookupAccounts(l, ids), id).None?
  {
    if ids != [] {
      NothingFound(l, ids[1..], id);
      if ids[0] in l.accounts {
        assert Carries(l.posted, ids[0], l.accounts[ids[0]]);
        assert LookupAccounts(l, ids)[1..] == LookupAccounts(l, ids[1..]);
      } else {
        assert LookupAccounts(l, ids) == LookupAccounts(l, ids[1..]);
      }
    }
  }

  /** Searching the answer of a lookup of many ids by one of them is the lookup of that one. */
  lemma {:induction false} SearchedLookup(l: Ledger, ids: seq<u128>, id: u128)
    requires BooksBalance(l) && id in ids
    ensures FindAccount(LookupAccounts(l, ids), id) == Held(l, id)
  {
    var rest := LookupAccounts(l, ids[1..]);
    if ids[0] in l.accounts {
      assert Carries(l.posted, ids[0], l.accounts[ids[0]]);
      assert LookupAccounts(l, ids)[1..] == rest;
    } else {
      assert LookupAccounts(l, ids) == rest;
    }
    if id != ids[0] {
      SearchedLookup(l, ids[1..], id);
    } else if id !in l.accounts {
      NothingFound(l, ids[1..], id);
    }
  }

  /** The same for transfers. */
  lemma {:induction false} SearchedTransferLookup(l: Ledger, ids: seq<u128>, id: u128)
    ensures FindTransfer(LookupTransfers(l, ids), id) == if id in ids then FindTransfer(l.posted, id) else None
  {
    if ids != [] {
      SearchedTransferLookup(l, ids[1..], id);
      if FindTransfer(l.posted, ids[0]).Some? {
        assert LookupTransfers(l, ids)[1..] == LookupTransfers(l, ids[1..]);
      }
    }
  }

  /** A lookup of many ids is the lookups of each, one after the other. */
  lemma {:induction false} LookupEach(l: Ledger, a: seq<u128>, b: seq<u128>, id: u128)
    ensures LookupAccounts(l, a + b) == LookupAccounts(l, a) + LookupAccounts(l, b)
    ensures LookupTransfers(l, a + b) == LookupTransfers(l, a) + LookupTransfers(l, b)
    ensures LookupAccounts(l, [id]) == if id in l.accounts then [l.accounts[id]] else []
    ensures forall t :: t in LookupTransfers(l, [id]) ==> t in l.posted && t.id == id
    ensures |LookupTransfers(l, [id])| == if IsPosted(l.posted, id) then 1 else 0
  {
    assert [id][1..] == [] && LookupAccounts(l, []) == [] && LookupTransfers(l, []) == [];
    if a == [] {
      assert a + b == b;
    } else {
      assert (a + b)[1..] == a[1..] + b;
      LookupEach(l, a[1..], b, id);
    }
  }

  /** The answer is empty exactly when none of the ids has an account. */
  lemma {:induction false} NoneFound(l: Ledger, ids: seq<u128>)
    ensures LookupAccounts(l, ids) == [] <==> forall id | id in ids :: id !in l.accounts
  {
    if ids != [] {
      NoneFound(l, ids[1..]);
      assert ids == [ids[0]] + ids[1..];
    }
  }

  /** f is the first of the ids asked for that has an account. */
  ghost predicate FirstFound(l: Ledger, ids: seq<u128>, f: nat) {
    f < |ids| && ids[f] in l.accounts && forall j | 0 <= j < f :: ids[j] !in l.accounts
  }

  /**
    The first entry of the answer is the account of the first id found, so it is the account
    of an asker whose account exists exactly when that asker's id is the first one found.
   */
  lemma {:induction false} FirstEntry(l: Ledger, ids: seq<u128>, f: nat, id: u128)
    requires BooksBalance(l) && FirstFound(l, ids, f) && id in l.accounts
    ensures LookupAccounts(l, ids) != []
    ensures LookupAccounts(l, ids)[0] == l.accounts[id] <==> id == ids[f]
  {
    assert Carries(l.posted, id, l.accounts[id]) && Carries(l.posted, ids[f], l.accounts[ids[f]]);
    if f > 0 {
      FirstEntry(l, ids[1..], f - 1, id);
      assert LookupAccounts(l, ids) == LookupAccounts(l, ids[1..]);
    }
  }
}
