/** The audit trigger: every change of an audited row writes a log entry, and the log replays to the tables. */
module Audit {
  import opened Wrappers
  import opened Uuids

  /** The tables that carry the trigger. */
  datatype Table =
    | Providers | Users | UserProviders | UserAccounts | ProviderBankAccounts | ProviderLiquidityLimits
    | ProviderSettlements | Transactions | UserPriorityConfigs | UserPriorityItems | SystemAccounts

  datatype Key = Key(table: Table, id: Uuid)

  type Json = string  // a row as `to_jsonb` renders it

  datatype AuditAction = INSERT | UPDATE | DELETE

  datatype Entry = Entry(key: Key, actor: Uuid, action: AuditAction, oldValues: Option<Json>, newValues: Option<Json>)

  /** The audited rows and the log. */
  datatype Store = Store(rows: map<Key, Json>, log: seq<Entry>)

  const EMPTY_STORE := Store(map[], [])

  /** What a transaction does: set the actor for itself, change a row, or run into some other error. */
  datatype Step =
    | SetActor(text: string)
    | Insert(key: Key, row: Json)
    | Update(key: Key, row: Json)
    | Delete(key: Key)
    | Error

  function RowAt(rows: map<Key, Json>, key: Key): Option<Json> {
    if key in rows then Some(rows[key]) else None
  }

  /** The row before and after a step that touches one; None when it touches none. */
  function Touch(rows: map<Key, Json>, s: Step): Option<(Key, AuditAction, Option<Json>, Option<Json>)> {
    match s
    case Insert(key, row) => Some((key, INSERT, None, Some(row)))
    case Update(key, row) => if key in rows then Some((key, UPDATE, Some(rows[key]), Some(row))) else None
    case Delete(key) => if key in rows then Some((key, DELETE, Some(rows[key]), None)) else None
    case _ => None
  }

  /** One step under the transaction-local setting `actor`; None when it raises. */
  function Do(t: Store, actor: string, s: Step): Option<Store> {
    match s
    case SetActor(_) => Some(t)
    case Error => None
    case _ =>
      if s.Insert? && s.key in t.rows then None  // the primary key
      else
        match Touch(t.rows, s)
        case None => Some(t)
        case Some((key, action, before, after)) =>
          match Parse(actor)
          case None => None  // app.current_user_id must be set
          case Some(a) =>
            Some(Store(if after.Some? then t.rows[key := after.value] else t.rows - {key},
                       t.log + [Entry(key, a, action, before, after)]))
  }

  /** The setting after the first n steps; it is empty when a transaction begins. */
  function ActorAt(steps: seq<Step>): string {
    if steps == [] then ""
    else if steps[|steps| - 1].SetActor? then steps[|steps| - 1].text
    else ActorAt(steps[..|steps| - 1])
  }

  /** The steps of a transaction in order, before it commits; None when one of them raises. */
  function DoAll(t: Store, steps: seq<Step>): Option<Store> {
    if steps == [] then Some(t)
    else
      match DoAll(t, steps[..|steps| - 1])
      case None => None
      case Some(before) => Do(before, ActorAt(steps[..|steps| - 1]), steps[|steps| - 1])
  }

  /** A transaction: all of its steps, or nothing. */
  function Transact(t: Store, steps: seq<Step>): Store {
    match DoAll(t, steps)
    case Some(after) => after
    case None => t
  }

  function TransactAll(transactions: seq<seq<Step>>): Store {
    if transactions == [] then EMPTY_STORE
    else Transact(TransactAll(transactions[..|transactions| - 1]), transactions[|transactions| - 1])
  }

  lemma {:induction false} RaisedStays(t: Store, steps: seq<Step>, k: nat)
    requires k <= |steps| && DoAll(t, steps[..k]).None?
    ensures DoAll(t, steps).None?
    decreases |steps| - k
  {
    if k < |steps| {
      assert steps[..k + 1][..k] == steps[..k];
      RaisedStays(t, steps, k + 1);
    } else {
      assert steps[..k] == steps;
    }
  }

  class Database {
    var rows: map<Key, Json>
    var log: seq<Entry>
    var setting: string  // app.current_user_id

    ghost function Now(): Store
      reads this
    {
      Store(rows, log)
    }

    constructor ()
      ensures Now() == EMPTY_STORE
    {
      rows, log, setting := map[], [], "";
    }

    /** `fn_audit_trigger`: false stands for the exception it raises without an actor. */
    method FnAuditTrigger(key: Key, action: AuditAction, oldRow: Option<Json>, newRow: Option<Json>)
            returns (returned: bool)
      modifies this`log
      ensures returned <==> Parse(setting).Some?
      ensures log == if !returned then old(log)
                     else old(log) + [Entry(key, Parse(setting).value, action,
                                            if action == INSERT then None else oldRow,
                                            if action == DELETE then None else newRow)]
    {
      var currentActor := Parse(setting);
      if currentActor.None? {
        return false;
      }
      match action {
        case INSERT => log := log + [Entry(key, currentActor.value, INSERT, None, newRow)];
        case UPDATE => log := log + [Entry(key, currentActor.value, UPDATE, oldRow, newRow)];
        case DELETE => log := log + [Entry(key, currentActor.value, DELETE, oldRow, None)];
      }
      returned := true;
    }

    /** One step; false when it raises. */
    method Execute(s: Step) returns (ok: bool)
      modifies this
      ensures ok <==> Do(old(Now()), old(setting), s).Some?
      ensures ok ==> Now() == Do(old(Now()), old(setting), s).value
      ensures ok ==> setting == if s.SetActor? then s.text else old(setting)
    {
      match s
      case SetActor(text) =>
        setting := text;
        ok := true;
      case Error => ok := false;
      case Insert(key, row) =>
        if key in rows {
          return false;
        }
        ok := FnAuditTrigger(key, INSERT, None, Some(row));
        if ok {
          rows := rows[key := row];
        }
      case Update(key, row) =>
        ok := true;
        if key in rows {
          ok := FnAuditTrigger(key, UPDATE, Some(rows[key]), Some(row));
          if ok {
            rows := rows[key := row];
          }
        }
      case Delete(key) =>
        ok := true;
        if key in rows {
          ok := FnAuditTrigger(key, DELETE, Some(rows[key]), None);
          if ok {
            rows := rows - {key};
          }
        }
    }

    /** A whole transaction: the setting is local to it, and an error in any step undoes all of them. */
    method RunTransaction(steps: seq<Step>) returns (committed: bool)
      modifies this
      ensures Now() == Transact(old(Now()), steps)
      ensures committed <==> DoAll(old(Now()), steps).Some?
    {
      hide Do;
      var rows0, log0 := rows, log;
      setting := "";
      var k := 0;
      while k < |steps|
        invariant k <= |steps|
        invariant DoAll(old(Now()), steps[..k]) == Some(Now()) && setting == ActorAt(steps[..k])
      {
        assert steps[..k + 1][..k] == steps[..k];
        var ok := Execute(steps[k]);
        if !ok {
          RaisedStays(old(Now()), steps, k + 1);
          rows, log := rows0, log0;
          return false;
        }
        k := k + 1;
      }
      assert steps[..k] == steps;
      committed := true;
    }
  }

  // Steps

  /**
    The row after a step that did not raise: the one written, none where it was deleted, and the old one
    everywhere else.
   */
  ghost predicate RowsAfter(before: map<Key, Json>, after: map<Key, Json>, s: Step) {
    forall key: Key ::
      RowAt(after, key)
      == match s
         case Insert(k, row) => if key == k then Some(row) else RowAt(before, key)
         case Update(k, row) => if key == k && RowAt(before, key).Some? then Some(row) else RowAt(before, key)
         case Delete(k) => if key == k then None else RowAt(before, key)
         case SetActor(_) => RowAt(before, key)
         case Error => RowAt(before, key)
  }

  /** The step changes a row, or would. */
  ghost predicate Touches(rows: map<Key, Json>, s: Step) {
    match s
    case Insert(_, _) => true
    case Update(key, _) => RowAt(rows, key).Some?
    case Delete(key) => RowAt(rows, key).Some?
    case SetActor(_) => false
    case Error => false
  }

  /**
    A step: when it raises, what it does to the rows, and what it writes to the log. It raises for an
    error, for an insert whose row is there, and for any change of a row without a valid actor.
   */
  lemma StepExactly(t: Store, actor: string, s: Step)
    ensures Do(t, actor, s).None? <==>
            s.Error? || (s.Insert? && RowAt(t.rows, s.key).Some?) || (Touches(t.rows, s) && Parse(actor).None?)
    ensures Do(t, actor, s).Some? ==> RowsAfter(t.rows, Do(t, actor, s).value.rows, s)
    ensures Do(t, actor, s).Some? && !Touches(t.rows, s) ==> Do(t, actor, s).value.log == t.log
    ensures Do(t, actor, s).Some? && Touches(t.rows, s) ==>
              var log := Do(t, actor, s).value.log;
              && |log| == |t.log| + 1 && t.log <= log
              && var e := log[|t.log|];
                 && e.key == s.key && Some(e.actor) == Parse(actor)
                 && e.oldValues == RowAt(t.rows, s.key) && e.newValues == RowAt(Do(t, actor, s).value.rows, s.key)
                 && e.action == (if s.Insert? then INSERT else if s.Update? then UPDATE else DELETE)
  {
    hide Parse;
  }

  /** The actor is the one set last in the transaction, and none before the first is set. */
  lemma {:induction false} ActorIsLast(steps: seq<Step>, n: nat)
    requires n < |steps| && steps[n].SetActor? && forall i | n < i < |steps| :: !steps[i].SetActor?
    ensures ActorAt(steps) == steps[n].text
  {
    if n < |steps| - 1 {
      ActorIsLast(steps[..|steps| - 1], n);
    }
  }

  // Replay

  function ReplayEntry(rows: map<Key, Json>, e: Entry): map<Key, Json> {
    match e.newValues
    case Some(row) => rows[e.key := row]
    case None => rows - {e.key}
  }

  /** The tables rebuilt from the log alone. */
  function Replay(log: seq<Entry>): map<Key, Json> {
    if log == [] then map[] else ReplayEntry(Replay(log[..|log| - 1]), log[|log| - 1])
  }

  /** Entry j tells the row as the entries before it left it, and its action fits what it tells. */
  ghost predicate EntryOk(log: seq<Entry>, j: nat)
    requires j < |log|
  {
    var e := log[j];
    && e.oldValues == RowAt(Replay(log[..j]), e.key)
    && (e.action == INSERT <==> e.oldValues.None?)
    && (e.action == DELETE <==> e.newValues.None?)
  }

  ghost predicate LogTellsAll(t: Store) {
    && Replay(t.log) == t.rows
    && forall j | 0 <= j < |t.log| :: EntryOk(t.log, j)
  }

  lemma DoTells(t: Store, actor: string, s: Step)
    requires LogTellsAll(t) && Do(t, actor, s).Some?
    ensures LogTellsAll(Do(t, actor, s).value)
  {
    hide Parse;
    var t' := Do(t, actor, s).value;
    if t' != t {
      var n := |t.log|;
      assert t'.log[..n] == t.log;
      forall j | 0 <= j < |t'.log|
        ensures EntryOk(t'.log, j)
      {
        assert j <= n && t'.log[..j] == t.log[..j];
        assert j < n ==> EntryOk(t.log, j);
      }
    }
  }

  lemma {:induction false} DoAllTells(t: Store, steps: seq<Step>)
    requires LogTellsAll(t) && DoAll(t, steps).Some?
    ensures LogTellsAll(DoAll(t, steps).value)
  {
    hide LogTellsAll, Do;
    if steps != [] {
      var n := |steps| - 1;
      DoAllTells(t, steps[..n]);
      DoTells(DoAll(t, steps[..n]).value, ActorAt(steps[..n]), steps[n]);
    }
  }

  lemma NothingTold()
    ensures LogTellsAll(EMPTY_STORE)
  {
  }

  /**
    After any transactions, folding the log from nothing gives every audited row, and each entry's
    old values are the row as the earlier entries for it left it.
   */
  lemma {:induction false} LogReplaysToTables(transactions: seq<seq<Step>>)
    ensures LogTellsAll(TransactAll(transactions))
  {
    hide LogTellsAll, DoAll;
    if transactions == [] {
      NothingTold();
    } else {
      var before := TransactAll(transactions[..|transactions| - 1]);
      LogReplaysToTables(transactions[..|transactions| - 1]);
      if DoAll(before, transactions[|transactions| - 1]).Some? {
        DoAllTells(before, transactions[|transactions| - 1]);
      }
    }
  }

  // Actors

  lemma {:induction false} LogGrows(t: Store, steps: seq<Step>)
    requires DoAll(t, steps).Some?
    ensures t.log <= DoAll(t, steps).value.log
  {
    hide Parse;
    if steps != [] {
      LogGrows(t, steps[..|steps| - 1]);
    }
  }

  /** A transaction that sets its actor first, as the repository's do, signs all of its entries with that actor. */
  lemma {:induction false} EntriesAreSigned(t: Store, actor: Uuid, steps: seq<Step>)
    requires forall s | s in steps :: !s.SetActor?
    requires DoAll(t, [SetActor(ToString(actor))] + steps).Some?
    ensures ActorAt([SetActor(ToString(actor))] + steps) == ToString(actor)
    ensures t.log <= DoAll(t, [SetActor(ToString(actor))] + steps).value.log
    ensures forall j | |t.log| <= j < |DoAll(t, [SetActor(ToString(actor))] + steps).value.log| ::
              DoAll(t, [SetActor(ToString(actor))] + steps).value.log[j].actor == actor
  {
    hide Parse, ToString, Touch;
    var all := [SetActor(ToString(actor))] + steps;
    LogGrows(t, all);
    if steps == [] {
      assert all[..0] == [];
    } else {
      var n := |steps| - 1;
      assert steps[n] in steps;
      assert all[..n + 1] == [SetActor(ToString(actor))] + steps[..n];
      EntriesAreSigned(t, actor, steps[..n]);
      ParseRoundTrip(actor);
    }
  }

  lemma {:induction false} NoActor(steps: seq<Step>)
    requires forall s | s in steps :: !s.SetActor?
    ensures ActorAt(steps) == "" && Parse("").None?
  {
    if steps != [] {
      assert steps[|steps| - 1] in steps;
      NoActor(steps[..|steps| - 1]);
    }
  }

  /** A transaction that never sets an actor changes nothing, neither a row nor the log, whether it fails or not. */
  lemma {:induction false} WithoutActorNothing(t: Store, steps: seq<Step>)
    requires forall s | s in steps :: !s.SetActor?
    ensures DoAll(t, steps).Some? ==> DoAll(t, steps).value == t
    ensures Transact(t, steps) == t
  {
    if steps != [] {
      var n := |steps| - 1;
      assert steps[n] in steps;
      WithoutActorNothing(t, steps[..n]);
      NoActor(steps[..n]);
    }
  }

  /** It fails exactly when one of its steps would touch a row or run into an error. */
  lemma {:induction false} WithoutActorFails(t: Store, steps: seq<Step>)
    requires forall s | s in steps :: !s.SetActor?
    ensures DoAll(t, steps).None? <==> exists s :: s in steps && (s.Error? || Touch(t.rows, s).Some?)
  {
    if steps != [] {
      var n := |steps| - 1;
      assert steps == steps[..n] + [steps[n]];
      assert steps[n] in steps;
      WithoutActorFails(t, steps[..n]);
      WithoutActorNothing(t, steps[..n]);
      NoActor(steps[..n]);
    }
  }

  /**
    The updates of `soft_delete_priority_config`, which sets no actor: all items of the configuration,
    then the configuration.
   */
  function SoftDelete(items: seq<(Uuid, Json)>, config: Uuid, deleted: Json): seq<Step> {
    seq(|items|, i requires 0 <= i < |items| => Update(Key(UserPriorityItems, items[i].0), items[i].1))
    + [Update(Key(UserPriorityConfigs, config), deleted)]
  }

  /** The soft delete deletes nothing, and it fails exactly when the configuration or one of its items exists. */
  lemma SoftDeleteNeverDeletes(t: Store, items: seq<(Uuid, Json)>, config: Uuid, deleted: Json)
    ensures Transact(t, SoftDelete(items, config, deleted)) == t
    ensures DoAll(t, SoftDelete(items, config, deleted)).None? <==>
              || Key(UserPriorityConfigs, config) in t.rows
              || exists i :: 0 <= i < |items| && Key(UserPriorityItems, items[i].0) in t.rows
  {
    var steps := SoftDelete(items, config, deleted);
    WithoutActorNothing(t, steps);
    WithoutActorFails(t, steps);
    assert steps[|items|] == Update(Key(UserPriorityConfigs, config), deleted);
    assert forall i | 0 <= i < |items| :: steps[i] == Update(Key(UserPriorityItems, items[i].0), items[i].1);
    assert forall i | 0 <= i < |steps| :: steps[i] in steps;
    if s :| s in steps && (s.Error? || Touch(t.rows, s).Some?) {
      var i :| 0 <= i < |steps| && steps[i] == s;
    }
  }
}
