/** Retention policies: each handler is one transaction that commits or rolls back as a whole
    (coordinator/src/routes/retention.rs, migrations/0007_retention_policies.sql). */
module RetentionPolicies {
  import opened Common

  datatype Policy = Policy(name: string, keepDays: int, isDefault: bool)

  /** The policies, and the rows of other tables whose foreign key names one. */
  datatype State = State(policies: map<Uuid, Policy>, references: map<nat, Uuid>)

  datatype Error = Forbidden | BadRequest | NotFound | Conflict | DatabaseError

  datatype Transaction =
    | Create(admin: bool, newId: Uuid, name: string, keepDays: int, isDefault: Option<bool>)
    | Update(admin: bool, id: Uuid, newName: Option<string>, newDays: Option<int>, newDefault: Option<bool>)
    | Delete(admin: bool, id: Uuid)
    | Refer(row: nat, id: Uuid)   // a camera or recording row is written with this policy
    | Unrefer(row: nat)           // such a row is deleted

  predicate NameTaken(policies: map<Uuid, Policy>, name: string, except: Uuid) {
    exists id | id in policies :: id != except && policies[id].name == name
  }

  /** UPDATE retention_policies SET is_default = false WHERE is_default = true AND id != except */
  function ClearDefault(policies: map<Uuid, Policy>, except: Option<Uuid>): map<Uuid, Policy> {
    map id | id in policies :: if except == Some(id) then policies[id] else policies[id].(isDefault := false)
  }

  predicate SecondDefault(policies: map<Uuid, Policy>, id: Uuid, row: Policy) {
    row.isDefault && exists other | other in policies :: other != id && policies[other].isDefault
  }

  /** Writing one row under the UNIQUE(name), CHECK (keep_days > 0) and single-default constraints. */
  function Write(policies: map<Uuid, Policy>, id: Uuid, row: Policy): Result<map<Uuid, Policy>, Error> {
    if row.keepDays <= 0 then Err(DatabaseError)
    else if NameTaken(policies, row.name, id) || SecondDefault(policies, id, row) then Err(Conflict)
    else Ok(policies[id := row])
  }

  /** The outcome of one transaction; an error means rollback. */
  function Outcome(s: State, t: Transaction): Result<State, Error> {
    match t
    case Create(admin, id, name, days, isDefault) =>
      if !admin then Err(Forbidden)
      else if days <= 0 then Err(BadRequest)
      else
        var d := Coalesce(isDefault, false);
        var cleared := if d then ClearDefault(s.policies, None) else s.policies;
        (match Write(cleared, id, Policy(name, days, d))
         case Err(e) => Err(e)
         case Ok(policies) => Ok(s.(policies := policies)))
    case Update(admin, id, name, days, isDefault) =>
      if !admin then Err(Forbidden)
      else if days.Some? && days.value <= 0 then Err(BadRequest)
      else
        var cleared := if isDefault == Some(true) then ClearDefault(s.policies, Some(id)) else s.policies;
        if id !in cleared then Err(NotFound)
        else
          var p := cleared[id];
          (match Write(cleared, id, Policy(Coalesce(name, p.name), Coalesce(days, p.keepDays), Coalesce(isDefault, p.isDefault)))
           case Err(e) => Err(e)
           case Ok(policies) => Ok(s.(policies := policies)))
    case Delete(admin, id) =>
      if !admin then Err(Forbidden)
      else if id !in s.policies then Err(NotFound)
      else if exists row | row in s.references :: s.references[row] == id then Err(DatabaseError)
      else Ok(s.(policies := s.policies - {id}))
    case Refer(row, id) =>
      if id in s.policies then Ok(s.(references := s.references[row := id])) else Err(DatabaseError)
    case Unrefer(row) => Ok(s.(references := s.references - {row}))
  }

  function After(s: State, t: Transaction): State {
    match Outcome(s, t)
    case Ok(s') => s'
    case Err(_) => s
  }

  // ---- The same transactions on the table itself ----

  class Store {
    var policies: map<Uuid, Policy>
    var references: map<nat, Uuid>

    function Value(): State
      reads this
    {
      State(policies, references)
    }

    constructor ()
      ensures policies == map[] && references == map[]
    {
      policies, references := map[], map[];
    }

    /** Writes inside a transaction: the constraints are checked against the transaction's own view. */
    static method Insert(tx: map<Uuid, Policy>, id: Uuid, row: Policy) returns (r: Result<map<Uuid, Policy>, Error>)
      ensures r == Write(tx, id, row)
    {
      r := Write(tx, id, row);
    }

    method CreatePolicy(admin: bool, newId: Uuid, name: string, keepDays: int, isDefault: Option<bool>)
      returns (r: Result<Uuid, Error>)
      modifies this`policies
      ensures Value() == After(old(Value()), Create(admin, newId, name, keepDays, isDefault))
      ensures r.Err? <==> Outcome(old(Value()), Create(admin, newId, name, keepDays, isDefault)).Err?
      ensures r.Err? ==> Outcome(old(Value()), Create(admin, newId, name, keepDays, isDefault)) == Err(r.error)
      ensures r.Err? ==> policies == old(policies)
      ensures r.Ok? ==> newId in policies && policies[newId] == Policy(name, keepDays, Coalesce(isDefault, false))
    {
      if !admin {
        return Err(Forbidden);
      }
      if keepDays <= 0 {
        return Err(BadRequest);
      }
      var d := Coalesce(isDefault, false);
      var tx := policies;
      if d {
        tx := ClearDefault(tx, None);
      }
      var written := Insert(tx, newId, Policy(name, keepDays, d));
      if written.Err? {
        return Err(written.error);
      }
      policies := written.value;
      r := Ok(newId);
    }

    method UpdatePolicy(admin: bool, id: Uuid, name: Option<string>, keepDays: Option<int>, isDefault: Option<bool>)
      returns (r: Result<Policy, Error>)
      modifies this`policies
      ensures Value() == After(old(Value()), Update(admin, id, name, keepDays, isDefault))
      ensures r.Err? <==> Outcome(old(Value()), Update(admin, id, name, keepDays, isDefault)).Err?
      ensures r.Err? ==> Outcome(old(Value()), Update(admin, id, name, keepDays, isDefault)) == Err(r.error)
      ensures r.Err? ==> policies == old(policies)
      ensures r.Ok? ==> id in policies && policies[id] == r.value
    {
      if !admin {
        return Err(Forbidden);
      }
      if keepDays.Some? && keepDays.value <= 0 {
        return Err(BadRequest);
      }
      var tx := policies;
      if isDefault == Some(true) {
        tx := ClearDefault(tx, Some(id));
      }
      if id !in tx {
        return Err(NotFound);
      }
      var row := Policy(Coalesce(name, tx[id].name), Coalesce(keepDays, tx[id].keepDays), Coalesce(isDefault, tx[id].isDefault));
      var written := Insert(tx, id, row);
      if written.Err? {
        return Err(written.error);
      }
      policies := written.value;
      r := Ok(row);
    }

    method DeletePolicy(admin: bool, id: Uuid) returns (r: Result<(), Error>)
      modifies this`policies
      ensures Value() == After(old(Value()), Delete(admin, id))
      ensures r.Err? <==> Outcome(old(Value()), Delete(admin, id)).Err?
      ensures r.Err? ==> Outcome(old(Value()), Delete(admin, id)) == Err(r.error)
      ensures r.Ok? ==> id in old(policies) && id !in policies
    {
      if !admin {
        return Err(Forbidden);
      }
      if id !in policies {
        return Err(NotFound);
      }
      if exists row | row in references :: references[row] == id {
        return Err(DatabaseError);
      }
      policies := policies - {id};
      r := Ok(());
    }
  }

  // ---- Invariants over all transactions ----

  function Defaults(policies: map<Uuid, Policy>): set<Uuid> {
    set id | id in policies && policies[id].isDefault
  }

  ghost predicate Valid(s: State) {
    && (forall a, b | a in Defaults(s.policies) && b in Defaults(s.policies) :: a == b)
    && (forall id | id in s.policies :: s.policies[id].keepDays > 0)
    && (forall a, b | a in s.policies && b in s.policies && s.policies[a].name == s.policies[b].name :: a == b)
    && (forall row | row in s.references :: s.references[row] in s.policies)
  }

  /** Which policy is the default afterwards, said without the handlers: the last one successfully made so,
      unless it was unset or deleted since. */
  function DefaultsAfter(s: State, t: Transaction): set<Uuid> {
    if Outcome(s, t).Err? then Defaults(s.policies)
    else
      match t
      case Create(_, id, _, _, d) => if d == Some(true) then {id} else Defaults(s.policies)
      case Update(_, id, _, _, d) =>
        if d == Some(true) then {id} else if d == Some(false) then Defaults(s.policies) - {id} else Defaults(s.policies)
      case Delete(_, id) => Defaults(s.policies) - {id}
      case _ => Defaults(s.policies)
  }

  predicate FreshId(s: State, t: Transaction) {
    t.Create? ==> t.newId !in s.policies
  }

  lemma TransactionDefaults(s: State, t: Transaction)
    requires FreshId(s, t)
    ensures Defaults(After(s, t).policies) == DefaultsAfter(s, t)
  {
  }

  lemma TransactionValid(s: State, t: Transaction)
    requires Valid(s) && FreshId(s, t)
    ensures Valid(After(s, t))
  {
    TransactionDefaults(s, t);
    match t
    case Create(_, _, _, _, _) => RowsValid(s, t);
    case Update(_, _, _, _, _) => RowsValid(s, t);
    case _ =>
  }

  lemma RowsValid(s: State, t: Transaction)
    requires Valid(s) && FreshId(s, t) && (t.Create? || t.Update?)
    ensures var p := After(s, t).policies;
            && (forall id | id in p :: p[id].keepDays > 0)
            && (forall a, b | a in p && b in p && p[a].name == p[b].name :: a == b)
            && (forall row | row in After(s, t).references :: After(s, t).references[row] in p)
  {
  }

  predicate FreshIds(s: State, ts: seq<Transaction>)
    decreases |ts|
  {
    ts == [] || (FreshId(s, ts[0]) && FreshIds(After(s, ts[0]), ts[1..]))
  }

  function AfterAll(s: State, ts: seq<Transaction>): State
    decreases |ts|
  {
    if ts == [] then s else AfterAll(After(s, ts[0]), ts[1..])
  }

  /** Over any sequence of transactions: one default at most, positive retention, unique names, and no row
      refers to a missing policy. */
  lemma {:induction false} PolicyInvariants(s: State, ts: seq<Transaction>)
    requires Valid(s) && FreshIds(s, ts)
    ensures Valid(AfterAll(s, ts))
    decreases |ts|
  {
    if ts != [] {
      TransactionValid(s, ts[0]);
      PolicyInvariants(After(s, ts[0]), ts[1..]);
    }
  }

  lemma ClearKeepsNames(policies: map<Uuid, Policy>, kept: Option<Uuid>, name: string, except: Uuid)
    ensures NameTaken(ClearDefault(policies, kept), name, except) <==> NameTaken(policies, name, except)
  {
    var cleared := ClearDefault(policies, kept);
    assert forall id | id in policies :: id in cleared && cleared[id].name == policies[id].name;
  }

  /** The constraint checks of a valid table never fire on the default flag: a create or update fails only
      for the reasons its handler documents. */
  lemma FailureReasons(s: State, t: Transaction)
    requires Valid(s) && FreshId(s, t)
    ensures t.Create? ==>
              (Outcome(s, t).Err? <==>
                !t.admin || t.keepDays <= 0 || exists id | id in s.policies :: s.policies[id].name == t.name)
    ensures t.Update? ==>
              (Outcome(s, t).Err? <==>
                || !t.admin || (t.newDays.Some? && t.newDays.value <= 0) || t.id !in s.policies
                || (t.newName.Some? && exists id | id in s.policies :: id != t.id && s.policies[id].name == t.newName.value))
  {
    if t.Create? {
      ClearKeepsNames(s.policies, None, t.name, t.newId);
      assert NameTaken(s.policies, t.name, t.newId) <==> exists id | id in s.policies :: s.policies[id].name == t.name;
    }
    if t.Update? && t.id in s.policies {
      var name := Coalesce(t.newName, s.policies[t.id].name);
      ClearKeepsNames(s.policies, Some(t.id), name, t.id);
      assert t.id in Defaults(s.policies) <==> s.policies[t.id].isDefault;
      assert forall o | o in s.policies :: s.policies[o].isDefault <==> o in Defaults(s.policies);
    }
  }

  // ---- What each transaction does, exactly ----

  /** Every policy but `except` is as it was, less the default flag if another one took it. */
  ghost predicate OthersKept(before: map<Uuid, Policy>, after: map<Uuid, Policy>, except: Uuid, taken: bool) {
    forall id | id != except ::
      && (id in after <==> id in before)
      && (id in after ==> after[id] == Policy(before[id].name, before[id].keepDays, before[id].isDefault && !taken))
  }

  /** A create: which error when, and otherwise the row asked for, the default flag handed over if it asks for it. */
  lemma CreateExact(s: State, admin: bool, id: Uuid, name: string, days: int, isDefault: Option<bool>)
    requires Valid(s) && id !in s.policies
    ensures var o := Outcome(s, Create(admin, id, name, days, isDefault));
            var taken := exists x | x in s.policies :: s.policies[x].name == name;
            && (o == Err(Forbidden) <==> !admin)
            && (o == Err(BadRequest) <==> admin && days <= 0)
            && (o == Err(Conflict) <==> admin && days > 0 && taken)
            && (o.Ok? <==> admin && days > 0 && !taken)
            && (o.Ok? ==>
                  && o.value.references == s.references
                  && id in o.value.policies && o.value.policies[id] == Policy(name, days, isDefault == Some(true))
                  && OthersKept(s.policies, o.value.policies, id, isDefault == Some(true)))
  {
    FailureReasons(s, Create(admin, id, name, days, isDefault));
    ClearKeepsNames(s.policies, None, name, id);
    NoSecondDefault(s.policies, None, id, Policy(name, days, isDefault == Some(true)));
  }

  /** Once the other defaults are cleared the single-default index is content. */
  lemma NoSecondDefault(policies: map<Uuid, Policy>, kept: Option<Uuid>, id: Uuid, row: Policy)
    requires kept == None || kept == Some(id)
    ensures !SecondDefault(ClearDefault(policies, kept), id, row)
  {
  }

  /** An update: which error when, and otherwise each field given or as before. */
  lemma UpdateExact(s: State, admin: bool, id: Uuid, name: Option<string>, days: Option<int>, isDefault: Option<bool>)
    requires Valid(s)
    ensures var o := Outcome(s, Update(admin, id, name, days, isDefault));
            var bad, taken := days.Some? && days.value <= 0,
                              name.Some? && exists x | x in s.policies :: x != id && s.policies[x].name == name.value;
            && (o == Err(Forbidden) <==> !admin)
            && (o == Err(BadRequest) <==> admin && bad)
            && (o == Err(NotFound) <==> admin && !bad && id !in s.policies)
            && (o == Err(Conflict) <==> admin && !bad && id in s.policies && taken)
            && (o.Ok? <==> admin && !bad && id in s.policies && !taken)
            && (o.Ok? ==>
                  && o.value.references == s.references
                  && id in o.value.policies
                  && o.value.policies[id].name == (match name case Some(v) => v case None => s.policies[id].name)
                  && o.value.policies[id].keepDays == (match days case Some(v) => v case None => s.policies[id].keepDays)
                  && o.value.policies[id].isDefault == (match isDefault case Some(v) => v case None => s.policies[id].isDefault)
                  && OthersKept(s.policies, o.value.policies, id, isDefault == Some(true)))
  {
    FailureReasons(s, Update(admin, id, name, days, isDefault));
  }

  /** A delete: which error when, and otherwise the policy goes and nothing else changes. */
  lemma DeleteExact(s: State, admin: bool, id: Uuid)
    ensures var o := Outcome(s, Delete(admin, id));
            var used := exists row | row in s.references :: s.references[row] == id;
            && (o == Err(Forbidden) <==> !admin)
            && (o == Err(NotFound) <==> admin && id !in s.policies)
            && (o == Err(DatabaseError) <==> admin && id in s.policies && used)
            && (o.Ok? ==> o.value == State(s.policies - {id}, s.references))
  {
  }

  /** A row of another table may name a policy exactly if that exists, and then does until it goes or names another. */
  lemma ReferExact(s: State, row: nat, id: Uuid)
    ensures Outcome(s, Refer(row, id))
         == if id in s.policies then Ok(State(s.policies, s.references[row := id])) else Err(DatabaseError)
    ensures Outcome(s, Unrefer(row)) == Ok(State(s.policies, s.references - {row}))
  {
  }
}
