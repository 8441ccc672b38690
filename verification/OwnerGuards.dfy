/** scripts/gen_access_rules.py: owner_guards. */
module OwnerGuards {
  // A record that more people may update than delete must be declared, so that the hook can keep an editor
  // from taking over its owner column.

  import opened AccessRules
  import opened RuleMeaning
  import opened Wrappers

  datatype Rule = Any | Filtered(name: string)

  datatype Actions = Actions(update: Option<Rule>, delete: Option<Rule>)

  datatype Spec = Spec(field: string, key: string, valueKey: string)

  datatype Guard = Guard(field: string, key: string, valueKey: string, filter: Json)

  datatype GuardError = NoFilter(collection: string) | BadSet(error: RulesError) | WiderUpdate(collection: string)

  predicate HasFilter(rule: Option<Rule>) {
    rule.Some? && rule.value.Filtered?
  }

  // rules.get(collection, {}).get(action)
  function Lookup(rules: map<string, Actions>, collection: string): Actions {
    if collection in rules then rules[collection] else Actions(None, None)
  }

  // The generated guard carries the delete rule of its collection.
  predicate Carries(sets: Sets, actions: Actions, spec: Spec, guard: Guard) {
    && HasFilter(actions.update) && HasFilter(actions.delete)
    && guard.field == spec.field && guard.key == spec.key && guard.valueKey == spec.valueKey
    && SetFilter(sets, actions.delete.value.name) == Ok(guard.filter)
  }

  // An undeclared collection filters update and delete alike.
  predicate SameRules(sets: Sets, actions: Actions) {
    HasFilter(actions.update) && HasFilter(actions.delete) ==>
      SetFilter(sets, actions.update.value.name).Ok? && SetFilter(sets, actions.update.value.name) == SetFilter(sets, actions.delete.value.name)
  }

  // The collections declared.
  function Names(declared: seq<(string, Spec)>): (names: set<string>)
    ensures forall c :: c in names <==> exists i :: 0 <= i < |declared| && declared[i].0 == c
  {
    set i | 0 <= i < |declared| :: declared[i].0
  }

  // A declared collection filters both actions, and its delete rule compiles.
  predicate Declarable(sets: Sets, actions: Actions) {
    HasFilter(actions.update) && HasFilter(actions.delete) && SetFilter(sets, actions.delete.value.name).Ok?
  }

  // The guards of the first k collections declared.
  predicate Guarded(sets: Sets, rules: map<string, Actions>, declared: seq<(string, Spec)>, out: map<string, Guard>, k: nat)
    requires k <= |declared|
  {
    out.Keys == Names(declared[..k]) && forall i :: 0 <= i < k ==>
      declared[i].0 in out && Carries(sets, Lookup(rules, declared[i].0), declared[i].1, out[declared[i].0])
  }

  lemma GuardedMore(sets: Sets, rules: map<string, Actions>, declared: seq<(string, Spec)>, out: map<string, Guard>, k: nat, guard: Guard)
    requires forall i, j :: 0 <= i < j < |declared| ==> declared[i].0 != declared[j].0
    requires k < |declared| && Guarded(sets, rules, declared, out, k)
    requires Carries(sets, Lookup(rules, declared[k].0), declared[k].1, guard)
    ensures Guarded(sets, rules, declared, out[declared[k].0 := guard], k + 1)
  {
    assert declared[..k + 1] == declared[..k] + [declared[k]];
    forall c
      ensures c in Names(declared[..k + 1]) <==> c in Names(declared[..k]) || c == declared[k].0
    {
      NamesMore(declared, k, c);
    }
  }

  lemma NamesMore(declared: seq<(string, Spec)>, k: nat, c: string)
    requires k < |declared|
    ensures c in Names(declared[..k + 1]) <==> c in Names(declared[..k]) || c == declared[k].0
  {
    if c in Names(declared[..k]) {
      var i :| 0 <= i < k && declared[..k][i].0 == c;
      assert declared[..k + 1][i].0 == c;
    }
    assert declared[..k + 1][k] == declared[k];
    if c in Names(declared[..k + 1]) && c != declared[k].0 {
      var i :| 0 <= i < k + 1 && declared[..k + 1][i].0 == c;
      assert declared[..k][i].0 == c;
    }
  }

  method Declared(sets: Sets, rules: map<string, Actions>, declared: seq<(string, Spec)>) returns (r: Result<map<string, Guard>, GuardError>)
    requires forall i, j :: 0 <= i < j < |declared| ==> declared[i].0 != declared[j].0
    ensures r.Ok? <==> forall i :: 0 <= i < |declared| ==> Declarable(sets, Lookup(rules, declared[i].0))
    ensures r.Ok? ==> r.value.Keys == Names(declared) && forall i :: 0 <= i < |declared| ==>
              Carries(sets, Lookup(rules, declared[i].0), declared[i].1, r.value[declared[i].0])
  {
    var out: map<string, Guard> := map[];
    for k := 0 to |declared|
      invariant forall i :: 0 <= i < k ==> Declarable(sets, Lookup(rules, declared[i].0))
      invariant Guarded(sets, rules, declared, out, k)
    {
      var collection, spec := declared[k].0, declared[k].1;
      var actions := Lookup(rules, collection);
      if !HasFilter(actions.update) || !HasFilter(actions.delete) {
        return Err(NoFilter(collection));
      }
      var filter := SetFilter(sets, actions.delete.value.name);
      if filter.Err? {
        return Err(BadSet(filter.error));
      }
      var guard := Guard(spec.field, spec.key, spec.valueKey, filter.value);
      GuardedMore(sets, rules, declared, out, k, guard);
      out := out[collection := guard];
    }
    assert declared[..|declared|] == declared;
    return Ok(out);
  }

  method OwnerGuards(sets: Sets, order: seq<string>, rules: map<string, Actions>, declared: seq<(string, Spec)>)
    returns (r: Result<map<string, Guard>, GuardError>)
    requires forall i, j :: 0 <= i < j < |declared| ==> declared[i].0 != declared[j].0
    requires forall c :: c in order <==> c in rules
    ensures r.Ok? <==>
              && (forall i :: 0 <= i < |declared| ==> Declarable(sets, Lookup(rules, declared[i].0)))
              && (forall c :: c in rules && c !in Names(declared) ==> SameRules(sets, rules[c]))
    ensures r.Ok? ==> r.value.Keys == Names(declared) && forall i :: 0 <= i < |declared| ==>
              Carries(sets, Lookup(rules, declared[i].0), declared[i].1, r.value[declared[i].0])
  {
    r := Declared(sets, rules, declared);
    if r.Err? {
      return;
    }
    var names := Names(declared);
    for k := 0 to |order|
      invariant forall i :: 0 <= i < k && order[i] !in names ==> SameRules(sets, rules[order[i]])
    {
      assert order[k] in order;
      var actions := rules[order[k]];
      if HasFilter(actions.update) && HasFilter(actions.delete) && order[k] !in names {
        var update := SetFilter(sets, actions.update.value.name);
        if update.Err? {
          return Err(BadSet(update.error));
        }
        var delete := SetFilter(sets, actions.delete.value.name);
        if delete.Err? {
          return Err(BadSet(delete.error));
        }
        if update != delete {
          return Err(WiderUpdate(order[k]));
        }
      }
    }
    forall c | c in rules && c !in names
      ensures SameRules(sets, rules[c])
    {
      assert c in order;
      var i :| 0 <= i < |order| && order[i] == c;
    }
  }

  // Where no owner guard is declared, whoever may update a record may also delete it.
  lemma EditorsAreOwners(sets: Sets, actions: Actions, v: Value, world: World, user: string)
    requires HasFilter(actions.update) && HasFilter(actions.delete) && SameRules(sets, actions)
    ensures Means(sets, actions.update.value.name, [], v, world, user) <==> Means(sets, actions.delete.value.name, [], v, world, user)
  {
    FilterMeansRule(sets, actions.update.value.name, v, world, user);
    FilterMeansRule(sets, actions.delete.value.name, v, world, user);
  }
}
