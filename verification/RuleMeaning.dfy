/** Flattening a rule keeps its meaning. */
module RuleMeaning {
  // The filter accepts what the nested sets accept.

  import opened AccessRules
  import opened Wrappers

  // ---- one path ----

  lemma OneField(key: string, arg: Json, v: Value, world: World, user: string)
    ensures Accepts(Object([(key, arg)]), v, world, user) == AcceptsField(key, arg, v, world, user)
  {
    var f := Object([(key, arg)]);
    assert f.fields[0].0 == key && f.fields[0].1 == arg;
  }

  // The nested object of a path accepts a value exactly when following the path leads to the user.
  lemma {:induction false} NestedMeans(keys: seq<string>, v: Value, world: World, user: string)
    ensures Accepts(Nested(keys), v, world, user) <==> Leads(keys, v, Scalar(user), world)
  {
    if keys == [] {
      OneField("_eq", Text(CURRENT_USER), v, world, user);
    } else {
      var rest := Nested(keys[1..]);
      OneField(keys[0], rest, v, world, user);
      if keys[0] == "_some" {
        if v.Many? {
          forall id | id in v.ids
            ensures Accepts(rest, One(id), world, user) <==> Leads(keys[1..], One(id), Scalar(user), world)
          {
            NestedMeans(keys[1..], One(id), world, user);
          }
          assert forall id :: id in v.ids ==> Step(keys[0], v, One(id), world);
        }
      } else if keys[0] !in OPERATORS && v.One? {
        NestedMeans(keys[1..], world(v.id, keys[0]), world, user);
        assert Step(keys[0], v, world(v.id, keys[0]), world);
      }
    }
  }

  // ---- joining paths ----

  lemma SplitSnoc(p: string, c: char)
    ensures Split(p + [c]) == Extend(Split(p), c)
  {
    assert (p + [c])[..|p|] == p;
  }

  lemma ExtendJoined(x: seq<string>, y: seq<string>, c: char)
    requires y != []
    ensures Extend(x + y, c) == x + Extend(y, c)
  {
    assert (x + y)[|x + y| - 1] == y[|y| - 1] && (x + y)[..|x + y| - 1] == x + y[..|y| - 1];
  }

  lemma {:induction false} SplitJoins(a: string, b: string)
    ensures Split(a + "." + b) == Split(a) + Split(b)
  {
    if b == "" {
      assert a + "." + b == a + ['.'];
      SplitSnoc(a, '.');
    } else {
      var init, c := b[..|b| - 1], b[|b| - 1];
      SplitJoins(a, init);
      SplitSnoc(a + "." + init, c);
      assert a + "." + b == (a + "." + init) + [c];
      ExtendJoined(Split(a), Split(init), c);
    }
  }

  lemma {:induction false} LeadsOn(a: seq<string>, b: seq<string>, v: Value, u: Value, w: Value, world: World)
    requires Leads(a, v, u, world) && Leads(b, u, w, world)
    ensures Leads(a + b, v, w, world)
  {
    if a == [] {
      assert a + b == b;
    } else {
      var s :| Step(a[0], v, s, world) && Leads(a[1..], s, u, world);
      LeadsOn(a[1..], b, s, u, w, world);
      assert (a + b)[0] == a[0] && (a + b)[1..] == a[1..] + b;
    }
  }

  lemma {:induction false} LeadsThrough(a: seq<string>, b: seq<string>, v: Value, w: Value, world: World) returns (u: Value)
    requires Leads(a + b, v, w, world)
    ensures Leads(a, v, u, world) && Leads(b, u, w, world)
  {
    if a == [] {
      assert a + b == b;
      u := v;
    } else {
      assert (a + b)[0] == a[0] && (a + b)[1..] == a[1..] + b;
      var s :| Step(a[0], v, s, world) && Leads(a[1..] + b, s, w, world);
      u := LeadsThrough(a[1..], b, s, w, world);
    }
  }

  // A prefix is empty, or a path and a dot.
  ghost predicate Prefixes(prefix: string, keys: seq<string>) {
    (prefix == "" && keys == []) || (prefix != "" && prefix[|prefix| - 1] == '.' && keys == Split(prefix[..|prefix| - 1]))
  }

  lemma PrefixSplits(prefix: string, keys: seq<string>, p: string)
    requires Prefixes(prefix, keys)
    ensures Split(prefix + p) == keys + Split(p)
  {
    if prefix == "" {
      assert prefix + p == p;
    } else {
      var q := prefix[..|prefix| - 1];
      assert prefix == q + ".";
      assert prefix + p == q + "." + p;
      SplitJoins(q, p);
    }
  }

  lemma InnerPrefixes(prefix: string, keys: seq<string>, via: string)
    requires Prefixes(prefix, keys) && via != ""
    ensures Prefixes(Inner(prefix, via), keys + Split(via))
  {
    PrefixSplits(prefix, keys, via);
    var inner := Inner(prefix, via);
    assert inner[..|inner| - 1] == prefix + via;
  }

  // ---- a whole set ----

  ghost predicate AnyLeads(paths: seq<string>, v: Value, world: World, user: string) {
    exists i :: 0 <= i < |paths| && Leads(Split(paths[i]), v, Scalar(user), world)
  }

  lemma AnyLeadsJoins(a: seq<string>, b: seq<string>, v: Value, world: World, user: string)
    ensures AnyLeads(a + b, v, world, user) <==> AnyLeads(a, v, world, user) || AnyLeads(b, v, world, user)
  {
    if i :| 0 <= i < |a| && Leads(Split(a[i]), v, Scalar(user), world) {
      assert (a + b)[i] == a[i];
    }
    if i :| 0 <= i < |b| && Leads(Split(b[i]), v, Scalar(user), world) {
      assert (a + b)[|a| + i] == b[i];
    }
  }

  // Some value the prefix leads to is one the set means.
  ghost predicate Beyond(sets: Sets, name: string, keys: seq<string>, stack: seq<string>, v: Value, world: World, user: string) {
    exists u :: Leads(keys, v, u, world) && Means(sets, name, stack, u, world, user)
  }

  ghost predicate ItemsBeyond(sets: Sets, items: seq<Item>, keys: seq<string>, stack: seq<string>, v: Value, world: World, user: string) {
    exists u, i :: 0 <= i < |items| && Leads(keys, v, u, world) && ItemMeans(sets, items[i], stack, u, world, user)
  }

  lemma {:induction false} ExpandedMeans(sets: Sets, name: string, prefix: string, keys: seq<string>, stack: seq<string>,
                                         v: Value, world: World, user: string)
    requires Prefixes(prefix, keys) && Expanded(sets, name, prefix, stack).Ok?
    ensures AnyLeads(Expanded(sets, name, prefix, stack).value, v, world, user) <==> Beyond(sets, name, keys, stack, v, world, user)
    decreases Left(sets, stack), 0
  {
    Shrinks(sets, stack, name);
    ItemsMean(sets, sets[name], prefix, keys, stack + [name], v, world, user);
  }

  lemma {:induction false} ItemsMean(sets: Sets, items: seq<Item>, prefix: string, keys: seq<string>, stack: seq<string>,
                                     v: Value, world: World, user: string)
    requires Prefixes(prefix, keys) && ExpandedItems(sets, items, prefix, stack).Ok?
    ensures AnyLeads(ExpandedItems(sets, items, prefix, stack).value, v, world, user)
            <==> ItemsBeyond(sets, items, keys, stack, v, world, user)
    decreases Left(sets, stack), |items| + 1
  {
    if items != [] {
      var n := |items| - 1;
      var before := ExpandedItems(sets, items[..n], prefix, stack).value;
      ItemsMean(sets, items[..n], prefix, keys, stack, v, world, user);
      SplitItems(sets, items, keys, stack, v, world, user);
      match items[n] {
        case Path(p) =>
          AnyLeadsJoins(before, [prefix + p], v, world, user);
          PathMeans(sets, p, prefix, keys, stack, v, world, user);
        case Include(via, name) =>
          var more := Expanded(sets, name, Inner(prefix, via), stack).value;
          AnyLeadsJoins(before, more, v, world, user);
          IncludeMeans(sets, via, name, keys, stack, v, world, user);
          if via == "" {
            ExpandedMeans(sets, name, prefix, keys, stack, v, world, user);
          } else {
            InnerPrefixes(prefix, keys, via);
            ExpandedMeans(sets, name, Inner(prefix, via), keys + Split(via), stack, v, world, user);
          }
      }
    }
  }

  ghost predicate ItemBeyond(sets: Sets, item: Item, keys: seq<string>, stack: seq<string>, v: Value, world: World, user: string) {
    exists u :: Leads(keys, v, u, world) && ItemMeans(sets, item, stack, u, world, user)
  }

  lemma SplitItems(sets: Sets, items: seq<Item>, keys: seq<string>, stack: seq<string>, v: Value, world: World, user: string)
    requires items != []
    ensures ItemsBeyond(sets, items, keys, stack, v, world, user) <==>
            ItemsBeyond(sets, items[..|items| - 1], keys, stack, v, world, user) ||
            ItemBeyond(sets, items[|items| - 1], keys, stack, v, world, user)
  {
    var init := items[..|items| - 1];
    if u, i :| 0 <= i < |init| && Leads(keys, v, u, world) && ItemMeans(sets, init[i], stack, u, world, user) {
      assert items[i] == init[i];
    }
    if u, i :| 0 <= i < |items| && Leads(keys, v, u, world) && ItemMeans(sets, items[i], stack, u, world, user) {
      assert i < |init| ==> init[i] == items[i];
    }
  }

  lemma PathMeans(sets: Sets, p: string, prefix: string, keys: seq<string>, stack: seq<string>, v: Value, world: World, user: string)
    requires Prefixes(prefix, keys)
    ensures AnyLeads([prefix + p], v, world, user) <==> ItemBeyond(sets, Path(p), keys, stack, v, world, user)
  {
    var paths := [prefix + p];
    PrefixSplits(prefix, keys, p);
    if AnyLeads(paths, v, world, user) {
      var u := LeadsThrough(keys, Split(p), v, Scalar(user), world);
      assert ItemMeans(sets, Path(p), stack, u, world, user);
    }
    if ItemBeyond(sets, Path(p), keys, stack, v, world, user) {
      var u :| Leads(keys, v, u, world) && ItemMeans(sets, Path(p), stack, u, world, user);
      LeadsOn(keys, Split(p), v, u, Scalar(user), world);
      assert Leads(Split(paths[0]), v, Scalar(user), world);
    }
  }

  lemma IncludeMeans(sets: Sets, via: string, name: string, keys: seq<string>, stack: seq<string>, v: Value, world: World, user: string)
    ensures ItemBeyond(sets, Include(via, name), keys, stack, v, world, user) <==>
            Beyond(sets, name, if via == "" then keys else keys + Split(via), stack, v, world, user)
  {
    if via != "" {
      var item, all := Include(via, name), keys + Split(via);
      if u :| Leads(keys, v, u, world) && ItemMeans(sets, item, stack, u, world, user) {
        var w :| Leads(Split(via), u, w, world) && Means(sets, name, stack, w, world, user);
        LeadsOn(keys, Split(via), v, u, w, world);
      }
      if w :| Leads(all, v, w, world) && Means(sets, name, stack, w, world, user) {
        var u := LeadsThrough(keys, Split(via), v, w, world);
        assert ItemMeans(sets, item, stack, u, world, user);
      }
    }
  }

  // ---- the filter of a rule ----

  lemma AnyOfMeans(paths: seq<string>, v: Value, world: World, user: string)
    ensures Accepts(AnyOf(paths), v, world, user) <==> AnyLeads(paths, v, world, user)
  {
    forall i | 0 <= i < |paths|
      ensures Accepts(Nested(Split(paths[i])), v, world, user) <==> Leads(Split(paths[i]), v, Scalar(user), world)
    {
      NestedMeans(Split(paths[i]), v, world, user);
    }
    if |paths| != 1 {
      var filters := seq(|paths|, i requires 0 <= i < |paths| => Nested(Split(paths[i])));
      OneField("_or", List(filters), v, world, user);
      if i :| 0 <= i < |paths| && Leads(Split(paths[i]), v, Scalar(user), world) {
        assert Accepts(List(filters).items[i], v, world, user);
      }
    }
  }

  lemma UniqueLeads(paths: seq<string>, v: Value, world: World, user: string)
    ensures AnyLeads(Unique(paths), v, world, user) <==> AnyLeads(paths, v, world, user)
  {
    var u := Unique(paths);
    if i :| 0 <= i < |paths| && Leads(Split(paths[i]), v, Scalar(user), world) {
      assert paths[i] in u;
      var j :| 0 <= j < |u| && u[j] == paths[i];
    }
    if j :| 0 <= j < |u| && Leads(Split(u[j]), v, Scalar(user), world) {
      assert u[j] in paths;
      var i :| 0 <= i < |paths| && paths[i] == u[j];
    }
  }

  // The compiled filter accepts a value, read as a user, exactly when the nested sets mean it.
  lemma FilterMeansRule(sets: Sets, name: string, v: Value, world: World, user: string)
    requires SetFilter(sets, name).Ok?
    ensures Accepts(SetFilter(sets, name).value, v, world, user) <==> Means(sets, name, [], v, world, user)
  {
    var paths := Expanded(sets, name, "", []).value;
    ExpandedMeans(sets, name, "", [], [], v, world, user);
    UniqueLeads(paths, v, world, user);
    AnyOfMeans(Unique(paths), v, world, user);
    assert Leads([], v, v, world);
  }

  // ---- putting the user in ----

  // d1-access-guard: the signed-in user replaces $CURRENT_USER anywhere in a filter.
  function Substitute(node: Json, user: string): Json
    decreases node
  {
    match node
    case Text(s) => if s == CURRENT_USER then Text(user) else node
    case List(items) => List(seq(|items|, i requires 0 <= i < |items| => Substitute(items[i], user)))
    case Object(fields) =>
      Object(seq(|fields|, i requires 0 <= i < |fields| => (fields[i].0, Substitute(fields[i].1, user))))
  }

  // The instantiated filter, taken literally, accepts what the original accepts when read as that user.
  lemma {:induction false} SubstituteReadsAsUser(f: Json, v: Value, world: World, user: string)
    ensures Accepts(Substitute(f, user), v, world, CURRENT_USER) == Accepts(f, v, world, user)
    decreases f, 0
  {
    if f.Object? {
      var g := Substitute(f, user);
      forall i | 0 <= i < |f.fields|
        ensures AcceptsField(g.fields[i].0, g.fields[i].1, v, world, CURRENT_USER)
             == AcceptsField(f.fields[i].0, f.fields[i].1, v, world, user)
      {
        SubstituteInField(f.fields[i].0, f.fields[i].1, v, world, user);
      }
    }
  }

  lemma {:induction false} SubstituteInField(key: string, arg: Json, v: Value, world: World, user: string)
    ensures AcceptsField(key, Substitute(arg, user), v, world, CURRENT_USER) == AcceptsField(key, arg, v, world, user)
    decreases arg, 1
  {
    if key == "_some" {
      if v.Many? {
        forall i | 0 <= i < |v.ids|
          ensures Accepts(Substitute(arg, user), One(v.ids[i]), world, CURRENT_USER) == Accepts(arg, One(v.ids[i]), world, user)
        {
          SubstituteReadsAsUser(arg, One(v.ids[i]), world, user);
        }
      }
    } else if key == "_or" || key == "_and" {
      if arg.List? {
        var items := Substitute(arg, user).items;
        forall i | 0 <= i < |arg.items|
          ensures Accepts(items[i], v, world, CURRENT_USER) == Accepts(arg.items[i], v, world, user)
        {
          SubstituteReadsAsUser(arg.items[i], v, world, user);
        }
      }
    } else if key != "_eq" && v.One? {
      SubstituteReadsAsUser(arg, world(v.id, key), world, user);
    }
  }
}
