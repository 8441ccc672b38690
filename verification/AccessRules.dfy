/** Sets of paths as filters. */
module AccessRules {
  // scripts/gen_access_rules.py: named sets of paths flattened into filters. A path is a dotted string; a
  // set may include other sets, each through an optional `via` relation.

  import opened Wrappers

  datatype Item = Path(path: string) | Include(via: string, name: string)

  type Sets = map<string, seq<Item>>

  datatype RulesError = UnknownSet(name: string) | IncludesItself(chain: seq<string>)

  // ---- expand ----

  // The sets an expansion has not entered yet.
  ghost function Left(sets: Sets, stack: seq<string>): set<string> {
    sets.Keys - set x | x in stack
  }

  lemma Shrinks(sets: Sets, stack: seq<string>, name: string)
    requires name in sets && name !in stack
    ensures Left(sets, stack + [name]) < Left(sets, stack)
  {
    assert name in Left(sets, stack) && name !in Left(sets, stack + [name]);
  }

  function Inner(prefix: string, via: string): string {
    if via != "" then prefix + via + "." else prefix
  }

  function Expanded(sets: Sets, name: string, prefix: string, stack: seq<string>): Result<seq<string>, RulesError>
    decreases Left(sets, stack), 0
  {
    if name !in sets then Err(UnknownSet(name))
    else if name in stack then Err(IncludesItself(stack + [name]))
    else
      Shrinks(sets, stack, name);
      ExpandedItems(sets, sets[name], prefix, stack + [name])
  }

  function ExpandedItems(sets: Sets, items: seq<Item>, prefix: string, stack: seq<string>): Result<seq<string>, RulesError>
    decreases Left(sets, stack), |items| + 1
  {
    if items == [] then Ok([])
    else
      var before :- ExpandedItems(sets, items[..|items| - 1], prefix, stack);
      match items[|items| - 1]
      case Path(p) => Ok(before + [prefix + p])
      case Include(via, name) =>
        var more :- Expanded(sets, name, Inner(prefix, via), stack);
        Ok(before + more)
  }

  method Expand(sets: Sets, name: string, prefix: string, stack: seq<string>) returns (r: Result<seq<string>, RulesError>)
    ensures r == Expanded(sets, name, prefix, stack)
    decreases Left(sets, stack)
  {
    if name !in sets {
      return Err(UnknownSet(name));
    }
    if name in stack {
      return Err(IncludesItself(stack + [name]));
    }
    Shrinks(sets, stack, name);
    var out: seq<string> := [];
    var items := sets[name];
    for i := 0 to |items|
      invariant ExpandedItems(sets, items[..i], prefix, stack + [name]) == Ok(out)
    {
      assert items[..i + 1][..i] == items[..i];
      match items[i] {
        case Path(p) =>
          out := out + [prefix + p];
        case Include(via, other) =>
          var more := Expand(sets, other, Inner(prefix, via), stack + [name]);
          if more.Err? {
            FirstErrorStays(sets, items, prefix, stack + [name], i + 1);
            return more;
          }
          out := out + more.value;
      }
    }
    assert items[..|items|] == items;
    return Ok(out);
  }

  // The first error among the items is the error of the whole set.
  lemma {:induction false} FirstErrorStays(sets: Sets, items: seq<Item>, prefix: string, stack: seq<string>, i: nat)
    requires i <= |items| && ExpandedItems(sets, items[..i], prefix, stack).Err?
    ensures ExpandedItems(sets, items, prefix, stack) == ExpandedItems(sets, items[..i], prefix, stack)
    decreases |items| - i
  {
    if i == |items| {
      assert items[..i] == items;
    } else {
      assert items[..i + 1][..i] == items[..i];
      FirstErrorStays(sets, items, prefix, stack, i + 1);
    }
  }

  // ---- which sets are refused: those that reach a missing set or themselves ----

  ghost predicate Includes(sets: Sets, name: string, other: string) {
    name in sets && exists i :: 0 <= i < |sets[name]| && sets[name][i].Include? && sets[name][i].name == other
  }

  ghost predicate Chain(sets: Sets, w: seq<string>) {
    w != [] && forall i :: 0 <= i < |w| - 1 ==> Includes(sets, w[i], w[i + 1])
  }

  ghost predicate Repeats(w: seq<string>) {
    exists i, j :: 0 <= i < j < |w| && w[i] == w[j]
  }

  // A chain of inclusions that leaves the document or closes on itself.
  ghost predicate BadChain(sets: Sets, w: seq<string>) {
    Chain(sets, w) && (w[|w| - 1] !in sets || Repeats(w))
  }

  // Each included set expands when the set does.
  lemma {:induction false} IncludedExpands(sets: Sets, items: seq<Item>, prefix: string, stack: seq<string>, i: nat)
    requires ExpandedItems(sets, items, prefix, stack).Ok? && i < |items| && items[i].Include?
    ensures Expanded(sets, items[i].name, Inner(prefix, items[i].via), stack).Ok?
  {
    if i < |items| - 1 {
      IncludedExpands(sets, items[..|items| - 1], prefix, stack, i);
    }
  }

  // After a successful expansion every chain stays inside the document, off the stack, and never repeats.
  lemma {:induction false} ChainsAreClean(sets: Sets, name: string, prefix: string, stack: seq<string>, w: seq<string>)
    requires Expanded(sets, name, prefix, stack).Ok? && Chain(sets, w) && w[0] == name
    ensures forall i :: 0 <= i < |w| ==> w[i] in sets && w[i] !in stack
    ensures !Repeats(w)
    decreases |w|
  {
    if |w| > 1 {
      var rest := w[1..];
      assert Includes(sets, w[0], w[1]);
      var i :| 0 <= i < |sets[name]| && sets[name][i].Include? && sets[name][i].name == w[1];
      IncludedExpands(sets, sets[name], prefix, stack + [name], i);
      RestOfChain(sets, w);
      ChainsAreClean(sets, w[1], Inner(prefix, sets[name][i].via), stack + [name], rest);
      CleanGrows(w, stack, name);
    }
  }

  lemma RestOfChain(sets: Sets, w: seq<string>)
    requires Chain(sets, w) && |w| > 1
    ensures Chain(sets, w[1..])
  {
    forall k | 0 <= k < |w[1..]| - 1
      ensures Includes(sets, w[1..][k], w[1..][k + 1])
    {
      assert Includes(sets, w[k + 1], w[k + 1 + 1]);
    }
  }

  lemma CleanGrows(w: seq<string>, stack: seq<string>, name: string)
    requires |w| > 1 && w[0] == name && name !in stack
    requires forall i :: 0 <= i < |w[1..]| ==> w[1..][i] !in stack + [name]
    requires !Repeats(w[1..])
    ensures forall i :: 0 <= i < |w| ==> w[i] !in stack
    ensures !Repeats(w)
  {
    forall i, j | 0 <= i < j < |w|
      ensures w[i] != w[j]
    {
      assert w[j] == w[1..][j - 1];
      assert name in stack + [name];
      if i > 0 {
        assert w[i] == w[1..][i - 1];
      }
    }
    forall i | 0 <= i < |w|
      ensures w[i] !in stack
    {
      if i > 0 {
        assert w[i] == w[1..][i - 1];
        assert forall x :: x in stack ==> x in stack + [name];
      }
    }
  }

  // A failed expansion shows the chain: down the stack to the missing set or back to one on it.
  lemma {:induction false} FailureHasChain(sets: Sets, name: string, prefix: string, stack: seq<string>) returns (w: seq<string>)
    requires Expanded(sets, name, prefix, stack).Err? && Chain(sets, stack + [name])
    ensures BadChain(sets, w) && w[0] == (stack + [name])[0]
    decreases Left(sets, stack), 0
  {
    w := stack + [name];
    if name in stack {
      var i :| 0 <= i < |stack| && stack[i] == name;
      assert w[i] == w[|stack|];
    } else if name in sets {
      Shrinks(sets, stack, name);
      w := ItemsHaveChain(sets, name, sets[name], prefix, stack);
    }
  }

  lemma {:induction false} ItemsHaveChain(sets: Sets, name: string, items: seq<Item>, prefix: string, stack: seq<string>) returns (w: seq<string>)
    requires name in sets && name !in stack && items <= sets[name]
    requires ExpandedItems(sets, items, prefix, stack + [name]).Err? && Chain(sets, stack + [name])
    ensures BadChain(sets, w) && w[0] == (stack + [name])[0]
    decreases Left(sets, stack + [name]), |items| + 1
  {
    var n := |items| - 1;
    if ExpandedItems(sets, items[..n], prefix, stack + [name]).Err? {
      w := ItemsHaveChain(sets, name, items[..n], prefix, stack);
    } else {
      assert sets[name][n] == items[n] && Includes(sets, name, items[n].name);
      ChainGrows(sets, stack + [name], items[n].name);
      w := FailureHasChain(sets, items[n].name, Inner(prefix, items[n].via), stack + [name]);
    }
  }

  lemma ChainGrows(sets: Sets, w: seq<string>, next: string)
    requires Chain(sets, w) && Includes(sets, w[|w| - 1], next)
    ensures Chain(sets, w + [next]) && (w + [next])[0] == w[0]
  {
  }

  // A set is refused exactly when some chain of inclusions from it reaches a missing set or repeats one.
  lemma {:induction false} RefusedExactlyWhenBad(sets: Sets, name: string, prefix: string)
    ensures Expanded(sets, name, prefix, []).Err? <==> exists w :: BadChain(sets, w) && w[0] == name
  {
    if Expanded(sets, name, prefix, []).Err? {
      assert [] + [name] == [name];
      var w := FailureHasChain(sets, name, prefix, []);
    } else {
      forall w | Chain(sets, w) && w[0] == name
        ensures !BadChain(sets, w)
      {
        ChainsAreClean(sets, name, prefix, [], w);
      }
    }
  }

  // ---- filters ----

  datatype Json = Text(s: string) | List(items: seq<Json>) | Object(fields: seq<(string, Json)>)

  const CURRENT_USER := "$CURRENT_USER"

  // One more character of a dotted text: a dot starts a new part.
  function Extend(keys: seq<string>, c: char): (more: seq<string>)
    requires keys != []
    ensures more != []
  {
    if c == '.' then keys + [""] else keys[..|keys| - 1] + [keys[|keys| - 1] + [c]]
  }

  // path.split(".")
  function Split(path: string): (keys: seq<string>)
    ensures keys != []
  {
    if path == "" then [""] else Extend(Split(path[..|path| - 1]), path[|path| - 1])
  }

  function Nested(keys: seq<string>): Json {
    if keys == [] then Object([("_eq", Text(CURRENT_USER))]) else Object([(keys[0], Nested(keys[1..]))])
  }

  method PathFilter(path: string) returns (node: Json)
    ensures node == Nested(Split(path))
  {
    var keys := Split(path);
    node := Object([("_eq", Text(CURRENT_USER))]);
    var i := |keys|;
    assert keys[i..] == [];
    while i > 0
      invariant 0 <= i <= |keys| && node == Nested(keys[i..])
    {
      i := i - 1;
      assert keys[i..][1..] == keys[i + 1..];
      node := Object([(keys[i], node)]);
    }
    assert keys[0..] == keys;
  }

  // dict.fromkeys: the first of each, in order.
  function Unique(paths: seq<string>): (u: seq<string>)
    ensures forall p :: p in u <==> p in paths
    ensures forall i, j :: 0 <= i < j < |u| ==> u[i] != u[j]
  {
    if paths == [] then []
    else
      var u := Unique(paths[..|paths| - 1]);
      if paths[|paths| - 1] in u then u else u + [paths[|paths| - 1]]
  }

  // Each is listed before every place of a later one.
  predicate FirstsInOrder(paths: seq<string>, u: seq<string>) {
    forall i, j, q :: 0 <= i < j < |u| && 0 <= q < |paths| && paths[q] == u[j] ==> u[i] in paths[..q]
  }

  lemma {:induction false} UniqueKeepsOrder(paths: seq<string>)
    ensures FirstsInOrder(paths, Unique(paths))
  {
    if paths != [] {
      var init, last := paths[..|paths| - 1], paths[|paths| - 1];
      UniqueKeepsOrder(init);
      var u := Unique(init);
      forall i, j, q | 0 <= i < j < |Unique(paths)| && 0 <= q < |paths| && paths[q] == Unique(paths)[j]
        ensures Unique(paths)[i] in paths[..q]
      {
        assert u[i] in init;
        assert q < |init| ==> paths[..q] == init[..q] && init[q] in u;
        assert q == |init| ==> paths[..q] == init;
      }
    }
  }

  function AnyOf(paths: seq<string>): Json {
    var filters := seq(|paths|, i requires 0 <= i < |paths| => Nested(Split(paths[i])));
    if |filters| == 1 then filters[0] else Object([("_or", List(filters))])
  }

  function SetFilter(sets: Sets, name: string): Result<Json, RulesError> {
    var paths :- Expanded(sets, name, "", []);
    Ok(AnyOf(Unique(paths)))
  }

  // ---- what a filter accepts ----

  // The value of a field: text, one related record, or many.
  datatype Value = Null | Scalar(s: string) | One(id: nat) | Many(ids: seq<nat>)

  // The database: every field of every record.
  type World = (nat, string) -> Value

  const OPERATORS: set<string> := {"_eq", "_some", "_or", "_and"}

  // A filter on a value, read as the given user.
  predicate Accepts(f: Json, v: Value, world: World, user: string)
    decreases f, 0
  {
    f.Object? && forall i :: 0 <= i < |f.fields| ==> AcceptsField(f.fields[i].0, f.fields[i].1, v, world, user)
  }

  predicate AcceptsField(key: string, arg: Json, v: Value, world: World, user: string)
    decreases arg, 1
  {
    if key == "_eq" then arg.Text? && v == Scalar(if arg.s == CURRENT_USER then user else arg.s)
    else if key == "_some" then v.Many? && exists i :: 0 <= i < |v.ids| && Accepts(arg, One(v.ids[i]), world, user)
    else if key == "_or" then arg.List? && exists i :: 0 <= i < |arg.items| && Accepts(arg.items[i], v, world, user)
    else if key == "_and" then arg.List? && forall i :: 0 <= i < |arg.items| ==> Accepts(arg.items[i], v, world, user)
    else v.One? && Accepts(arg, world(v.id, key), world, user)
  }

  // ---- what a rule means: paths followed through the database, inclusions followed through sets ----

  // w is one step from v along a key.
  predicate Step(key: string, v: Value, w: Value, world: World) {
    if key == "_some" then v.Many? && w.One? && w.id in v.ids
    else key !in OPERATORS && v.One? && w == world(v.id, key)
  }

  ghost predicate Leads(keys: seq<string>, v: Value, w: Value, world: World) {
    if keys == [] then v == w else exists u :: Step(keys[0], v, u, world) && Leads(keys[1..], u, w, world)
  }

  ghost predicate Means(sets: Sets, name: string, stack: seq<string>, v: Value, world: World, user: string)
    decreases Left(sets, stack), 0
  {
    if name in sets && name !in stack then
      Shrinks(sets, stack, name);
      exists i :: 0 <= i < |sets[name]| && ItemMeans(sets, sets[name][i], stack + [name], v, world, user)
    else false
  }

  ghost predicate ItemMeans(sets: Sets, item: Item, stack: seq<string>, v: Value, world: World, user: string)
    decreases Left(sets, stack), 1
  {
    match item
    case Path(p) => Leads(Split(p), v, Scalar(user), world)
    case Include(via, name) =>
      if via == "" then Means(sets, name, stack, v, world, user)
      else exists u :: Leads(Split(via), v, u, world) && Means(sets, name, stack, u, world, user)
  }
}
