/** What the access guard lets through. */
module AccessGuard {
  // core/extensions/d1-access-guard/index.js: junction writes and owner changes. `may` stands for the database's
  // answer: the caller passes the parent's rule, or the parent was inserted by this very request.

  import opened Wrappers

  datatype Check = Check(field: string, parent: string, key: string)

  // A value in a payload: absent, null or '', a bare key, or an object with some fields.
  datatype Sent = Blank | Bare(k: string) | Nested(fields: map<string, string>)

  // A cell of an existing row; Undefined when there is no row.
  datatype Cell = Undefined | Null | Stored(k: string)

  // The parent a payload names: none, one about to be created, or an existing one.
  datatype Named = NoParent | NewParent | Parent(k: string)

  type May = (Check, string) -> bool

  function ParentKey(value: Sent, key: string): Named {
    match value
    case Blank => NoParent
    case Bare(k) => if k == "" then NoParent else Parent(k)
    case Nested(fields) => if key !in fields || fields[key] == "" then NewParent else Parent(fields[key])
  }

  // String(value)
  function CellText(c: Cell): string {
    match c
    case Undefined => "undefined"
    case Null => "null"
    case Stored(k) => k
  }

  function NamedText(n: Named): string {
    match n
    case NoParent => "null"
    case NewParent => "undefined"
    case Parent(k) => k
  }

  // ---- enforce ----

  predicate Passes(c: Check, item: string -> Sent, may: May) {
    var n := ParentKey(item(c.field), c.key);
    n.Parent? ==> may(c, n.k)
  }

  // Every parent that is named by a key must be one the caller may use, whichever way it is sent.
  lemma PassesExactly(c: Check, item: string -> Sent, may: May)
    ensures Passes(c, item, may) <==>
              && (forall k :: item(c.field) == Bare(k) && k != "" ==> may(c, k))
              && (item(c.field).Nested? && c.key in item(c.field).fields && item(c.field).fields[c.key] != "" ==>
                    may(c, item(c.field).fields[c.key]))
  {
  }

  method Enforce(checks: seq<Check>, item: string -> Sent, fields: Option<set<string>>, may: May) returns (allowed: bool)
    ensures allowed <==> forall i :: 0 <= i < |checks| && (fields == None || checks[i].field in fields.value) ==> Passes(checks[i], item, may)
  {
    for i := 0 to |checks|
      invariant forall k :: 0 <= k < i && (fields == None || checks[k].field in fields.value) ==> Passes(checks[k], item, may)
    {
      if fields == None || checks[i].field in fields.value {
        var id := ParentKey(item(checks[i].field), checks[i].key);
        if id.Parent? && !may(checks[i], id.k) {
          return false;
        }
      }
    }
    return true;
  }

  // ---- the update filter ----

  type Payload = map<string, Sent>
  type Row = map<string, Cell>

  function At(row: Row, field: string): Cell {
    if field in row then row[field] else Undefined
  }

  function PayloadItem(payload: Payload): string -> Sent {
    field => if field in payload then payload[field] else Blank
  }

  // { ...row, ...payload }
  function Merged(row: Row, payload: Payload): string -> Sent {
    field =>
      if field in payload then payload[field]
      else match At(row, field)
           case Stored(k) => Bare(k)
           case _ => Blank
  }

  // guards.find((c) => c.field === field).key
  function KeyOf(guards: seq<Check>, field: string): string {
    if guards == [] then "" else if guards[0].field == field then guards[0].key else KeyOf(guards[1..], field)
  }

  // The update points this row's field at a parent it did not have.
  predicate Repoints(guards: seq<Check>, payload: Payload, row: Row, field: string) {
    field in payload &&
    var n := ParentKey(payload[field], KeyOf(guards, field));
    n == NewParent || (n.Parent? && CellText(At(row, field)) != n.k)
  }

  predicate RepointsAny(guards: seq<Check>, payload: Payload, rows: seq<Row>) {
    exists r, i :: 0 <= r < |rows| && 0 <= i < |guards| && Repoints(guards, payload, rows[r], guards[i].field)
  }

  predicate AllPass(guards: seq<Check>, item: string -> Sent, may: May) {
    forall i :: 0 <= i < |guards| ==> Passes(guards[i], item, may)
  }

  // The rule in one sentence: an update that gives some row a new parent needs the payload's parent for a
  // junction with one guard, and every parent of every row as it will be for a junction with several.
  predicate Allowed(guards: seq<Check>, payload: Payload, rows: seq<Row>, may: May) {
    RepointsAny(guards, payload, rows) ==>
      if |guards| == 1 then AllPass(guards, PayloadItem(payload), may)
      else forall r :: 0 <= r < |rows| ==> AllPass(guards, Merged(rows[r], payload), may)
  }

  method ChangedIn(rows: seq<Row>, field: string, next: Named) returns (changed: bool)
    requires next.Parent?
    ensures changed <==> exists r :: 0 <= r < |rows| && CellText(At(rows[r], field)) != next.k
  {
    for r := 0 to |rows|
      invariant forall q :: 0 <= q < r ==> CellText(At(rows[q], field)) == next.k
    {
      if CellText(At(rows[r], field)) != NamedText(next) {
        return true;
      }
    }
    return false;
  }

  // The touched parent keys that change on some row.
  method Changed(guards: seq<Check>, payload: Payload, rows: seq<Row>) returns (changed: set<string>)
    requires rows != []
    ensures forall f :: f in changed <==>
              exists r, i :: 0 <= r < |rows| && 0 <= i < |guards| && guards[i].field == f && Repoints(guards, payload, rows[r], f)
  {
    changed := {};
    for k := 0 to |guards|
      invariant forall f :: f in changed <==>
                  exists r, i :: 0 <= r < |rows| && 0 <= i < k && guards[i].field == f && Repoints(guards, payload, rows[r], f)
    {
      var field := guards[k].field;
      var moved := false;
      if field in payload {
        var next := ParentKey(payload[field], KeyOf(guards, field));
        if next == NewParent {
          moved := true;
          assert Repoints(guards, payload, rows[0], field);
        } else if next.Parent? {
          moved := ChangedIn(rows, field, next);
        }
      }
      assert moved <==> exists r :: 0 <= r < |rows| && Repoints(guards, payload, rows[r], field);
      if moved {
        changed := changed + {field};
      }
    }
  }

  lemma ChangedMeansRepoints(guards: seq<Check>, payload: Payload, rows: seq<Row>, changed: set<string>)
    requires forall f :: f in changed <==>
               exists r, i :: 0 <= r < |rows| && 0 <= i < |guards| && guards[i].field == f && Repoints(guards, payload, rows[r], f)
    ensures changed != {} <==> RepointsAny(guards, payload, rows)
  {
    if r, i :| 0 <= r < |rows| && 0 <= i < |guards| && Repoints(guards, payload, rows[r], guards[i].field) {
      assert guards[i].field in changed;
    }
    if f :| f in changed {
      var r, i :| 0 <= r < |rows| && 0 <= i < |guards| && guards[i].field == f && Repoints(guards, payload, rows[r], f);
      assert Repoints(guards, payload, rows[r], guards[i].field);
    }
  }

  method EnforceRows(guards: seq<Check>, payload: Payload, rows: seq<Row>, may: May) returns (allowed: bool)
    ensures allowed <==> forall r :: 0 <= r < |rows| ==> AllPass(guards, Merged(rows[r], payload), may)
  {
    for r := 0 to |rows|
      invariant forall q :: 0 <= q < r ==> AllPass(guards, Merged(rows[q], payload), may)
    {
      var passes := Enforce(guards, Merged(rows[r], payload), None, may);
      if !passes {
        return false;
      }
    }
    return true;
  }

  // The part of the update filter that is about the parents of a junction row.
  method UpdateParents(guards: seq<Check>, payload: Payload, existing: seq<Row>, may: May) returns (allowed: bool)
    ensures allowed <==> Allowed(guards, payload, if existing != [] then existing else [map[]], may)
  {
    var rows := if existing != [] then existing else [map[]];
    var changed := Changed(guards, payload, rows);
    ChangedMeansRepoints(guards, payload, rows, changed);
    if changed == {} {
      return true;
    }
    if |guards| == 1 {
      var f :| f in changed;
      assert f == guards[0].field;
      allowed := Enforce(guards, PayloadItem(payload), Some(changed), may);
      return;
    }
    allowed := EnforceRows(guards, payload, rows, may);
  }

  // What the row holds afterwards; a new parent's id is not known yet.
  function After(guards: seq<Check>, payload: Payload, row: Row, field: string): Cell {
    if field !in payload then At(row, field)
    else
      match ParentKey(payload[field], KeyOf(guards, field))
      case NoParent => Null
      case NewParent => Undefined
      case Parent(k) => Stored(k)
  }

  ghost predicate DistinctFields(guards: seq<Check>) {
    forall i, j :: 0 <= i < j < |guards| ==> guards[i].field != guards[j].field
  }

  lemma {:induction false} KeyIsOwn(guards: seq<Check>, i: nat)
    requires DistinctFields(guards) && i < |guards|
    ensures KeyOf(guards, guards[i].field) == guards[i].key
  {
    if i > 0 {
      assert guards[1..][i - 1] == guards[i];
      assert forall a, b :: 0 <= a < b < |guards[1..]| ==> guards[1..][a] == guards[a + 1] && guards[1..][b] == guards[b + 1];
      KeyIsOwn(guards[1..], i - 1);
    }
  }

  // The update leaves the row with a parent in this field that it did not have.
  predicate Gains(guards: seq<Check>, payload: Payload, row: Row, field: string) {
    var c := After(guards, payload, row, field);
    c.Stored? && c.k != "" && c != At(row, field)
  }

  // A row without a value there, and the text String() makes of that as the new key.
  predicate LooksKept(had: Cell, next: Cell) {
    (had == Null && next == Stored("null")) || (had == Undefined && next == Stored("undefined"))
  }

  // The hook sees every new parent but those.
  lemma GainIsSeen(guards: seq<Check>, payload: Payload, row: Row, field: string)
    requires Gains(guards, payload, row, field)
    ensures Repoints(guards, payload, row, field) <==> !LooksKept(At(row, field), After(guards, payload, row, field))
  {
  }

  // The caller may use every parent the row ends up with.
  ghost predicate Permitted(guards: seq<Check>, payload: Payload, row: Row, may: May) {
    forall j :: 0 <= j < |guards| ==>
      var c := After(guards, payload, row, guards[j].field); c.Stored? && c.k != "" ==> may(guards[j], c.k)
  }

  // One repointed row is enough to have every row judged.
  lemma SeenParentsPass(guards: seq<Check>, payload: Payload, rows: seq<Row>, may: May, r: nat)
    requires DistinctFields(guards) && Allowed(guards, payload, rows, may) && RepointsAny(guards, payload, rows) && r < |rows|
    ensures Permitted(guards, payload, rows[r], may)
  {
    forall j | 0 <= j < |guards|
      ensures var c := After(guards, payload, rows[r], guards[j].field); c.Stored? && c.k != "" ==> may(guards[j], c.k)
    {
      KeyIsOwn(guards, j);
      if |guards| == 1 {
        assert Passes(guards[j], PayloadItem(payload), may);
      } else {
        assert Passes(guards[j], Merged(rows[r], payload), may);
      }
    }
  }

  // Saving the whole form with its current keys is never refused.
  lemma UnchangedIsAllowed(guards: seq<Check>, payload: Payload, rows: seq<Row>, may: May)
    requires forall r, f :: 0 <= r < |rows| && f in payload ==>
               payload[f].Blank? || (At(rows[r], f).Stored? && payload[f] == Bare(At(rows[r], f).k))
    ensures Allowed(guards, payload, rows, may)
  {
    forall r, i | 0 <= r < |rows| && 0 <= i < |guards|
      ensures !Repoints(guards, payload, rows[r], guards[i].field)
    {
      var f := guards[i].field;
      assert f in payload ==> payload[f].Blank? || payload[f] == Bare(At(rows[r], f).k);
    }
  }

  // ---- enforceOwner ----

  predicate OwnerKept(current: map<string, Cell>, key: string, next: Named) {
    key in current &&
    var had := current[key];
    if had.Stored? && had.k != "" then had.k == NamedText(next) else next == NoParent
  }

  method EnforceOwner(keys: seq<string>, current: map<string, Cell>, value: Sent, valueKey: string, mayDelete: string -> bool) returns (allowed: bool)
    ensures allowed <==> forall i :: 0 <= i < |keys| ==> OwnerKept(current, keys[i], ParentKey(value, valueKey)) || mayDelete(keys[i])
  {
    var next := ParentKey(value, valueKey);
    for i := 0 to |keys|
      invariant forall k :: 0 <= k < i ==> OwnerKept(current, keys[k], next) || mayDelete(keys[k])
    {
      var key := keys[i];
      var known := key in current;
      if known {
        var had := current[key];
        var blank := !had.Stored? || had.k == "";
        if if blank then next == NoParent else CellText(had) == NamedText(next) {
          continue;
        }
      }
      if !mayDelete(key) {
        return false;
      }
    }
    return true;
  }

  function OwnerAfter(next: Named): Cell {
    match next
    case NoParent => Null
    case NewParent => Undefined
    case Parent(k) => Stored(k)
  }

  predicate NoOwner(c: Cell) {
    c == Null || c == Stored("")
  }

  // String() turns null and undefined into texts, which an owner's key could equal.
  predicate Mistaken(had: Cell, next: Named) {
    (had == Stored("null") && next == NoParent) || (had == Stored("undefined") && next == NewParent)
  }

  predicate SameOwner(had: Cell, next: Named) {
    had == OwnerAfter(next) || (next == NoParent && NoOwner(had))
  }

  // The test for a kept owner is exact but for those two texts.
  lemma KeptIsSame(current: map<string, Cell>, key: string, next: Named)
    requires key in current && current[key] != Undefined && (next.Parent? ==> next.k != "")
    ensures OwnerKept(current, key, next) <==> SameOwner(current[key], next) || Mistaken(current[key], next)
  {
  }

  // Only someone who may delete the record changes its owner.
  lemma OwnerHandedOverByOwner(keys: seq<string>, current: map<string, Cell>, value: Sent, valueKey: string, mayDelete: string -> bool, i: nat)
    requires forall k :: 0 <= k < |keys| ==> OwnerKept(current, keys[k], ParentKey(value, valueKey)) || mayDelete(keys[k])
    requires i < |keys| && keys[i] in current && current[keys[i]] != Undefined
    requires var next := ParentKey(value, valueKey); !SameOwner(current[keys[i]], next) && !Mistaken(current[keys[i]], next)
    ensures mayDelete(keys[i])
  {
    KeptIsSame(current, keys[i], ParentKey(value, valueKey));
  }

  // ---- the update filter as a whole ----

  datatype OwnerGuard = OwnerGuard(field: string, valueKey: string)

  // One update: what the hook knows of it. `current` holds the owner column of the rows updated.
  datatype Update = Update(payload: Payload, keys: seq<string>, existing: seq<Row>, current: map<string, Cell>)

  predicate SendsOwner(owner: Option<OwnerGuard>, u: Update) {
    owner.Some? && owner.value.field in u.payload
  }

  // An update that sends the owner column is judged by that column alone.
  predicate UpdateAllowed(guards: seq<Check>, owner: Option<OwnerGuard>, u: Update, may: May, mayDelete: string -> bool) {
    if SendsOwner(owner, u) then
      forall i :: 0 <= i < |u.keys| ==>
        OwnerKept(u.current, u.keys[i], ParentKey(u.payload[owner.value.field], owner.value.valueKey)) || mayDelete(u.keys[i])
    else Allowed(guards, u.payload, if u.existing != [] then u.existing else [map[]], may)
  }

  method UpdateFilter(guards: seq<Check>, owner: Option<OwnerGuard>, u: Update, may: May, mayDelete: string -> bool) returns (allowed: bool)
    ensures allowed <==> UpdateAllowed(guards, owner, u, may, mayDelete)
  {
    if owner.Some? && owner.value.field in u.payload {
      allowed := EnforceOwner(u.keys, u.current, u.payload[owner.value.field], owner.value.valueKey, mayDelete);
      return;
    }
    allowed := UpdateParents(guards, u.payload, u.existing, may);
  }

  // Sending the owner column needs no permission for a record that keeps its owner, or has none and gets none,
  // and the right to delete any other; the two texts aside.
  lemma OwnerUpdateExactly(guards: seq<Check>, owner: Option<OwnerGuard>, u: Update, may: May, mayDelete: string -> bool)
    requires SendsOwner(owner, u) && forall i :: 0 <= i < |u.keys| && u.keys[i] in u.current ==> u.current[u.keys[i]] != Undefined
    ensures var next := ParentKey(u.payload[owner.value.field], owner.value.valueKey);
            UpdateAllowed(guards, owner, u, may, mayDelete) <==>
              forall i :: 0 <= i < |u.keys| ==>
                mayDelete(u.keys[i]) ||
                (u.keys[i] in u.current && (SameOwner(u.current[u.keys[i]], next) || Mistaken(u.current[u.keys[i]], next)))
  {
    var next := ParentKey(u.payload[owner.value.field], owner.value.valueKey);
    forall i | 0 <= i < |u.keys| && u.keys[i] in u.current
      ensures OwnerKept(u.current, u.keys[i], next) <==> SameOwner(u.current[u.keys[i]], next) || Mistaken(u.current[u.keys[i]], next)
    {
      KeptIsSame(u.current, u.keys[i], next);
    }
  }

  // No link without permission: an allowed update that does not send the owner column and is seen to give some
  // row a new parent leaves every row with parents the caller may use.
  lemma NewLinksArePermitted(guards: seq<Check>, owner: Option<OwnerGuard>, u: Update, may: May, mayDelete: string -> bool, r: nat)
    requires DistinctFields(guards) && !SendsOwner(owner, u) && UpdateAllowed(guards, owner, u, may, mayDelete)
    requires r < |u.existing| && RepointsAny(guards, u.payload, u.existing)
    ensures Permitted(guards, u.payload, u.existing[r], may)
  {
    SeenParentsPass(guards, u.payload, u.existing, may, r);
  }

  /**
   Checking the new parents is enough: such an update is allowed if and only if the caller may use every parent
   that every row ends up with, whatever parents the rows had before.
   */
  lemma RelinkAllowedExactly(guards: seq<Check>, owner: Option<OwnerGuard>, u: Update, may: May, mayDelete: string -> bool)
    requires DistinctFields(guards) && !SendsOwner(owner, u) && u.existing != [] && RepointsAny(guards, u.payload, u.existing)
    ensures UpdateAllowed(guards, owner, u, may, mayDelete) <==>
              forall r :: 0 <= r < |u.existing| ==> Permitted(guards, u.payload, u.existing[r], may)
  {
    if UpdateAllowed(guards, owner, u, may, mayDelete) {
      forall r | 0 <= r < |u.existing|
        ensures Permitted(guards, u.payload, u.existing[r], may)
      {
        NewLinksArePermitted(guards, owner, u, may, mayDelete, r);
      }
    }
    if forall r :: 0 <= r < |u.existing| ==> Permitted(guards, u.payload, u.existing[r], may) {
      PermittedPasses(guards, u.payload, u.existing, may);
    }
  }

  lemma PermittedPasses(guards: seq<Check>, payload: Payload, rows: seq<Row>, may: May)
    requires DistinctFields(guards) && rows != [] && forall r :: 0 <= r < |rows| ==> Permitted(guards, payload, rows[r], may)
    ensures Allowed(guards, payload, rows, may)
  {
    forall r, j | 0 <= r < |rows| && 0 <= j < |guards|
      ensures Passes(guards[j], Merged(rows[r], payload), may) && Passes(guards[j], PayloadItem(payload), may)
    {
      KeyIsOwn(guards, j);
      assert Permitted(guards, payload, rows[r], may);
    }
  }

  // A parent created by the update counts as new for every row.
  lemma CreatedParentIsSeen(guards: seq<Check>, payload: Payload, rows: seq<Row>, i: nat)
    requires DistinctFields(guards) && i < |guards| && rows != [] && guards[i].field in payload && payload[guards[i].field].Nested?
    requires var sent := payload[guards[i].field].fields; guards[i].key !in sent || sent[guards[i].key] == ""
    ensures RepointsAny(guards, payload, rows)
  {
    KeyIsOwn(guards, i);
    assert Repoints(guards, payload, rows[0], guards[i].field);
  }

  // An update that gives no row a new parent is never refused.
  lemma NothingGainedPasses(guards: seq<Check>, owner: Option<OwnerGuard>, u: Update, may: May, mayDelete: string -> bool)
    requires !SendsOwner(owner, u) && u.existing != []
    requires forall r, i :: 0 <= r < |u.existing| && 0 <= i < |guards| ==>
               var f := guards[i].field;
               !Gains(guards, u.payload, u.existing[r], f) && (f in u.payload ==> ParentKey(u.payload[f], KeyOf(guards, f)) != NewParent)
    ensures UpdateAllowed(guards, owner, u, may, mayDelete)
  {
    forall r, i | 0 <= r < |u.existing| && 0 <= i < |guards|
      ensures !Repoints(guards, u.payload, u.existing[r], guards[i].field)
    {
      assert !Gains(guards, u.payload, u.existing[r], guards[i].field);
    }
  }

  // Whatever the caller may use and delete, the update passes only with parents the caller may use.
  ghost predicate AlwaysPermitted(guards: seq<Check>, owner: Option<OwnerGuard>, u: Update, row: Row) {
    forall may: May, mayDelete: string -> bool :: UpdateAllowed(guards, owner, u, may, mayDelete) ==> Permitted(guards, u.payload, row, may)
  }

  /**
   The promise, exactly. For a row that an update gives a new parent it is kept if and only if the update does
   not send the owner column and the hook sees some row repointed, as it does unless the new key is the text of
   the missing value it replaces.
   */
  lemma NewLinksArePermittedExactly(guards: seq<Check>, owner: Option<OwnerGuard>, u: Update, r: nat, i: nat)
    requires DistinctFields(guards) && r < |u.existing| && i < |guards|
    requires Gains(guards, u.payload, u.existing[r], guards[i].field)
    ensures AlwaysPermitted(guards, owner, u, u.existing[r]) <==> !SendsOwner(owner, u) && RepointsAny(guards, u.payload, u.existing)
    ensures !LooksKept(At(u.existing[r], guards[i].field), After(guards, u.payload, u.existing[r], guards[i].field)) ==>
      RepointsAny(guards, u.payload, u.existing)
  {
    GainIsSeen(guards, u.payload, u.existing[r], guards[i].field);
    if SendsOwner(owner, u) || !RepointsAny(guards, u.payload, u.existing) {
      NobodyMay(guards, owner, u, r, i);
    } else {
      forall may: May, mayDelete: string -> bool | UpdateAllowed(guards, owner, u, may, mayDelete)
        ensures Permitted(guards, u.payload, u.existing[r], may)
      {
        NewLinksArePermitted(guards, owner, u, may, mayDelete, r);
      }
    }
  }

  // Otherwise an update passes for a caller who may use no parent at all.
  lemma NobodyMay(guards: seq<Check>, owner: Option<OwnerGuard>, u: Update, r: nat, i: nat)
    requires r < |u.existing| && i < |guards| && Gains(guards, u.payload, u.existing[r], guards[i].field)
    requires SendsOwner(owner, u) || !RepointsAny(guards, u.payload, u.existing)
    ensures !AlwaysPermitted(guards, owner, u, u.existing[r])
  {
    var may: May := (c, k) => false;
    var mayDelete := (k: string) => true;
    assert UpdateAllowed(guards, owner, u, may, mayDelete);
    assert !Permitted(guards, u.payload, u.existing[r], may);
  }

  // A stored NULL takes the key "null" for what it has: the link passes with no permission at all.
  lemma NullTextSkipsGuards(may: May, mayDelete: string -> bool)
    returns (guards: seq<Check>, u: Update)
    ensures DistinctFields(guards) && |u.existing| == 1 && UpdateAllowed(guards, None, u, may, mayDelete)
    ensures |guards| == 1 && Gains(guards, u.payload, u.existing[0], guards[0].field)
  {
    guards := [Check("parent", "parents", "id")];
    u := Update(map["parent" := Bare("null")], ["1"], [map["parent" := Null]], map[]);
  }

  // A collection with both kinds of guard would let an update that sends the owner column link any parent.
  lemma OwnerColumnSkipsGuards(may: May, mayDelete: string -> bool)
    returns (guards: seq<Check>, owner: Option<OwnerGuard>, u: Update)
    requires mayDelete("1")
    ensures DistinctFields(guards) && |u.existing| == 1 && UpdateAllowed(guards, owner, u, may, mayDelete)
    ensures |guards| == 1 && Gains(guards, u.payload, u.existing[0], guards[0].field)
  {
    guards := [Check("parent", "parents", "id")];
    owner := Some(OwnerGuard("owner", "id"));
    u := Update(map["parent" := Bare("b"), "owner" := Bare("me")], ["1"], [map["parent" := Stored("a")]], map["1" := Stored("you")]);
  }
}
