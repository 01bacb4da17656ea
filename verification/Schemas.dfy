/** OpenAPI schema resolution and comparison: openapi_schema/api.go and openapi_schema/utils.go. */
module Schemas {
  import opened Basics
  import opened Texts

  /** A reference names a component, carries a schema, or both. */
  datatype SchemaRef = SchemaRef(ref: string, value: Option<Schema>)

  datatype Schema = Schema(types: seq<string>, properties: map<string, SchemaRef>, required: seq<string>,
                           items: Option<SchemaRef>, allOf: seq<SchemaRef>, oneOf: seq<SchemaRef>,
                           anyOf: seq<SchemaRef>, title: string)

  type Table = map<string, SchemaRef>

  // ------------------------------------------------------------ following references

  function ComponentName(ref: string): string {
    var parts := Split(ref, '/');
    parts[|parts| - 1]
  }

  /** GetOpenApiComponentSchema: the component named by the last part of the reference, None if unknown. */
  function Component(table: Table, ref: string): Option<SchemaRef> {
    var name := ComponentName(ref);
    if name in table then Some(table[name]) else None
  }

  /** All reference strings that can turn up. */
  function Names(table: Table, start: Option<SchemaRef>): set<string> {
    (set k | k in table :: table[k].ref) + (if start.Some? then {start.value.ref} else {})
  }

  predicate MustFollow(r: Option<SchemaRef>, seen: set<string>) {
    r.Some? && r.value.ref != "" && r.value.ref !in seen
  }

  lemma NamesShrink(table: Table, r: Option<SchemaRef>, seen: set<string>)
    requires MustFollow(r, seen)
    ensures Names(table, Component(table, r.value.ref)) <= Names(table, r)
    ensures |Names(table, Component(table, r.value.ref)) - (seen + {r.value.ref})| < |Names(table, r) - seen|
  {
    var next := Names(table, Component(table, r.value.ref));
    assert next - (seen + {r.value.ref}) <= (Names(table, r) - seen) - {r.value.ref};
    SubsetSize(next - (seen + {r.value.ref}), (Names(table, r) - seen) - {r.value.ref});
  }

  function Follow(table: Table, r: Option<SchemaRef>, seen: set<string>): Option<SchemaRef>
    decreases |Names(table, r) - seen|
  {
    if MustFollow(r, seen) then
      NamesShrink(table, r, seen);
      Follow(table, Component(table, r.value.ref), seen + {r.value.ref})
    else r
  }

  function ValueOf(r: Option<SchemaRef>): Option<Schema> {
    if r.Some? then r.value.value else None
  }

  /** ResolveAllRefs; None stands for its panic. */
  function Resolve(table: Table, r: SchemaRef): Option<Schema> {
    ValueOf(Follow(table, Some(r), {}))
  }

  method ResolveAllRefs(table: Table, start: SchemaRef) returns (s: Option<Schema>)
    ensures s == Resolve(table, start)
  {
    var ref := Some(start);
    var seen: set<string> := {};
    while ref.Some? && ref.value.ref != "" && ref.value.ref !in seen
      invariant Follow(table, ref, seen) == Follow(table, Some(start), {})
      decreases |Names(table, ref) - seen|
    {
      NamesShrink(table, ref, seen);
      var name := ref.value.ref;
      seen := seen + {name};
      ref := Component(table, name);
    }
    if ref.None? || ref.value.value.None? {
      return None;
    }
    s := ref.value.value;
  }

  /** The n-th reference on the way. */
  function Hop(table: Table, start: Option<SchemaRef>, n: nat): Option<SchemaRef> {
    if n == 0 then start
    else
      var r := Hop(table, start, n - 1);
      if r.Some? then Component(table, r.value.ref) else None
  }

  predicate Ends(r: Option<SchemaRef>) {
    r.None? || r.value.ref == ""
  }

  /** The way ends at n, or the reference at n has been met before. */
  predicate StopsAt(table: Table, start: Option<SchemaRef>, n: nat) {
    var r := Hop(table, start, n);
    Ends(r) || exists j :: 0 <= j < n && Hop(table, start, j) == Some(SchemaRef(r.value.ref, HopValue(table, start, j)))
  }

  function HopValue(table: Table, start: Option<SchemaRef>, j: nat): Option<Schema> {
    ValueOf(Hop(table, start, j))
  }

  ghost predicate NoStopBefore(table: Table, start: Option<SchemaRef>, n: nat) {
    forall m: nat :: m < n ==> !StopsAt(table, start, m)
  }

  ghost predicate FirstStop(table: Table, start: Option<SchemaRef>, n: nat) {
    StopsAt(table, start, n) && NoStopBefore(table, start, n)
  }

  /** The references met before the n-th. */
  function Met(table: Table, start: Option<SchemaRef>, n: nat): set<string> {
    if n == 0 then {}
    else
      Met(table, start, n - 1)
      + (match Hop(table, start, n - 1) case None => {} case Some(r) => {r.ref})
  }

  lemma {:induction false} MetIff(table: Table, start: Option<SchemaRef>, n: nat, name: string)
    ensures name in Met(table, start, n) <==>
            exists j :: 0 <= j < n && Hop(table, start, j) == Some(SchemaRef(name, HopValue(table, start, j)))
  {
    if n > 0 {
      MetIff(table, start, n - 1, name);
      if name in Met(table, start, n) && name !in Met(table, start, n - 1) {
        assert Hop(table, start, n - 1) == Some(SchemaRef(name, HopValue(table, start, n - 1)));
      }
    }
  }

  lemma StopsIff(table: Table, start: Option<SchemaRef>, n: nat)
    ensures StopsAt(table, start, n) <==> !MustFollow(Hop(table, start, n), Met(table, start, n))
  {
    if !Ends(Hop(table, start, n)) {
      MetIff(table, start, n, Hop(table, start, n).value.ref);
    }
  }

  function Left(table: Table, start: Option<SchemaRef>, n: nat): nat {
    |Names(table, Hop(table, start, n)) - Met(table, start, n)|
  }

  lemma FollowUnfolds(table: Table, r: Option<SchemaRef>, seen: set<string>, next: Option<SchemaRef>, more: set<string>)
    requires MustFollow(r, seen) && next == Component(table, r.value.ref) && more == seen + {r.value.ref}
    ensures Follow(table, r, seen) == Follow(table, next, more)
    ensures |Names(table, next) - more| < |Names(table, r) - seen|
  {
    NamesShrink(table, r, seen);
  }

  lemma HopMet(table: Table, start: Option<SchemaRef>, n: nat)
    requires Hop(table, start, n).Some?
    ensures Hop(table, start, n + 1) == Component(table, Hop(table, start, n).value.ref)
    ensures Met(table, start, n + 1) == Met(table, start, n) + {Hop(table, start, n).value.ref}
  {
  }

  lemma FollowStep(table: Table, start: Option<SchemaRef>, n: nat)
    requires !StopsAt(table, start, n)
    ensures Left(table, start, n + 1) < Left(table, start, n)
    ensures Follow(table, Hop(table, start, n), Met(table, start, n))
         == Follow(table, Hop(table, start, n + 1), Met(table, start, n + 1))
  {
    StopsIff(table, start, n);
    HopMet(table, start, n);
    FollowUnfolds(table, Hop(table, start, n), Met(table, start, n),
                  Hop(table, start, n + 1), Met(table, start, n + 1));
  }

  lemma FollowOnce(table: Table, start: Option<SchemaRef>, m: nat)
    requires NoStopBefore(table, start, m) && !StopsAt(table, start, m)
    ensures NoStopBefore(table, start, m + 1)
  {
    forall i: nat | i < m + 1 ensures !StopsAt(table, start, i) {
      if i < m {
        assert !StopsAt(table, start, i);
      }
    }
  }

  lemma FollowEnds(table: Table, start: Option<SchemaRef>, m: nat)
    requires NoStopBefore(table, start, m) && StopsAt(table, start, m)
    ensures FirstStop(table, start, m)
    ensures Follow(table, Hop(table, start, m), Met(table, start, m)) == Hop(table, start, m)
  {
    StopsIff(table, start, m);
  }

  lemma {:induction false} FollowHops(table: Table, start: Option<SchemaRef>, m: nat) returns (n: nat)
    requires NoStopBefore(table, start, m)
    ensures FirstStop(table, start, n)
    ensures Follow(table, Hop(table, start, m), Met(table, start, m)) == Hop(table, start, n)
    decreases Left(table, start, m)
  {
    if StopsAt(table, start, m) {
      FollowEnds(table, start, m);
      n := m;
    } else {
      FollowStep(table, start, m);
      FollowOnce(table, start, m);
      n := FollowHops(table, start, m + 1);
    }
  }

  /** On every finite table, cyclic ones included, the resolver stops, and it stops at the first reference that
      names nothing further, is unknown, or repeats an earlier one. */
  lemma ResolveStops(table: Table, start: SchemaRef)
    ensures exists n: nat :: FirstStop(table, Some(start), n)
                             && Resolve(table, start) == ValueOf(Hop(table, Some(start), n))
  {
    var n := FollowHops(table, Some(start), 0);
  }

  /** If the way ends anywhere, the resolver returns the schema at that end. */
  lemma ResolveFindsEnd(table: Table, start: SchemaRef, n: nat)
    requires Ends(Hop(table, Some(start), n)) && forall i: nat :: i < n ==> !Ends(Hop(table, Some(start), i))
    ensures Resolve(table, start) == ValueOf(Hop(table, Some(start), n))
  {
    var m := FollowHops(table, Some(start), 0);
    if m < n {
      // A repetition before the end would repeat for ever.
      var r := Hop(table, Some(start), m);
      var j :| 0 <= j < m
               && Hop(table, Some(start), j) == Some(SchemaRef(r.value.ref, HopValue(table, Some(start), j)));
      Periodic(table, Some(start), j, m, n);
    } else {
      assert StopsAt(table, Some(start), n);
    }
  }

  lemma {:induction false} Periodic(table: Table, start: Option<SchemaRef>, j: nat, m: nat, n: nat)
    requires j < m <= n
    requires forall i: nat :: i < n ==> !Ends(Hop(table, start, i))
    requires Ends(Hop(table, start, n))
    requires Hop(table, start, m).Some? && Hop(table, start, j).Some?
    requires Hop(table, start, j).value.ref == Hop(table, start, m).value.ref
    ensures false
    decreases n - m
  {
    if m < n {
      assert Hop(table, start, j + 1) == Hop(table, start, m + 1);
      if m + 1 < n {
        Periodic(table, start, j + 1, m + 1, n);
      }
    }
  }

  // ------------------------------------------------------------ references and the table

  /** The reference is the name itself or ends in a slash and the name. */
  predicate Denotes(ref: string, n: string) {
    && Free('/', n) && ref != ""
    && (ref == n || (|ref| > |n| && ref[|ref| - |n| - 1] == '/' && ref[|ref| - |n|..] == n))
  }

  lemma DenotesName(ref: string, n: string)
    requires Denotes(ref, n)
    ensures ComponentName(ref) == n
  {
    SplitFree(n, '/');
    if ref != n {
      var p := ref[..|ref| - |n| - 1];
      assert ref == p + ['/'] + n;
      SplitConcat(p, n, '/');
    }
  }

  /** Each reference denotes a component that refers on to the next one, and the last component carries s. */
  predicate LeadsTo(table: Table, refs: seq<string>, names: seq<string>, s: Schema) {
    && |refs| == |names| >= 1
    && (forall i :: 0 <= i < |refs| ==> Denotes(refs[i], names[i]) && names[i] in table)
    && (forall i, j :: 0 <= i < j < |names| ==> names[i] != names[j])
    && (forall i :: 0 <= i < |refs| - 1 ==> table[names[i]].ref == refs[i + 1])
    && table[names[|names| - 1]] == SchemaRef("", Some(s))
  }

  lemma LeadsOn(table: Table, refs: seq<string>, names: seq<string>, s: Schema)
    requires LeadsTo(table, refs, names, s) && |refs| > 1
    ensures LeadsTo(table, refs[1..], names[1..], s)
  {
  }

  lemma {:induction false} ChainFollows(table: Table, refs: seq<string>, names: seq<string>, s: Schema,
                                        v: Option<Schema>, seen: set<string>)
    requires LeadsTo(table, refs, names, s)
    requires forall i :: 0 <= i < |refs| ==> refs[i] !in seen
    ensures Follow(table, Some(SchemaRef(refs[0], v)), seen) == Some(SchemaRef("", Some(s)))
    decreases |refs|
  {
    DenotesName(refs[0], names[0]);
    var next := table[names[0]];
    if |refs| > 1 {
      LeadsOn(table, refs, names, s);
      forall i | 0 <= i < |refs[1..]| ensures refs[1..][i] !in seen + {refs[0]} {
        DenotesName(refs[i + 1], names[i + 1]);
        assert names[0] != names[i + 1];
      }
      ChainFollows(table, refs[1..], names[1..], s, next.value, seen + {refs[0]});
    }
  }

  /** A chain of references through the table resolves to the schema at its end, whatever the first one carries. */
  lemma ResolveChain(table: Table, refs: seq<string>, names: seq<string>, s: Schema, v: Option<Schema>)
    requires LeadsTo(table, refs, names, s)
    ensures Resolve(table, SchemaRef(refs[0], v)) == Some(s)
  {
    ChainFollows(table, refs, names, s, v, {});
  }

  /** A reference to a component that is not in the table does not resolve. */
  lemma ResolveUnknown(table: Table, ref: string, n: string, v: Option<Schema>)
    requires Denotes(ref, n) && n !in table
    ensures Resolve(table, SchemaRef(ref, v)) == None
  {
    DenotesName(ref, n);
    assert Component(table, ref) == None;
    assert Follow(table, None, {} + {ref}) == None;
  }

  /** For example: #/components/schemas/User is the component User. */
  lemma ResolveUser(table: Table, s: Schema)
    requires "User" in table && table["User"] == SchemaRef("", Some(s))
    ensures Resolve(table, SchemaRef("#/components/schemas/User", None)) == Some(s)
  {
    var ref := "#/components/schemas/User";
    assert ref[|ref| - 4..] == "User" && ref[|ref| - 5] == '/';
    ResolveChain(table, [ref], ["User"], s, None);
  }

  // ------------------------------------------------------------ composition

  /** The schema's own part, and the effect of merging one resolved sub-schema. */
  function Own(s: Schema): Schema {
    Schema(s.types, s.properties, s.required, None, [], [], [], s.title)
  }

  function Merge(m: Schema, sub: Schema): Schema {
    m.(properties := m.properties + sub.properties, required := m.required + sub.required,
       types := if sub.types != [] then sub.types else m.types)
  }

  /** The first alternative that resolves to a typed schema; the fallback if there is none. */
  function FirstTyped(table: Table, refs: seq<SchemaRef>, fallback: Schema): Option<Schema> {
    if refs == [] then Some(fallback)
    else
      match Resolve(table, refs[0])
      case None => None
      case Some(sub) => if sub.types != [] then Some(sub) else FirstTyped(table, refs[1..], fallback)
  }

  function Alternative(table: Table, s: Schema): Option<Schema> {
    if s.types != [] then Some(s) else FirstTyped(table, s.oneOf + s.anyOf, s)
  }

  /** The recursion of the source from s ends within d levels. It goes through allOf from left to right, and a
      reference that cannot be resolved ends it with a panic: what comes after that is not reached. */
  ghost predicate Unfolds(table: Table, s: Schema, d: nat)
    decreases d, 0, 0
  {
    s.allOf == [] || (d > 0 && AllUnfold(table, s.allOf, d - 1))
  }

  ghost predicate AllUnfold(table: Table, refs: seq<SchemaRef>, d: nat)
    decreases d, 2, |refs|
  {
    refs == [] ||
    match Resolve(table, refs[0])
    case None => true
    case Some(s) => Unfolds(table, s, d) && (Compose(table, s, d).None? || AllUnfold(table, refs[1..], d))
  }

  /** ResolveComposedSchema; None stands for the panic of a reference that cannot be resolved. */
  ghost function Compose(table: Table, s: Schema, d: nat): Option<Schema>
    requires Unfolds(table, s, d)
    decreases d, 1, 0
  {
    if s.allOf == [] then Alternative(table, s) else MergeAll(table, Own(s), s.allOf, d - 1)
  }

  ghost function MergeAll(table: Table, m: Schema, refs: seq<SchemaRef>, d: nat): Option<Schema>
    requires AllUnfold(table, refs, d)
    decreases d, 3, |refs|
  {
    if refs == [] then Some(m)
    else
      match Resolve(table, refs[0])
      case None => None
      case Some(s) =>
        match Compose(table, s, d)
        case None => None
        case Some(sub) => MergeAll(table, Merge(m, sub), refs[1..], d)
  }

  method PickAlternative(table: Table, s: Schema) returns (r: Option<Schema>)
    ensures r == Alternative(table, s)
  {
    if s.types != [] {
      return Some(s);
    }
    var refs := s.oneOf + s.anyOf;
    for i := 0 to |refs|
      invariant FirstTyped(table, refs, s) == FirstTyped(table, refs[i..], s)
    {
      var sub := ResolveAllRefs(table, refs[i]);
      assert refs[i..][1..] == refs[i + 1..];
      if sub.None? {
        return None;
      }
      if sub.value.types != [] {
        return sub;
      }
    }
    assert refs[|refs|..] == [];
    r := Some(s);
  }

  method MergeInto(merged: Schema, sub: Schema) returns (m: Schema)
    ensures m == Merge(merged, sub)
  {
    m := merged.(properties := merged.properties + sub.properties, required := merged.required + sub.required);
    if sub.types != [] {
      m := m.(types := sub.types);
    }
  }

  lemma MergeNext(table: Table, m: Schema, refs: seq<SchemaRef>, i: nat, d: nat)
    requires i < |refs| && AllUnfold(table, refs[i..], d)
    ensures match Resolve(table, refs[i])
            case None => MergeAll(table, m, refs[i..], d) == None
            case Some(s) =>
              Unfolds(table, s, d)
              && (match Compose(table, s, d)
                  case None => MergeAll(table, m, refs[i..], d) == None
                  case Some(sub) =>
                    AllUnfold(table, refs[i + 1..], d)
                    && MergeAll(table, m, refs[i..], d) == MergeAll(table, Merge(m, sub), refs[i + 1..], d))
  {
    assert refs[i..][0] == refs[i] && refs[i..][1..] == refs[i + 1..];
  }

  method ResolveComposedSchema(table: Table, s: Schema, ghost d: nat) returns (r: Option<Schema>)
    requires Unfolds(table, s, d)
    ensures r == Compose(table, s, d)
    decreases d, 0
  {
    if |s.allOf| == 0 {
      r := PickAlternative(table, s);
      return;
    }
    var merged := Schema(s.types, s.properties, s.required, None, [], [], [], s.title);
    r := MergeSubschemas(table, merged, s.allOf, d - 1);
  }

  /** The loop over allOf. */
  method MergeSubschemas(table: Table, start: Schema, refs: seq<SchemaRef>, ghost d: nat) returns (r: Option<Schema>)
    requires AllUnfold(table, refs, d)
    ensures r == MergeAll(table, start, refs, d)
    decreases d, 1
  {
    var merged := start;
    assert refs[0..] == refs;
    for i := 0 to |refs|
      invariant AllUnfold(table, refs[i..], d)
      invariant MergeAll(table, start, refs, d) == MergeAll(table, merged, refs[i..], d)
    {
      MergeNext(table, merged, refs, i, d);
      var target := ResolveAllRefs(table, refs[i]);
      if target.None? {
        return None;
      }
      var sub := ResolveComposedSchema(table, target.value, d);
      if sub.None? {
        return None;
      }
      merged := MergeInto(merged, sub.value);
    }
    assert refs[|refs|..] == [];
    r := Some(merged);
  }

  // ------------------------------------------------------------ composition as one flat merge

  /** What is merged, from left to right: of a schema with allOf its own part and the leaves below it, of any other
      the alternative it picks. A picked alternative that has allOf itself is a leaf as it stands. */
  ghost function Leaves(table: Table, s: Schema, d: nat): seq<Schema>
    requires Unfolds(table, s, d) && Compose(table, s, d).Some?
    decreases d, 1, 0
  {
    if s.allOf == [] then [Alternative(table, s).value]
    else [Own(s)] + LeavesOf(table, Own(s), s.allOf, d - 1)
  }

  ghost function LeavesOf(table: Table, m: Schema, refs: seq<SchemaRef>, d: nat): seq<Schema>
    requires AllUnfold(table, refs, d) && MergeAll(table, m, refs, d).Some?
    decreases d, 2, |refs|
  {
    if refs == [] then []
    else
      var s := Resolve(table, refs[0]).value;
      Leaves(table, s, d) + LeavesOf(table, Merge(m, Compose(table, s, d).value), refs[1..], d)
  }

  function Fold(m: Schema, leaves: seq<Schema>): Schema
    decreases |leaves|
  {
    if leaves == [] then m else Fold(Merge(m, leaves[0]), leaves[1..])
  }

  lemma MergeAssociative(m: Schema, a: Schema, b: Schema)
    ensures Merge(m, Merge(a, b)) == Merge(Merge(m, a), b)
  {
    assert m.properties + (a.properties + b.properties) == (m.properties + a.properties) + b.properties;
    assert m.required + (a.required + b.required) == (m.required + a.required) + b.required;
  }

  lemma {:induction false} MergeFold(m: Schema, a: Schema, leaves: seq<Schema>)
    ensures Merge(m, Fold(a, leaves)) == Fold(Merge(m, a), leaves)
    decreases |leaves|
  {
    if leaves != [] {
      MergeAssociative(m, a, leaves[0]);
      MergeFold(m, Merge(a, leaves[0]), leaves[1..]);
    }
  }

  lemma {:induction false} FoldConcat(m: Schema, a: seq<Schema>, b: seq<Schema>)
    ensures Fold(m, a + b) == Fold(Fold(m, a), b)
    decreases |a|
  {
    if a == [] {
      assert a + b == b;
    } else {
      assert (a + b)[1..] == a[1..] + b;
      FoldConcat(Merge(m, a[0]), a[1..], b);
    }
  }

  /** Merging a composed sub-schema is merging its leaves one by one. */
  lemma {:induction false} ComposeIsFold(table: Table, m: Schema, s: Schema, d: nat)
    requires Unfolds(table, s, d) && Compose(table, s, d).Some?
    ensures Merge(m, Compose(table, s, d).value) == Fold(m, Leaves(table, s, d))
    decreases d, 1, 0
  {
    if s.allOf == [] {
      var leaves := Leaves(table, s, d);
      assert leaves[1..] == [];
    } else {
      var rest := LeavesOf(table, Own(s), s.allOf, d - 1);
      MergeAllIsFold(table, Own(s), s.allOf, d - 1);
      MergeFold(m, Own(s), rest);
      assert ([Own(s)] + rest)[1..] == rest;
    }
  }

  lemma {:induction false} MergeAllIsFold(table: Table, m: Schema, refs: seq<SchemaRef>, d: nat)
    requires AllUnfold(table, refs, d) && MergeAll(table, m, refs, d).Some?
    ensures MergeAll(table, m, refs, d).value == Fold(m, LeavesOf(table, m, refs, d))
    decreases d, 2, |refs|
  {
    if refs != [] {
      var s := Resolve(table, refs[0]).value;
      ComposeIsFold(table, m, s, d);
      var m' := Merge(m, Compose(table, s, d).value);
      MergeAllIsFold(table, m', refs[1..], d);
      FoldConcat(m, Leaves(table, s, d), LeavesOf(table, m', refs[1..], d));
    }
  }

  /** Leaf i defines the property and no later leaf does. */
  predicate LastDefines(leaves: seq<Schema>, i: nat, name: string) {
    i < |leaves| && name in leaves[i].properties && forall j :: i < j < |leaves| ==> name !in leaves[j].properties
  }

  predicate LastTyped(leaves: seq<Schema>, i: nat) {
    i < |leaves| && leaves[i].types != [] && forall j :: i < j < |leaves| ==> leaves[j].types == []
  }

  function AllRequired(leaves: seq<Schema>): seq<string> {
    if leaves == [] then [] else leaves[0].required + AllRequired(leaves[1..])
  }

  /** The flat merge: every property from the last leaf that has it, the requirements of all leaves in order, the
      type of the last typed leaf. */
  ghost predicate FlatMerge(r: Schema, leaves: seq<Schema>) {
    FlatProperties(r, leaves) && r.required == AllRequired(leaves) && FlatTypes(r, leaves)
  }

  ghost predicate FlatProperties(r: Schema, leaves: seq<Schema>) {
    && (forall name :: name in r.properties <==> exists i :: 0 <= i < |leaves| && name in leaves[i].properties)
    && (forall i: nat, name | i < |leaves| && LastDefines(leaves, i, name) ::
          name in r.properties && r.properties[name] == leaves[i].properties[name])
  }

  predicate FlatTypes(r: Schema, leaves: seq<Schema>) {
    && (forall i: nat | i < |leaves| && LastTyped(leaves, i) :: r.types == leaves[i].types)
    && ((forall i :: 0 <= i < |leaves| ==> leaves[i].types == []) ==> r.types == [])
  }

  lemma {:induction false} RequiredConcat(leaves: seq<Schema>, x: Schema)
    ensures AllRequired(leaves + [x]) == AllRequired(leaves) + x.required
  {
    if leaves == [] {
      assert (leaves + [x])[1..] == [];
    } else {
      assert (leaves + [x])[1..] == leaves[1..] + [x];
      RequiredConcat(leaves[1..], x);
    }
  }

  lemma FlatMergeExtends(m: Schema, done: seq<Schema>, x: Schema)
    requires FlatMerge(m, done)
    ensures FlatMerge(Merge(m, x), done + [x])
  {
    RequiredConcat(done, x);
    PropertiesExtend(m, done, x);
    TypesExtend(m, done, x);
  }

  lemma PropertiesExtend(m: Schema, done: seq<Schema>, x: Schema)
    requires FlatProperties(m, done)
    ensures FlatProperties(Merge(m, x), done + [x])
  {
    var r, all := Merge(m, x), done + [x];
    forall name ensures name in r.properties <==> exists i :: 0 <= i < |all| && name in all[i].properties {
      if name in x.properties {
        assert all[|done|] == x;
      } else if name in m.properties {
        var i :| 0 <= i < |done| && name in done[i].properties;
        assert all[i] == done[i];
      }
    }
    forall i: nat, name | i < |all| && LastDefines(all, i, name)
      ensures name in r.properties && r.properties[name] == all[i].properties[name]
    {
      if i < |done| {
        assert all[|done|] == x && name !in x.properties;
        assert forall j :: i < j < |done| ==> all[j] == done[j];
        assert LastDefines(done, i, name);
      }
    }
  }

  lemma TypesExtend(m: Schema, done: seq<Schema>, x: Schema)
    requires FlatTypes(m, done)
    ensures FlatTypes(Merge(m, x), done + [x])
  {
    var r, all := Merge(m, x), done + [x];
    forall i: nat | i < |all| && LastTyped(all, i) ensures r.types == all[i].types {
      if i < |done| {
        assert all[|done|] == x && x.types == [];
        assert forall j :: i < j < |done| ==> all[j] == done[j];
        assert LastTyped(done, i);
      }
    }
    if forall i :: 0 <= i < |all| ==> all[i].types == [] {
      assert all[|done|] == x;
      assert forall i :: 0 <= i < |done| ==> done[i] == all[i];
    }
  }

  /** Induction over a fold: what holds at the start and survives one merge holds at the end. */
  lemma {:induction false} FoldInduction(holds: (Schema, seq<Schema>) -> bool, m: Schema, done: seq<Schema>,
                                         leaves: seq<Schema>, all: seq<Schema>)
    requires holds(m, done) && all == done + leaves
    requires forall m, done, x :: holds(m, done) ==> holds(Merge(m, x), done + [x])
    ensures holds(Fold(m, leaves), all)
    decreases |leaves|
  {
    if leaves == [] {
      assert all == done;
    } else {
      FoldInduction(holds, Merge(m, leaves[0]), done + [leaves[0]], leaves[1..], all);
    }
  }

  lemma {:induction false} FoldKeepsFrame(m: Schema, leaves: seq<Schema>)
    ensures var r := Fold(m, leaves);
            r.allOf == m.allOf && r.oneOf == m.oneOf && r.anyOf == m.anyOf && r.items == m.items && r.title == m.title
    decreases |leaves|
  {
    if leaves != [] {
      FoldKeepsFrame(Merge(m, leaves[0]), leaves[1..]);
    }
  }

  lemma OwnIsFlat(s: Schema)
    ensures FlatMerge(Own(s), [Own(s)])
  {
    assert [Own(s)][1..] == [];
    assert AllRequired([Own(s)]) == s.required;
  }

  lemma FoldIsFlat(m: Schema, done: seq<Schema>, leaves: seq<Schema>)
    requires FlatMerge(m, done)
    ensures FlatMerge(Fold(m, leaves), done + leaves)
  {
    forall m, done, x | FlatMerge(m, done) ensures FlatMerge(Merge(m, x), done + [x]) {
      FlatMergeExtends(m, done, x);
    }
    FoldInduction((r, leaves) => FlatMerge(r, leaves), m, done, leaves, done + leaves);
  }

  /** Composing a schema with allOf, however deeply nested, is the flat merge of its leaves, and nothing is left
      to compose. */
  lemma ComposedIsFlatMerge(table: Table, s: Schema, d: nat)
    requires Unfolds(table, s, d) && s.allOf != [] && Compose(table, s, d).Some?
    ensures var r := Compose(table, s, d).value;
            FlatMerge(r, Leaves(table, s, d)) && r.allOf == [] && r.oneOf == [] && r.anyOf == [] && r.title == s.title
  {
    var rest := LeavesOf(table, Own(s), s.allOf, d - 1);
    MergeAllIsFold(table, Own(s), s.allOf, d - 1);
    FoldKeepsFrame(Own(s), rest);
    OwnIsFlat(s);
    FoldIsFlat(Own(s), [Own(s)], rest);
  }

  /** With one plain entry in allOf: its properties over those of the schema, the requirements of both, its type if it
      has one, and the title of the schema. */
  lemma ComposeOne(table: Table, s: Schema, x: Schema)
    requires s.allOf == [Inline(x)] && x.allOf == [] && x.oneOf == [] && x.anyOf == []
    ensures Unfolds(table, s, 1)
    ensures Compose(table, s, 1)
         == Some(Schema(if x.types != [] then x.types else s.types, s.properties + x.properties,
                        s.required + x.required, None, [], [], [], s.title))
  {
    InlineResolves(table, x);
    assert s.allOf[1..] == [];
    assert x.oneOf + x.anyOf == [];
    assert Compose(table, x, 0) == Some(x);
  }

  // ------------------------------------------------------------ when composition is complete

  /** Reference i is the first alternative that has a type. */
  predicate FirstTypedAt(table: Table, refs: seq<SchemaRef>, i: nat) {
    && i < |refs| && Resolve(table, refs[i]).Some? && Resolve(table, refs[i]).value.types != []
    && forall j :: 0 <= j < i && Resolve(table, refs[j]).Some? ==> Resolve(table, refs[j]).value.types == []
  }

  /** A schema without a type whose first typed alternative has allOf. */
  predicate PicksComposed(table: Table, s: Schema) {
    s.types == [] && exists i :: 0 <= i < |s.oneOf + s.anyOf| && FirstTypedAt(table, s.oneOf + s.anyOf, i)
                                 && Resolve(table, (s.oneOf + s.anyOf)[i]).value.allOf != []
  }

  lemma {:induction false} FirstTypedFound(table: Table, refs: seq<SchemaRef>, fallback: Schema) returns (i: nat)
    requires FirstTyped(table, refs, fallback).Some?
    ensures i <= |refs|
    ensures i < |refs| ==> FirstTypedAt(table, refs, i)
                           && FirstTyped(table, refs, fallback) == Resolve(table, refs[i])
    ensures i == |refs| ==> FirstTyped(table, refs, fallback) == Some(fallback)
    ensures i == |refs| ==> forall j :: 0 <= j < |refs| ==> !FirstTypedAt(table, refs, j)
  {
    if refs == [] {
      i := 0;
    } else if Resolve(table, refs[0]).value.types != [] {
      i := 0;
    } else {
      i := FirstTypedFound(table, refs[1..], fallback);
      i := i + 1;
      forall j | 0 <= j < |refs| && FirstTypedAt(table, refs, j) ensures i < |refs| {
        assert FirstTypedAt(table, refs[1..], j - 1);
      }
    }
  }

  /** Without allOf nothing is left to compose exactly if no composed alternative is picked. */
  lemma AlternativeCompleteIff(table: Table, s: Schema, d: nat)
    requires s.allOf == [] && Compose(table, s, d).Some?
    ensures Compose(table, s, d).value.allOf == [] <==> !PicksComposed(table, s)
  {
    if s.types == [] {
      var refs := s.oneOf + s.anyOf;
      var i := FirstTypedFound(table, refs, s);
      forall j | 0 <= j < |refs| && FirstTypedAt(table, refs, j) ensures j == i {
        assert Resolve(table, refs[j]).Some?;
      }
    }
  }

  /** No schema at which the unfolding of s ends picks a composed alternative. */
  ghost predicate EveryPickFlat(table: Table, s: Schema, d: nat)
    decreases d, 0
  {
    if s.allOf == [] then !PicksComposed(table, s)
    else d > 0 && forall i :: 0 <= i < |s.allOf| ==> FlatChild(table, s.allOf[i], d - 1)
  }

  ghost predicate FlatChild(table: Table, r: SchemaRef, d: nat)
    decreases d, 1
  {
    Resolve(table, r).Some? && EveryPickFlat(table, Resolve(table, r).value, d)
  }

  lemma {:induction false} LeavesOfMembers(table: Table, m: Schema, refs: seq<SchemaRef>, d: nat, y: Schema)
    requires AllUnfold(table, refs, d) && MergeAll(table, m, refs, d).Some?
    ensures y in LeavesOf(table, m, refs, d) <==> exists i :: 0 <= i < |refs| && LeafBelow(table, refs[i], d, y)
    decreases |refs|
  {
    if refs != [] {
      var s := Resolve(table, refs[0]).value;
      LeavesOfMembers(table, Merge(m, Compose(table, s, d).value), refs[1..], d, y);
      assert LeafBelow(table, refs[0], d, y) <==> y in Leaves(table, s, d);
      assert forall i :: 0 < i < |refs| ==> refs[i] == refs[1..][i - 1];
      assert forall i :: 0 <= i < |refs[1..]| ==> refs[1..][i] == refs[i + 1];
    }
  }

  ghost predicate LeafBelow(table: Table, r: SchemaRef, d: nat, y: Schema) {
    && Resolve(table, r).Some? && Unfolds(table, Resolve(table, r).value, d)
    && Compose(table, Resolve(table, r).value, d).Some? && y in Leaves(table, Resolve(table, r).value, d)
  }

  /** x takes part in s if alternatives are unfolded as well: n bounds the way from s to x. */
  ghost predicate TakesPart(table: Table, s: Schema, x: Schema, n: nat)
    decreases n
  {
    if s.allOf != [] then
      x == s || (n > 0 && exists i :: 0 <= i < |s.allOf| && Resolve(table, s.allOf[i]).Some?
                                      && TakesPart(table, Resolve(table, s.allOf[i]).value, x, n - 1))
    else
      match Alternative(table, s)
      case None => false
      case Some(a) => if a.allOf == [] then x == a else n > 0 && TakesPart(table, a, x, n - 1)
  }

  /** A schema as it is merged. */
  function LeafFor(x: Schema): Schema {
    if x.allOf == [] then x else Own(x)
  }

  lemma {:induction false} MergedOneByOne(table: Table, m: Schema, refs: seq<SchemaRef>, d: nat, i: nat)
    requires AllUnfold(table, refs, d) && MergeAll(table, m, refs, d).Some? && i < |refs|
    ensures Resolve(table, refs[i]).Some? && Unfolds(table, Resolve(table, refs[i]).value, d)
    ensures Compose(table, Resolve(table, refs[i]).value, d).Some?
    decreases |refs|
  {
    if i > 0 {
      MergedOneByOne(table, Merge(m, Compose(table, Resolve(table, refs[0]).value, d).value), refs[1..], d, i - 1);
    }
  }

  lemma LeafBelowIn(table: Table, s: Schema, d: nat, i: nat, y: Schema)
    requires Unfolds(table, s, d) && Compose(table, s, d).Some?
    requires i < |s.allOf| && LeafBelow(table, s.allOf[i], d - 1, y)
    ensures y in Leaves(table, s, d)
  {
    LeavesOfMembers(table, Own(s), s.allOf, d - 1, y);
  }

  /** A way from s to a schema that takes part in it. */
  ghost predicate Takes(table: Table, s: Schema, x: Schema) {
    exists n: nat :: TakesPart(table, s, x, n)
  }

  lemma TakesThrough(table: Table, s: Schema, i: nat, x: Schema)
    requires i < |s.allOf| && Resolve(table, s.allOf[i]).Some? && Takes(table, Resolve(table, s.allOf[i]).value, x)
    ensures Takes(table, s, x)
  {
    var n: nat :| TakesPart(table, Resolve(table, s.allOf[i]).value, x, n);
    assert TakesPart(table, s, x, n + 1);
  }

  lemma FlatBelow(table: Table, s: Schema, d: nat, i: nat)
    requires Unfolds(table, s, d) && Compose(table, s, d).Some? && EveryPickFlat(table, s, d) && i < |s.allOf|
    ensures Resolve(table, s.allOf[i]).Some?
    ensures var t := Resolve(table, s.allOf[i]).value;
            Unfolds(table, t, d - 1) && Compose(table, t, d - 1).Some? && EveryPickFlat(table, t, d - 1)
  {
    MergedOneByOne(table, Own(s), s.allOf, d - 1, i);
    assert FlatChild(table, s.allOf[i], d - 1);
  }

  lemma NotFlatBelow(table: Table, s: Schema, d: nat) returns (i: nat)
    requires Unfolds(table, s, d) && Compose(table, s, d).Some? && !EveryPickFlat(table, s, d) && s.allOf != []
    ensures i < |s.allOf| && Resolve(table, s.allOf[i]).Some?
    ensures var t := Resolve(table, s.allOf[i]).value;
            Unfolds(table, t, d - 1) && Compose(table, t, d - 1).Some? && !EveryPickFlat(table, t, d - 1)
  {
    i :| 0 <= i < |s.allOf| && !FlatChild(table, s.allOf[i], d - 1);
    MergedOneByOne(table, Own(s), s.allOf, d - 1, i);
  }

  /** A leaf is the own part of s or a leaf below. */
  lemma LeafFromBelow(table: Table, s: Schema, d: nat, y: Schema) returns (i: nat)
    requires Unfolds(table, s, d) && Compose(table, s, d).Some? && s.allOf != []
    requires y in Leaves(table, s, d) && y != Own(s)
    ensures i < |s.allOf| && LeafBelow(table, s.allOf[i], d - 1, y)
  {
    LeavesOfMembers(table, Own(s), s.allOf, d - 1, y);
    i :| 0 <= i < |s.allOf| && LeafBelow(table, s.allOf[i], d - 1, y);
  }

  lemma {:induction false} LeafTakesPart(table: Table, s: Schema, d: nat, y: Schema) returns (x: Schema)
    requires Unfolds(table, s, d) && Compose(table, s, d).Some? && EveryPickFlat(table, s, d)
    requires y in Leaves(table, s, d)
    ensures Takes(table, s, x) && y == LeafFor(x)
    decreases d
  {
    if s.allOf == [] {
      AlternativeCompleteIff(table, s, d);
      x := y;
      assert TakesPart(table, s, x, 0);
    } else if y == Own(s) {
      x := s;
      assert TakesPart(table, s, x, 0);
    } else {
      var i := LeafFromBelow(table, s, d, y);
      FlatBelow(table, s, d, i);
      x := LeafTakesPart(table, Resolve(table, s.allOf[i]).value, d - 1, y);
      TakesThrough(table, s, i, x);
    }
  }

  lemma {:induction false} PartIsLeaf(table: Table, s: Schema, d: nat, x: Schema, n: nat)
    requires Unfolds(table, s, d) && Compose(table, s, d).Some? && EveryPickFlat(table, s, d)
    requires TakesPart(table, s, x, n)
    ensures LeafFor(x) in Leaves(table, s, d)
    decreases d
  {
    if s.allOf == [] {
      AlternativeCompleteIff(table, s, d);
    } else if x != s {
      var i :| 0 <= i < |s.allOf| && Resolve(table, s.allOf[i]).Some?
               && TakesPart(table, Resolve(table, s.allOf[i]).value, x, n - 1);
      FlatBelow(table, s, d, i);
      PartIsLeaf(table, Resolve(table, s.allOf[i]).value, d - 1, x, n - 1);
      LeafBelowIn(table, s, d, i, LeafFor(x));
    }
  }

  lemma {:induction false} ComposedLeaf(table: Table, s: Schema, d: nat) returns (y: Schema)
    requires Unfolds(table, s, d) && Compose(table, s, d).Some? && !EveryPickFlat(table, s, d)
    ensures y in Leaves(table, s, d) && y.allOf != []
    decreases d
  {
    if s.allOf == [] {
      AlternativeCompleteIff(table, s, d);
      y := Alternative(table, s).value;
    } else {
      var i := NotFlatBelow(table, s, d);
      y := ComposedLeaf(table, Resolve(table, s.allOf[i]).value, d - 1);
      LeafBelowIn(table, s, d, i, y);
    }
  }

  /** The leaves are the parts of the whole unfolding, alternatives included. */
  ghost predicate LeavesAreParts(table: Table, s: Schema, d: nat)
    requires Unfolds(table, s, d) && Compose(table, s, d).Some?
  {
    forall y :: y in Leaves(table, s, d) <==> exists x :: Takes(table, s, x) && y == LeafFor(x)
  }

  /** What is merged is everything that belongs to the schema, and then no leaf has allOf, if and only if the
      unfolding never picks a composed alternative. */
  lemma CompleteIffEveryPickFlat(table: Table, s: Schema, d: nat)
    requires Unfolds(table, s, d) && Compose(table, s, d).Some?
    ensures LeavesAreParts(table, s, d) <==> EveryPickFlat(table, s, d)
    ensures (forall y :: y in Leaves(table, s, d) ==> y.allOf == []) <==> EveryPickFlat(table, s, d)
  {
    if EveryPickFlat(table, s, d) {
      forall y ensures y in Leaves(table, s, d) <==> exists x :: Takes(table, s, x) && y == LeafFor(x) {
        if y in Leaves(table, s, d) {
          var x := LeafTakesPart(table, s, d, y);
        }
        if x :| Takes(table, s, x) && y == LeafFor(x) {
          var n: nat :| TakesPart(table, s, x, n);
          PartIsLeaf(table, s, d, x, n);
        }
      }
      forall y | y in Leaves(table, s, d) ensures y.allOf == [] {
        var x := LeafTakesPart(table, s, d, y);
      }
    } else {
      var y := ComposedLeaf(table, s, d);
      assert forall x :: LeafFor(x).allOf == [];
    }
  }

  /** Then every property of every part is in the result, and nothing else. */
  lemma CompleteResultHasAllProperties(table: Table, s: Schema, d: nat, name: string)
    requires Unfolds(table, s, d) && s.allOf != [] && Compose(table, s, d).Some? && EveryPickFlat(table, s, d)
    ensures name in Compose(table, s, d).value.properties <==> exists x :: Takes(table, s, x) && name in x.properties
  {
    ComposedIsFlatMerge(table, s, d);
    var leaves := Leaves(table, s, d);
    if name in Compose(table, s, d).value.properties {
      var i :| 0 <= i < |leaves| && name in leaves[i].properties;
      var x := LeafTakesPart(table, s, d, leaves[i]);
    }
    if x :| Takes(table, s, x) && name in x.properties {
      var n: nat :| TakesPart(table, s, x, n);
      PartIsLeaf(table, s, d, x, n);
      var i :| 0 <= i < |leaves| && leaves[i] == LeafFor(x);
    }
  }

  function Inline(s: Schema): SchemaRef {
    SchemaRef("", Some(s))
  }

  lemma InlineResolves(table: Table, s: Schema)
    ensures Resolve(table, Inline(s)) == Some(s)
  {
  }

  /** The losing input: s has allOf x, x picks its alternative y, and y has allOf z. The properties of z belong to s
      but do not get into the result. */
  lemma ComposedAlternativeLosesProperties(table: Table, s: Schema, x: Schema, y: Schema, z: Schema, name: string)
    requires s.allOf == [Inline(x)] && x.allOf == [] && x.types == [] && x.oneOf == [Inline(y)]
    requires y.types != [] && y.allOf == [Inline(z)] && z.types != [] && z.allOf == []
    requires name in z.properties && name !in s.properties && name !in y.properties
    ensures Unfolds(table, s, 1) && Compose(table, s, 1).Some? && Leaves(table, s, 1) == [Own(s), y]
    ensures Takes(table, s, z) && name !in Compose(table, s, 1).value.properties
  {
    InlineResolves(table, x);
    InlineResolves(table, y);
    InlineResolves(table, z);
    assert (x.oneOf + x.anyOf)[0] == Inline(y);
    assert Alternative(table, x) == Some(y);
    assert Compose(table, x, 0) == Some(y);
    assert s.allOf[0] == Inline(x) && s.allOf[1..] == [];
    assert Compose(table, s, 1) == Some(Merge(Own(s), y));
    assert y.allOf[0] == Inline(z);
    assert TakesPart(table, z, z, 0);
    assert TakesPart(table, y, z, 1);
    assert TakesPart(table, x, z, 2);
    assert TakesPart(table, s, z, 3);
  }

  // ------------------------------------------------------------ when the recursion ends

  /** More depth changes nothing. */
  lemma {:induction false} Deeper(table: Table, s: Schema, d: nat, e: nat)
    requires Unfolds(table, s, d) && d <= e
    ensures Unfolds(table, s, e) && Compose(table, s, e) == Compose(table, s, d)
    decreases d, 1, 0
  {
    if s.allOf != [] {
      DeeperAll(table, Own(s), s.allOf, d - 1, e - 1);
    }
  }

  lemma {:induction false} DeeperAll(table: Table, m: Schema, refs: seq<SchemaRef>, d: nat, e: nat)
    requires AllUnfold(table, refs, d) && d <= e
    ensures AllUnfold(table, refs, e) && MergeAll(table, m, refs, e) == MergeAll(table, m, refs, d)
    decreases d, 2, |refs|
  {
    if refs != [] && Resolve(table, refs[0]).Some? {
      var s := Resolve(table, refs[0]).value;
      Deeper(table, s, d, e);
      if Compose(table, s, d).Some? {
        DeeperAll(table, Merge(m, Compose(table, s, d).value), refs[1..], d, e);
      }
    }
  }

  /** The depth is only a witness: any two that suffice give the same result. */
  lemma DepthIrrelevant(table: Table, s: Schema, d: nat, e: nat)
    requires Unfolds(table, s, d) && Unfolds(table, s, e)
    ensures Compose(table, s, d) == Compose(table, s, e)
  {
    if d <= e {
      Deeper(table, s, d, e);
    } else {
      Deeper(table, s, e, d);
    }
  }

  /** An allOf graph on which some rank falls along every edge unfolds completely. */
  lemma {:induction false} AcyclicUnfolds(table: Table, rank: Schema -> nat, s: Schema)
    requires forall x: Schema, i {:trigger Resolve(table, x.allOf[i])} ::
               0 <= i < |x.allOf| && Resolve(table, x.allOf[i]).Some? ==>
                 rank(Resolve(table, x.allOf[i]).value) < rank(x)
    ensures Unfolds(table, s, rank(s) + 1)
    decreases rank(s)
  {
    forall i | 0 <= i < |s.allOf| && Resolve(table, s.allOf[i]).Some?
      ensures Unfolds(table, Resolve(table, s.allOf[i]).value, rank(s))
    {
      var t := Resolve(table, s.allOf[i]).value;
      AcyclicUnfolds(table, rank, t);
      Deeper(table, t, rank(t) + 1, rank(s));
    }
    AllUnfoldIfEach(table, s.allOf, rank(s));
  }

  lemma {:induction false} AllUnfoldIfEach(table: Table, refs: seq<SchemaRef>, d: nat)
    requires forall i :: 0 <= i < |refs| && Resolve(table, refs[i]).Some? ==>
               Unfolds(table, Resolve(table, refs[i]).value, d)
    ensures AllUnfold(table, refs, d)
    decreases |refs|
  {
    if refs != [] {
      AllUnfoldIfEach(table, refs[1..], d);
    }
  }

  ghost predicate Finishes(table: Table, s: Schema) {
    exists d: nat :: Unfolds(table, s, d)
  }

  /** The reference resolves and what it names composes without a panic. */
  ghost predicate Composes(table: Table, r: SchemaRef) {
    Resolve(table, r).Some? && exists d: nat :: ComposesWithin(table, Resolve(table, r).value, d)
  }

  ghost predicate ComposesWithin(table: Table, s: Schema, d: nat) {
    Unfolds(table, s, d) && Compose(table, s, d).Some?
  }

  /** The recursion gets to entry i, which is y: every entry before it composes. */
  ghost predicate ReachesAt(table: Table, refs: seq<SchemaRef>, i: nat, y: Schema) {
    && i < |refs| && Resolve(table, refs[i]) == Some(y)
    && forall j :: 0 <= j < i ==> Composes(table, refs[j])
  }

  ghost predicate Child(table: Table, x: Schema, y: Schema) {
    exists i: nat :: ReachesAt(table, x.allOf, i, y)
  }

  /** From every member of c the recursion gets back into c. */
  ghost predicate Endless(table: Table, c: iset<Schema>) {
    forall x {:trigger HasChildIn(table, x, c)} :: x in c ==> HasChildIn(table, x, c)
  }

  ghost predicate HasChildIn(table: Table, x: Schema, c: iset<Schema>) {
    exists y :: y in c && Child(table, x, y)
  }

  lemma {:induction false} EndlessNeverUnfolds(table: Table, c: iset<Schema>, s: Schema, d: nat)
    requires Endless(table, c) && s in c
    ensures !Unfolds(table, s, d)
    decreases d
  {
    if Unfolds(table, s, d) {
      var t := EndlessChild(table, c, s);
      ChildUnfolds(table, s, t, d);
      EndlessNeverUnfolds(table, c, t, d - 1);
    }
  }

  lemma EndlessChild(table: Table, c: iset<Schema>, s: Schema) returns (t: Schema)
    requires Endless(table, c) && s in c
    ensures t in c && Child(table, s, t)
  {
    assert HasChildIn(table, s, c);
    t :| t in c && Child(table, s, t);
  }

  lemma ChildUnfolds(table: Table, s: Schema, t: Schema, d: nat)
    requires Unfolds(table, s, d) && Child(table, s, t)
    ensures d > 0 && Unfolds(table, t, d - 1)
  {
    var i: nat :| ReachesAt(table, s.allOf, i, t);
    ReachedUnfolds(table, s.allOf, i, t, d - 1);
  }

  lemma {:induction false} ReachedUnfolds(table: Table, refs: seq<SchemaRef>, i: nat, t: Schema, d: nat)
    requires AllUnfold(table, refs, d) && ReachesAt(table, refs, i, t)
    ensures Unfolds(table, t, d)
    decreases i
  {
    if i > 0 {
      assert Composes(table, refs[0]);
      var s := Resolve(table, refs[0]).value;
      var e: nat :| ComposesWithin(table, s, e);
      DepthIrrelevant(table, s, d, e);
      ReachesShift(table, refs, i, t);
      ReachedUnfolds(table, refs[1..], i - 1, t, d);
    }
  }

  lemma ReachesShift(table: Table, refs: seq<SchemaRef>, i: nat, t: Schema)
    requires 0 < i < |refs|
    ensures ReachesAt(table, refs, i, t) <==> Composes(table, refs[0]) && ReachesAt(table, refs[1..], i - 1, t)
  {
    var rest := refs[1..];
    assert rest[i - 1] == refs[i];
    if ReachesAt(table, refs, i, t) {
      forall j | 0 <= j < i - 1 ensures Composes(table, rest[j]) {
        assert rest[j] == refs[j + 1];
      }
    }
    if Composes(table, refs[0]) && ReachesAt(table, rest, i - 1, t) {
      forall j | 0 <= j < i ensures Composes(table, refs[j]) {
        if j > 0 {
          assert refs[j] == rest[j - 1];
        }
      }
    }
  }

  /** Whatever entry the recursion gets to finishes. */
  ghost predicate ReachedFinish(table: Table, refs: seq<SchemaRef>) {
    forall i: nat, y :: ReachesAt(table, refs, i, y) ==> Finishes(table, y)
  }

  /** Finitely many schemas that finish have a common depth. */
  lemma {:induction false} CommonDepth(table: Table, refs: seq<SchemaRef>) returns (d: nat)
    requires ReachedFinish(table, refs)
    ensures AllUnfold(table, refs, d)
    decreases |refs|
  {
    d := 0;
    if refs != [] && Resolve(table, refs[0]).Some? {
      var s := Resolve(table, refs[0]).value;
      assert ReachesAt(table, refs, 0, s);
      var e: nat :| Unfolds(table, s, e);
      d := e;
      if Compose(table, s, e).Some? {
        assert ComposesWithin(table, s, e);
        RestFinish(table, refs);
        var rest := CommonDepth(table, refs[1..]);
        d := e + rest;
        Deeper(table, s, e, d);
        DeeperAll(table, s, refs[1..], rest, d);
      }
    }
  }

  lemma RestFinish(table: Table, refs: seq<SchemaRef>)
    requires refs != [] && ReachedFinish(table, refs) && Composes(table, refs[0])
    ensures ReachedFinish(table, refs[1..])
  {
    forall i: nat, y | ReachesAt(table, refs[1..], i, y) ensures Finishes(table, y) {
      ReachesShift(table, refs, i + 1, y);
    }
  }

  /** The recursion ends on s, with a result or a panic, exactly when s is in no collection of schemas that the
      recursion never gets out of, such as the schemas on a cycle that no panic guards. */
  lemma FinishesIffNotEndless(table: Table, s: Schema)
    ensures Finishes(table, s) <==> !exists c :: Endless(table, c) && s in c
  {
    if Finishes(table, s) {
      var d: nat :| Unfolds(table, s, d);
      forall c | Endless(table, c) ensures s !in c {
        if s in c {
          EndlessNeverUnfolds(table, c, s, d);
        }
      }
    } else {
      var c := iset x: Schema | !Finishes(table, x);
      forall x | x in c ensures HasChildIn(table, x, c) {
        UnfinishedChild(table, x);
      }
      assert Endless(table, c) && s in c;
    }
  }

  lemma UnfinishedChild(table: Table, x: Schema)
    requires !Finishes(table, x)
    ensures exists y :: !Finishes(table, y) && Child(table, x, y)
  {
    if ReachedFinish(table, x.allOf) {
      var d := CommonDepth(table, x.allOf);
      assert Unfolds(table, x, d + 1);
    }
  }

  /** A reference that cannot be resolved in front of a cycle ends the recursion before it gets there. */
  lemma PanicGuardsCycle(table: Table, s: Schema)
    requires s.allOf != [] && Resolve(table, s.allOf[0]).None?
    ensures Unfolds(table, s, 1) && Compose(table, s, 1).None?
  {
  }

  // ------------------------------------------------------------ comparison

  const ARRAY := "array"
  const OBJECT := "object"

  function SchemaType(s: Schema): string {
    if s.types == [] then "" else s.types[0]
  }

  /** What the comparison looks at. */
  datatype Shape = Nil | Plain(typ: string) | ArrayOf(item: Option<Shape>) | ObjectOf(props: map<string, Shape>)

  function ShapeOf(s: Option<Schema>): Shape {
    match s
    case None => Nil
    case Some(v) =>
      if SchemaType(v) == ARRAY then
        ArrayOf(match v.items case None => None case Some(item) => Some(ShapeOf(item.value)))
      else if SchemaType(v) == OBJECT then
        ObjectOf(map k | k in v.properties :: ShapeOf(v.properties[k].value))
      else Plain(SchemaType(v))
  }

  /** What the comparison looks at: the first type of both, the items of arrays, the properties of objects, and
      nothing else. */
  lemma ShapesEqualIff(s: Schema, t: Schema)
    ensures ShapeOf(Some(s)) != ShapeOf(None)
    ensures var typ := if s.types == [] then "" else s.types[0];
            ShapeOf(Some(s)) == ShapeOf(Some(t)) <==>
            && typ == (if t.types == [] then "" else t.types[0])
            && (typ == "array" ==>
                  && s.items.Some? == t.items.Some?
                  && (s.items.Some? ==> ShapeOf(s.items.value.value) == ShapeOf(t.items.value.value)))
            && (typ == "object" ==>
                  && s.properties.Keys == t.properties.Keys
                  && forall k :: k in s.properties ==>
                       ShapeOf(s.properties[k].value) == ShapeOf(t.properties[k].value))
  {
    if SchemaType(s) == SchemaType(t) == OBJECT {
      var a, b := ShapeOf(Some(s)).props, ShapeOf(Some(t)).props;
      assert a.Keys == s.properties.Keys && b.Keys == t.properties.Keys;
      assert a == b <==> a.Keys == b.Keys && forall k :: k in a ==> a[k] == b[k];
    }
  }

  lemma {:induction false} EqualSizeSubset<T>(a: set<T>, b: set<T>)
    requires |a| == |b| && a <= b
    ensures a == b
    decreases a
  {
    if a != {} {
      var x :| x in a;
      EqualSizeSubset(a - {x}, b - {x});
    }
  }

  /** Two finite schema trees compare equal exactly when their shapes are equal, although only the keys of one
      side are walked; so the comparison is an equivalence relation. */
  method CompareSchemaValues(a: Option<Schema>, b: Option<Schema>) returns (same: bool)
    ensures same <==> ShapeOf(a) == ShapeOf(b)
    decreases a
  {
    if a.None? || b.None? {
      return a.None? && b.None?;
    }
    var x, y := a.value, b.value;
    if SchemaType(x) != SchemaType(y) {
      return false;
    }
    if SchemaType(x) == ARRAY {
      if x.items.None? || y.items.None? {
        return x.items.None? && y.items.None?;
      }
      same := CompareSchemaValues(x.items.value.value, y.items.value.value);
      return;
    }
    if SchemaType(x) == OBJECT {
      if |x.properties| != |y.properties| {
        assert ShapeOf(a).props.Keys == x.properties.Keys && ShapeOf(b).props.Keys == y.properties.Keys;
        return false;
      }
      var todo := x.properties.Keys;
      while todo != {}
        invariant todo <= x.properties.Keys
        invariant forall k :: k in x.properties && k !in todo ==>
          k in y.properties && ShapeOf(x.properties[k].value) == ShapeOf(y.properties[k].value)
        decreases todo
      {
        var key :| key in todo;
        if key !in y.properties {
          assert key in ShapeOf(a).props && key !in ShapeOf(b).props;
          return false;
        }
        var ok := CompareSchemaValues(x.properties[key].value, y.properties[key].value);
        if !ok {
          assert ShapeOf(a).props[key] != ShapeOf(b).props[key];
          return false;
        }
        todo := todo - {key};
      }
      EqualSizeSubset(x.properties.Keys, y.properties.Keys);
      assert ShapeOf(a).props == ShapeOf(b).props;
    }
    same := true;
  }
}
