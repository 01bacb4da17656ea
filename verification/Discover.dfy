/** Discovery of extra methods in codegen/vastparser/rest_parser.go. */
module Discover {
  import opened Texts

  datatype ExtraMethod = ExtraMethod(method_: string, path: string)

  /** Path to HTTP methods, as loaded from the OpenAPI document. */
  type PathTable = map<string, seq<string>>

  const VERBS := {"GET", "POST", "PUT", "PATCH", "DELETE", "HEAD", "OPTIONS"}

  predicate HttpTable(table: PathTable) {
    forall p, i {:trigger table[p][i]} :: p in table && 0 <= i < |table[p]| ==> table[p][i] in VERBS
  }

  // ------------------------------------------------------------ paths

  function NormalizeAPIPath(path: string): string {
    "/" + Trim(path, '/') + "/"
  }

  predicate IsStandardCRUDPath(path: string, collection: string) {
    var parts := Split(Trim(path, '/'), '/');
    if |parts| == 1 then parts[0] == collection
    else if |parts| == 2 then parts[0] == collection && parts[1] == "{id}"
    else false
  }

  predicate Belongs(raw: string, collection: string) {
    raw == "/" + collection + "/" || raw == "/" + collection || "/" + collection + "/" <= raw
  }

  function Key(em: ExtraMethod): string {
    em.method_ + ":" + NormalizeAPIPath(em.path)
  }

  lemma NormalizeIdempotent(path: string)
    ensures NormalizeAPIPath(NormalizeAPIPath(path)) == NormalizeAPIPath(path)
  {
    TrimAround("/", Trim(path, '/'), "/", '/');
    TrimIdempotent(path, '/');
  }

  /** A path is taken for standard exactly when its normal form is that of the collection or of one record in it,
      and the collection has no slash: under a collection with one, no path is standard. */
  lemma StandardIff(path: string, collection: string)
    ensures IsStandardCRUDPath(path, collection) <==>
            Free('/', collection)
            && NormalizeAPIPath(path) in {"/" + collection + "/", "/" + collection + "/{id}/"}
  {
    var t := Trim(path, '/');
    var parts := Split(t, '/');
    JoinSplit(t, '/');
    Wrapped(t, collection);
    Wrapped(t, collection + "/{id}");
    assert "/" + (collection + "/{id}") + "/" == "/" + collection + "/{id}/";
    if Free('/', collection) {
      SplitFree(collection, '/');
      SplitHead(collection, "{id}", '/');
      SplitFree("{id}", '/');
      assert collection + ['/'] + "{id}" == collection + "/{id}";
    }
    if |parts| == 2 {
      assert t == parts[0] + ['/'] + parts[1] by {
        assert parts[1..] == [parts[1]];
      }
    }
  }

  lemma Wrapped(a: string, b: string)
    ensures "/" + a + "/" == "/" + b + "/" <==> a == b
  {
    assert ("/" + a + "/")[1..|a| + 1] == a && ("/" + b + "/")[1..|b| + 1] == b;
  }

  /** Keys of operations with HTTP methods identify them. */
  lemma KeyInjective(m1: string, p1: string, m2: string, p2: string)
    requires m1 in VERBS && m2 in VERBS && m1 + ":" + p1 == m2 + ":" + p2
    ensures m1 == m2 && p1 == p2
  {
    var s := m1 + ":" + p1;
    assert s == m2 + ":" + p2;
    assert s[|m1|] == ':' && s[|m2|] == ':';
    assert forall i :: 0 <= i < |m1| ==> s[i] == m1[i] != ':';
    assert forall i :: 0 <= i < |m2| ==> s[i] == m2[i] != ':';
    assert s[|m1| + 1..] == p1 && s[|m2| + 1..] == p2 && s[..|m1|] == m1 && s[..|m2|] == m2;
  }

  // ------------------------------------------------------------ order

  predicate Less(a: string, b: string) {
    b != "" && (a == "" || a[0] < b[0] || (a[0] == b[0] && Less(a[1..], b[1..])))
  }

  lemma {:induction false} LessTotal(a: string, b: string)
    ensures a == b || Less(a, b) || Less(b, a)
    ensures !(Less(a, b) && Less(b, a)) && (a == b ==> !Less(a, b))
  {
    if a != "" && b != "" {
      LessTotal(a[1..], b[1..]);
      assert a == [a[0]] + a[1..] && b == [b[0]] + b[1..];
    }
  }

  lemma {:induction false} LessTransitive(a: string, b: string, c: string)
    requires Less(a, b) && Less(b, c)
    ensures Less(a, c)
  {
    if a != "" && a[0] == b[0] == c[0] {
      LessTransitive(a[1..], b[1..], c[1..]);
    }
  }

  /** By path, then by method. */
  predicate Before(x: ExtraMethod, y: ExtraMethod) {
    if x.path != y.path then Less(x.path, y.path) else Less(x.method_, y.method_)
  }

  lemma BeforeTotal(x: ExtraMethod, y: ExtraMethod)
    ensures x == y || Before(x, y) || Before(y, x)
    ensures !(Before(x, y) && Before(y, x)) && !Before(x, x)
  {
    LessTotal(x.path, y.path);
    LessTotal(x.method_, y.method_);
    LessTotal(x.method_, x.method_);
  }

  lemma BeforeTransitive(x: ExtraMethod, y: ExtraMethod, z: ExtraMethod)
    requires Before(x, y) && Before(y, z)
    ensures Before(x, z)
  {
    if x.path == y.path == z.path {
      LessTransitive(x.method_, y.method_, z.method_);
    } else if x.path != y.path && y.path != z.path {
      LessTransitive(x.path, y.path, z.path);
      LessTotal(x.path, y.path);
    }
  }

  predicate Sorted(s: seq<ExtraMethod>) {
    forall i, j :: 0 <= i < j < |s| ==> Before(s[i], s[j])
  }

  lemma HasElement(s: seq<ExtraMethod>)
    requires s != []
    ensures exists x :: x in s
  {
    assert s[0] in s;
  }

  /** A strictly sorted list is determined by its elements. */
  lemma {:induction false} SortedUnique(a: seq<ExtraMethod>, b: seq<ExtraMethod>)
    requires Sorted(a) && Sorted(b) && forall x :: x in a <==> x in b
    ensures a == b
  {
    if a == [] {
      if b != [] {
        HasElement(b);
      }
    } else {
      assert a[0] in b;
      assert b[0] in a;
      var i :| 0 <= i < |b| && b[i] == a[0];
      var j :| 0 <= j < |a| && a[j] == b[0];
      BeforeTotal(a[0], b[0]);
      assert a[0] == b[0];
      forall x ensures x in a[1..] <==> x in b[1..] {
        BeforeTotal(a[0], a[0]);
        Others(a, x);
        Others(b, x);
      }
      SortedUnique(a[1..], b[1..]);
    }
  }

  lemma Others(s: seq<ExtraMethod>, x: ExtraMethod)
    requires Sorted(s) && s != []
    ensures x in s[1..] <==> x in s && x != s[0]
  {
    BeforeTotal(s[0], s[0]);
    if x in s[1..] {
      var i :| 0 <= i < |s[1..]| && s[1..][i] == x;
      assert s[i + 1] == x && Before(s[0], s[i + 1]);
    }
  }

  // ------------------------------------------------------------ sorting, as sort.Slice leaves it

  method Insert(x: ExtraMethod, s: seq<ExtraMethod>) returns (r: seq<ExtraMethod>)
    requires Sorted(s) && x !in s
    ensures Sorted(r) && forall y :: y in r <==> y in s || y == x
  {
    var i := 0;
    while i < |s| && Before(s[i], x)
      invariant 0 <= i <= |s|
      invariant forall k :: 0 <= k < i ==> Before(s[k], x)
    {
      i := i + 1;
    }
    if i < |s| {
      BeforeTotal(s[i], x);
      forall k | i < k < |s| ensures Before(x, s[k]) {
        BeforeTransitive(x, s[i], s[k]);
      }
    }
    InsertedSorted(x, s, i);
    InsertedElements(x, s, i);
    r := s[..i] + [x] + s[i..];
  }

  lemma InsertedSorted(x: ExtraMethod, s: seq<ExtraMethod>, i: nat)
    requires Sorted(s) && i <= |s|
    requires (forall k :: 0 <= k < i ==> Before(s[k], x)) && forall k :: i <= k < |s| ==> Before(x, s[k])
    ensures Sorted(s[..i] + [x] + s[i..])
  {
    var r := s[..i] + [x] + s[i..];
    assert r[i] == x;
    assert forall k :: 0 <= k < i ==> r[k] == s[k];
    assert forall k :: i < k < |r| ==> r[k] == s[k - 1];
  }

  lemma InsertedElements(x: ExtraMethod, s: seq<ExtraMethod>, i: nat)
    requires i <= |s|
    ensures forall y :: y in s[..i] + [x] + s[i..] <==> y in s || y == x
  {
    assert s == s[..i] + s[i..];
  }

  method SortMethods(s: seq<ExtraMethod>) returns (r: seq<ExtraMethod>)
    requires forall i, j :: 0 <= i < j < |s| ==> s[i] != s[j]
    ensures Sorted(r) && forall y :: y in r <==> y in s
  {
    r := [];
    for i := 0 to |s|
      invariant Sorted(r) && forall y :: y in r <==> y in s[..i]
    {
      assert s[i] !in s[..i];
      r := Insert(s[i], r);
      assert s[..i + 1] == s[..i] + [s[i]];
    }
    assert s[..|s|] == s;
  }

  // ------------------------------------------------------------ discovery

  /** Some operation of the list has this key. */
  predicate Listed(ems: seq<ExtraMethod>, key: string) {
    exists i :: 0 <= i < |ems| && Key(ems[i]) == key
  }

  /** x is a normalized non-CRUD operation of the resource, neither specified by hand nor excluded. */
  ghost predicate Wanted(x: ExtraMethod, table: PathTable, collection: string,
                         manual: seq<ExtraMethod>, excluded: seq<ExtraMethod>)
  {
    && OperationOf(x, table, collection)
    && !Listed(manual, x.method_ + ":" + x.path) && !Listed(excluded, x.method_ + ":" + x.path)
  }

  ghost predicate OperationOf(x: ExtraMethod, table: PathTable, collection: string) {
    exists raw :: raw in table && Extra(raw, collection) && NormalizeAPIPath(raw) == x.path && x.method_ in table[raw]
  }

  predicate Extra(raw: string, collection: string) {
    Belongs(raw, collection) && !IsStandardCRUDPath(raw, collection)
  }

  /** Operations of the paths looked at so far that are not listed by hand or excluded are exactly those found. */
  ghost predicate FoundSoFar(x: ExtraMethod, table: PathTable, done: seq<string>, collection: string,
                             manual: seq<ExtraMethod>, excluded: seq<ExtraMethod>) {
    && !Listed(manual, x.method_ + ":" + x.path) && !Listed(excluded, x.method_ + ":" + x.path)
    && exists i :: 0 <= i < |done| && done[i] in table && Extra(done[i], collection)
                   && NormalizeAPIPath(done[i]) == x.path && x.method_ in table[done[i]]
  }

  method KeySet(ems: seq<ExtraMethod>) returns (keys: set<string>)
    ensures forall k :: k in keys <==> Listed(ems, k)
  {
    keys := {};
    for i := 0 to |ems|
      invariant forall k :: k in keys <==> exists j :: 0 <= j < i && Key(ems[j]) == k
    {
      keys := keys + {Key(ems[i])};
    }
  }

  class RestResourceConfig {
    var resourcePath: string
    var extraMethods: seq<ExtraMethod>
    var excludeMethods: seq<ExtraMethod>

    constructor (resourcePath: string, extra: seq<ExtraMethod>, exclude: seq<ExtraMethod>)
      ensures this.resourcePath == resourcePath && extraMethods == extra && excludeMethods == exclude
    {
      this.resourcePath, extraMethods, excludeMethods := resourcePath, extra, exclude;
    }

    /** The pass over one resource. `order` is the order in which the map iteration happens to deliver the paths.
        What is appended is strictly sorted and has exactly the wanted operations. */
    method AutoDiscoverExtraMethods(table: PathTable, order: seq<string>)
      requires HttpTable(table)
      requires forall p :: p in order <==> p in table
      modifies this`extraMethods
      ensures old(extraMethods) <= extraMethods
      ensures resourcePath == "" ==> extraMethods == old(extraMethods)
      ensures resourcePath != "" ==>
                var d := extraMethods[|old(extraMethods)|..];
                Sorted(d) && forall x :: x in d <==> Wanted(x, table, resourcePath, old(extraMethods), excludeMethods)
    {
      if resourcePath == "" {
        return;
      }
      var existingKeys := KeySet(extraMethods);
      var excludeKeys := KeySet(excludeMethods);
      var discovered: seq<ExtraMethod> := [];
      ghost var manual, excluded := extraMethods, excludeMethods;
      for i := 0 to |order|
        invariant extraMethods == manual
        invariant Collected(discovered, existingKeys, manual)
        invariant forall x :: x in discovered <==> FoundSoFar(x, table, order[..i], resourcePath, manual, excluded)
      {
        assert order[i] in order;
        assert order[..i + 1] == order[..i] + [order[i]];
        if Extra(order[i], resourcePath) {
          discovered, existingKeys := AddMethods(discovered, existingKeys, excludeKeys, NormalizeAPIPath(order[i]),
                                                 table[order[i]], manual, excluded);
        }
        forall x
          ensures FoundSoFar(x, table, order[..i + 1], resourcePath, manual, excluded) <==>
                  FoundSoFar(x, table, order[..i], resourcePath, manual, excluded)
                  || (Extra(order[i], resourcePath)
                      && FoundHere(x, NormalizeAPIPath(order[i]), table[order[i]], manual, excluded))
        {
          FoundExtends(x, table, order[..i], order[i], resourcePath, manual, excluded);
        }
      }
      assert order[..|order|] == order;
      forall x
        ensures FoundSoFar(x, table, order, resourcePath, manual, excluded) <==>
                Wanted(x, table, resourcePath, manual, excluded)
      {
        FoundAll(x, table, order, resourcePath, manual, excluded);
      }
      var sorted := SortMethods(discovered);
      extraMethods := extraMethods + sorted;
    }
  }

  /** No operation is found twice, and the key set has the manual keys and those of the operations found. */
  ghost predicate Collected(discovered: seq<ExtraMethod>, keys: set<string>, manual: seq<ExtraMethod>) {
    && (forall i, j :: 0 <= i < j < |discovered| ==> discovered[i] != discovered[j])
    && (forall i :: 0 <= i < |discovered| ==> discovered[i].method_ in VERBS)
    && (forall k :: k in keys <==> Listed(manual, k) || exists x :: x in discovered && x.method_ + ":" + x.path == k)
  }

  ghost predicate FoundHere(x: ExtraMethod, path: string, methods: seq<string>,
                            manual: seq<ExtraMethod>, excluded: seq<ExtraMethod>)
  {
    x.path == path && x.method_ in methods
    && !Listed(manual, x.method_ + ":" + x.path) && !Listed(excluded, x.method_ + ":" + x.path)
  }

  lemma FoundExtends(x: ExtraMethod, table: PathTable, done: seq<string>, raw: string, collection: string,
                     manual: seq<ExtraMethod>, excluded: seq<ExtraMethod>)
    requires raw in table
    ensures FoundSoFar(x, table, done + [raw], collection, manual, excluded) <==>
            FoundSoFar(x, table, done, collection, manual, excluded)
            || (Extra(raw, collection) && FoundHere(x, NormalizeAPIPath(raw), table[raw], manual, excluded))
  {
    var all := done + [raw];
    assert all[|done|] == raw;
    assert forall i :: 0 <= i < |done| ==> all[i] == done[i];
  }

  lemma FoundAll(x: ExtraMethod, table: PathTable, order: seq<string>, collection: string,
                 manual: seq<ExtraMethod>, excluded: seq<ExtraMethod>)
    requires forall p :: p in order <==> p in table
    ensures FoundSoFar(x, table, order, collection, manual, excluded) <==>
            Wanted(x, table, collection, manual, excluded)
  {
    if OperationOf(x, table, collection) {
      var raw :| raw in table && Extra(raw, collection) && NormalizeAPIPath(raw) == x.path && x.method_ in table[raw];
      assert raw in order;
      var i :| 0 <= i < |order| && order[i] == raw;
    }
  }

  /** The inner loop over the methods of one path. */
  method AddMethods(discovered: seq<ExtraMethod>, existingKeys: set<string>, excludeKeys: set<string>, path: string,
                    methods: seq<string>, ghost manual: seq<ExtraMethod>, ghost excluded: seq<ExtraMethod>)
    returns (found: seq<ExtraMethod>, keys: set<string>)
    requires Collected(discovered, existingKeys, manual) && forall i :: 0 <= i < |methods| ==> methods[i] in VERBS
    requires forall k :: k in excludeKeys <==> Listed(excluded, k)
    ensures Collected(found, keys, manual)
    ensures forall x :: x in found <==> x in discovered || FoundHere(x, path, methods, manual, excluded)
  {
    found, keys := discovered, existingKeys;
    for i := 0 to |methods|
      invariant Collected(found, keys, manual)
      invariant forall x :: x in found <==> x in discovered || FoundHere(x, path, methods[..i], manual, excluded)
    {
      var x := ExtraMethod(methods[i], path);
      var key := methods[i] + ":" + path;
      assert methods[..i + 1] == methods[..i] + [methods[i]];
      if key !in keys && key !in excludeKeys {
        found, keys := AddOne(found, keys, x, manual);
      } else if key in keys && !Listed(manual, key) {
        AlreadyFound(found, keys, x, manual);
      }
    }
    assert methods[..|methods|] == methods;
  }

  lemma AlreadyFound(found: seq<ExtraMethod>, keys: set<string>, x: ExtraMethod, manual: seq<ExtraMethod>)
    requires Collected(found, keys, manual) && x.method_ in VERBS
    requires x.method_ + ":" + x.path in keys && !Listed(manual, x.method_ + ":" + x.path)
    ensures x in found
  {
    var y :| y in found && y.method_ + ":" + y.path == x.method_ + ":" + x.path;
    KeyInjective(y.method_, y.path, x.method_, x.path);
  }

  method AddOne(found: seq<ExtraMethod>, keys: set<string>, x: ExtraMethod, ghost manual: seq<ExtraMethod>)
    returns (found': seq<ExtraMethod>, keys': set<string>)
    requires Collected(found, keys, manual) && x.method_ in VERBS && x.method_ + ":" + x.path !in keys
    ensures Collected(found', keys', manual) && found' == found + [x]
  {
    found', keys' := found + [x], keys + {x.method_ + ":" + x.path};
    assert found'[|found|] == x;
  }

  // ------------------------------------------------------------ what is wanted, segment by segment

  lemma {:induction false} TrimRightAppend(a: string, rest: string)
    ensures TrimRight(a + rest, '/')
         == if TrimRight(rest, '/') == "" then TrimRight(a, '/') else a + TrimRight(rest, '/')
    decreases |rest|
  {
    if rest == "" {
      assert a + rest == a;
    } else if rest[|rest| - 1] == '/' {
      assert (a + rest)[..|a + rest| - 1] == a + rest[..|rest| - 1];
      TrimRightAppend(a, rest[..|rest| - 1]);
    }
  }

  /** What is left of a path beneath a collection when its slashes are trimmed. */
  lemma TrimBeneath(c: string, rest: string)
    requires Free('/', c) && c != ""
    ensures Trim("/" + c + "/" + rest, '/')
         == if TrimRight(rest, '/') == "" then c else c + "/" + TrimRight(rest, '/')
  {
    assert c[0] in c && c[|c| - 1] in c;
    var inner := c + "/" + rest;
    assert "/" + c + "/" + rest == "/" + inner && ("/" + inner)[1..] == inner;
    assert inner[0] == c[0];
    assert TrimLeft("/" + inner, '/') == inner;
    TrimRightAppend(c + "/", rest);
    assert (c + "/")[..|c|] == c;
    assert TrimRight(c + "/", '/') == c;
  }

  lemma TrimCollection(c: string)
    requires Free('/', c) && c != ""
    ensures Trim("/" + c, '/') == c
  {
    assert c[0] in c && c[|c| - 1] in c;
    assert ("/" + c)[1..] == c;
    assert TrimLeft("/" + c, '/') == TrimLeft(c, '/') == c;
  }

  /** x is an operation of a path beneath the collection, other than that of one record in it. */
  predicate Beneath(x: ExtraMethod, table: PathTable, c: string, rest: string) {
    var raw, end := "/" + c + "/" + rest, TrimRight(rest, '/');
    raw in table && x.method_ in table[raw] && end !in {"", "{id}"} && x.path == "/" + (c + "/" + end) + "/"
  }

  /** No operation of the list has the method and, slashes at its ends aside, the path of x. */
  predicate Unlisted(x: ExtraMethod, ems: seq<ExtraMethod>) {
    forall em :: em in ems ==> em.method_ + ":" + ("/" + Trim(em.path, '/') + "/") != x.method_ + ":" + x.path
  }

  lemma StandardBeneath(c: string, rest: string)
    requires Free('/', c) && c != ""
    ensures IsStandardCRUDPath("/" + c + "/" + rest, c) <==> TrimRight(rest, '/') in {"", "{id}"}
  {
    var raw, end := "/" + c + "/" + rest, TrimRight(rest, '/');
    StandardIff(raw, c);
    TrimBeneath(c, rest);
    Wrapped(Trim(raw, '/'), c);
    Wrapped(Trim(raw, '/'), c + "/{id}");
    assert "/" + (c + "/{id}") + "/" == "/" + c + "/{id}/";
    if end != "" {
      assert (c + "/" + end)[|c| + 1..] == end && (c + "/{id}")[|c| + 1..] == "{id}";
      assert |c + "/" + end| > |c|;
    }
  }

  lemma ExtraBeneath(raw: string, c: string) returns (rest: string)
    requires Free('/', c) && c != "" && Extra(raw, c)
    ensures raw == "/" + c + "/" + rest && TrimRight(rest, '/') !in {"", "{id}"}
  {
    if raw == "/" + c {
      TrimCollection(c);
      StandardIff(raw, c);
      assert false;
    }
    var prefix := "/" + c + "/";
    rest := raw[|prefix|..];
    assert raw == prefix + rest;
    StandardBeneath(c, rest);
  }

  lemma BeneathIsExtra(c: string, rest: string)
    requires Free('/', c) && c != "" && TrimRight(rest, '/') !in {"", "{id}"}
    ensures Extra("/" + c + "/" + rest, c)
    ensures NormalizeAPIPath("/" + c + "/" + rest) == "/" + (c + "/" + TrimRight(rest, '/')) + "/"
  {
    StandardBeneath(c, rest);
    TrimBeneath(c, rest);
    assert "/" + c + "/" <= "/" + c + "/" + rest;
  }

  lemma ListedIff(x: ExtraMethod, ems: seq<ExtraMethod>)
    ensures Unlisted(x, ems) <==> !Listed(ems, x.method_ + ":" + x.path)
  {
    if Unlisted(x, ems) {
      forall i | 0 <= i < |ems| ensures Key(ems[i]) != x.method_ + ":" + x.path {
        assert ems[i] in ems;
      }
    }
  }

  /** For a collection without a slash: wanted are the operations of the paths /collection/rest, where rest is neither
      slashes only nor {id} and slashes, under /collection/rest/ with one slash at its end, unless they are listed by
      hand or excluded. */
  lemma WantedIff(x: ExtraMethod, table: PathTable, c: string, manual: seq<ExtraMethod>, excluded: seq<ExtraMethod>)
    requires Free('/', c) && c != ""
    ensures Wanted(x, table, c, manual, excluded) <==>
            Unlisted(x, manual) && Unlisted(x, excluded) && exists rest :: Beneath(x, table, c, rest)
  {
    ListedIff(x, manual);
    ListedIff(x, excluded);
    if OperationOf(x, table, c) {
      var raw :| raw in table && Extra(raw, c) && NormalizeAPIPath(raw) == x.path && x.method_ in table[raw];
      var rest := ExtraBeneath(raw, c);
      BeneathIsExtra(c, rest);
      assert Beneath(x, table, c, rest);
    }
    if rest :| Beneath(x, table, c, rest) {
      BeneathIsExtra(c, rest);
      assert OperationOf(x, table, c);
    }
  }

  /** In particular nothing is wanted for the collection that does not lie beneath it. */
  lemma WantedLiesBeneath(x: ExtraMethod, table: PathTable, c: string, manual: seq<ExtraMethod>,
                          excluded: seq<ExtraMethod>)
    requires Free('/', c) && c != "" && Wanted(x, table, c, manual, excluded)
    ensures "/" + c + "/" <= x.path && |x.path| > |c| + 2
  {
    WantedIff(x, table, c, manual, excluded);
    var rest :| Beneath(x, table, c, rest);
    assert x.path == "/" + c + "/" + (TrimRight(rest, '/') + "/");
  }

  // ------------------------------------------------------------ the order

  /** a is a proper beginning of b, or smaller where they first differ. */
  predicate Precedes(a: string, b: string) {
    exists i :: 0 <= i <= |a| && i < |b| && a[..i] == b[..i] && (i == |a| || a[i] < b[i])
  }

  lemma {:induction false} LessIff(a: string, b: string)
    ensures Less(a, b) <==> Precedes(a, b)
  {
    if Less(a, b) {
      var i := FirstDifference(a, b);
    }
    if Precedes(a, b) {
      var i :| 0 <= i <= |a| && i < |b| && a[..i] == b[..i] && (i == |a| || a[i] < b[i]);
      DifferenceDecides(a, b, i);
    }
  }

  lemma {:induction false} FirstDifference(a: string, b: string) returns (i: nat)
    requires Less(a, b)
    ensures i <= |a| && i < |b| && a[..i] == b[..i] && (i == |a| || a[i] < b[i])
  {
    if a == "" || a[0] < b[0] {
      i := 0;
    } else {
      i := FirstDifference(a[1..], b[1..]);
      assert a[..i + 1] == [a[0]] + a[1..][..i] && b[..i + 1] == [b[0]] + b[1..][..i];
      i := i + 1;
    }
  }

  lemma {:induction false} DifferenceDecides(a: string, b: string, i: nat)
    requires i <= |a| && i < |b| && a[..i] == b[..i] && (i == |a| || a[i] < b[i])
    ensures Less(a, b)
    decreases i
  {
    if i > 0 {
      assert a[0] == a[..i][0] == b[..i][0] == b[0];
      assert a[1..][..i - 1] == a[..i][1..] && b[1..][..i - 1] == b[..i][1..];
      DifferenceDecides(a[1..], b[1..], i - 1);
    }
  }

  /** Sorted is: by path in lexicographic order, and by method where paths are equal. */
  lemma BeforeIff(x: ExtraMethod, y: ExtraMethod)
    ensures Before(x, y) <==> Precedes(x.path, y.path) || (x.path == y.path && Precedes(x.method_, y.method_))
  {
    LessIff(x.path, y.path);
    LessIff(x.method_, y.method_);
    LessTotal(x.path, y.path);
  }

  /** Two passes over the same table append the same list, whatever the orders of the map iteration. */
  lemma OrderIndependent(a: seq<ExtraMethod>, b: seq<ExtraMethod>, table: PathTable, collection: string,
                         manual: seq<ExtraMethod>, excluded: seq<ExtraMethod>)
    requires Sorted(a) && forall x :: x in a <==> Wanted(x, table, collection, manual, excluded)
    requires Sorted(b) && forall x :: x in b <==> Wanted(x, table, collection, manual, excluded)
    ensures a == b
  {
    SortedUnique(a, b);
  }
}
