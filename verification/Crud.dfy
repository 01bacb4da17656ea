/** The search-then-act operations of core/vast_resource.go over a remote store that is listed page by page
    through the iterator. */
module Crud {
  import opened Basics
  import opened Cursor
  import opened Values

  type Query = Record -> bool

  datatype GetResult = Found(record: Record) | NotFound | TooMany | Failed

  datatype DeleteResult = Deleted | NothingToDelete | NoId | Refused(why: GetResult) | RequestFailed

  function Matching(store: seq<Record>, q: Query): (r: seq<Record>)
    ensures forall x :: x in r <==> x in store && q(x)
  {
    if store == [] then []
    else (if q(store[0]) then [store[0]] else []) + Matching(store[1..], q)
  }

  /** The answers to one listing: all of ms at once, or cut in any way into a chain of pages. */
  ghost predicate Lists(server: Server, ms: seq<Record>) {
    server(None) == Many(ms)
    || exists k :: ServesChain(server, k) && Concat(k.pages) == ms
  }

  /** Whatever way the server cuts its pages, the listing ends and is complete. */
  lemma ListingComplete(server: Server, ms: seq<Record>) returns (bound: nat)
    requires Lists(server, ms)
    ensures Drains(FRESH, server, bound) && CollectAll(FRESH, server, bound).1 == Page(ms)
  {
    if server(None) == Many(ms) {
      bound := 1;
      assert ms + [] == ms;
    } else {
      var k :| ServesChain(server, k) && Concat(k.pages) == ms;
      bound := |k.pages|;
      AllFromTheStart(server, k, bound);
    }
  }

  function Pick(a: Answer): GetResult {
    match a
    case Error => Failed
    case Page(rs) =>
      if |rs| == 0 then NotFound
      else if |rs| == 1 then (if rs[0] == map[] then NotFound else Found(rs[0]))
      else TooMany
  }

  predicate SameId(r: Record, id: Value) {
    "id" in r && r["id"] == id
  }

  function Without(store: seq<Record>, id: Value): seq<Record> {
    if store == [] then []
    else (if SameId(store[0], id) then [] else [store[0]]) + Without(store[1..], id)
  }

  /** The store and the answer after Ensure, given what its search has seen and what the server would create;
      None stands for a request that fails. */
  function Ensured(store: seq<Record>, created: Option<Record>, seen: GetResult): (seq<Record>, GetResult) {
    if !seen.NotFound? then (store, seen)
    else
      match created
      case None => (store, Failed)
      case Some(r) => (store + [r], Found(r))
  }

  /** The answer of Delete, given what its search has seen and whether the request gets through. */
  function Deletion(seen: GetResult, up: bool): (d: DeleteResult)
    ensures d.Deleted? ==> seen.Found? && "id" in seen.record
  {
    match seen
    case Found(r) => if "id" !in r then NoId else if up then Deleted else RequestFailed
    case NotFound => NothingToDelete
    case _ => Refused(seen)
  }

  /** The remote collection and the operations on it. `server` answers the listing of one operation, and `up` says
      whether the request that changes the collection gets through. */
  class VastResource {
    var store: seq<Record>
    var nextId: int

    constructor ()
      ensures store == [] && nextId == 0
    {
      store, nextId := [], 0;
    }

    /** Fields the server adds on creation. */
    function Stored(body: Record): Record
      reads this
    {
      body["id" := Flt(Float64, nextId as real)]
    }

    method List(server: Server, ghost bound: nat) returns (a: Answer)
      requires Drains(FRESH, server, bound)
      ensures a == CollectAll(FRESH, server, bound).1
    {
      var it := new ResourceIterator();
      a := it.All(server, bound);
    }

    method Get(server: Server, ghost bound: nat) returns (g: GetResult)
      requires Drains(FRESH, server, bound)
      ensures g == Pick(CollectAll(FRESH, server, bound).1)
    {
      var a := List(server, bound);
      if a.Error? {
        return Failed;
      }
      if |a.records| == 0 {
        return NotFound;
      } else if |a.records| == 1 {
        var single := a.records[0];
        if |single| == 0 {
          assert single == map[];
          return NotFound;
        }
        return Found(single);
      }
      g := TooMany;
    }

    /** None stands for an error other than the two that answer the question. */
    method Exists(server: Server, ghost bound: nat) returns (b: Option<bool>)
      requires Drains(FRESH, server, bound)
      ensures b.None? <==> CollectAll(FRESH, server, bound).1.Error?
      ensures b.Some? ==> (b.value <==> Pick(CollectAll(FRESH, server, bound).1) != NotFound)
    {
      var g := Get(server, bound);
      match g
      case Failed => b := None;
      case NotFound => b := Some(false);
      case _ => b := Some(true);
    }

    method Create(body: Record, up: bool) returns (r: Option<Record>)
      modifies this
      ensures r == if up then Some(old(Stored(body))) else None
      ensures store == if up then old(store) + [old(Stored(body))] else old(store)
      ensures nextId == if up then old(nextId) + 1 else old(nextId)
    {
      if !up {
        return None;
      }
      var created := Stored(body);
      store := store + [created];
      nextId := nextId + 1;
      r := Some(created);
    }

    method Ensure(server: Server, ghost bound: nat, body: Record, up: bool) returns (g: GetResult)
      requires Drains(FRESH, server, bound)
      modifies this
      ensures (store, g) == Ensured(old(store), if up then Some(old(Stored(body))) else None,
                                    Pick(CollectAll(FRESH, server, bound).1))
      ensures nextId == if store == old(store) then old(nextId) else old(nextId) + 1
    {
      g := Get(server, bound);
      if g.NotFound? {
        var r := Create(body, up);
        g := if r.Some? then Found(r.value) else Failed;
      }
    }

    method DeleteById(id: Value, up: bool) returns (ok: bool)
      modifies this`store
      ensures ok == up && store == if up then Without(old(store), id) else old(store)
    {
      if up {
        store := Without(store, id);
      }
      ok := up;
    }

    method Delete(server: Server, ghost bound: nat, up: bool) returns (d: DeleteResult)
      requires Drains(FRESH, server, bound)
      modifies this`store
      ensures var seen := Pick(CollectAll(FRESH, server, bound).1);
              && d == Deletion(seen, up)
              && store == if d.Deleted? then Without(old(store), seen.record["id"]) else old(store)
    {
      var g := Get(server, bound);
      match g
      case NotFound => d := NothingToDelete;
      case Found(r) =>
        if "id" !in r {
          return NoId;
        }
        var ok := DeleteById(r["id"], up);
        d := if ok then Deleted else RequestFailed;
      case _ => d := Refused(g);
    }
  }

  // ------------------------------------------------------------ what the operations amount to

  lemma Listed(store: seq<Record>, q: Query, server: Server, bound: nat)
    requires Lists(server, Matching(store, q)) && Drains(FRESH, server, bound)
    ensures CollectAll(FRESH, server, bound).1 == Page(Matching(store, q))
  {
    var b := ListingComplete(server, Matching(store, q));
    DrainIndependentOfBound(FRESH, server, bound, b);
  }

  /** The matches are a single record, and that one is empty: a match that Get takes for none. */
  predicate OnlyEmptyMatch(ms: seq<Record>) {
    ms == [map[]]
  }

  predicate AnyMatch(store: seq<Record>, q: Query) {
    exists r :: r in store && q(r)
  }

  /** Get finds something exactly when some record matches, unless the only match is empty. */
  lemma ExistsIffMatch(store: seq<Record>, q: Query, server: Server, bound: nat)
    requires Lists(server, Matching(store, q)) && Drains(FRESH, server, bound)
    ensures Pick(CollectAll(FRESH, server, bound).1) != Failed
    ensures Pick(CollectAll(FRESH, server, bound).1) != NotFound <==>
            AnyMatch(store, q) && !OnlyEmptyMatch(Matching(store, q))
  {
    Listed(store, q, server, bound);
    SomeMatch(store, q);
    PickOf(Matching(store, q));
  }

  lemma PickOf(ms: seq<Record>)
    ensures Pick(Page(ms)) != Failed
    ensures Pick(Page(ms)) == NotFound <==> ms == [] || OnlyEmptyMatch(ms)
    ensures Pick(Page(ms)) == TooMany <==> |ms| >= 2
  {
  }

  lemma SomeMatch(store: seq<Record>, q: Query)
    ensures Matching(store, q) != [] <==> AnyMatch(store, q)
  {
    if Matching(store, q) != [] {
      assert Matching(store, q)[0] in Matching(store, q);
    }
  }

  lemma {:induction false} MatchingConcat(a: seq<Record>, b: seq<Record>, q: Query)
    ensures Matching(a + b, q) == Matching(a, q) + Matching(b, q)
  {
    if a == [] {
      assert a + b == b;
    } else {
      assert (a + b)[1..] == a[1..] + b;
      MatchingConcat(a[1..], b, q);
    }
  }

  lemma MatchingOne(r: Record, q: Query)
    ensures Matching([r], q) == if q(r) then [r] else []
  {
    assert [r][1..] == [];
  }

  /** Ensuring a record that satisfies its own search leaves a match behind. Ensuring once more, against the answers
      to the new contents, never creates anything, and gives the same answer exactly if there was not just one match
      that was empty: then the second answer is that there are too many. */
  lemma EnsureTwice(store: seq<Record>, q: Query, created: Record, again: Option<Record>,
                    first: Server, b1: nat, second: Server, b2: nat)
    requires created != map[] && q(created)
    requires Drains(FRESH, first, b1) && Lists(first, Matching(store, q))
    requires var store1 := Ensured(store, Some(created), Pick(CollectAll(FRESH, first, b1).1)).0;
             Drains(FRESH, second, b2) && Lists(second, Matching(store1, q))
    ensures var (store1, g1) := Ensured(store, Some(created), Pick(CollectAll(FRESH, first, b1).1));
            var (store2, g2) := Ensured(store1, again, Pick(CollectAll(FRESH, second, b2).1));
            && AnyMatch(store1, q)
            && store2 == store1
            && (g2 == g1 <==> !OnlyEmptyMatch(Matching(store, q)))
            && (g2 != g1 ==> g2 == TooMany)
  {
    Listed(store, q, first, b1);
    var (store1, g1) := Ensured(store, Some(created), Pick(Page(Matching(store, q))));
    Listed(store1, q, second, b2);
    MatchesEnsured(store, q, created);
    SomeMatch(store1, q);
    PickOf(Matching(store, q));
    PickOf(Matching(store1, q));
  }

  lemma MatchesEnsured(store: seq<Record>, q: Query, created: Record)
    requires created != map[] && q(created)
    ensures var ms, store1 := Matching(store, q), Ensured(store, Some(created), Pick(Page(Matching(store, q)))).0;
            Matching(store1, q) == if ms == [] || OnlyEmptyMatch(ms) then ms + [created] else ms
  {
    MatchingConcat(store, [created], q);
    MatchingOne(created, q);
  }

  /** No record has this id. */
  predicate Unused(store: seq<Record>, id: Value) {
    forall r :: r in store ==> !SameId(r, id)
  }

  /** Deleting the id of record i takes out position i alone exactly if no other record has that id. */
  lemma WithoutSplits(store: seq<Record>, i: nat)
    requires i < |store| && "id" in store[i]
    ensures var id := store[i]["id"];
            Without(store, id) == store[..i] + store[i + 1..] <==> Unused(store[..i], id) && Unused(store[i + 1..], id)
  {
    assert store == store[..i] + [store[i]] + store[i + 1..];
    WithoutMiddle(store[..i], store[i], store[i + 1..], store[i]["id"]);
    NothingElse(store[..i], store[i + 1..], store[i]["id"]);
  }

  lemma WithoutMiddle(a: seq<Record>, r: Record, b: seq<Record>, id: Value)
    requires SameId(r, id)
    ensures Without(a + [r] + b, id) == Without(a, id) + Without(b, id)
  {
    WithoutConcat(a + [r], b, id);
    WithoutConcat(a, [r], id);
    WithoutOne(r, id);
  }

  lemma NothingElse(a: seq<Record>, b: seq<Record>, id: Value)
    ensures Without(a, id) + Without(b, id) == a + b <==> Unused(a, id) && Unused(b, id)
  {
    WithoutUnused(a, id);
    WithoutUnused(b, id);
    SameParts(Without(a, id), Without(b, id), a, b);
  }

  lemma SameParts(a: seq<Record>, b: seq<Record>, c: seq<Record>, d: seq<Record>)
    requires |a| <= |c| && |b| <= |d|
    ensures a + b == c + d <==> a == c && b == d
  {
    if a + b == c + d {
      assert |a| == |c|;
      assert a == (a + b)[..|a|] && c == (c + d)[..|a|];
      assert b == (a + b)[|a|..] && d == (c + d)[|a|..];
    }
  }

  lemma {:induction false} WithoutConcat(a: seq<Record>, b: seq<Record>, id: Value)
    ensures Without(a + b, id) == Without(a, id) + Without(b, id)
  {
    if a == [] {
      assert a + b == b;
    } else {
      assert (a + b)[1..] == a[1..] + b;
      WithoutConcat(a[1..], b, id);
    }
  }

  lemma {:induction false} WithoutUnused(store: seq<Record>, id: Value)
    ensures |Without(store, id)| <= |store|
    ensures |Without(store, id)| == |store| <==> Unused(store, id)
    ensures Without(store, id) == store <==> Unused(store, id)
  {
    if store != [] {
      WithoutUnused(store[1..], id);
      assert store == [store[0]] + store[1..];
      if SameId(store[0], id) {
        assert store[0] in store;
      }
    }
  }

  /** What Delete makes of the matches: none, or one that is empty, is nothing to delete; several are refused; one
      without an id is refused too; and one with an id goes, together with whatever else has the same id. */
  lemma DeleteByMatches(store: seq<Record>, q: Query, server: Server, bound: nat)
    requires Lists(server, Matching(store, q)) && Drains(FRESH, server, bound)
    ensures var ms := Matching(store, q);
            match Deletion(Pick(CollectAll(FRESH, server, bound).1), true)
            case NothingToDelete => ms == [] || OnlyEmptyMatch(ms)
            case Refused(why) => why == TooMany && |ms| >= 2
            case NoId => |ms| == 1 && ms[0] != map[] && "id" !in ms[0]
            case Deleted => |ms| == 1 && "id" in ms[0]
            case RequestFailed => false
  {
    Listed(store, q, server, bound);
  }

  /** After a deletion nothing matches, so a second one finds nothing to delete. */
  lemma DeleteTwice(store: seq<Record>, q: Query, first: Server, b1: nat, second: Server, b2: nat)
    requires Lists(first, Matching(store, q)) && Drains(FRESH, first, b1)
    requires Deletion(Pick(CollectAll(FRESH, first, b1).1), true).Deleted?
    requires var store1 := Without(store, Pick(CollectAll(FRESH, first, b1).1).record["id"]);
             Drains(FRESH, second, b2) && Lists(second, Matching(store1, q))
    ensures Deletion(Pick(CollectAll(FRESH, second, b2).1), true) == NothingToDelete
  {
    Listed(store, q, first, b1);
    var r := Matching(store, q)[0];
    Listed(Without(store, r["id"]), q, second, b2);
    MatchingWithout(store, q, r["id"]);
  }

  lemma {:induction false} MatchingWithout(store: seq<Record>, q: Query, id: Value)
    ensures Matching(Without(store, id), q) == Without(Matching(store, q), id)
  {
    if store != [] {
      MatchingWithout(store[1..], q, id);
      var first := if q(store[0]) then [store[0]] else [];
      WithoutConcat(first, Matching(store[1..], q), id);
      MatchingConcat(if SameId(store[0], id) then [] else [store[0]], Without(store[1..], id), q);
      MatchingOne(store[0], q);
      WithoutOne(store[0], id);
    }
  }

  /** Deleting an id takes out the records with that id and no others. */
  lemma {:induction false} WithoutMembers(store: seq<Record>, id: Value, r: Record)
    ensures r in Without(store, id) <==> r in store && !("id" in r && r["id"] == id)
  {
    if store != [] {
      WithoutMembers(store[1..], id, r);
      assert store == [store[0]] + store[1..];
    }
  }

  lemma WithoutOne(r: Record, id: Value)
    ensures Without([r], id) == if SameId(r, id) then [] else [r]
  {
    assert [r][1..] == [];
  }
}
