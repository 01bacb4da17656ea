/** The pagination cursor of core/iterator.go against a server that answers every URL. */
module Cursor {
  import opened Basics
  import opened Values

  type Url = string

  datatype Response = Single(record: Record) | Many(records: seq<Record>) | Strange | Fault

  /** None stands for the first request, built from the resource path and the query. */
  type Server = Option<Url> -> Response

  /** The fields of ResourceIterator that change; `failed` says whether err is set. */
  datatype Cursor = Cursor(current: seq<Record>, next: Option<Url>, prev: Option<Url>,
                           total: int, page: int, started: bool, failed: bool)

  const FRESH := Cursor([], None, None, -1, 0, false, false)

  datatype Answer = Page(records: seq<Record>) | Error

  // ------------------------------------------------------------ specification of one step

  predicate AllObjects(items: seq<Value>) {
    forall i :: 0 <= i < |items| ==> items[i].Obj?
  }

  function Records(items: seq<Value>): (r: seq<Record>)
    requires AllObjects(items)
    ensures |r| == |items| && forall i :: 0 <= i < |items| ==> r[i] == items[i].fields
  {
    seq(|items|, i requires 0 <= i < |items| => items[i].fields)
  }

  predicate IsEnvelope(r: Record) {
    "results" in r && "count" in r
  }

  /** A link field: absent keeps the old link, a non-empty string replaces it, anything else clears it. */
  function Link(r: Record, key: string, old_: Option<Url>): Option<Url> {
    if key !in r then old_
    else if r[key].Str? && r[key].s != "" then Some(r[key].s)
    else None
  }

  /** The count field: a float64 is truncated, an int taken as it is, and anything else ignored. */
  function CountOf(v: Value, old_: int): int {
    if v.Flt? && v.kind.Float64? then Truncate(v.r) else if v.Num? && v.kind.Int? then v.n else old_
  }

  /** What a response does to the cursor; None stands for an error. */
  function Absorb(c: Cursor, response: Response): Option<Cursor> {
    match response
    case Fault => None
    case Strange => None
    case Many(rs) => Some(c.(current := rs, next := None, prev := None, total := |rs|))
    case Single(r) =>
      if !IsEnvelope(r) then Some(c.(current := [r], next := None, prev := None, total := 1))
      else if !r["results"].Arr? || !AllObjects(r["results"].items) then None
      else Some(c.(current := Records(r["results"].items),
                   next := Link(r, "next", c.next), prev := Link(r, "previous", c.prev),
                   total := CountOf(r["count"], c.total)))
  }

  function Fetched(c: Cursor, response: Response): Cursor {
    match Absorb(c, response)
    case Some(d) => d.(failed := false)
    case None => c.(failed := true)
  }

  function ReadPage(c: Cursor, response: Response): Answer {
    match Absorb(c, response)
    case Some(d) => Page(d.current)
    case None => Error
  }

  predicate HasNext(c: Cursor) {
    !c.started || (c.next.Some? && c.next.value != "")
  }

  predicate HasPrevious(c: Cursor) {
    c.started && c.prev.Some? && c.prev.value != ""
  }

  function StepNext(c: Cursor, server: Server): (Cursor, Answer) {
    if !c.started then
      (Fetched(c, server(None)).(started := true), ReadPage(c, server(None)))
    else if !HasNext(c) then (c, Page([]))
    else
      var response := server(c.next);
      var d := Fetched(c, response);
      (if d.failed then d else d.(page := c.page + 1), ReadPage(c, response))
  }

  function StepPrevious(c: Cursor, server: Server): (Cursor, Answer) {
    if !c.started then (c.(failed := true), Error)
    else if !HasPrevious(c) then (c, Page([]))
    else
      var response := server(c.prev);
      var d := Fetched(c, response);
      (if d.failed then d else d.(page := c.page - 1), ReadPage(c, response))
  }

  function StepReset(c: Cursor, server: Server): (Cursor, Answer) {
    StepNext(FRESH, server)
  }

  // ------------------------------------------------------------ draining

  /** The loop of All ends within n more requests: a link is missing or a request fails. */
  ghost predicate Drains(c: Cursor, server: Server, n: nat)
    decreases n
  {
    !HasNext(c) || (n > 0 && (StepNext(c, server).1.Error? || Drains(StepNext(c, server).0, server, n - 1)))
  }

  /** What the loop of All appends, and where it leaves the cursor. */
  ghost function Drain(c: Cursor, server: Server, n: nat): (Cursor, Answer)
    requires Drains(c, server, n)
    decreases n
  {
    if !HasNext(c) then (c, Page([]))
    else
      var (d, a) := StepNext(c, server);
      if a.Error? then (d, Error)
      else
        var (e, rest) := Drain(d, server, n - 1);
        (e, if rest.Error? then Error else Page(a.records + rest.records))
  }

  /** The outcome of a drain with the records so far in front. */
  function Prepend(records: seq<Record>, outcome: (Cursor, Answer)): (Cursor, Answer) {
    (outcome.0, if outcome.1.Error? then Error else Page(records + outcome.1.records))
  }

  ghost function CollectAll(c: Cursor, server: Server, n: nat): (Cursor, Answer)
    requires Drains(c, server, n)
  {
    Prepend(if c.started then c.current else [], Drain(c, server, n))
  }

  lemma DrainOne(all: seq<Record>, c: Cursor, server: Server, n: nat)
    requires Drains(c, server, n) && HasNext(c)
    ensures n > 0
    ensures var (d, a) := StepNext(c, server);
            if a.Error? then Prepend(all, Drain(c, server, n)) == (d, Error)
            else Drains(d, server, n - 1)
                 && Prepend(all, Drain(c, server, n)) == Prepend(all + a.records, Drain(d, server, n - 1))
  {
    var (d, a) := StepNext(c, server);
    if a.Page? {
      var rest := Drain(d, server, n - 1).1;
      if rest.Page? {
        assert all + (a.records + rest.records) == (all + a.records) + rest.records;
      }
    }
  }

  /** The bound is only a witness: any two that suffice give the same result. */
  lemma {:induction false} DrainIndependentOfBound(c: Cursor, server: Server, m: nat, n: nat)
    requires Drains(c, server, m) && Drains(c, server, n)
    ensures Drain(c, server, m) == Drain(c, server, n)
    decreases m
  {
    if HasNext(c) && !StepNext(c, server).1.Error? {
      DrainIndependentOfBound(StepNext(c, server).0, server, m - 1, n - 1);
    }
  }

  // ------------------------------------------------------------ the iterator object

  class ResourceIterator {
    var current: seq<Record>
    var nextURL: Option<Url>
    var previousURL: Option<Url>
    var totalCount: int
    var currentPage: int
    var initialized: bool
    var err: bool

    ghost function State(): Cursor
      reads this
    {
      Cursor(current, nextURL, previousURL, totalCount, currentPage, initialized, err)
    }

    constructor ()
      ensures State() == FRESH
    {
      current := [];
      nextURL, previousURL := None, None;
      totalCount, currentPage := -1, 0;
      initialized, err := false, false;
    }

    /** Copies one link field of the envelope. */
    static method ReadLink(envelope: Record, key: string, previous: Option<Url>) returns (link: Option<Url>)
      ensures link == Link(envelope, key, previous)
    {
      link := previous;
      if key in envelope {
        var v := envelope[key];
        if v.Str? && v.s != "" {
          link := Some(v.s);
        } else {
          link := None;
        }
      }
    }

    static method ConvertResults(items: seq<Value>) returns (records: Option<seq<Record>>)
      ensures records.Some? <==> AllObjects(items)
      ensures records.Some? ==> records.value == Records(items)
    {
      var converted: seq<Record> := [];
      for i := 0 to |items|
        invariant |converted| == i
        invariant forall k :: 0 <= k < i ==> items[k].Obj? && converted[k] == items[k].fields
      {
        if !items[i].Obj? {
          return None;
        }
        converted := converted + [items[i].fields];
      }
      assert converted == Records(items);
      records := Some(converted);
    }

    method ProcessPaginationEnvelope(envelope: Record) returns (ok: bool)
      modifies this
      ensures ok <==> Absorb(old(State()), Single(envelope)).Some?
      ensures State() == if ok then Absorb(old(State()), Single(envelope)).value else old(State())
    {
      if "results" in envelope && "count" in envelope {
        if !envelope["results"].Arr? {
          return false;
        }
        var records := ConvertResults(envelope["results"].items);
        if records.None? {
          return false;
        }
        current := records.value;
        var count := envelope["count"];
        if count.Flt? && count.kind.Float64? {
          totalCount := Truncate(count.r);
        } else if count.Num? && count.kind.Int? {
          totalCount := count.n;
        }
        nextURL := ReadLink(envelope, "next", nextURL);
        previousURL := ReadLink(envelope, "previous", previousURL);
        return true;
      }
      current := [envelope];
      nextURL, previousURL, totalCount := None, None, 1;
      ok := true;
    }

    method FetchPage(url: Option<Url>, server: Server) returns (ok: bool)
      modifies this
      ensures ok <==> Absorb(old(State()), server(url)).Some?
      ensures State() == if ok then Absorb(old(State()), server(url)).value else old(State())
    {
      var response := server(url);
      match response
      case Single(record) => ok := ProcessPaginationEnvelope(record);
      case Many(records) =>
        current, nextURL, previousURL, totalCount := records, None, None, |records|;
        ok := true;
      case _ => ok := false;
    }

    method Next(server: Server) returns (a: Answer)
      modifies this
      ensures (State(), a) == StepNext(old(State()), server)
    {
      if !initialized {
        var ok := FetchPage(None, server);
        initialized, err := true, !ok;
        return if ok then Page(current) else Error;
      }
      if nextURL.None? || nextURL.value == "" {
        return Page([]);
      }
      var ok := FetchPage(nextURL, server);
      err := !ok;
      if !ok {
        return Error;
      }
      currentPage := currentPage + 1;
      a := Page(current);
    }

    method Previous(server: Server) returns (a: Answer)
      modifies this
      ensures (State(), a) == StepPrevious(old(State()), server)
    {
      if !initialized {
        err := true;
        return Error;
      }
      if previousURL.None? || previousURL.value == "" {
        return Page([]);
      }
      var ok := FetchPage(previousURL, server);
      err := !ok;
      if !ok {
        return Error;
      }
      currentPage := currentPage - 1;
      a := Page(current);
    }

    method Reset(server: Server) returns (a: Answer)
      modifies this
      ensures (State(), a) == StepReset(old(State()), server)
    {
      initialized, err := false, false;
      current := [];
      nextURL, previousURL := None, None;
      currentPage, totalCount := 0, -1;
      a := Next(server);
    }

    /** Needs only that the links do run out; `bound` is a witness for that. */
    method All(server: Server, ghost bound: nat) returns (a: Answer)
      requires Drains(State(), server, bound)
      modifies this
      ensures (State(), a) == CollectAll(old(State()), server, bound)
    {
      var all: seq<Record> := [];
      ghost var n := bound;
      ghost var goal := CollectAll(State(), server, bound);
      if !initialized {
        DrainOne(all, State(), server, n);
        var first := Next(server);
        if first.Error? {
          return Error;
        }
        n := n - 1;
        all := all + first.records;
      } else {
        all := all + current;
        assert all == current;
      }
      while nextURL.Some? && nextURL.value != ""
        invariant initialized && Drains(State(), server, n)
        invariant goal == Prepend(all, Drain(State(), server, n))
        decreases n
      {
        DrainOne(all, State(), server, n);
        var more := Next(server);
        if more.Error? {
          return Error;
        }
        n := n - 1;
        all := all + more.records;
      }
      assert all + [] == all;
      a := Page(all);
    }
  }

  // ------------------------------------------------------------ laws for every server

  /** A step that fails after the first one changes nothing but the error flag. */
  lemma FailedStepKeepsCursor(c: Cursor, server: Server)
    requires c.started
    ensures StepNext(c, server).1.Error? ==> StepNext(c, server).0 == c.(failed := true)
    ensures StepPrevious(c, server).1.Error? ==> StepPrevious(c, server).0 == c.(failed := true)
  {
  }

  // ------------------------------------------------------------ what the answers mean

  /** A single record that is no envelope is the only page, and All returns it alone. */
  lemma PlainRecord(server: Server, r: Record)
    requires server(None) == Single(r) && ("results" !in r || "count" !in r)
    ensures StepNext(FRESH, server) == (Cursor([r], None, None, 1, 0, true, false), Page([r]))
    ensures Drains(FRESH, server, 1) && CollectAll(FRESH, server, 1).1 == Page([r])
  {
    assert [r] + [] == [r];
    assert [] + [r] == [r];
  }

  /** So is a bare list. */
  lemma BareList(server: Server, rs: seq<Record>)
    requires server(None) == Many(rs)
    ensures StepNext(FRESH, server) == (Cursor(rs, None, None, |rs|, 0, true, false), Page(rs))
  {
  }

  /** An envelope whose results are no list of objects is an error, and so is any other kind of answer. */
  lemma Refused(server: Server, c: Cursor)
    requires c.started && c.next.Some? && c.next.value != ""
    requires
      match server(c.next)
      case Single(r) =>
        "results" in r && "count" in r
        && (!r["results"].Arr? || exists i :: 0 <= i < |r["results"].items| && !r["results"].items[i].Obj?)
      case Many(_) => false
      case _ => true
    ensures StepNext(c, server) == (c.(failed := true), Error)
  {
  }

  /** What an envelope sets, field by field. */
  lemma EnvelopeSets(server: Server, c: Cursor, r: Record, rs: seq<Record>)
    requires c.started && c.next.Some? && c.next.value != "" && server(c.next) == Single(r)
    requires "results" in r && "count" in r && r["results"] == Arr(Objects(rs))
    ensures var d := StepNext(c, server).0;
            && d.current == rs && d.page == c.page + 1 && !d.failed
            && (d.next == if "next" !in r then c.next
                          else match r["next"] case Str(u) => (if u == "" then None else Some(u)) case _ => None)
            && (d.prev == if "previous" !in r then c.prev
                          else match r["previous"] case Str(u) => (if u == "" then None else Some(u)) case _ => None)
            && (d.total == match r["count"]
                           case Flt(Float64, x) => Truncate(x)
                           case Num(Int, n) => n
                           case _ => c.total)
  {
  }

  // ------------------------------------------------------------ when All ends

  /** A link that will be followed. */
  function Live(link: Option<Url>): Option<Url> {
    if link == Some("") then None else link
  }

  /** The link that the answer to u leads on to; None if the walk ends there, with or without an error. */
  function LinkAfter(server: Server, u: Url): Option<Url> {
    match Absorb(FRESH.(next := Some(u)), server(Some(u)))
    case None => None
    case Some(d) => Live(d.next)
  }

  /** The link with which the loop of All starts, which for a fresh cursor comes from the first answer. */
  function StartLink(c: Cursor, server: Server): Option<Url> {
    if c.started then Live(c.next)
    else
      match Absorb(c, server(None))
      case None => None
      case Some(d) => Live(d.next)
  }

  /** The n-th link on the way from a first one. */
  function LinkAt(server: Server, link: Option<Url>, n: nat): Option<Url>
    decreases n
  {
    if n == 0 || link.None? then link else LinkAt(server, LinkAfter(server, link.value), n - 1)
  }

  /** All ends within so many requests exactly when there is no link of that number. */
  lemma {:induction false} DrainsIffLinkGone(c: Cursor, server: Server, n: nat)
    requires c.started
    ensures Drains(c, server, n) <==> LinkAt(server, Live(c.next), n).None?
    decreases n
  {
    if HasNext(c) && n > 0 {
      FollowedLink(c, server);
      if StepNext(c, server).1.Page? {
        DrainsIffLinkGone(StepNext(c, server).0, server, n - 1);
      }
    }
  }

  /** Of the cursor only the link matters for where the next one leads. */
  lemma FollowedLink(c: Cursor, server: Server)
    requires c.started && HasNext(c)
    ensures var (d, a) := StepNext(c, server);
            && d.started
            && LinkAfter(server, c.next.value) == if a.Error? then None else Live(d.next)
  {
  }

  lemma DrainsFromStart(c: Cursor, server: Server, n: nat)
    ensures c.started ==> (Drains(c, server, n) <==> LinkAt(server, StartLink(c, server), n).None?)
    ensures !c.started ==> !Drains(c, server, 0)
    ensures !c.started ==> (Drains(c, server, n + 1) <==> LinkAt(server, StartLink(c, server), n).None?)
  {
    if c.started {
      DrainsIffLinkGone(c, server, n);
    } else if StepNext(c, server).1.Page? {
      DrainsIffLinkGone(StepNext(c, server).0, server, n);
    }
  }

  /** All ends, after some number of requests. */
  ghost predicate Ends(c: Cursor, server: Server) {
    exists n: nat :: Drains(c, server, n)
  }

  /** The way from the first link stops. */
  ghost predicate Stops(server: Server, link: Option<Url>) {
    exists n: nat :: LinkAt(server, link, n).None?
  }

  lemma EndsIffStops(c: Cursor, server: Server)
    ensures Ends(c, server) <==> Stops(server, StartLink(c, server))
  {
    if Ends(c, server) {
      var n: nat :| Drains(c, server, n);
      if c.started {
        DrainsFromStart(c, server, n);
      } else {
        DrainsFromStart(c, server, 0);
        DrainsFromStart(c, server, n - 1);
      }
    }
    if n: nat :| LinkAt(server, StartLink(c, server), n).None? {
      DrainsFromStart(c, server, n);
    }
  }

  /** Every link of l is answered without error and leads to a link of l. */
  ghost predicate Trap(server: Server, l: iset<Url>) {
    forall u {:trigger LinkAfter(server, u)} :: u in l ==> LinkAfter(server, u).Some? && LinkAfter(server, u).value in l
  }

  lemma {:induction false} TrapHolds(server: Server, l: iset<Url>, u: Url, n: nat)
    requires Trap(server, l) && u in l
    ensures LinkAt(server, Some(u), n).Some?
    decreases n
  {
    if n > 0 {
      TrapHolds(server, l, LinkAfter(server, u).value, n - 1);
    }
  }

  lemma {:induction false} LinkAtNext(server: Server, link: Option<Url>, n: nat)
    ensures LinkAt(server, link, n + 1)
         == if LinkAt(server, link, n).None? then None else LinkAfter(server, LinkAt(server, link, n).value)
    decreases n
  {
    if n > 0 && link.Some? {
      LinkAtNext(server, LinkAfter(server, link.value), n - 1);
    }
  }

  /** For every cursor and every server: All ends if and only if there is nothing to follow, or the link to follow
      lies in no trap. */
  lemma EndsIffNoTrap(c: Cursor, server: Server)
    ensures Ends(c, server) <==>
            StartLink(c, server).None? || !exists l: iset<Url> :: Trap(server, l) && StartLink(c, server).value in l
  {
    EndsIffStops(c, server);
    var link := StartLink(c, server);
    if Stops(server, link) {
      var n: nat :| LinkAt(server, link, n).None?;
      forall l: iset<Url> | Trap(server, l) && link.Some? ensures link.value !in l {
        if link.value in l {
          TrapHolds(server, l, link.value, n);
        }
      }
    } else {
      assert LinkAt(server, link, 0).Some?;
      var l := iset u: Url | exists n: nat :: LinkAt(server, link, n) == Some(u);
      assert link.value in l;
      forall u | u in l ensures LinkAfter(server, u).Some? && LinkAfter(server, u).value in l {
        var n: nat :| LinkAt(server, link, n) == Some(u);
        LinkAtNext(server, link, n);
        assert LinkAt(server, link, n + 1).Some?;
      }
      assert Trap(server, l);
    }
  }

  /** A link of the way comes back within the first n steps. */
  ghost predicate Repeats(server: Server, link: Option<Url>, n: nat) {
    exists i, j | 0 <= i < j <= n :: LinkAt(server, link, i).Some? && LinkAt(server, link, i) == LinkAt(server, link, j)
  }

  lemma {:induction false} LinkAtSum(server: Server, link: Option<Url>, m: nat, n: nat)
    ensures LinkAt(server, link, m + n) == LinkAt(server, LinkAt(server, link, m), n)
    decreases m
  {
    if m > 0 && link.Some? {
      LinkAtSum(server, LinkAfter(server, link.value), m - 1, n);
    } else if link.None? {
      assert LinkAt(server, link, n).None?;
    }
  }

  /** After a repetition the way never stops. */
  lemma {:induction false} RepeatGoesOn(server: Server, link: Option<Url>, i: nat, j: nat, n: nat)
    requires i < j && LinkAt(server, link, i).Some? && LinkAt(server, link, i) == LinkAt(server, link, j)
    ensures LinkAt(server, link, n).Some?
    decreases n
  {
    if n <= j {
      LinkAtSum(server, link, n, j - n);
    } else {
      LinkAtSum(server, link, j, n - j);
      LinkAtSum(server, link, i, n - j);
      RepeatGoesOn(server, link, i, j, i + (n - j));
    }
  }

  /** The links met in the first n steps. */
  function LinksMet(server: Server, link: Option<Url>, n: nat): set<Url> {
    if n == 0 then {}
    else LinksMet(server, link, n - 1) + (match LinkAt(server, link, n - 1) case None => {} case Some(u) => {u})
  }

  predicate MetAt(server: Server, link: Option<Url>, i: nat, u: Url) {
    LinkAt(server, link, i) == Some(u)
  }

  lemma {:induction false} MetMeans(server: Server, link: Option<Url>, n: nat, u: Url)
    ensures u in LinksMet(server, link, n) <==> exists i: nat :: i < n && MetAt(server, link, i, u)
  {
    if n > 0 {
      MetMeans(server, link, n - 1, u);
      assert MetAt(server, link, n - 1, u) ==> u in LinksMet(server, link, n);
    }
  }

  lemma NotMetBefore(server: Server, link: Option<Url>, n: nat, m: nat)
    requires !Repeats(server, link, m) && n <= m && LinkAt(server, link, n).Some?
    ensures LinkAt(server, link, n).value !in LinksMet(server, link, n)
  {
    MetMeans(server, link, n, LinkAt(server, link, n).value);
  }

  lemma {:induction false} MetCount(server: Server, link: Option<Url>, n: nat, m: nat)
    requires !Repeats(server, link, m) && n <= m && LinkAt(server, link, n).Some?
    ensures |LinksMet(server, link, n)| == n
  {
    if n > 0 {
      LinkAtNext(server, link, n - 1);
      MetCount(server, link, n - 1, m);
      NotMetBefore(server, link, n - 1, m);
    }
  }

  /** If the links the server can lead to from the first one are among finitely many, |links| steps decide: All ends
      if and only if no link repeats within them. */
  lemma EndsIffNoLinkRepeats(c: Cursor, server: Server, links: set<Url>)
    requires StartLink(c, server).Some? ==> StartLink(c, server).value in links
    requires forall u :: u in links && LinkAfter(server, u).Some? ==> LinkAfter(server, u).value in links
    ensures Ends(c, server) <==> !Repeats(server, StartLink(c, server), |links|)
  {
    EndsIffStops(c, server);
    var link, n := StartLink(c, server), |links|;
    if Repeats(server, link, n) {
      var i, j :| 0 <= i < j <= n && LinkAt(server, link, i).Some?
                  && LinkAt(server, link, i) == LinkAt(server, link, j);
      forall m: nat ensures LinkAt(server, link, m).Some? {
        RepeatGoesOn(server, link, i, j, m);
      }
    } else if LinkAt(server, link, n).Some? {
      MetCount(server, link, n, n);
      NotMetBefore(server, link, n, n);
      var all := LinksMet(server, link, n + 1);
      forall u | u in all ensures u in links {
        MetMeans(server, link, n + 1, u);
        var i: nat :| i < n + 1 && MetAt(server, link, i, u);
        StaysAmong(server, link, links, i);
      }
      SubsetSize(all, links);
    }
  }

  lemma {:induction false} StaysAmong(server: Server, link: Option<Url>, links: set<Url>, n: nat)
    requires link.Some? ==> link.value in links
    requires forall u :: u in links && LinkAfter(server, u).Some? ==> LinkAfter(server, u).value in links
    ensures LinkAt(server, link, n).Some? ==> LinkAt(server, link, n).value in links
    decreases n
  {
    if n > 0 && link.Some? {
      StaysAmong(server, LinkAfter(server, link.value), links, n - 1);
    }
  }

  /** An envelope without a `next` key keeps the old link: that link alone is a trap, and All never ends. */
  lemma MissingNextNeverEnds(c: Cursor, server: Server, r: Record)
    requires c.started && HasNext(c) && server(c.next) == Single(r)
    requires IsEnvelope(r) && r["results"].Arr? && AllObjects(r["results"].items) && "next" !in r
    ensures !Ends(c, server)
  {
    EndsIffNoTrap(c, server);
    assert Trap(server, iset{c.next.value});
  }

  // ------------------------------------------------------------ a consistent chain of pages

  function Objects(rs: seq<Record>): (items: seq<Value>)
    ensures AllObjects(items) && Records(items) == rs
  {
    seq(|rs|, i requires 0 <= i < |rs| => Obj(rs[i]))
  }

  /** pages[i] is served under urls[i]; page 0 also answers the first request. */
  datatype Chain = Chain(urls: seq<Url>, pages: seq<seq<Record>>, count: int)

  predicate ValidChain(k: Chain) {
    |k.urls| == |k.pages| >= 1 && forall i :: 0 <= i < |k.urls| ==> k.urls[i] != ""
  }

  function NextUrl(k: Chain, i: nat): Option<Url>
    requires ValidChain(k)
  {
    if i + 1 < |k.urls| then Some(k.urls[i + 1]) else None
  }

  function PrevUrl(k: Chain, i: nat): Option<Url>
    requires ValidChain(k) && i < |k.urls|
  {
    if i > 0 then Some(k.urls[i - 1]) else None
  }

  function LinkJson(u: Option<Url>): Value {
    match u case None => Null case Some(s) => Str(s)
  }

  function Envelope(k: Chain, i: nat): Record
    requires ValidChain(k) && i < |k.pages|
  {
    map["results" := Arr(Objects(k.pages[i])), "count" := Flt(Float64, k.count as real),
        "next" := LinkJson(NextUrl(k, i)), "previous" := LinkJson(PrevUrl(k, i))]
  }

  ghost predicate ServesChain(server: Server, k: Chain) {
    && ValidChain(k)
    && server(None) == Single(Envelope(k, 0))
    && forall i :: 0 <= i < |k.pages| ==> server(Some(k.urls[i])) == Single(Envelope(k, i))
  }

  /** The cursor stands on page i of the chain. */
  function OnPage(k: Chain, i: nat): Cursor
    requires ValidChain(k) && i < |k.pages|
  {
    Cursor(k.pages[i], NextUrl(k, i), PrevUrl(k, i), k.count, i, true, false)
  }

  lemma AbsorbEnvelope(k: Chain, i: nat, c: Cursor)
    requires ValidChain(k) && i < |k.pages|
    ensures Absorb(c, Single(Envelope(k, i)))
         == Some(c.(current := k.pages[i], next := NextUrl(k, i), prev := PrevUrl(k, i), total := k.count))
  {
    assert Truncate(k.count as real) == k.count;
  }

  lemma ChainNext(server: Server, k: Chain, i: nat, f: bool)
    requires ServesChain(server, k) && i + 1 < |k.pages|
    ensures StepNext(OnPage(k, i).(failed := f), server) == (OnPage(k, i + 1), Page(k.pages[i + 1]))
  {
    AbsorbEnvelope(k, i + 1, OnPage(k, i).(failed := f));
  }

  lemma ChainPrevious(server: Server, k: Chain, i: nat, f: bool)
    requires ServesChain(server, k) && 0 < i < |k.pages|
    ensures StepPrevious(OnPage(k, i).(failed := f), server) == (OnPage(k, i - 1), Page(k.pages[i - 1]))
  {
    AbsorbEnvelope(k, i - 1, OnPage(k, i).(failed := f));
  }

  lemma ChainStart(server: Server, k: Chain, f: bool)
    requires ServesChain(server, k)
    ensures StepNext(FRESH.(failed := f), server) == (OnPage(k, 0), Page(k.pages[0]))
  {
    AbsorbEnvelope(k, 0, FRESH.(failed := f));
  }

  /** Next, when there is a next page, and then Previous restore the whole cursor. */
  lemma NextThenPrevious(server: Server, k: Chain, i: nat)
    requires ServesChain(server, k) && i < |k.pages| && HasNext(OnPage(k, i))
    ensures StepPrevious(StepNext(OnPage(k, i), server).0, server) == (OnPage(k, i), Page(OnPage(k, i).current))
  {
    ChainNext(server, k, i, false);
    ChainPrevious(server, k, i + 1, false);
    assert OnPage(k, i).(failed := false) == OnPage(k, i);
    assert OnPage(k, i + 1).(failed := false) == OnPage(k, i + 1);
  }

  // ------------------------------------------------------------ any sequence of operations

  datatype Op = Next | Previous | Reset

  /** An operation together with whether the server is up while it runs. */
  datatype Event = Event(op: Op, up: bool)

  function Online(server: Server, up: bool): Server {
    if up then server else (u: Option<Url>) => Fault
  }

  function Perform(c: Cursor, e: Event, server: Server): Cursor {
    match e.op
    case Next => StepNext(c, Online(server, e.up)).0
    case Previous => StepPrevious(c, Online(server, e.up)).0
    case Reset => StepReset(c, Online(server, e.up)).0
  }

  function PerformAll(c: Cursor, events: seq<Event>, server: Server): Cursor
    decreases |events|
  {
    if events == [] then c else PerformAll(Perform(c, events[0], server), events[1..], server)
  }

  /** The reference: a position that walks to and fro between the two ends of the chain. Lost is where a
      failed first request leaves the iterator. */
  datatype Position = Unstarted | Lost | Standing(i: nat)

  function Walk(p: Position, e: Event, n: nat): Position {
    match e.op
    case Reset => if e.up then Standing(0) else Lost
    case Next =>
      (match p
       case Unstarted => if e.up then Standing(0) else Lost
       case Lost => Lost
       case Standing(i) => if e.up && i + 1 < n then Standing(i + 1) else p)
    case Previous =>
      (match p
       case Standing(i) => if e.up && i > 0 then Standing(i - 1) else p
       case _ => p)
  }

  function WalkAll(p: Position, events: seq<Event>, n: nat): Position
    decreases |events|
  {
    if events == [] then p else WalkAll(Walk(p, events[0], n), events[1..], n)
  }

  /** The cursor is where the walker says, up to the error flag. */
  predicate Stands(c: Cursor, p: Position, k: Chain)
    requires ValidChain(k)
  {
    match p
    case Unstarted => c == FRESH.(failed := c.failed)
    case Lost => c == FRESH.(started := true, failed := true)
    case Standing(i) => i < |k.pages| && c == OnPage(k, i).(failed := c.failed)
  }

  /** While the server is down a step changes at most the flags. */
  lemma DownKeeps(c: Cursor, server: Server)
    ensures StepNext(c, Online(server, false)).0
         == c.(started := true, failed := if HasNext(c) then true else c.failed)
    ensures StepPrevious(c, Online(server, false)).0
         == c.(failed := if !c.started || HasPrevious(c) then true else c.failed)
  {
  }

  lemma StandsNext(c: Cursor, p: Position, up: bool, server: Server, k: Chain)
    requires ServesChain(server, k) && Stands(c, p, k)
    ensures Stands(StepNext(c, Online(server, up)).0, Walk(p, Event(Next, up), |k.pages|), k)
  {
    if !up {
      DownKeeps(c, server);
    } else if p.Unstarted? {
      ChainStart(server, k, c.failed);
    } else if p.Standing? && p.i + 1 < |k.pages| {
      ChainNext(server, k, p.i, c.failed);
    } else {
      assert !HasNext(c);
    }
  }

  lemma StandsPrevious(c: Cursor, p: Position, up: bool, server: Server, k: Chain)
    requires ServesChain(server, k) && Stands(c, p, k)
    ensures Stands(StepPrevious(c, Online(server, up)).0, Walk(p, Event(Previous, up), |k.pages|), k)
  {
    if !up {
      DownKeeps(c, server);
    } else if p.Standing? && p.i > 0 {
      ChainPrevious(server, k, p.i, c.failed);
    } else {
      assert !HasPrevious(c);
    }
  }

  lemma StandsStep(c: Cursor, p: Position, e: Event, server: Server, k: Chain)
    requires ServesChain(server, k) && Stands(c, p, k)
    ensures Stands(Perform(c, e, server), Walk(p, e, |k.pages|), k)
  {
    match e.op
    case Next => StandsNext(c, p, e.up, server, k);
    case Previous => StandsPrevious(c, p, e.up, server, k);
    case Reset => StandsNext(FRESH, Unstarted, e.up, server, k);
  }

  /** Over any sequence of Next, Previous and Reset, with the server failing whenever it likes, the whole
      cursor (records, links, count and currentPage) is the one of the walker's position. */
  lemma {:induction false} CursorFollowsWalk(c: Cursor, p: Position, events: seq<Event>, server: Server, k: Chain)
    requires ServesChain(server, k) && Stands(c, p, k)
    ensures Stands(PerformAll(c, events, server), WalkAll(p, events, |k.pages|), k)
    decreases |events|
  {
    if events != [] {
      StandsStep(c, p, events[0], server, k);
      CursorFollowsWalk(Perform(c, events[0], server), Walk(p, events[0], |k.pages|), events[1..], server, k);
    }
  }

  /** A failed first request is not retried: from then on Next and All answer with an empty page and no error,
      until Reset. */
  lemma LostLooksExhausted(server: Server, later: Server)
    requires Absorb(FRESH, server(None)).None?
    ensures var c := StepNext(FRESH, server).0;
            && StepNext(FRESH, server).1.Error?
            && StepNext(c, later) == (c, Page([]))
            && Drains(c, later, 0) && CollectAll(c, later, 0) == (c, Page([]))
  {
    var c := StepNext(FRESH, server).0;
    assert c.current == [] && Drain(c, later, 0) == (c, Page([]));
    assert c.current + [] == c.current;
  }

  // ------------------------------------------------------------ All on a chain

  function Concat(pages: seq<seq<Record>>): seq<Record> {
    if pages == [] then [] else pages[0] + Concat(pages[1..])
  }

  /** The cursor stands on page i, whatever its error flag. */
  predicate OnPageUpToFlag(c: Cursor, k: Chain, i: nat)
    requires ValidChain(k) && i < |k.pages|
  {
    c == OnPage(k, i).(failed := c.failed)
  }

  /** From page i on, the loop of All appends pages i+1 to the end and stops. */
  lemma {:induction false} DrainChain(server: Server, k: Chain, i: nat, c: Cursor, n: nat)
    requires ServesChain(server, k) && i < |k.pages| && OnPageUpToFlag(c, k, i) && n == |k.pages| - 1 - i
    ensures Drains(c, server, n) && Drain(c, server, n).1 == Page(Concat(k.pages[i + 1..]))
    decreases n
  {
    if n > 0 {
      ChainNext(server, k, i, c.failed);
      DrainChain(server, k, i + 1, OnPage(k, i + 1), n - 1);
      assert k.pages[i + 1..][1..] == k.pages[i + 2..];
    } else {
      assert k.pages[i + 1..] == [];
    }
  }

  /** All terminates on a finite chain: a fresh iterator returns every page. */
  lemma AllFromTheStart(server: Server, k: Chain, n: nat)
    requires ServesChain(server, k) && n == |k.pages|
    ensures Drains(FRESH, server, n) && CollectAll(FRESH, server, n).1 == Page(Concat(k.pages))
  {
    ChainStart(server, k, false);
    DrainChain(server, k, 0, OnPage(k, 0), n - 1);
    assert FRESH.(failed := false) == FRESH;
    assert [] + (k.pages[0] + Concat(k.pages[1..])) == Concat(k.pages);
  }

  /** An iterator that stands on page i returns the pages from i to the end. */
  lemma AllFromPage(server: Server, k: Chain, i: nat, n: nat)
    requires ServesChain(server, k) && i < |k.pages| && n == |k.pages| - 1 - i
    ensures Drains(OnPage(k, i), server, n) && CollectAll(OnPage(k, i), server, n).1 == Page(Concat(k.pages[i..]))
  {
    DrainChain(server, k, i, OnPage(k, i), n);
    assert k.pages[i..][1..] == k.pages[i + 1..];
  }
}
