/** The per-key mutex of core/key_locker.go as a step system over any number of goroutines.

    The source takes the steps LoadOrStore, add 1, lock, unlock, subtract 1 and Delete one by one; each of
    them is atomic (sync.Map, sync/atomic, sync.Mutex). The same steps are also modelled with the first two
    and the last two fused, to show what the separation costs. */
module KeyLocker {
  import opened Basics
  import opened Texts

  const SEP := ':'

  /** refLock: the counter and the mutex; `owner` is the goroutine that holds mu. `key` is a history variable:
      the key the object was stored under. */
  datatype RefLock = RefLock(ref: int, owner: Option<nat>, key: string)

  datatype Phase =
    | Start
    | Loaded(obj: nat)        // after LoadOrStore
    | Counted(obj: nat)       // after the increment, waiting for mu
    | Holding(obj: nat)       // Lock has returned
    | Unlocked(obj: nat)      // the closure has released mu
    | Deleting(obj: nat)      // the decrement gave 0, Delete still to come
    | Finished

  datatype Task = Task(key: string, phase: Phase)

  datatype State = State(objs: seq<RefLock>, locks: map<string, nat>, tasks: seq<Task>)

  /** One goroutine per call of Lock, each still to come; keys[t] is the key of call t. */
  function Initial(keys: seq<string>): State {
    State([], map[], seq(|keys|, i requires 0 <= i < |keys| => Task(keys[i], Start)))
  }

  /** Goroutine t can take its next step; only the mutex makes anybody wait. */
  predicate Enabled(s: State, t: nat) {
    t < |s.tasks| && CanAct(s.objs, s.tasks[t].phase)
  }

  predicate CanAct(objs: seq<RefLock>, p: Phase) {
    InRange(objs, p) && !p.Finished? && (p.Counted? ==> objs[p.obj].owner.None?)
  }

  predicate InRange(objs: seq<RefLock>, p: Phase) {
    match p
    case Start => true
    case Finished => true
    case _ => p.obj < |objs|
  }

  /** What a step changes: the objects, the map and the phase of the goroutine that takes it. */
  datatype Local = Local(objs: seq<RefLock>, locks: map<string, nat>, phase: Phase)

  function LoadOrStore(objs: seq<RefLock>, locks: map<string, nat>, k: string): Local {
    if k in locks then Local(objs, locks, Loaded(locks[k]))
    else Local(objs + [RefLock(0, None, k)], locks[k := |objs|], Loaded(|objs|))
  }

  function AddRef(objs: seq<RefLock>, o: nat, delta: int): seq<RefLock>
    requires o < |objs|
  {
    objs[o := objs[o].(ref := objs[o].ref + delta)]
  }

  function SetOwner(objs: seq<RefLock>, o: nat, owner: Option<nat>): seq<RefLock>
    requires o < |objs|
  {
    objs[o := objs[o].(owner := owner)]
  }

  /** The steps as written in the source, taken by goroutine t in phase p. */
  function Act(objs: seq<RefLock>, locks: map<string, nat>, k: string, p: Phase, t: nat): Local
    requires InRange(objs, p) && !p.Finished?
  {
    match p
    case Start => LoadOrStore(objs, locks, k)
    case Loaded(o) => Local(AddRef(objs, o, 1), locks, Counted(o))
    case Counted(o) => Local(SetOwner(objs, o, Some(t)), locks, Holding(o))
    case Holding(o) => Local(SetOwner(objs, o, None), locks, Unlocked(o))
    case Unlocked(o) =>
      Local(AddRef(objs, o, -1), locks, if objs[o].ref - 1 == 0 then Deleting(o) else Finished)
    case Deleting(o) => Local(objs, locks - {k}, Finished)
  }

  function Do(s: State, t: nat): State
    requires Enabled(s, t)
  {
    var x := s.tasks[t];
    var a := Act(s.objs, s.locks, x.key, x.phase, t);
    State(a.objs, a.locks, s.tasks[t := Task(x.key, a.phase)])
  }

  /** The same system with load+increment in one step and decrement+delete in one step. */
  function DoFused(s: State, t: nat): State
    requires Enabled(s, t)
  {
    var s1 := Do(s, t);
    if Halfway(s1, t) then Do(s1, t) else s1
  }

  predicate Halfway(s: State, t: nat) {
    Enabled(s, t) && (s.tasks[t].phase.Loaded? || s.tasks[t].phase.Deleting?)
  }

  function Next(fused: bool, s: State, t: nat): State
    requires Enabled(s, t)
  {
    if fused then DoFused(s, t) else Do(s, t)
  }

  predicate Legal(fused: bool, s: State, sched: seq<nat>)
    decreases |sched|
  {
    sched == [] || (Enabled(s, sched[0]) && Legal(fused, Next(fused, s, sched[0]), sched[1..]))
  }

  function After(fused: bool, s: State, sched: seq<nat>): State
    requires Legal(fused, s, sched)
    decreases |sched|
  {
    if sched == [] then s else After(fused, Next(fused, s, sched[0]), sched[1..])
  }

  ghost predicate Reachable(fused: bool, keys: seq<string>, s: State) {
    exists sched :: Legal(fused, Initial(keys), sched) && After(fused, Initial(keys), sched) == s
  }

  // ------------------------------------------------------------ per-object facts, both granularities

  predicate CountsOn(p: Phase, o: nat) {
    (p.Counted? || p.Holding? || p.Unlocked?) && p.obj == o
  }

  /** How many goroutines are between the increment and the decrement of o. */
  function Users(tasks: seq<Task>, o: nat): nat {
    if tasks == [] then 0
    else (if CountsOn(tasks[0].phase, o) then 1 else 0) + Users(tasks[1..], o)
  }

  lemma {:induction false} UsersUpdate(tasks: seq<Task>, t: nat, x: Task, o: nat)
    requires t < |tasks|
    ensures Users(tasks[t := x], o) == Users(tasks, o)
      - (if CountsOn(tasks[t].phase, o) then 1 else 0) + (if CountsOn(x.phase, o) then 1 else 0)
  {
    if t == 0 {
      assert tasks[t := x][1..] == tasks[1..];
    } else {
      assert tasks[t := x][1..] == tasks[1..][t - 1 := x];
      UsersUpdate(tasks[1..], t - 1, x, o);
    }
  }

  lemma {:induction false} UsersWitness(tasks: seq<Task>, o: nat) returns (i: nat)
    requires Users(tasks, o) > 0
    ensures i < |tasks| && CountsOn(tasks[i].phase, o)
  {
    if CountsOn(tasks[0].phase, o) {
      i := 0;
    } else {
      i := UsersWitness(tasks[1..], o);
      i := i + 1;
    }
  }

  lemma {:induction false} UsersPositive(tasks: seq<Task>, o: nat, i: nat)
    requires i < |tasks| && CountsOn(tasks[i].phase, o)
    ensures Users(tasks, o) > 0
  {
    if i > 0 {
      UsersPositive(tasks[1..], o, i - 1);
    }
  }

  /** Which object a goroutine may still count, lock, unlock, discount or delete. */
  predicate RefersTo(p: Phase, o: nat) {
    !p.Start? && !p.Finished? && p.obj == o
  }

  /** The counter of every lock object is the number of goroutines between its increment and decrement; its
      mutex is held exactly by the goroutine whose Lock has returned; and an object serves one key only. */
  predicate Objects(s: State) {
    && (forall t :: 0 <= t < |s.tasks| ==> InRange(s.objs, s.tasks[t].phase))
    && (forall k :: k in s.locks ==> s.locks[k] < |s.objs|)
    && (forall o :: 0 <= o < |s.objs| ==> s.objs[o].ref == Users(s.tasks, o))
    && OwnersAgree(s)
  }

  predicate OwnersAgree(s: State) {
    && (forall o :: 0 <= o < |s.objs| && s.objs[o].owner.Some? ==>
          s.objs[o].owner.value < |s.tasks| && s.tasks[s.objs[o].owner.value].phase == Holding(o))
    && (forall t :: 0 <= t < |s.tasks| && s.tasks[t].phase.Holding? ==>
          s.tasks[t].phase.obj < |s.objs| && s.objs[s.tasks[t].phase.obj].owner == Some(t))
  }

  predicate OneKeyEach(s: State) {
    && (forall t :: 0 <= t < |s.tasks| && !PhaseFree(s.tasks[t].phase) ==>
          s.tasks[t].phase.obj < |s.objs| && s.objs[s.tasks[t].phase.obj].key == s.tasks[t].key)
    && (forall k :: k in s.locks ==> s.locks[k] < |s.objs| && s.objs[s.locks[k]].key == k)
  }

  lemma ObjectsLoad(s: State, t: nat)
    requires Objects(s) && Enabled(s, t) && s.tasks[t].phase.Start?
    ensures Objects(Do(s, t))
  {
    var s' := Do(s, t);
    forall o: nat ensures Users(s'.tasks, o) == Users(s.tasks, o) {
      UsersUpdate(s.tasks, t, s'.tasks[t], o);
    }
    if Users(s.tasks, |s.objs|) > 0 {
      var w := UsersWitness(s.tasks, |s.objs|);
      assert false;
    }
  }

  /** A step of a goroutine that already has its object touches that object only. */
  lemma ObjectsTouch(s: State, t: nat)
    requires Objects(s) && Enabled(s, t) && !s.tasks[t].phase.Start?
    ensures Objects(Do(s, t))
  {
    var s' := Do(s, t);
    CountersTouch(s, t);
    OwnersTouch(s, t);
    forall u | 0 <= u < |s'.tasks| ensures InRange(s'.objs, s'.tasks[u].phase) {
      if u != t {
        assert s'.tasks[u] == s.tasks[u];
      }
    }
  }

  lemma CountersTouch(s: State, t: nat)
    requires Objects(s) && Enabled(s, t) && !s.tasks[t].phase.Start?
    ensures var s' := Do(s, t);
            |s'.objs| == |s.objs| && forall o :: 0 <= o < |s.objs| ==> s'.objs[o].ref == Users(s'.tasks, o)
  {
    var s' := Do(s, t);
    forall o: nat | o < |s.objs| ensures s'.objs[o].ref == Users(s'.tasks, o) {
      UsersUpdate(s.tasks, t, s'.tasks[t], o);
      assert s.objs[o].ref == Users(s.tasks, o);
    }
  }

  lemma OwnersTouch(s: State, t: nat)
    requires Objects(s) && Enabled(s, t) && !s.tasks[t].phase.Start?
    ensures OwnersAgree(Do(s, t))
  {
    var s', p := Do(s, t), s.tasks[t].phase;
    forall o: nat | o < |s'.objs| && s'.objs[o].owner.Some?
      ensures s'.objs[o].owner.value < |s'.tasks| && s'.tasks[s'.objs[o].owner.value].phase == Holding(o)
    {
      if o != p.obj {
        assert s'.objs[o] == s.objs[o];
      }
    }
    forall u | 0 <= u < |s'.tasks| && s'.tasks[u].phase.Holding?
      ensures s'.tasks[u].phase.obj < |s'.objs| && s'.objs[s'.tasks[u].phase.obj].owner == Some(u)
    {
      if u != t {
        assert s.objs[s.tasks[u].phase.obj].owner == Some(u);
      }
    }
  }

  lemma ObjectsStep(s: State, t: nat)
    requires Objects(s) && Enabled(s, t)
    ensures Objects(Do(s, t))
  {
    if s.tasks[t].phase.Start? {
      ObjectsLoad(s, t);
    } else {
      ObjectsTouch(s, t);
    }
  }

  predicate PhaseFree(p: Phase) {
    p.Start? || p.Finished?
  }

  lemma OneKeyEachStep(s: State, t: nat)
    requires OneKeyEach(s) && Enabled(s, t)
    ensures OneKeyEach(Do(s, t))
  {
    var s' := Do(s, t);
    KeysKept(s, t);
    forall u | 0 <= u < |s'.tasks| && !PhaseFree(s'.tasks[u].phase)
      ensures s'.tasks[u].phase.obj < |s'.objs| && s'.objs[s'.tasks[u].phase.obj].key == s'.tasks[u].key
    {
      if u != t {
        assert s'.tasks[u] == s.tasks[u];
      }
    }
  }

  /** A step changes the key of no object, and leaves its own goroutine with an object of its own key. */
  lemma KeysKept(s: State, t: nat)
    requires OneKeyEach(s) && Enabled(s, t)
    ensures var s' := Do(s, t);
            && |s.objs| <= |s'.objs|
            && (forall o :: 0 <= o < |s.objs| ==> s'.objs[o].key == s.objs[o].key)
            && (forall k :: k in s'.locks ==> s'.locks[k] < |s'.objs| && s'.objs[s'.locks[k]].key == k)
            && var x := s'.tasks[t];
            (!PhaseFree(x.phase) ==> x.phase.obj < |s'.objs| && s'.objs[x.phase.obj].key == x.key)
  {
  }

  // ------------------------------------------------------------ the map empties

  /** Somebody of this key is still bound to delete its entry. */
  predicate WillDelete(x: Task, k: string, o: nat) {
    x.key == k && (x.phase.Deleting? || RefersTo(x.phase, o))
  }

  predicate Owed(s: State) {
    forall k :: k in s.locks ==> exists t :: 0 <= t < |s.tasks| && WillDelete(s.tasks[t], k, s.locks[k])
  }

  /** What a step of t does to t and to the map. */
  predicate Effect(s: State, s': State, t: nat) {
    && t < |s.tasks| == |s'.tasks|
    && var x, y := s.tasks[t], s'.tasks[t];
    && s'.tasks == s.tasks[t := y] && y.key == x.key && !y.phase.Start?
    && (WantsKey(y, y.key) ==> x.phase.Start? || WantsKey(x, x.key))
    && (x.phase.Start? ==> (y.phase.Loaded? && x.key in s'.locks && s'.locks == s.locks[x.key := y.phase.obj]
                            && (x.key in s.locks ==> s.locks[x.key] == y.phase.obj)))
    && (x.phase.Deleting? ==> s'.locks == s.locks - {x.key})
    && (!x.phase.Start? && !x.phase.Deleting? ==>
          s'.locks == s.locks && (y.phase.Finished? || SameObject(x.phase, y.phase)))
  }

  predicate SameObject(p: Phase, q: Phase) {
    !PhaseFree(p) && RefersTo(q, p.obj)
  }

  lemma StepEffect(s: State, t: nat)
    requires Enabled(s, t)
    ensures Effect(s, Do(s, t), t)
  {
  }

  lemma OwedStep(s: State, t: nat)
    requires Objects(s) && OneKeyEach(s) && Owed(s) && Enabled(s, t)
    ensures Owed(Do(s, t))
  {
    StepEffect(s, t);
    if s.tasks[t].phase.Unlocked? && Do(s, t).tasks[t].phase.Finished? {
      var w := LastUserLeaves(s, t, s.tasks[t].phase.obj);
      assert Shares(s, t, w);
    }
    OwedEffect(s, Do(s, t), t);
  }

  /** w has the key and the object of t. */
  predicate Shares(s: State, t: nat, w: nat)
    requires t < |s.tasks| && w < |s.tasks| && s.tasks[t].phase.Unlocked?
  {
    s.tasks[w].key == s.tasks[t].key && RefersTo(s.tasks[w].phase, s.tasks[t].phase.obj)
  }

  lemma OwedEffect(s: State, s': State, t: nat)
    requires OneKeyEach(s) && Owed(s) && Effect(s, s', t)
    requires s'.tasks[t].phase.Finished? && !s.tasks[t].phase.Deleting? ==>
               s.tasks[t].phase.Unlocked? && exists w :: 0 <= w < |s.tasks| && w != t && Shares(s, t, w)
    ensures Owed(s')
  {
    forall k | k in s'.locks
      ensures exists u :: 0 <= u < |s'.tasks| && WillDelete(s'.tasks[u], k, s'.locks[k])
    {
      if k in s.locks {
        var u :| 0 <= u < |s.tasks| && WillDelete(s.tasks[u], k, s.locks[k]);
        if u == t && s'.tasks[t].phase.Finished? {
          var w :| 0 <= w < |s.tasks| && w != t && Shares(s, t, w);
          assert WillDelete(s'.tasks[w], k, s'.locks[k]);
        } else {
          assert WillDelete(s'.tasks[u], k, s'.locks[k]);
        }
      } else {
        assert WillDelete(s'.tasks[t], k, s'.locks[k]);
      }
    }
  }

  /** A closure that finishes without deleting leaves another user of its object behind. */
  lemma LastUserLeaves(s: State, t: nat, o: nat) returns (w: nat)
    requires Objects(s) && OneKeyEach(s) && Enabled(s, t)
    requires s.tasks[t].phase == Unlocked(o) && Do(s, t).tasks[t].phase.Finished?
    ensures w < |s.tasks| && w != t && Do(s, t).tasks[w] == s.tasks[w]
    ensures s.tasks[w].key == s.tasks[t].key && RefersTo(s.tasks[w].phase, o)
  {
    var s' := Do(s, t);
    ObjectsTouch(s, t);
    UsersPositive(s.tasks, o, t);
    assert s'.objs[o].ref == Users(s'.tasks, o) != 0;
    w := UsersWitness(s'.tasks, o);
  }

  predicate Fine(s: State) {
    Objects(s) && OneKeyEach(s) && Owed(s)
  }

  lemma {:induction false} FineAfter(s: State, sched: seq<nat>)
    requires Fine(s) && Legal(false, s, sched)
    ensures Fine(After(false, s, sched))
    decreases |sched|
  {
    if sched != [] {
      ObjectsStep(s, sched[0]);
      OneKeyEachStep(s, sched[0]);
      OwedStep(s, sched[0]);
      FineAfter(Do(s, sched[0]), sched[1..]);
    }
  }

  lemma InitialFine(keys: seq<string>)
    ensures Fine(Initial(keys)) && KeysAre(Initial(keys), keys)
  {
  }

  /** With every step separate: each lock object has at most one holder, its counter is the number of its
      users, and when every closure has finished the map is empty. */
  lemma SeparateSteps(keys: seq<string>, s: State)
    requires Reachable(false, keys, s)
    ensures forall t, u | 0 <= t < |s.tasks| && 0 <= u < |s.tasks| && s.tasks[t].phase.Holding?
                          && s.tasks[u].phase == s.tasks[t].phase :: t == u
    ensures forall o :: 0 <= o < |s.objs| ==> s.objs[o].ref == Users(s.tasks, o)
    ensures (forall t :: 0 <= t < |s.tasks| ==> s.tasks[t].phase.Finished?) ==> s.locks == map[]
  {
    var sched :| Legal(false, Initial(keys), sched) && After(false, Initial(keys), sched) == s;
    InitialFine(keys);
    FineAfter(Initial(keys), sched);
    if forall t :: 0 <= t < |s.tasks| ==> s.tasks[t].phase.Finished? {
      assert forall k :: k !in s.locks;
    }
  }

  // ------------------------------------------------------------ per-key exclusion

  predicate Exclusive(s: State) {
    forall t, u | 0 <= t < |s.tasks| && 0 <= u < |s.tasks| && s.tasks[t].phase.Holding? && s.tasks[u].phase.Holding?
                  && s.tasks[t].key == s.tasks[u].key :: t == u
  }

  predicate WantsKey(x: Task, k: string) {
    x.key == k && (x.phase.Loaded? || x.phase.Counted? || x.phase.Holding?)
  }

  /** Two calls of one key that both may hold it use the same object, and while one of them does, the other
      finds that object in the map if it has yet to load. */
  predicate Agree(s: State, t: nat, u: nat)
    requires t < |s.tasks| && u < |s.tasks|
  {
    var x, y := s.tasks[t], s.tasks[u];
    WantsKey(x, x.key) ==>
      && (WantsKey(y, x.key) ==> y.phase.obj == x.phase.obj)
      && (y == Task(x.key, Start) ==> x.key in s.locks && s.locks[x.key] == x.phase.obj)
  }

  predicate PairsAgree(s: State) {
    forall t, u | 0 <= t < |s.tasks| && 0 <= u < |s.tasks| && t != u :: Agree(s, t, u)
  }

  /** Three different calls use the same key. */
  predicate ThreeOfAKey(keys: seq<string>) {
    exists t, u, w :: 0 <= t < |keys| && 0 <= u < |keys| && 0 <= w < |keys| && t != u && u != w && t != w
                      && keys[t] == keys[u] == keys[w]
  }

  predicate KeysAre(s: State, keys: seq<string>) {
    |s.tasks| == |keys| && forall t :: 0 <= t < |keys| ==> s.tasks[t].key == keys[t]
  }

  lemma PairsAgreeEffect(s: State, s': State, keys: seq<string>, v: nat)
    requires KeysAre(s, keys) && !ThreeOfAKey(keys) && PairsAgree(s) && Effect(s, s', v)
    ensures PairsAgree(s')
  {
    forall t, u | 0 <= t < |s'.tasks| && 0 <= u < |s'.tasks| && t != u
      ensures Agree(s', t, u)
    {
      assert Agree(s, t, u) && Agree(s, u, t);
      if v != t && v != u && s.tasks[t].key == s.tasks[u].key {
        assert keys[t] == keys[u] != keys[v];
      }
    }
  }

  lemma AgreeExcludes(s: State)
    requires Objects(s) && PairsAgree(s)
    ensures Exclusive(s)
  {
    forall t, u | 0 <= t < |s.tasks| && 0 <= u < |s.tasks| && t != u
                  && s.tasks[t].phase.Holding? && s.tasks[u].phase.Holding?
      ensures s.tasks[t].key != s.tasks[u].key
    {
      assert Agree(s, t, u);
    }
  }

  lemma {:induction false} PairsAgreeAfter(s: State, keys: seq<string>, sched: seq<nat>)
    requires Objects(s) && KeysAre(s, keys) && !ThreeOfAKey(keys) && PairsAgree(s) && Legal(false, s, sched)
    ensures Exclusive(After(false, s, sched))
    decreases |sched|
  {
    if sched == [] {
      AgreeExcludes(s);
    } else {
      ObjectsStep(s, sched[0]);
      StepEffect(s, sched[0]);
      PairsAgreeEffect(s, Do(s, sched[0]), keys, sched[0]);
      PairsAgreeAfter(Do(s, sched[0]), keys, sched[1..]);
    }
  }

  /** A state of the breaking schedule: only t, u and w, all of one key, have moved. */
  datatype Frame = Frame(objs: seq<RefLock>, locks: map<string, nat>, p: Phase, q: Phase, r: Phase)

  function StateOf(keys: seq<string>, t: nat, u: nat, w: nat, f: Frame): State
    requires t < |keys| && u < |keys| && w < |keys|
  {
    var tasks := Initial(keys).tasks;
    State(f.objs, f.locks, tasks[t := Task(keys[t], f.p)][u := Task(keys[u], f.q)][w := Task(keys[w], f.r)])
  }

  lemma Chain(s: State, t: nat, s': State, sched: seq<nat>, rest: seq<nat>)
    requires Enabled(s, t) && Do(s, t) == s' && Legal(false, s', rest) && sched == [t] + rest
    ensures Legal(false, s, sched) && After(false, s, sched) == After(false, s', rest)
  {
    assert sched[1..] == rest;
  }

  /** The n-th state: t locks, unlocks and counts down to 0; u loads; t deletes; u locks; w makes a new object
      and locks it. */
  function FrameAt(k: string, t: nat, u: nat, w: nat, n: nat): Frame {
    var free, one, m := RefLock(0, None, k), RefLock(1, None, k), map[k := 0];
    match n
    case 0 => Frame([], map[], Start, Start, Start)
    case 1 => Frame([free], m, Loaded(0), Start, Start)
    case 2 => Frame([one], m, Counted(0), Start, Start)
    case 3 => Frame([RefLock(1, Some(t), k)], m, Holding(0), Start, Start)
    case 4 => Frame([one], m, Unlocked(0), Start, Start)
    case 5 => Frame([free], m, Deleting(0), Start, Start)
    case 6 => Frame([free], m, Deleting(0), Loaded(0), Start)
    case 7 => Frame([free], map[], Finished, Loaded(0), Start)
    case 8 => Frame([one], map[], Finished, Counted(0), Start)
    case 9 => Frame([RefLock(1, Some(u), k)], map[], Finished, Holding(0), Start)
    case 10 => Frame([RefLock(1, Some(u), k), free], map[k := 1], Finished, Holding(0), Loaded(1))
    case 11 => Frame([RefLock(1, Some(u), k), one], map[k := 1], Finished, Holding(0), Counted(1))
    case _ => Frame([RefLock(1, Some(u), k), RefLock(1, Some(w), k)], map[k := 1], Finished, Holding(0), Holding(1))
  }

  datatype Role = T | U | W

  function RoleAt(n: nat): Role {
    if n < 5 || n == 6 then T else if n < 9 then U else W
  }

  function Mover(t: nat, u: nat, w: nat, n: nat): nat {
    match RoleAt(n) case T => t case U => u case W => w
  }

  function PhaseOf(f: Frame, i: Role): Phase {
    match i case T => f.p case U => f.q case W => f.r
  }

  /** The objects, the map and the phase after the step of role i, as a frame. */
  function Moved(f: Frame, i: Role, a: Local): Frame {
    match i
    case T => Frame(a.objs, a.locks, a.phase, f.q, f.r)
    case U => Frame(a.objs, a.locks, f.p, a.phase, f.r)
    case W => Frame(a.objs, a.locks, f.p, f.q, a.phase)
  }

  lemma FrameStep(k: string, t: nat, u: nat, w: nat, n: nat)
    requires n < 12
    ensures var f, i := FrameAt(k, t, u, w, n), RoleAt(n);
            && CanAct(f.objs, PhaseOf(f, i))
            && Moved(f, i, Act(f.objs, f.locks, k, PhaseOf(f, i), Mover(t, u, w, n))) == FrameAt(k, t, u, w, n + 1)
  {
  }

  lemma SequenceMoves(ts: seq<Task>, t: nat, u: nat, w: nat, a: Task, b: Task, c: Task, x: Task)
    requires t < |ts| && u < |ts| && w < |ts| && t != u && u != w && t != w
    ensures var us := ts[t := a][u := b][w := c];
            && us[t] == a && us[u] == b && us[w] == c
            && us[t := x] == ts[t := x][u := b][w := c]
            && us[u := x] == ts[t := a][u := x][w := c]
            && us[w := x] == ts[t := a][u := b][w := x]
  {
  }

  lemma StateMoves(keys: seq<string>, t: nat, u: nat, w: nat, f: Frame, n: nat)
    requires t < |keys| && u < |keys| && w < |keys| && t != u && u != w && t != w && keys[t] == keys[u] == keys[w]
    requires CanAct(f.objs, PhaseOf(f, RoleAt(n)))
    ensures var s, m, i := StateOf(keys, t, u, w, f), Mover(t, u, w, n), RoleAt(n);
            && Enabled(s, m)
            && Do(s, m) == StateOf(keys, t, u, w, Moved(f, i, Act(f.objs, f.locks, keys[t], PhaseOf(f, i), m)))
  {
    var i, m, k := RoleAt(n), Mover(t, u, w, n), keys[t];
    var a := Act(f.objs, f.locks, k, PhaseOf(f, i), m);
    SequenceMoves(Initial(keys).tasks, t, u, w, Task(k, f.p), Task(k, f.q), Task(k, f.r), Task(k, a.phase));
  }

  function Snap(keys: seq<string>, t: nat, u: nat, w: nat, n: nat): State
    requires t < |keys| && u < |keys| && w < |keys|
  {
    StateOf(keys, t, u, w, FrameAt(keys[t], t, u, w, n))
  }

  lemma SnapStep(keys: seq<string>, t: nat, u: nat, w: nat, n: nat)
    requires t < |keys| && u < |keys| && w < |keys| && t != u && u != w && t != w && keys[t] == keys[u] == keys[w]
    requires n < 12
    ensures Enabled(Snap(keys, t, u, w, n), Mover(t, u, w, n))
    ensures Do(Snap(keys, t, u, w, n), Mover(t, u, w, n)) == Snap(keys, t, u, w, n + 1)
  {
    FrameStep(keys[t], t, u, w, n);
    StateMoves(keys, t, u, w, FrameAt(keys[t], t, u, w, n), n);
  }

  function BreakingSchedule(t: nat, u: nat, w: nat, n: nat): seq<nat>
    requires n <= 12
    decreases 12 - n
  {
    if n == 12 then [] else [Mover(t, u, w, n)] + BreakingSchedule(t, u, w, n + 1)
  }

  lemma {:induction false} BreakingRun(keys: seq<string>, t: nat, u: nat, w: nat, n: nat)
    requires t < |keys| && u < |keys| && w < |keys| && t != u && u != w && t != w && keys[t] == keys[u] == keys[w]
    requires n <= 12
    ensures Legal(false, Snap(keys, t, u, w, n), BreakingSchedule(t, u, w, n))
    ensures After(false, Snap(keys, t, u, w, n), BreakingSchedule(t, u, w, n)) == Snap(keys, t, u, w, 12)
    decreases 12 - n
  {
    if n < 12 {
      SnapStep(keys, t, u, w, n);
      BreakingRun(keys, t, u, w, n + 1);
      Chain(Snap(keys, t, u, w, n), Mover(t, u, w, n), Snap(keys, t, u, w, n + 1),
            BreakingSchedule(t, u, w, n), BreakingSchedule(t, u, w, n + 1));
    }
  }

  /** t deletes the entry after u has loaded it, and w then makes a lock object of its own. */
  lemma ThreeBreakExclusion(keys: seq<string>, t: nat, u: nat, w: nat)
    requires t < |keys| && u < |keys| && w < |keys| && t != u && u != w && t != w && keys[t] == keys[u] == keys[w]
    ensures exists s :: Reachable(false, keys, s) && !Exclusive(s)
  {
    BreakingRun(keys, t, u, w, 0);
    var s := Snap(keys, t, u, w, 12);
    assert Snap(keys, t, u, w, 0) == Initial(keys);
    assert s.tasks[u].phase.Holding? && s.tasks[w].phase.Holding? && s.tasks[u].key == s.tasks[w].key;
    assert Reachable(false, keys, s) && !Exclusive(s);
  }

  /** With the steps as written, no schedule ever has two holders of one key exactly when no key is used by
      three calls: a third caller can make a second lock object while the second still holds the first. */
  lemma ExclusiveIffNoThreeShareAKey(keys: seq<string>)
    ensures (forall s :: Reachable(false, keys, s) ==> Exclusive(s)) <==> !ThreeOfAKey(keys)
  {
    if ThreeOfAKey(keys) {
      var t, u, w :| 0 <= t < |keys| && 0 <= u < |keys| && 0 <= w < |keys| && t != u && u != w && t != w
                     && keys[t] == keys[u] == keys[w];
      ThreeBreakExclusion(keys, t, u, w);
    } else {
      InitialFine(keys);
      forall s | Reachable(false, keys, s) ensures Exclusive(s) {
        var sched :| Legal(false, Initial(keys), sched) && After(false, Initial(keys), sched) == s;
        PairsAgreeAfter(Initial(keys), keys, sched);
      }
    }
  }

  // ------------------------------------------------------------ the fused system

  /** In the fused system nobody is ever seen between the fused steps. */
  predicate NoHalves(s: State) {
    forall t :: 0 <= t < |s.tasks| ==> !s.tasks[t].phase.Loaded? && !s.tasks[t].phase.Deleting?
  }

  /** The object of everybody between increment and decrement is the mapped one, and only such are mapped. */
  predicate MapExact(s: State) {
    && (forall t :: 0 <= t < |s.tasks| && !PhaseFree(s.tasks[t].phase) ==>
          s.tasks[t].key in s.locks && s.locks[s.tasks[t].key] == s.tasks[t].phase.obj)
    && (forall k :: k in s.locks ==> Users(s.tasks, s.locks[k]) > 0)
  }

  predicate Fused(s: State) {
    Objects(s) && OneKeyEach(s) && NoHalves(s) && MapExact(s)
  }

  lemma FusedStep(s: State, t: nat)
    requires Fused(s) && Enabled(s, t)
    ensures Fused(DoFused(s, t))
  {
    var s1 := Do(s, t);
    ObjectsStep(s, t);
    OneKeyEachStep(s, t);
    if Halfway(s1, t) {
      ObjectsStep(s1, t);
      OneKeyEachStep(s1, t);
    }
    match s.tasks[t].phase
    case Start => FusedEnter(s, t);
    case Unlocked(_) => FusedLeave(s, t);
    case _ => FusedInside(s, t);
  }

  lemma FusedInside(s: State, t: nat)
    requires Fused(s) && Enabled(s, t) && !s.tasks[t].phase.Start? && !s.tasks[t].phase.Unlocked?
    ensures NoHalves(DoFused(s, t)) && MapExact(DoFused(s, t))
  {
    var s1 := Do(s, t);
    forall k | k in s1.locks ensures Users(s1.tasks, s1.locks[k]) > 0 {
      UsersUpdate(s.tasks, t, s1.tasks[t], s.locks[k]);
    }
  }

  lemma FusedEnter(s: State, t: nat)
    requires Fused(s) && Enabled(s, t) && s.tasks[t].phase.Start?
    ensures NoHalves(DoFused(s, t)) && MapExact(DoFused(s, t))
  {
    var s' := DoFused(s, t);
    assert s'.tasks == s.tasks[t := s'.tasks[t]];
    forall k | k in s'.locks ensures Users(s'.tasks, s'.locks[k]) > 0 {
      if k == s.tasks[t].key {
        UsersPositive(s'.tasks, s'.locks[k], t);
      } else {
        var w := UsersWitness(s.tasks, s.locks[k]);
        UsersPositive(s'.tasks, s'.locks[k], w);
      }
    }
  }

  lemma FusedLeave(s: State, t: nat)
    requires Fused(s) && Enabled(s, t) && s.tasks[t].phase.Unlocked? && Objects(DoFused(s, t))
    ensures NoHalves(DoFused(s, t)) && MapExact(DoFused(s, t))
  {
    var s', o, k0 := DoFused(s, t), s.tasks[t].phase.obj, s.tasks[t].key;
    assert s'.tasks == s.tasks[t := Task(k0, Finished)];
    assert s'.objs[o].ref == Users(s'.tasks, o) == s.objs[o].ref - 1;
    assert s'.locks == if Users(s'.tasks, o) == 0 then s.locks - {k0} else s.locks;
    forall k | k in s'.locks ensures Users(s'.tasks, s'.locks[k]) > 0 {
      if k != k0 {
        UsersUpdate(s.tasks, t, s'.tasks[t], s.locks[k]);
      }
    }
    forall u | 0 <= u < |s'.tasks| && !PhaseFree(s'.tasks[u].phase)
      ensures s'.tasks[u].key in s'.locks && s'.locks[s'.tasks[u].key] == s'.tasks[u].phase.obj
    {
      if s.tasks[u].key == k0 {
        UsersPositive(s'.tasks, o, u);
      }
    }
  }

  lemma {:induction false} FusedAfter(s: State, sched: seq<nat>)
    requires Fused(s) && Legal(true, s, sched)
    ensures Fused(After(true, s, sched))
    decreases |sched|
  {
    if sched != [] {
      FusedStep(s, sched[0]);
      FusedAfter(DoFused(s, sched[0]), sched[1..]);
    }
  }

  /** With load+increment and decrement+delete fused, at most one goroutine holds a key, however many use it,
      and a mapped lock always has a positive counter. */
  lemma FusedStepsExclude(keys: seq<string>, s: State)
    requires Reachable(true, keys, s)
    ensures Exclusive(s)
    ensures forall k :: k in s.locks ==> s.locks[k] < |s.objs| && s.objs[s.locks[k]].ref > 0
  {
    var sched :| Legal(true, Initial(keys), sched) && After(true, Initial(keys), sched) == s;
    InitialFine(keys);
    FusedAfter(Initial(keys), sched);
    FusedExcludes(s);
  }

  lemma FusedExcludes(s: State)
    requires Fused(s)
    ensures Exclusive(s)
    ensures forall k :: k in s.locks ==> s.locks[k] < |s.objs| && s.objs[s.locks[k]].ref > 0
  {
  }

  // ------------------------------------------------------------ the combined key

  function CombinedKey(parts: seq<string>): string {
    Join(parts, SEP)
  }

  /** For example. */
  lemma CombinedKeyExample()
    ensures CombinedKey(["a", "b"]) == "a:b" && CombinedKey(["a"]) == "a" && CombinedKey([]) == ""
  {
    assert ["a", "b"][1..] == ["b"];
    assert Join(["b"], SEP) == "b";
  }

  /** Non-empty tuples of colon-free parts share a key only if they are the same tuple. */
  lemma CombinedKeyInjective(a: seq<string>, b: seq<string>)
    requires a != [] && b != []
    requires forall i :: 0 <= i < |a| ==> Free(SEP, a[i])
    requires forall i :: 0 <= i < |b| ==> Free(SEP, b[i])
    ensures CombinedKey(a) == CombinedKey(b) <==> a == b
  {
    SplitJoin(a, SEP);
    SplitJoin(b, SEP);
  }

  /** The colon-separated pieces of all parts in a row. */
  function Pieces(parts: seq<string>): seq<string> {
    if parts == [] then [] else Split(parts[0], SEP) + Pieces(parts[1..])
  }

  lemma {:induction false} KeyPieces(a: seq<string>)
    requires a != []
    ensures Split(CombinedKey(a), SEP) == Pieces(a)
  {
    if |a| == 1 {
      assert Pieces(a[1..]) == [];
    } else {
      KeyPieces(a[1..]);
      SplitConcat(a[0], CombinedKey(a[1..]), SEP);
    }
  }

  /** In general two non-empty tuples share a key exactly when their pieces agree: ("a:b") and ("a", "b") do. */
  lemma CombinedKeyCollides(a: seq<string>, b: seq<string>)
    requires a != [] && b != []
    ensures CombinedKey(a) == CombinedKey(b) <==> Pieces(a) == Pieces(b)
  {
    KeyPieces(a);
    KeyPieces(b);
    JoinSplit(CombinedKey(a), SEP);
    JoinSplit(CombinedKey(b), SEP);
  }
}
