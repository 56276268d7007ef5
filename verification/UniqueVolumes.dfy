/**
 CreateVolume is idempotent by name under concurrency: in every run in which no lvstore query of
 getVolume fails, whatever else fails and whatever is deleted, no name is ever carried by two lvols.
 */
module UniqueVolumes {
  import opened SpdkTarget
  import opened Exports
  import opened Lifecycle

  ghost predicate Absent(w: World, name: string) {
    forall id :: !Carries(w, id, name)
  }

  /** What a thread knows about its name: a scan has ruled out everything it is not yet to visit,
      and from the scheduler to the allocation there is no lvol of that name anywhere. */
  ghost predicate Knows(c: Config, w: World, name: string, pc: Pc) {
    match pc
    case Scan(nodes, here, left) =>
      forall id :: Carries(w, id, name) ==> id.node in nodes || (id.node == here && StoreOf(w, id) in left)
    case Schedule => Absent(w, name)
    case Lookup(node, store) => Absent(w, name) && node in c.stores && store in c.stores[node]
    case Allocate(node, store) => Absent(w, name) && node in c.stores && store in c.stores[node]
    case _ => true
  }

  ghost predicate Inv(c: Config, s: State) {
    && c.Valid()
    && s.w.targets.Keys == c.stores.Keys
    && (forall id :: Exists(s.w, id) ==> StoreOf(s.w, id) in c.stores[id.node] && id in s.w.issued)
    && UniqueNames(s.w)
    && (forall i <- s.threads :: HoldsName(s.threads[i].pc) ==>
          s.threads[i].name in s.names && s.names[s.threads[i].name] == i)
    && (forall i <- s.threads :: Knows(c, s.w, s.threads[i].name, s.threads[i].pc))
  }

  /** Lvols only went away. */
  ghost predicate Shrinks(w: World, w': World) {
    && w'.targets.Keys == w.targets.Keys && w'.issued == w.issued
    && forall id :: Exists(w', id) ==>
         Exists(w, id) && w'.targets[id.node].lvols[id.lvol] == w.targets[id.node].lvols[id.lvol]
  }

  /** One lvol, never issued before, was added. */
  ghost predicate Adds(w: World, w': World, added: VolumeId, lvol: Lvol) {
    && w'.targets.Keys == w.targets.Keys && w'.issued == w.issued + {added}
    && added !in w.issued && Exists(w', added) && w'.targets[added.node].lvols[added.lvol] == lvol
    && forall id :: Exists(w', id) && id != added ==>
         Exists(w, id) && w'.targets[id.node].lvols[id.lvol] == w.targets[id.node].lvols[id.lvol]
  }

  lemma LocalEffectOnLvols(c: Config, name: string, pc: Pc, w: World, ch: Choice, pc': Pc, w': World)
    requires Local(c, name, pc, w, ch, pc', w')
    ensures Shrinks(w, w') ||
            (pc.Allocate? && Adds(w, w', ch.id, Lvol(name, pc.store, ch.size)) && ch.id.node == pc.node)
  {
  }

  lemma KnowledgeIsStable(c: Config, w: World, w': World, name: string, pc: Pc)
    requires Knows(c, w, name, pc) && w'.targets.Keys == w.targets.Keys
    requires forall id :: Carries(w', id, name) ==> Carries(w, id, name) && StoreOf(w', id) == StoreOf(w, id)
    ensures Knows(c, w', name, pc)
  {
  }

  lemma LocalKeepsKnowledge(c: Config, name: string, pc: Pc, w: World, ch: Choice, pc': Pc, w': World)
    requires Local(c, name, pc, w, ch, pc', w')
    requires Knows(c, w, name, pc) && (pc.Scan? ==> ch.answered)
    requires c.Valid() && w.targets.Keys == c.stores.Keys
    requires forall id :: Exists(w, id) ==> StoreOf(w, id) in c.stores[id.node]
    ensures Knows(c, w', name, pc')
  {
    if pc.Scan? && pc.left != {} && !AliasTaken(w, pc.here, ch.store, name) {
      forall id | Carries(w, id, name) && id.node == pc.here
        ensures StoreOf(w, id) != ch.store
      {
        assert !HasAlias(w, id, pc.here, ch.store, name);
      }
    }
  }

  lemma UniquenessIsKept(w: World, w': World, id: VolumeId, lvol: Lvol)
    requires UniqueNames(w)
    requires Shrinks(w, w') || (Absent(w, lvol.name) && Adds(w, w', id, lvol))
    ensures UniqueNames(w')
  {
    forall a, b, name | Carries(w', a, name) && Carries(w', b, name)
      ensures a == b
    {
      if !Shrinks(w, w') && name == lvol.name {
        assert !Carries(w, a, name) && !Carries(w, b, name);
      } else {
        assert Carries(w, a, name) && Carries(w, b, name);
      }
    }
  }

  /** A handler's step keeps what every other thread knows: only the thread that holds the lock on
      a name adds an lvol of that name. */
  lemma HandlerStepKeepsInv(c: Config, mode: Mode, s: State, s': State, i: nat, ch: Choice)
    requires !mode.scanFaults && Inv(c, s) && HandlerStep(c, mode, s, s', i, ch)
    ensures Inv(c, s')
  {
    var th, pc' := s.threads[i], s'.threads[i].pc;
    LocalEffectOnLvols(c, th.name, th.pc, s.w, ch, pc', s'.w);
    LocalKeepsKnowledge(c, th.name, th.pc, s.w, ch, pc', s'.w);
    UniquenessIsKept(s.w, s'.w, ch.id, Lvol(th.name, if th.pc.Allocate? then th.pc.store else "", ch.size));
    forall j <- s'.threads ensures Knows(c, s'.w, s'.threads[j].name, s'.threads[j].pc) {
      if j != i && (Shrinks(s.w, s'.w) || s'.threads[j].name != th.name) {
        KnowledgeIsStable(c, s.w, s'.w, s'.threads[j].name, s'.threads[j].pc);
      }
    }
  }

  lemma LockStepKeepsInv(c: Config, mode: Mode, s: State, s': State, i: nat)
    requires Inv(c, s) && LockStep(c, mode, s, s', i)
    ensures Inv(c, s')
  {
    assert Knows(c, s'.w, s'.threads[i].name, s'.threads[i].pc);
  }

  /** In every state of every run without a failing scan, each name is carried by at most one lvol
      across all nodes and lvstores. */
  lemma {:induction false} NamesStayUnique(c: Config, mode: Mode, run: seq<State>, k: nat)
    requires IsRun(c, mode, run) && !mode.scanFaults && k < |run|
    ensures Inv(c, run[k]) && UniqueNames(run[k].w)
  {
    if k > 0 {
      NamesStayUnique(c, mode, run, k - 1);
      assert Next(c, mode, run[k - 1], run[k - 1 + 1]);
      var i, ch :| Step(c, mode, run[k - 1], run[k], i, ch);
      StepKinds(c, mode, run[k - 1], run[k], i, ch);
      if AtLock(run[k - 1].threads[i].pc) {
        LockStepKeepsInv(c, mode, run[k - 1], run[k], i);
      } else {
        HandlerStepKeepsInv(c, mode, run[k - 1], run[k], i, ch);
      }
    }
  }

  /******* A single lvstore *******/

  ghost predicate SingleStore(c: Config) {
    forall m, n, s, t :: m in c.stores && n in c.stores && s in c.stores[m] && t in c.stores[n] ==> m == n && s == t
  }

  /** Where there is one lvstore in all, the lookup before the allocation is as good as a scan. */
  ghost predicate SingleInv(c: Config, s: State) {
    && c.Valid()
    && s.w.targets.Keys == c.stores.Keys
    && (forall id :: Exists(s.w, id) ==> StoreOf(s.w, id) in c.stores[id.node] && id in s.w.issued)
    && UniqueNames(s.w)
    && (forall i <- s.threads :: InConfig(c, s.threads[i].pc))
  }

  predicate InConfig(c: Config, pc: Pc) {
    pc.Lookup? || pc.Allocate? ==> pc.node in c.stores && pc.store in c.stores[pc.node]
  }

  lemma AliasIsName(c: Config, w: World, node: string, store: string, name: string)
    requires SingleStore(c) && w.targets.Keys == c.stores.Keys && node in c.stores && store in c.stores[node]
    requires forall id :: Exists(w, id) ==> StoreOf(w, id) in c.stores[id.node]
    ensures AliasTaken(w, node, store, name) || Absent(w, name)
  {
    if id :| Carries(w, id, name) {
      assert HasAlias(w, id, node, store, name);
    }
  }

  lemma HandlerStepKeepsSingle(c: Config, mode: Mode, s: State, s': State, i: nat, ch: Choice)
    requires SingleStore(c) && SingleInv(c, s) && HandlerStep(c, mode, s, s', i, ch)
    ensures SingleInv(c, s')
  {
    var th, pc' := s.threads[i], s'.threads[i].pc;
    LocalEffectOnLvols(c, th.name, th.pc, s.w, ch, pc', s'.w);
    if th.pc.Allocate? {
      AliasIsName(c, s.w, th.pc.node, th.pc.store, th.name);
    }
    UniquenessIsKept(s.w, s'.w, ch.id, Lvol(th.name, if th.pc.Allocate? then th.pc.store else "", ch.size));
  }

  lemma {:induction false} RunKeepsSingle(c: Config, mode: Mode, run: seq<State>, k: nat)
    requires IsRun(c, mode, run) && SingleStore(c) && k < |run|
    ensures SingleInv(c, run[k])
  {
    if k > 0 {
      RunKeepsSingle(c, mode, run, k - 1);
      assert Next(c, mode, run[k - 1], run[k - 1 + 1]);
      var i, ch :| Step(c, mode, run[k - 1], run[k], i, ch);
      StepKinds(c, mode, run[k - 1], run[k], i, ch);
      if !AtLock(run[k - 1].threads[i].pc) {
        HandlerStepKeepsSingle(c, mode, run[k - 1], run[k], i, ch);
      }
    }
  }

  /******* Two lvstores *******/

  const EMPTY := Target(map[], {}, map[], multiset{}, multiset{}, {})

  /** Two lvstores, `s` of node `m` and `t` of node `n`, which may be the same node. */
  datatype Pair = Pair(m: string, s: string, n: string, t: string)

  predicate IsPair(c: Config, q: Pair) {
    q.m in c.stores && q.n in c.stores && q.s in c.stores[q.m] && q.t in c.stores[q.n] && (q.m != q.n || q.s != q.t)
  }

  function First(q: Pair): VolumeId {
    VolumeId(q.m, "u")
  }

  function Second(q: Pair): VolumeId {
    VolumeId(q.n, "v")
  }

  /** The name "n" is on the first lvstore; then also on the second. */
  function One(c: Config, q: Pair): World {
    World(map n | n in c.stores ::
          if n == q.m then EMPTY.(lvols := map["u" := Lvol("n", q.s, 0)]) else EMPTY, {First(q)})
  }

  function Two(c: Config, q: Pair): World
    requires q.n in c.stores
  {
    var w := One(c, q);
    var t := w.targets[q.n];
    World(w.targets[q.n := t.(lvols := t.lvols["v" := Lvol("n", q.t, 0)])], w.issued + {Second(q)})
  }

  /** A thread asks for the name; the node of the first lvstore does not answer the scan. */
  function Duplicating(c: Config, q: Pair, k: nat): State
    requires q.n in c.stores && q.n in c.access
  {
    var at := (w: World, names: map<string, nat>, pc: Pc) => State(w, names, map[], map[0 := Thread("n", false, pc)]);
    var held: map<string, nat> := map["n" := 0];
    match k
    case 0 => at(One(c, q), map[], Start)
    case 1 => at(One(c, q), held, Scan(c.stores.Keys, "", {}))
    case 2 => at(One(c, q), held, Schedule)
    case 3 => at(One(c, q), held, Lookup(q.n, q.t))
    case 4 => at(One(c, q), held, Allocate(q.n, q.t))
    case _ => at(Two(c, q), held, Publishing(Second(q), BeginPublish(c.access[q.n])))
  }

  lemma DuplicatingSteps(c: Config, mode: Mode, q: Pair, k: nat)
    requires c.Valid() && IsPair(c, q) && mode.scanFaults && k < 3
    ensures Next(c, mode, Duplicating(c, q, k), Duplicating(c, q, k + 1))
  {
    var s, s' := Duplicating(c, q, k), Duplicating(c, q, k + 1);
    match k
    case 0 => assert Step(c, mode, s, s', 0, Choice(true, "", "", First(q), true, 0));
    case 1 => assert Step(c, mode, s, s', 0, Choice(false, q.m, "", First(q), true, 0));
    case 2 => assert Step(c, mode, s, s', 0, Choice(true, q.n, q.t, First(q), true, 0));
  }

  lemma AliasIsFree(c: Config, q: Pair)
    requires c.Valid() && IsPair(c, q)
    ensures !AliasTaken(One(c, q), q.n, q.t, "n") && Second(q) !in One(c, q).issued
  {
    forall id ensures !HasAlias(One(c, q), id, q.n, q.t, "n") {
      assert Carries(One(c, q), id, "n") ==> id == First(q);
    }
  }

  lemma DuplicatingLastSteps(c: Config, mode: Mode, q: Pair, k: nat)
    requires c.Valid() && IsPair(c, q) && 3 <= k < 5
    ensures Next(c, mode, Duplicating(c, q, k), Duplicating(c, q, k + 1))
  {
    var s, s' := Duplicating(c, q, k), Duplicating(c, q, k + 1);
    AliasIsFree(c, q);
    match k
    case 3 => assert Step(c, mode, s, s', 0, Choice(true, q.n, q.t, First(q), true, 0));
    case 4 => assert Step(c, mode, s, s', 0, Choice(true, q.n, q.t, Second(q), true, 0));
  }

  lemma DuplicatingBegins(c: Config, q: Pair)
    requires c.Valid() && IsPair(c, q)
    ensures Init(c, Duplicating(c, q, 0))
  {
    var w := One(c, q);
    forall id | Exists(w, id) ensures id == First(q) && StoreOf(w, id) in c.stores[id.node] && id in w.issued {}
    forall a, b, name | Carries(w, a, name) && Carries(w, b, name) ensures a == b {
      assert Exists(w, a) && Exists(w, b);
    }
  }

  /** One failing lvstore query during the scan is enough: the volume on the node that was not asked counts
      as not found, and a second lvol of its name is made on another lvstore. */
  lemma FailedScanDuplicates(c: Config, mode: Mode, q: Pair) returns (run: seq<State>)
    requires c.Valid() && IsPair(c, q) && mode.scanFaults
    ensures IsRun(c, mode, run) && !UniqueNames(run[|run| - 1].w)
  {
    run := seq(6, k requires k >= 0 => Duplicating(c, q, k));
    forall k | 0 <= k < |run| - 1 ensures Next(c, mode, run[k], run[k + 1]) {
      if k < 3 { DuplicatingSteps(c, mode, q, k); } else { DuplicatingLastSteps(c, mode, q, k); }
    }
    DuplicatingBegins(c, q);
    var w := Two(c, q);
    assert run[5].w == w && Carries(w, First(q), "n") && Carries(w, Second(q), "n");
  }

  /******* Exactly when *******/

  ghost predicate AlwaysUnique(c: Config, mode: Mode) {
    forall run: seq<State>, k: nat :: IsRun(c, mode, run) && k < |run| ==> UniqueNames(run[k].w)
  }

  /** In all runs every name is carried by at most one lvol, exactly when the scan's lvstore queries do not
      fail or there is only one lvstore to put a volume on. */
  lemma UniqueExactlyWithCompleteScans(c: Config, mode: Mode)
    requires c.Valid()
    ensures AlwaysUnique(c, mode) <==> !mode.scanFaults || SingleStore(c)
  {
    if !mode.scanFaults || SingleStore(c) {
      forall run: seq<State>, k: nat | IsRun(c, mode, run) && k < |run| ensures UniqueNames(run[k].w) {
        if !mode.scanFaults {
          NamesStayUnique(c, mode, run, k);
        } else {
          RunKeepsSingle(c, mode, run, k);
        }
      }
    } else {
      var m, n, s, t :| m in c.stores && n in c.stores && s in c.stores[m] && t in c.stores[n] && !(m == n && s == t);
      var run := FailedScanDuplicates(c, mode, Pair(m, s, n, t));
      assert !UniqueNames(run[|run| - 1].w);
    }
  }
}
