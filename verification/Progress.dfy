/**
 Runs get somewhere. Every step uses up work, so runs are bounded; a thread that waits for no lock can
 always take its next step, and there is always such a thread until all have finished; and where every RPC
 is answered and there is space, they all finish with what they were called for. A thread that runs alone
 computes what the sequential handlers of `Exports` compute.
 */
module Progress {
  import opened SpdkTarget
  import opened Exports
  import opened Lifecycle
  import opened FaultFree
  import I = NodeIscsi
  import Pairs = Conservation

  /******* Every step uses up work *******/

  function AllStores(c: Config): set<string> {
    set n <- c.stores, s <- c.stores[n] :: s
  }

  /** More than any node has lvstores. */
  function Width(c: Config): nat {
    |AllStores(c)| + 1
  }

  function PublishLeft(at: PublishAt): nat {
    match at
    case NvmfAt(p) => PublishRank(p)
    case IscsiAt(q) => I.Rank(q)
  }

  function UnpublishLeft(from: UnpublishAt): nat {
    match from
    case NvmfFrom(u) => UnpublishRank(u)
    case IscsiFrom(v) => I.UnpublishRank(v)
  }

  /** A bound on a thread's remaining steps. */
  function Work(c: Config, pc: Pc): nat {
    match pc
    case Start => |c.stores.Keys| * Width(c) + 41
    case Scan(nodes, here, left) => |nodes| * Width(c) + |left| + 40
    case Schedule => 39
    case Lookup(_, _) => 38
    case Allocate(_, _) => 37
    case Publishing(_, at) => 21 + PublishLeft(at)
    case Info(_) => 20
    case UndoPublish(_, from) => 13 + UnpublishLeft(from)
    case UndoCreate(_) => 12
    case Succeeding(_) => 11
    case Failing => 11
    case Created(_) => 10
    case Errored => 0
    case Unpublishing(_, from) => 4 + UnpublishLeft(from)
    case Dropping(_) => 3
    case DeleteSucceeding(_) => 2
    case DeleteFailing(_) => 2
    case Deleted(_) => 0
    case DeleteErrored(_) => 0
  }

  lemma {:induction false} SubsetIsSmaller<T>(a: set<T>, b: set<T>)
    requires a <= b
    ensures |a| <= |b|
  {
    if x :| x in a {
      SubsetIsSmaller(a - {x}, b - {x});
    }
  }

  lemma NodeIsNarrow(c: Config, n: string)
    requires n in c.stores
    ensures |c.stores[n]| < Width(c)
  {
    assert c.stores[n] <= AllStores(c);
    SubsetIsSmaller(c.stores[n], AllStores(c));
  }

  lemma ScanUsesUpWork(c: Config, name: string, pc: Pc, w: World, ch: Choice, pc': Pc, w': World)
    requires pc.Scan? && Local(c, name, pc, w, ch, pc', w')
    ensures Work(c, pc') < Work(c, pc)
  {
    var visits := |pc.nodes| * Width(c);
    if pc'.Scan? {
      if pc.left == {} {
        NodeIsNarrow(c, ch.node);
        VisitsOneLess(pc.nodes, ch.node, Width(c));
      }
    }
  }

  lemma VisitsOneLess(nodes: set<string>, node: string, width: nat)
    requires node in nodes
    ensures |nodes - {node}| * width + width == |nodes| * width
  {
    assert |nodes - {node}| == |nodes| - 1;
  }

  lemma PublishingUsesUpWork(c: Config, name: string, pc: Pc, w: World, ch: Choice, pc': Pc, w': World)
    requires (pc.Publishing? || pc.UndoPublish? || pc.Unpublishing?) && Local(c, name, pc, w, ch, pc', w')
    ensures Work(c, pc') < Work(c, pc)
  {
  }

  /** Whatever is answered, a handler's step brings it closer to its end. */
  lemma LocalUsesUpWork(c: Config, name: string, pc: Pc, w: World, ch: Choice, pc': Pc, w': World)
    requires Local(c, name, pc, w, ch, pc', w')
    ensures Work(c, pc') < Work(c, pc)
  {
    if pc.Scan? {
      ScanUsesUpWork(c, name, pc, w, ch, pc', w');
    } else if pc.Publishing? || pc.UndoPublish? || pc.Unpublishing? {
      PublishingUsesUpWork(c, name, pc, w, ch, pc', w');
    }
  }

  /** And so does a step on a lock. */
  lemma StepUsesUpWork(c: Config, mode: Mode, s: State, s': State, i: nat, ch: Choice)
    requires Step(c, mode, s, s', i, ch)
    ensures OnlyThread(s, s', i) && Work(c, s'.threads[i].pc) < Work(c, s.threads[i].pc)
  {
    StepKinds(c, mode, s, s', i, ch);
    if !AtLock(s.threads[i].pc) {
      LocalUsesUpWork(c, s.threads[i].name, s.threads[i].pc, s.w, ch, s'.threads[i].pc, s'.w);
    }
  }

  ghost function Total(c: Config, threads: map<nat, Thread>, some: set<nat>): nat
    requires some <= threads.Keys
  {
    if some == {} then 0
    else
      var i :| i in some;
      Work(c, threads[i].pc) + Total(c, threads, some - {i})
  }

  lemma {:induction false} TotalTakesOut(c: Config, threads: map<nat, Thread>, some: set<nat>, i: nat)
    requires some <= threads.Keys && i in some
    ensures Total(c, threads, some) == Work(c, threads[i].pc) + Total(c, threads, some - {i})
  {
    var j :| j in some && Total(c, threads, some) == Work(c, threads[j].pc) + Total(c, threads, some - {j});
    if j != i {
      TotalTakesOut(c, threads, some - {j}, i);
      TotalTakesOut(c, threads, some - {i}, j);
      assert some - {j} - {i} == some - {i} - {j};
    }
  }

  lemma {:induction false} TotalOfOthers(c: Config, threads: map<nat, Thread>, threads': map<nat, Thread>,
                                         some: set<nat>)
    requires some <= threads.Keys && some <= threads'.Keys && forall i <- some :: threads'[i] == threads[i]
    ensures Total(c, threads', some) == Total(c, threads, some)
  {
    if some != {} {
      var i :| i in some && Total(c, threads, some) == Work(c, threads[i].pc) + Total(c, threads, some - {i});
      TotalTakesOut(c, threads', some, i);
      TotalOfOthers(c, threads, threads', some - {i});
    }
  }

  ghost function WorkLeft(c: Config, s: State): nat {
    Total(c, s.threads, s.threads.Keys)
  }

  lemma StepUsesUpWorkLeft(c: Config, mode: Mode, s: State, s': State, i: nat, ch: Choice)
    requires Step(c, mode, s, s', i, ch)
    ensures WorkLeft(c, s') < WorkLeft(c, s)
  {
    StepUsesUpWork(c, mode, s, s', i, ch);
    TotalTakesOut(c, s.threads, s.threads.Keys, i);
    TotalTakesOut(c, s'.threads, s'.threads.Keys, i);
    TotalOfOthers(c, s.threads, s'.threads, s.threads.Keys - {i});
  }

  lemma NextUsesUpWorkLeft(c: Config, mode: Mode, s: State, s': State)
    requires Next(c, mode, s, s')
    ensures WorkLeft(c, s') < WorkLeft(c, s)
  {
    var i, ch :| Step(c, mode, s, s', i, ch);
    StepUsesUpWorkLeft(c, mode, s, s', i, ch);
  }

  /** However the calls interleave and whatever is answered, a run is no longer than the work it began with. */
  lemma {:induction false} RunsAreBounded(c: Config, mode: Mode, run: seq<State>, k: nat)
    requires IsRun(c, mode, run) && k < |run|
    ensures k + WorkLeft(c, run[k]) <= WorkLeft(c, run[0])
  {
    if k > 0 {
      RunsAreBounded(c, mode, run, k - 1);
      assert Next(c, mode, run[k - 1], run[k - 1 + 1]);
      NextUsesUpWorkLeft(c, mode, run[k - 1], run[k]);
    }
  }

  /******* Nobody is stuck *******/

  /** The thread's next RPC is one that its node understands. */
  predicate InPlace(c: Config, w: World, pc: Pc) {
    && (HasId(pc) ==> KnownNode(c, w, pc.id.node))
    && match pc
       case Scan(nodes, here, left) => nodes <= c.stores.Keys && (left != {} ==> here in c.stores)
       case Lookup(node, store) => node in c.stores
       case Allocate(node, store) => node in c.stores
       case Publishing(id, at) => PublishFits(at, c.access[id.node])
       case UndoPublish(id, from) => UnpublishFits(from, c.access[id.node])
       case Unpublishing(id, from) => UnpublishFits(from, c.access[id.node])
       case _ => true
  }

  /** Inside `Lock(id)` of DeleteVolume. */
  predicate HoldsId(pc: Pc) {
    pc.Unpublishing? || pc.Dropping? || pc.DeleteSucceeding? || pc.DeleteFailing?
  }

  /** Every lock that is held is held by a thread inside a handler. */
  predicate LocksAreHeld(s: State) {
    NamesAreHeld(s) && IdsAreHeld(s)
  }

  predicate NamesAreHeld(s: State) {
    forall name <- s.names ::
      var i := s.names[name]; i in s.threads && s.threads[i].name == name && HoldsName(s.threads[i].pc)
  }

  predicate IdsAreHeld(s: State) {
    forall id <- s.ids ::
      var i := s.ids[id]; i in s.threads && HoldsId(s.threads[i].pc) && s.threads[i].pc.id == id
  }

  predicate InOrder(c: Config, s: State) {
    && c.Valid() && s.w.targets.Keys == c.stores.Keys && LocksAreHeld(s)
    && forall i <- s.threads :: InPlace(c, s.w, s.threads[i].pc)
  }

  lemma LocalKeepsPlace(c: Config, name: string, pc: Pc, w: World, ch: Choice, pc': Pc, w': World)
    requires Local(c, name, pc, w, ch, pc', w') && InPlace(c, w, pc) && c.Valid() && w.targets.Keys == c.stores.Keys
    ensures InPlace(c, w', pc') && w'.targets.Keys == w.targets.Keys && (pc'.Scan? ==> pc.Scan?)
  {
  }

  lemma LockStepKeepsNames(c: Config, mode: Mode, s: State, s': State, i: nat, ch: Choice)
    requires NamesAreHeld(s) && Step(c, mode, s, s', i, ch) && AtLock(s.threads[i].pc)
    ensures NamesAreHeld(s')
  {
  }

  lemma LockStepKeepsIds(c: Config, mode: Mode, s: State, s': State, i: nat, ch: Choice)
    requires IdsAreHeld(s) && Step(c, mode, s, s', i, ch) && AtLock(s.threads[i].pc)
    ensures IdsAreHeld(s')
  {
  }

  lemma LockStepKeepsPlace(c: Config, mode: Mode, s: State, s': State, i: nat)
    requires LockStep(c, mode, s, s', i) && InPlace(c, s.w, s.threads[i].pc)
    ensures InPlace(c, s'.w, s'.threads[i].pc)
  {
  }

  lemma HandlerKeepsHolding(c: Config, name: string, pc: Pc, w: World, ch: Choice, pc': Pc, w': World)
    requires Local(c, name, pc, w, ch, pc', w')
    ensures HoldsName(pc') == HoldsName(pc) && HoldsId(pc') == HoldsId(pc) && (HoldsId(pc) ==> pc'.id == pc.id)
  {
  }

  lemma StepKeepsOrder(c: Config, mode: Mode, s: State, s': State, i: nat, ch: Choice)
    requires InOrder(c, s) && Step(c, mode, s, s', i, ch)
    ensures InOrder(c, s')
  {
    StepKinds(c, mode, s, s', i, ch);
    if AtLock(s.threads[i].pc) {
      LockStepKeepsNames(c, mode, s, s', i, ch);
      LockStepKeepsIds(c, mode, s, s', i, ch);
      LockStepKeepsPlace(c, mode, s, s', i);
    } else {
      HandlerKeepsHolding(c, s.threads[i].name, s.threads[i].pc, s.w, ch, s'.threads[i].pc, s'.w);
      LocalKeepsPlace(c, s.threads[i].name, s.threads[i].pc, s.w, ch, s'.threads[i].pc, s'.w);
    }
  }

  lemma {:induction false} RunsKeepOrder(c: Config, mode: Mode, run: seq<State>, k: nat)
    requires IsRun(c, mode, run) && k < |run|
    ensures InOrder(c, run[k])
  {
    if k > 0 {
      RunsKeepOrder(c, mode, run, k - 1);
      assert Next(c, mode, run[k - 1], run[k - 1 + 1]);
      var i, ch :| Step(c, mode, run[k - 1], run[k], i, ch);
      StepKeepsOrder(c, mode, run[k - 1], run[k], i, ch);
    }
  }

  /** There is an lvstore to put volumes on. */
  ghost predicate HasSpace(c: Config) {
    exists n <- c.stores :: c.stores[n] != {}
  }

  /** Every RPC is answered, and space is found where there is an lvstore. */
  ghost predicate Kind(c: Config, ch: Choice) {
    ch.answered && (HasSpace(c) ==> ch.space)
  }

  ghost function LongestId(ids: set<VolumeId>): nat {
    if ids == {} then 0
    else
      var id :| id in ids;
      var rest := LongestId(ids - {id});
      if |id.lvol| > rest then |id.lvol| else rest
  }

  lemma {:induction false} NoneIsLonger(ids: set<VolumeId>, id: VolumeId)
    requires id in ids
    ensures |id.lvol| <= LongestId(ids)
  {
    var other :| other in ids && LongestId(ids) == (var rest := LongestId(ids - {other});
                                                   if |other.lvol| > rest then |other.lvol| else rest);
    if other != id {
      NoneIsLonger(ids - {other}, id);
    }
  }

  lemma FreshId(ids: set<VolumeId>, node: string) returns (id: VolumeId)
    ensures id.node == node && id !in ids
  {
    id := VolumeId(node, seq(LongestId(ids) + 1, _ => 'x'));
    if id in ids {
      NoneIsLonger(ids, id);
    }
  }

  /** A handler can always take its next step, whichever way its RPC is answered. */
  lemma CanMove(c: Config, name: string, pc: Pc, w: World, answered: bool) returns (ch: Choice, pc': Pc, w': World)
    requires c.Valid() && w.targets.Keys == c.stores.Keys && InPlace(c, w, pc)
    requires (HoldsName(pc) || HoldsId(pc)) && !AtLock(pc)
    ensures Local(c, name, pc, w, ch, pc', w') && ch.answered == answered && ch.space == HasSpace(c)
  {
    ch, w' := Choice(answered, "", "", VolumeId("", ""), HasSpace(c), 0), w;
    match pc
    case Scan(nodes, here, left) =>
      if left != {} {
        var store :| store in left;
        ch := ch.(store := store);
        pc' := Scan(nodes, here, left - {store});
        if id :| HasAlias(w, id, here, store, name) {
          ch := ch.(id := id);
          pc' := Publishing(id, BeginPublish(c.access[id.node]));
        }
      } else if node :| node in nodes {
        ch := ch.(node := node);
        pc' := if answered then Scan(nodes - {node}, node, c.stores[node]) else Schedule;
      } else {
        pc' := Schedule;
      }
    case Schedule =>
      pc' := Failing;
      if HasSpace(c) {
        var node :| node in c.stores && c.stores[node] != {};
        var store :| store in c.stores[node];
        ch := ch.(node := node, store := store);
        pc' := Lookup(node, store);
      }
    case Lookup(node, store) =>
      pc' := Allocate(node, store);
      if id :| HasAlias(w, id, node, store, name) {
        ch := ch.(id := id);
        pc' := Publishing(id, BeginPublish(c.access[id.node]));
      }
    case Allocate(node, store) =>
      pc' := Failing;
      if answered && HasSpace(c) && !AliasTaken(w, node, store, name) {
        var id := FreshId(w.issued, node);
        var t := w.targets[node];
        ch := ch.(id := id);
        w' := World(w.targets[node := t.(lvols := t.lvols[id.lvol := Lvol(name, store, 0)])], w.issued + {id});
        pc' := Publishing(id, BeginPublish(c.access[id.node]));
      }
    case _ =>
      pc', w' := CanGoOn(c, name, pc, w, ch);
  }

  lemma CanGoOn(c: Config, name: string, pc: Pc, w: World, ch: Choice) returns (pc': Pc, w': World)
    requires c.Valid() && w.targets.Keys == c.stores.Keys && InPlace(c, w, pc)
    requires pc.Publishing? || pc.Info? || pc.UndoPublish? || pc.UndoCreate? || pc.Unpublishing? || pc.Dropping?
    ensures Local(c, name, pc, w, ch, pc', w')
  {
    var id := pc.id;
    var t, a := w.targets[id.node], c.access[id.node];
    w' := w;
    match pc
    case Publishing(_, at) =>
      match PublishProgress(at) {
        case Succeeded => pc' := Info(id);
        case Failed => pc' := UndoCreate(id);
        case Running =>
          var (at', t') := PublishNext(at, t, id.lvol, a, ch.answered);
          pc', w' := Publishing(id, at'), OnNode(w, id.node, t');
      }
    case Info(_) =>
      pc' := if ch.answered && Exists(w, id) then Succeeding(id) else UndoPublish(id, BeginUnpublish(a));
    case UndoPublish(_, from) =>
      if UnpublishProgress(from) != Running {
        pc' := UndoCreate(id);
      } else {
        var (from', t') := UnpublishNext(from, t, id.lvol, a, ch.answered);
        pc', w' := UndoPublish(id, from'), OnNode(w, id.node, t');
      }
    case UndoCreate(_) =>
      pc', w' := Failing, OnNode(w, id.node, DropLvol(t, id.lvol, ch.answered));
    case Unpublishing(_, from) =>
      match UnpublishProgress(from) {
        case Succeeded => pc' := Dropping(id);
        case Gone => pc' := DeleteSucceeding(id);
        case Failed => pc' := DeleteFailing(id);
        case Running =>
          var (from', t') := UnpublishNext(from, t, id.lvol, a, ch.answered);
          pc', w' := Unpublishing(id, from'), OnNode(w, id.node, t');
      }
    case Dropping(_) =>
      pc' := if ch.answered then DeleteSucceeding(id) else DeleteFailing(id);
      w' := OnNode(w, id.node, DropLvol(t, id.lvol, ch.answered));
  }

  /** Whoever is inside has the lock. */
  predicate InsidersHold(s: State) {
    CreatorsHold(s) && DeletersHold(s)
  }

  predicate CreatorsHold(s: State) {
    forall i <- s.threads :: HoldsName(s.threads[i].pc) ==>
      s.threads[i].name in s.names && s.names[s.threads[i].name] == i
  }

  predicate DeletersHold(s: State) {
    forall i <- s.threads :: HoldsId(s.threads[i].pc) ==>
      s.threads[i].pc.id in s.ids && s.ids[s.threads[i].pc.id] == i
  }

  lemma LockStepKeepsCreators(c: Config, mode: Mode, s: State, s': State, i: nat, ch: Choice)
    requires CreatorsHold(s) && Step(c, mode, s, s', i, ch) && AtLock(s.threads[i].pc)
    ensures CreatorsHold(s')
  {
  }

  lemma LockStepKeepsDeleters(c: Config, mode: Mode, s: State, s': State, i: nat, ch: Choice)
    requires DeletersHold(s) && Step(c, mode, s, s', i, ch) && AtLock(s.threads[i].pc)
    ensures DeletersHold(s')
  {
  }

  lemma {:induction false} RunsKeepInsiders(c: Config, mode: Mode, run: seq<State>, k: nat)
    requires IsRun(c, mode, run) && k < |run|
    ensures InsidersHold(run[k])
  {
    if k > 0 {
      RunsKeepInsiders(c, mode, run, k - 1);
      assert Next(c, mode, run[k - 1], run[k - 1 + 1]);
      var i, ch :| Step(c, mode, run[k - 1], run[k], i, ch);
      StepKeepsInsiders(c, mode, run[k - 1], run[k], i, ch);
    }
  }

  lemma StepKeepsInsiders(c: Config, mode: Mode, s: State, s': State, i: nat, ch: Choice)
    requires InsidersHold(s) && Step(c, mode, s, s', i, ch)
    ensures InsidersHold(s')
  {
    StepKinds(c, mode, s, s', i, ch);
    if AtLock(s.threads[i].pc) {
      LockStepKeepsCreators(c, mode, s, s', i, ch);
      LockStepKeepsDeleters(c, mode, s, s', i, ch);
    } else {
      HandlerKeepsHolding(c, s.threads[i].name, s.threads[i].pc, s.w, ch, s'.threads[i].pc, s'.w);
    }
  }

  /** In every run, whatever fails, at most one thread is inside CreateVolume for a name, and at most one
      inside DeleteVolume for a volume ID. */
  lemma OneInside(c: Config, mode: Mode, run: seq<State>, k: nat, i: nat, j: nat)
    requires IsRun(c, mode, run) && k < |run| && i in run[k].threads && j in run[k].threads && i != j
    ensures var a, b := run[k].threads[i], run[k].threads[j];
            && !(HoldsName(a.pc) && HoldsName(b.pc) && a.name == b.name)
            && !(HoldsId(a.pc) && HoldsId(b.pc) && a.pc.id == b.pc.id)
  {
    RunsKeepInsiders(c, mode, run, k);
  }

  /** The thread has answered for good. */
  predicate Ended(mode: Mode, th: Thread) {
    Terminal(th) || (th.pc.Created? && !mode.deletes)
  }

  /** The thread is to take a lock that is taken. */
  predicate Waits(s: State, th: Thread) {
    (th.pc.Start? && th.name in s.names) || (th.pc.Created? && th.pc.id in s.ids)
  }

  /** A thread that has not ended and does not wait can take its next step, with any answer that the mode
      allows. */
  lemma CanStep(c: Config, mode: Mode, s: State, i: nat, answered: bool) returns (ch: Choice, s': State)
    requires InOrder(c, s) && i in s.threads && !Ended(mode, s.threads[i]) && !Waits(s, s.threads[i])
    requires answered || (if s.threads[i].pc.Scan? then mode.scanFaults else mode.faults)
    ensures Step(c, mode, s, s', i, ch) && ch.answered == answered && ch.space == HasSpace(c)
  {
    var th := s.threads[i];
    ch := Choice(answered, "", "", VolumeId("", ""), HasSpace(c), 0);
    if AtLock(th.pc) {
      match th.pc
      case Start =>
        s' := State(s.w, s.names[th.name := i], s.ids, SetPc(s, i, Scan(c.stores.Keys, "", {})));
      case Succeeding(id) => s' := State(s.w, s.names - {th.name}, s.ids, SetPc(s, i, Created(id)));
      case Failing => s' := State(s.w, s.names - {th.name}, s.ids, SetPc(s, i, Errored));
      case Created(id) =>
        s' := State(s.w, s.names, s.ids[id := i], SetPc(s, i, Unpublishing(id, BeginUnpublish(c.access[id.node]))));
      case DeleteSucceeding(id) => s' := State(s.w, s.names, s.ids - {id}, SetPc(s, i, Deleted(id)));
      case DeleteFailing(id) => s' := State(s.w, s.names, s.ids - {id}, SetPc(s, i, DeleteErrored(id)));
    } else {
      var pc', w';
      ch, pc', w' := CanMove(c, th.name, th.pc, s.w, answered);
      s' := State(w', s.names, s.ids, SetPc(s, i, pc'));
    }
  }

  /** Whoever holds the lock that a thread waits for does not wait. */
  lemma HolderDoesNotWait(c: Config, mode: Mode, s: State, i: nat) returns (j: nat)
    requires InOrder(c, s) && i in s.threads && !Ended(mode, s.threads[i])
    ensures j in s.threads && !Ended(mode, s.threads[j]) && !Waits(s, s.threads[j])
  {
    var th := s.threads[i];
    j := i;
    if Waits(s, th) {
      j := if th.pc.Start? then s.names[th.name] else s.ids[th.pc.id];
    }
  }

  ghost predicate AllEnded(mode: Mode, s: State) {
    forall i <- s.threads :: Ended(mode, s.threads[i])
  }

  /** A step in which everything is answered. */
  ghost predicate KindNext(c: Config, mode: Mode, s: State, s': State) {
    exists i, ch :: Step(c, mode, s, s', i, ch) && Kind(c, ch)
  }

  /** Deadlock freedom: in every state of every run some thread can go on until all have answered. */
  lemma NobodyIsStuck(c: Config, mode: Mode, run: seq<State>, k: nat) returns (s': State)
    requires IsRun(c, mode, run) && k < |run| && !AllEnded(mode, run[k])
    ensures KindNext(c, mode, run[k], s') && Next(c, mode, run[k], s')
  {
    RunsKeepOrder(c, mode, run, k);
    var i :| i in run[k].threads && !Ended(mode, run[k].threads[i]);
    var j := HolderDoesNotWait(c, mode, run[k], i);
    var ch;
    ch, s' := CanStep(c, mode, run[k], j, true);
  }

  ghost predicate KindFrom(c: Config, mode: Mode, run: seq<State>, from: int) {
    forall k :: 0 <= from <= k < |run| - 1 ==> KindNext(c, mode, run[k], run[k + 1])
  }

  lemma LongerRun(c: Config, mode: Mode, run: seq<State>, s': State)
    requires IsRun(c, mode, run) && Next(c, mode, run[|run| - 1], s')
    ensures IsRun(c, mode, run + [s'])
  {
    var run' := run + [s'];
    forall k | 0 <= k < |run'| - 1 ensures Next(c, mode, run'[k], run'[k + 1]) {
      if k < |run| - 1 {
        assert Next(c, mode, run[k], run[k + 1]);
      }
    }
  }

  lemma OneStepLonger(c: Config, mode: Mode, run: seq<State>) returns (longer: seq<State>)
    requires IsRun(c, mode, run) && !AllEnded(mode, run[|run| - 1])
    ensures IsRun(c, mode, longer) && run <= longer && |longer| == |run| + 1
    ensures KindNext(c, mode, longer[|run| - 1], longer[|run|])
    ensures WorkLeft(c, longer[|run|]) < WorkLeft(c, run[|run| - 1])
  {
    var s' := NobodyIsStuck(c, mode, run, |run| - 1);
    NextUsesUpWorkLeft(c, mode, run[|run| - 1], s');
    LongerRun(c, mode, run, s');
    longer := run + [s'];
  }

  lemma KindFromEarlier(c: Config, mode: Mode, longer: seq<State>, whole: seq<State>, from: nat)
    requires longer <= whole && |longer| == from + 2 && KindNext(c, mode, longer[from], longer[from + 1])
    requires KindFrom(c, mode, whole, from + 1)
    ensures KindFrom(c, mode, whole, from)
  {
    assert whole[from] == longer[from] && whole[from + 1] == longer[from + 1];
  }

  /** Every run, whatever went wrong in it so far, can be continued until every call has answered; what is
      added needs no failures. */
  lemma {:induction false} RunsCanFinish(c: Config, mode: Mode, run: seq<State>) returns (whole: seq<State>)
    requires IsRun(c, mode, run)
    ensures IsRun(c, mode, whole) && run <= whole && AllEnded(mode, whole[|whole| - 1])
    ensures KindFrom(c, mode, whole, |run| - 1)
    decreases WorkLeft(c, run[|run| - 1])
  {
    whole := run;
    if !AllEnded(mode, run[|run| - 1]) {
      var longer := OneStepLonger(c, mode, run);
      whole := RunsCanFinish(c, mode, longer);
      KindFromEarlier(c, mode, longer, whole, |run| - 1);
    }
  }

  /******* Everybody gets what they called for *******/

  /** Nobody has failed. */
  predicate Lucky(s: State) {
    forall i <- s.threads :: !s.threads[i].pc.Failing? && !s.threads[i].pc.Errored?
  }

  /** A thread whose volume is in order, and whose name is free while it is allocating, does not fail where
      everything is answered. */
  lemma KindStepIsLucky(c: Config, mode: Mode, s: State, s': State, i: nat, ch: Choice)
    requires Step(c, mode, s, s', i, ch) && Kind(c, ch) && HasSpace(c) && InOrder(c, s) && Lucky(s)
    requires Mine(c, s.w, s.threads[i].name, s.threads[i].pc)
    requires s.threads[i].pc.Allocate? ==> Unique.Absent(s.w, s.threads[i].name)
    ensures Lucky(s')
  {
    var th := s.threads[i];
    if th.pc.Allocate? {
      forall id ensures !HasAlias(s.w, id, th.pc.node, th.pc.store, th.name) {
        assert !Carries(s.w, id, th.name);
      }
    }
  }

  ghost predicate IsKindRun(c: Config, mode: Mode, run: seq<State>) {
    IsRun(c, mode, run) && KindFrom(c, mode, run, 0)
  }

  lemma {:induction false} CreatesAreLucky(c: Config, run: seq<State>, k: nat)
    requires IsKindRun(c, CREATES, run) && CleanStart(c, run[0]) && HasSpace(c) && k < |run|
    ensures Lucky(run[k])
  {
    if k > 0 {
      CreatesAreLucky(c, run, k - 1);
      CreatesStayLucky(c, run, k - 1);
    }
  }

  lemma CreatesStayLucky(c: Config, run: seq<State>, k: nat)
    requires IsKindRun(c, CREATES, run) && CleanStart(c, run[0]) && HasSpace(c) && k + 1 < |run| && Lucky(run[k])
    ensures Lucky(run[k + 1])
  {
    CreatesKeepOrder(c, run, k);
    StepOfKindRun(c, CREATES, run, k);
    CreateStepIsLucky(c, run[k], run[k + 1]);
  }

  lemma StepOfKindRun(c: Config, mode: Mode, run: seq<State>, k: nat)
    requires IsKindRun(c, mode, run) && k + 1 < |run|
    ensures KindNext(c, mode, run[k], run[k + 1]) && InOrder(c, run[k])
  {
    RunsKeepOrder(c, mode, run, k);
  }

  lemma CreateStepIsLucky(c: Config, s: State, s': State)
    requires KindNext(c, CREATES, s, s') && InvCreates(c, s) && InOrder(c, s) && Lucky(s) && HasSpace(c)
    ensures Lucky(s')
  {
    var i, ch :| Step(c, CREATES, s, s', i, ch) && Kind(c, ch);
    KindStepIsLucky(c, CREATES, s, s', i, ch);
  }

  lemma PairStepIsLucky(c: Config, s0: State, s: State, s': State)
    requires KindNext(c, Pairs.PAIRS, s, s') && Pairs.InvPairs(c, s0, s) && InOrder(c, s) && Lucky(s) && HasSpace(c)
    ensures Lucky(s')
  {
    var i, ch :| Step(c, Pairs.PAIRS, s, s', i, ch) && Kind(c, ch);
    if s.threads[i].pc.Allocate? {
      Pairs.NothingIsFound(c, s0, s, i);
    }
    KindStepIsLucky(c, Pairs.PAIRS, s, s', i, ch);
  }

  lemma {:induction false} PairsAreLucky(c: Config, run: seq<State>, k: nat)
    requires IsKindRun(c, Pairs.PAIRS, run) && Issued(run[0].w) && Pairs.OwnNames(run[0]) && HasSpace(c) && k < |run|
    ensures Lucky(run[k])
  {
    if k > 0 {
      PairsAreLucky(c, run, k - 1);
      PairsStayLucky(c, run, k - 1);
    }
  }

  lemma PairsStayLucky(c: Config, run: seq<State>, k: nat)
    requires IsKindRun(c, Pairs.PAIRS, run) && Issued(run[0].w) && Pairs.OwnNames(run[0]) && HasSpace(c)
    requires k + 1 < |run| && Lucky(run[k])
    ensures Lucky(run[k + 1])
  {
    Pairs.PairsKeepOrder(c, run, k);
    StepOfKindRun(c, Pairs.PAIRS, run, k);
    PairStepIsLucky(c, run[0], run[k], run[k + 1]);
  }

  lemma FromTheStart(c: Config, mode: Mode, s: State) returns (run: seq<State>)
    requires Init(c, s)
    ensures IsKindRun(c, mode, run) && run[0] == s && AllEnded(mode, run[|run| - 1])
  {
    run := RunsCanFinish(c, mode, [s]);
  }

  /** Every call has its volume. */
  predicate AllCreated(s: State) {
    forall i <- s.threads :: s.threads[i].pc.Created?
  }

  /** Every call has created its volume, and deleted it if that was to follow. */
  predicate AllAsCalledFor(s: State) {
    forall i <- s.threads :: if s.threads[i].thenDelete then s.threads[i].pc.Deleted? else s.threads[i].pc.Created?
  }

  /** No thread comes, goes or changes what it was called for. */
  predicate SameCalls(s: State, s': State) {
    s'.threads.Keys == s.threads.Keys && forall i <- s.threads :: s'.threads[i] == s.threads[i].(pc := s'.threads[i].pc)
  }

  /** Calls without failures, on orderly nodes with an lvstore, cannot fail, and can all be carried through:
      every run in which everything is answered and all have ended has given each its volume, and there is
      such a run. */
  lemma AllGetTheirVolumes(c: Config, s: State) returns (run: seq<State>)
    requires Init(c, s) && CleanStart(c, s) && HasSpace(c)
    ensures IsKindRun(c, CREATES, run) && run[0] == s
    ensures SameCalls(s, run[|run| - 1]) && AllCreated(run[|run| - 1])
  {
    run := FromTheStart(c, CREATES, s);
    EndedCreates(c, run);
    SameThreads(c, CREATES, run, |run| - 1);
  }

  lemma EndedCreates(c: Config, run: seq<State>)
    requires IsKindRun(c, CREATES, run) && CleanStart(c, run[0]) && HasSpace(c) && AllEnded(CREATES, run[|run| - 1])
    ensures AllCreated(run[|run| - 1])
  {
    CreatesAreLucky(c, run, |run| - 1);
    CreatesKeepOrder(c, run, |run| - 1);
  }

  lemma {:induction false} SameThreads(c: Config, mode: Mode, run: seq<State>, k: nat)
    requires IsRun(c, mode, run) && k < |run|
    ensures SameCalls(run[0], run[k])
    ensures forall i <- run[k].threads :: run[k].threads[i].thenDelete || Creates(run[k].threads[i].pc)
  {
    if k > 0 {
      SameThreads(c, mode, run, k - 1);
      assert Next(c, mode, run[k - 1], run[k - 1 + 1]);
      var i, ch :| Step(c, mode, run[k - 1], run[k], i, ch);
      StepKeepsCalls(c, mode, run[k - 1], run[k], i, ch);
    }
  }

  lemma StepKeepsCalls(c: Config, mode: Mode, s: State, s': State, i: nat, ch: Choice)
    requires Step(c, mode, s, s', i, ch)
    ensures OnlyThread(s, s', i)
    ensures s.threads[i].thenDelete || Creates(s.threads[i].pc) ==> s.threads[i].thenDelete || Creates(s'.threads[i].pc)
  {
    StepKinds(c, mode, s, s', i, ch);
  }

  /** The same for create-then-delete pairs with names of their own: each ends with its volume created, or
      created and deleted, as it was called for. */
  lemma AllPairsFinish(c: Config, s: State) returns (run: seq<State>)
    requires Init(c, s) && Issued(s.w) && Pairs.OwnNames(s) && HasSpace(c)
    ensures IsKindRun(c, Pairs.PAIRS, run) && run[0] == s && Pairs.Finished(run[|run| - 1])
    ensures SameCalls(s, run[|run| - 1]) && AllAsCalledFor(run[|run| - 1])
  {
    run := FromTheStart(c, Pairs.PAIRS, s);
    EndedPairs(c, run);
    SameThreads(c, Pairs.PAIRS, run, |run| - 1);
  }

  lemma EndedThread(c: Config, w: World, th: Thread)
    requires Ended(Pairs.PAIRS, th) && Mine(c, w, th.name, th.pc) && !th.pc.Errored? &&
             (th.thenDelete || Creates(th.pc))
    ensures Terminal(th) && if th.thenDelete then th.pc.Deleted? else th.pc.Created?
  {
  }

  lemma EndedPairs(c: Config, run: seq<State>)
    requires IsKindRun(c, Pairs.PAIRS, run) && Issued(run[0].w) && Pairs.OwnNames(run[0]) && HasSpace(c)
    requires AllEnded(Pairs.PAIRS, run[|run| - 1])
    ensures Pairs.Finished(run[|run| - 1]) && AllAsCalledFor(run[|run| - 1])
  {
    PairsAreLucky(c, run, |run| - 1);
    Pairs.PairsKeepOrder(c, run, |run| - 1);
    SameThreads(c, Pairs.PAIRS, run, |run| - 1);
    var s := run[|run| - 1];
    forall i <- s.threads
      ensures Terminal(s.threads[i]) &&
              if s.threads[i].thenDelete then s.threads[i].pc.Deleted? else s.threads[i].pc.Created?
    {
      EndedThread(c, s.w, s.threads[i]);
    }
  }

  /******* A thread alone *******/

  /** A thread that goes from the lookup to the allocation with nobody in between comes to publish a volume
      exactly if the alias is taken, or the allocation is answered and there is space: then the one there is,
      with nothing changed, or a new one of its name on the node and lvstore that were scheduled. */
  lemma LookupThenAllocate(c: Config, name: string, w: World, node: string, store: string,
                           ch: Choice, pc: Pc, ch': Choice, pc': Pc, w': World)
    requires node in w.targets && Local(c, name, Lookup(node, store), w, ch, pc, w)
    requires if pc.Allocate? then Local(c, name, pc, w, ch', pc', w') else pc' == pc && w' == w
    ensures pc'.Publishing? <==> AliasTaken(w, node, store, name) || (ch'.answered && ch'.space)
    ensures pc'.Publishing? || (pc'.Failing? && w' == w)
    ensures pc'.Publishing? ==> HasAlias(w', pc'.id, node, store, name) && pc'.at == BeginPublish(c.access[node])
    ensures pc'.Publishing? ==>
              if AliasTaken(w, node, store, name) then w' == w
              else pc'.id !in w.issued && pc'.id in w'.issued
    ensures pc'.Publishing? && w' != w ==> w'.targets[node].lvols[pc'.id.lvol].size == ch'.size
  {
  }

  /** What is answered to one thread from its publication on. */
  datatype Answers = Answers(o: PublishAt -> bool, info: bool, u: UnpublishAt -> bool, drop: bool)

  predicate AnswerAt(r: Answers, pc: Pc) {
    match pc
    case Publishing(_, at) => r.o(at)
    case Info(_) => r.info
    case UndoPublish(_, from) => r.u(from)
    case UndoCreate(_) => r.drop
    case Unpublishing(_, from) => r.u(from)
    case Dropping(_) => r.drop
    case _ => true
  }

  function FinishPublish(at: PublishAt, t: Target, id: string, a: Access, o: PublishAt -> bool): (bool, Target)
    requires PublishFits(at, a)
  {
    match at
    case NvmfAt(p) => Publish(p, t, id, a.addr, p => o(NvmfAt(p)))
    case IscsiAt(q) => I.Publish(q, t, id, q => o(IscsiAt(q)))
  }

  function FinishUnpublish(from: UnpublishAt, t: Target, id: string, a: Access, o: UnpublishAt -> bool)
    : (Progress, Target)
    requires UnpublishFits(from, a)
  {
    match from
    case NvmfFrom(u) =>
      var (u', t') := Unpublish(u, t, id, a.addr, u => o(NvmfFrom(u))); (UnpublishProgress(NvmfFrom(u')), t')
    case IscsiFrom(v) =>
      var (v', t') := I.Unpublish(v, t, id, v => o(IscsiFrom(v))); (UnpublishProgress(IscsiFrom(v')), t')
  }

  function UndoAll(t: Target, id: string, a: Access, from: UnpublishAt, r: Answers): Target
    requires UnpublishFits(from, a)
  {
    DropLvol(FinishUnpublish(from, t, id, a, r.u).1, id, r.drop)
  }

  /** How a handler ends if nobody else moves: whether it succeeds, and the state of its node. */
  function Fate(pc: Pc, t: Target, a: Access, r: Answers): (bool, Target)
    requires HasId(pc) && (pc.Publishing? ==> PublishFits(pc.at, a))
    requires pc.UndoPublish? || pc.Unpublishing? ==> UnpublishFits(pc.from, a)
  {
    match pc
    case Publishing(id, at) =>
      var (ok, t') := FinishPublish(at, t, id.lvol, a, r.o);
      if !ok then (false, DropLvol(t', id.lvol, r.drop))
      else if r.info && id.lvol in t'.lvols then (true, t')
      else (false, UndoAll(t', id.lvol, a, BeginUnpublish(a), r))
    case Info(id) =>
      if r.info && id.lvol in t.lvols then (true, t) else (false, UndoAll(t, id.lvol, a, BeginUnpublish(a), r))
    case UndoPublish(id, from) => (false, UndoAll(t, id.lvol, a, from, r))
    case UndoCreate(id) => (false, DropLvol(t, id.lvol, r.drop))
    case Unpublishing(id, from) => (
      var (u, t') := FinishUnpublish(from, t, id.lvol, a, r.u);
      match u
      case Gone => (true, t')
      case Succeeded => (r.drop, DropLvol(t', id.lvol, r.drop))
      case _ => (false, t'))
    case Dropping(id) => (r.drop, DropLvol(t, id.lvol, r.drop))
    case Succeeding(_) => (true, t)
    case Created(_) => (true, t)
    case DeleteSucceeding(_) => (true, t)
    case Deleted(_) => (true, t)
    case DeleteFailing(_) => (false, t)
    case DeleteErrored(_) => (false, t)
  }

  lemma PublishStepsOn(at: PublishAt, t: Target, id: string, a: Access, o: PublishAt -> bool)
    requires PublishFits(at, a) && PublishProgress(at) == Running
    ensures var (at', t') := PublishNext(at, t, id, a, o(at));
            FinishPublish(at', t', id, a, o) == FinishPublish(at, t, id, a, o)
  {
  }

  lemma UnpublishStepsOn(from: UnpublishAt, t: Target, id: string, a: Access, o: UnpublishAt -> bool)
    requires UnpublishFits(from, a) && UnpublishProgress(from) == Running
    ensures var (from', t') := UnpublishNext(from, t, id, a, o(from));
            FinishUnpublish(from', t', id, a, o) == FinishUnpublish(from, t, id, a, o)
  {
  }

  /** Each step of a thread that has its volume, if it is answered as foreseen, leads towards the same end. */
  lemma StepKeepsFate(c: Config, name: string, pc: Pc, w: World, ch: Choice, pc': Pc, w': World, r: Answers)
    requires Local(c, name, pc, w, ch, pc', w') && InPlace(c, w, pc) && HasId(pc) && ch.answered == AnswerAt(r, pc)
    ensures var n := pc.id.node;
            n in w'.targets && w' == OnNode(w, n, w'.targets[n])
    ensures var n := pc.id.node;
            if pc'.Failing? then Fate(pc, w.targets[n], c.access[n], r) == (false, w'.targets[n])
            else InPlace(c, w', pc') && HasId(pc') && pc'.id == pc.id &&
                 Fate(pc', w'.targets[n], c.access[n], r) == Fate(pc, w.targets[n], c.access[n], r)
  {
    var t, a := w.targets[pc.id.node], c.access[pc.id.node];
    assert w.targets[pc.id.node := t] == w.targets;
    if pc.Publishing? && PublishProgress(pc.at) == Running {
      PublishStepsOn(pc.at, t, pc.id.lvol, a, r.o);
    } else if (pc.UndoPublish? || pc.Unpublishing?) && UnpublishProgress(pc.from) == Running {
      UnpublishStepsOn(pc.from, t, pc.id.lvol, a, r.u);
    }
  }

  /** And that end is that of the sequential CreateVolume and DeleteVolume. */
  lemma FateIsSequential(id: VolumeId, t: Target, a: Access, r: Answers)
    ensures Fate(Publishing(id, BeginPublish(a)), t, a, r) == PublishOrDeleteOn(t, id.lvol, a, r.o, r.info, r.u, r.drop)
    ensures Fate(Unpublishing(id, BeginUnpublish(a)), t, a, r) == DeleteOn(t, id.lvol, a, r.u, r.drop)
  {
    PublishVolumeOutcome(t, id.lvol, a, r.o);
  }
}
