/**
 Any number of CreateVolume calls, each possibly followed by the DeleteVolume of what it returned,
 run by concurrent threads of the controller over any number of storage nodes, each NVMe-oF or
 iSCSI. A step is one lock operation or one RPC; threads interleave freely between steps. The order
 in which nodes and lvstores are visited, the lvstore the scheduler picks, the UUID of a new lvol
 and what the RPCs answer are all arbitrary.
 */
module Lifecycle {
  import opened SpdkTarget
  import opened Exports

  datatype VolumeId = VolumeId(node: string, lvol: string)

  /** The configured nodes: their lvstores, and how they export volumes. */
  datatype Config = Config(stores: map<string, set<string>>, access: map<string, Access>) {
    predicate Valid() {
      stores.Keys == access.Keys
    }
  }

  datatype Pc =
    | Start                                                         // CreateVolume, before Lock(name)
    | Scan(nodes: set<string>, here: string, left: set<string>)     // getVolume
    | Schedule
    | Lookup(node: string, store: string)                           // node.CreateVolume: is the alias taken?
    | Allocate(node: string, store: string)                         // bdev_lvol_create
    | Publishing(id: VolumeId, at: PublishAt)
    | Info(id: VolumeId)
    | UndoPublish(id: VolumeId, from: UnpublishAt)
    | UndoCreate(id: VolumeId)
    | Succeeding(id: VolumeId)                                      // about to unlock and answer
    | Failing
    | Created(id: VolumeId)
    | Errored
    | Unpublishing(id: VolumeId, from: UnpublishAt)                 // DeleteVolume, inside Lock(id)
    | Dropping(id: VolumeId)
    | DeleteSucceeding(id: VolumeId)
    | DeleteFailing(id: VolumeId)
    | Deleted(id: VolumeId)
    | DeleteErrored(id: VolumeId)

  datatype Thread = Thread(name: string, thenDelete: bool, pc: Pc)

  /** `issued` holds every UUID ever handed out: the target does not reuse them. */
  datatype World = World(targets: map<string, Target>, issued: set<VolumeId>)

  datatype State = State(w: World, names: map<string, nat>, ids: map<VolumeId, nat>, threads: map<nat, Thread>)

  predicate Exists(w: World, id: VolumeId) {
    id.node in w.targets && id.lvol in w.targets[id.node].lvols
  }

  predicate Carries(w: World, id: VolumeId, name: string) {
    Exists(w, id) && w.targets[id.node].lvols[id.lvol].name == name
  }

  function StoreOf(w: World, id: VolumeId): string
    requires Exists(w, id)
  {
    w.targets[id.node].lvols[id.lvol].store
  }

  /** `id` is what `bdev_get_bdevs` finds under the alias store/name. */
  predicate HasAlias(w: World, id: VolumeId, node: string, store: string, name: string) {
    id.node == node && Carries(w, id, name) && StoreOf(w, id) == store
  }

  ghost predicate AliasTaken(w: World, node: string, store: string, name: string) {
    exists id :: HasAlias(w, id, node, store, name)
  }

  /******* One thread's program *******/

  /** What the environment decides in a step. */
  datatype Choice = Choice(answered: bool, node: string, store: string, id: VolumeId, space: bool, size: int)

  predicate KnownNode(c: Config, w: World, node: string) {
    node in c.access && node in w.targets
  }

  /** The next point of a call that has its volume. */
  ghost predicate Publishes(c: Config, id: VolumeId, pc': Pc) {
    id.node in c.access && pc' == Publishing(id, BeginPublish(c.access[id.node]))
  }

  function OnNode(w: World, node: string, t: Target): World {
    w.(targets := w.targets[node := t])
  }

  ghost predicate Local(c: Config, name: string, pc: Pc, w: World, ch: Choice, pc': Pc, w': World) {
    match pc
    case Scan(nodes, here, left) =>
      w' == w &&
      if left != {} then
        ch.store in left &&
        if AliasTaken(w, here, ch.store, name)
        then HasAlias(w, ch.id, here, ch.store, name) && Publishes(c, ch.id, pc')
        else pc' == Scan(nodes, here, left - {ch.store})
      else if nodes != {} then
        ch.node in nodes && ch.node in c.stores &&
        // an lvstore query that fails ends the scan, and the volume counts as not found
        pc' == if ch.answered then Scan(nodes - {ch.node}, ch.node, c.stores[ch.node]) else Schedule
      else
        pc' == Schedule
    case Schedule =>
      w' == w &&
      if ch.space then ch.node in c.stores && ch.store in c.stores[ch.node] && pc' == Lookup(ch.node, ch.store)
      else pc' == Failing
    case Lookup(node, store) =>
      w' == w &&
      if AliasTaken(w, node, store, name)
      then HasAlias(w, ch.id, node, store, name) && Publishes(c, ch.id, pc')
      else pc' == Allocate(node, store)
    case Allocate(node, store) =>
      if ch.answered && ch.space && !AliasTaken(w, node, store, name) && node in w.targets then
        && ch.id.node == node && ch.id !in w.issued
        && var t := w.targets[node];
        && w' == World(w.targets[node := t.(lvols := t.lvols[ch.id.lvol := Lvol(name, store, ch.size)])],
                      w.issued + {ch.id})
        && Publishes(c, ch.id, pc')
      else
        w' == w && pc' == Failing
    case Publishing(id, at) => (
      match PublishProgress(at)
      case Succeeded => w' == w && pc' == Info(id)
      case Failed => w' == w && pc' == UndoCreate(id)
      case _ =>
        && KnownNode(c, w, id.node) && PublishFits(at, c.access[id.node])
        && var (at', t') := PublishNext(at, w.targets[id.node], id.lvol, c.access[id.node], ch.answered);
        pc' == Publishing(id, at') && w' == OnNode(w, id.node, t'))
    case Info(id) =>
      && w' == w && id.node in c.access
      && pc' == if ch.answered && Exists(w, id) then Succeeding(id)
                else UndoPublish(id, BeginUnpublish(c.access[id.node]))
    case UndoPublish(id, from) =>
      if UnpublishProgress(from) != Running then w' == w && pc' == UndoCreate(id)
      else (
        && KnownNode(c, w, id.node) && UnpublishFits(from, c.access[id.node])
        && var (from', t') := UnpublishNext(from, w.targets[id.node], id.lvol, c.access[id.node], ch.answered);
        pc' == UndoPublish(id, from') && w' == OnNode(w, id.node, t'))
    case UndoCreate(id) =>
      KnownNode(c, w, id.node) && pc' == Failing
      && w' == OnNode(w, id.node, DropLvol(w.targets[id.node], id.lvol, ch.answered))
    case Unpublishing(id, from) => (
      match UnpublishProgress(from)
      case Succeeded => w' == w && pc' == Dropping(id)
      case Gone => w' == w && pc' == DeleteSucceeding(id)
      case Failed => w' == w && pc' == DeleteFailing(id)
      case Running =>
        && KnownNode(c, w, id.node) && UnpublishFits(from, c.access[id.node])
        && var (from', t') := UnpublishNext(from, w.targets[id.node], id.lvol, c.access[id.node], ch.answered);
        pc' == Unpublishing(id, from') && w' == OnNode(w, id.node, t'))
    case Dropping(id) =>
      KnownNode(c, w, id.node) && pc' == (if ch.answered then DeleteSucceeding(id) else DeleteFailing(id))
      && w' == OnNode(w, id.node, DropLvol(w.targets[id.node], id.lvol, ch.answered))
    case _ => false
  }

  /******* All threads *******/

  /** Which troubles a run may contain: a failing lvstore query during getVolume, any other RPC
      failing, and DeleteVolume calls. */
  datatype Mode = Mode(scanFaults: bool, faults: bool, deletes: bool)

  predicate Allowed(mode: Mode, pc: Pc, ch: Choice) {
    ch.answered || (if pc.Scan? then mode.scanFaults else mode.faults)
  }

  function SetPc(s: State, i: nat, pc: Pc): map<nat, Thread>
    requires i in s.threads
  {
    s.threads[i := s.threads[i].(pc := pc)]
  }

  /** Thread `i` makes one step. */
  ghost predicate Step(c: Config, mode: Mode, s: State, s': State, i: nat, ch: Choice) {
    i in s.threads &&
    var th := s.threads[i];
    match th.pc
    case Start =>
      th.name !in s.names && s' == State(s.w, s.names[th.name := i], s.ids, SetPc(s, i, Scan(c.stores.Keys, "", {})))
    case Succeeding(id) =>
      s' == State(s.w, s.names - {th.name}, s.ids, SetPc(s, i, Created(id)))
    case Failing =>
      s' == State(s.w, s.names - {th.name}, s.ids, SetPc(s, i, Errored))
    case Created(id) =>
      mode.deletes && th.thenDelete && id !in s.ids && id.node in c.access &&
      s' == State(s.w, s.names, s.ids[id := i], SetPc(s, i, Unpublishing(id, BeginUnpublish(c.access[id.node]))))
    case DeleteSucceeding(id) =>
      s' == State(s.w, s.names, s.ids - {id}, SetPc(s, i, Deleted(id)))
    case DeleteFailing(id) =>
      s' == State(s.w, s.names, s.ids - {id}, SetPc(s, i, DeleteErrored(id)))
    case _ =>
      && Allowed(mode, th.pc, ch)
      && i in s'.threads
      && Local(c, th.name, th.pc, s.w, ch, s'.threads[i].pc, s'.w)
      && s' == State(s'.w, s.names, s.ids, SetPc(s, i, s'.threads[i].pc))
  }

  /** Inside `Lock(name)` of CreateVolume. */
  predicate HoldsName(pc: Pc) {
    pc.Scan? || pc.Schedule? || pc.Lookup? || pc.Allocate? || pc.Publishing? || pc.Info?
    || pc.UndoPublish? || pc.UndoCreate? || pc.Succeeding? || pc.Failing?
  }

  /** The next step takes or releases a lock. */
  predicate AtLock(pc: Pc) {
    pc.Start? || pc.Succeeding? || pc.Failing? || pc.Created? || pc.DeleteSucceeding? || pc.DeleteFailing?
  }

  ghost predicate OnlyThread(s: State, s': State, i: nat) {
    && i in s.threads && s'.threads.Keys == s.threads.Keys
    && s'.threads[i] == s.threads[i].(pc := s'.threads[i].pc)
    && forall j <- s.threads :: j != i ==> s'.threads[j] == s.threads[j]
  }

  /** A step inside a handler leaves the locks alone. */
  ghost predicate HandlerStep(c: Config, mode: Mode, s: State, s': State, i: nat, ch: Choice) {
    && OnlyThread(s, s', i) && !AtLock(s.threads[i].pc)
    && s'.names == s.names && s'.ids == s.ids && Allowed(mode, s.threads[i].pc, ch)
    && Local(c, s.threads[i].name, s.threads[i].pc, s.w, ch, s'.threads[i].pc, s'.w)
  }

  /** A step on a lock leaves the storage nodes alone. */
  ghost predicate LockStep(c: Config, mode: Mode, s: State, s': State, i: nat) {
    && OnlyThread(s, s', i) && s'.w == s.w
    && var name, pc, pc' := s.threads[i].name, s.threads[i].pc, s'.threads[i].pc;
    match pc
    case Start => name !in s.names && s'.names == s.names[name := i] && pc' == Scan(c.stores.Keys, "", {})
    case Succeeding(id) => s'.names == s.names - {name} && pc' == Created(id)
    case Failing => s'.names == s.names - {name} && pc' == Errored
    case Created(id) =>
      && mode.deletes && s'.names == s.names && id.node in c.access
      && pc' == Unpublishing(id, BeginUnpublish(c.access[id.node]))
    case DeleteSucceeding(id) => s'.names == s.names && pc' == Deleted(id)
    case DeleteFailing(id) => s'.names == s.names && pc' == DeleteErrored(id)
    case _ => false
  }

  lemma StepKinds(c: Config, mode: Mode, s: State, s': State, i: nat, ch: Choice)
    requires Step(c, mode, s, s', i, ch)
    ensures if AtLock(s.threads[i].pc) then LockStep(c, mode, s, s', i) else HandlerStep(c, mode, s, s', i, ch)
  {
  }

  ghost predicate Next(c: Config, mode: Mode, s: State, s': State) {
    exists i, ch :: Step(c, mode, s, s', i, ch)
  }

  predicate Terminal(th: Thread) {
    th.pc.Errored? || th.pc.Deleted? || th.pc.DeleteErrored? || (th.pc.Created? && !th.thenDelete)
  }

  ghost predicate UniqueNames(w: World) {
    forall a, b, name :: Carries(w, a, name) && Carries(w, b, name) ==> a == b
  }

  /** Everything is in the configured nodes and lvstores, no UUID is ahead of its issue, no two
      lvols have one name, no lock is held and no call has begun. */
  ghost predicate Init(c: Config, s: State) {
    && c.Valid()
    && s.w.targets.Keys == c.stores.Keys
    && (forall id :: Exists(s.w, id) ==> StoreOf(s.w, id) in c.stores[id.node] && id in s.w.issued)
    && UniqueNames(s.w)
    && s.names == map[] && s.ids == map[]
    && (forall i <- s.threads :: s.threads[i].pc == Start)
  }

  ghost predicate IsRun(c: Config, mode: Mode, run: seq<State>) {
    && run != [] && Init(c, run[0])
    && forall k :: 0 <= k < |run| - 1 ==> Next(c, mode, run[k], run[k + 1])
  }
}
