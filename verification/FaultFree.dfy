/**
 Runs without RPC failures: what a thread can rely on about its own volume, and that nobody else's steps
 change it. Calls that find the nodes in good order never have to undo anything.
 */
module FaultFree {
  import opened SpdkTarget
  import opened Exports
  import opened Lifecycle
  import Unique = UniqueVolumes

  predicate HasId(pc: Pc) {
    !(pc.Start? || pc.Scan? || pc.Schedule? || pc.Lookup? || pc.Allocate? || pc.Failing? || pc.Errored?)
  }

  /** The thread works on, or has answered with, this volume. */
  predicate Owns(pc: Pc, id: VolumeId) {
    HasId(pc) && pc.id == id
  }

  predicate HasExport(c: Config, w: World, id: VolumeId) {
    KnownNode(c, w, id.node) && Exports.HasExport(w.targets[id.node], id.lvol, c.access[id.node])
  }

  /** The query for published volumes finds it: the node listens for it, or has its target node. */
  predicate Listens(c: Config, w: World, id: VolumeId) {
    KnownNode(c, w, id.node) && Serves(w.targets[id.node], id.lvol, c.access[id.node])
  }

  /** No subsystem without the node's listener. */
  predicate Clean(c: Config, w: World, id: VolumeId) {
    HasExport(c, w, id) ==> Listens(c, w, id)
  }

  /** Anything by the volume's ID, of either kind. */
  predicate HasAnything(w: World, id: VolumeId) {
    id.node in w.targets && (Nqn(id.lvol) in w.targets[id.node].subsystems || id.lvol in w.targets[id.node].nodes)
  }

  predicate TransportReady(c: Config, w: World, node: string) {
    KnownNode(c, w, node) && c.access[node].Nvmf? && c.access[node].addr.trtype in w.targets[node].transports
  }

  predicate PortalReady(w: World, node: string) {
    node in w.targets && TAG in w.targets[node].portalGroups
  }

  predicate InitiatorReady(w: World, node: string) {
    node in w.targets && TAG in w.targets[node].initiatorGroups
  }

  /** The target's state as far as one thread's volume is concerned. */
  predicate Mine(c: Config, w: World, name: string, pc: Pc) {
    HasId(pc) ==> KnownNode(c, w, pc.id.node) && pc.id in w.issued && MyVolume(c, w, name, pc)
  }

  predicate MyVolume(c: Config, w: World, name: string, pc: Pc)
    requires HasId(pc) && KnownNode(c, w, pc.id.node)
  {
    match pc
    case Publishing(id, at) => Carries(w, id, name) && PublishFits(at, c.access[id.node]) && MyExport(c, w, id, at)
    case Info(id) => Carries(w, id, name) && Listens(c, w, id)
    case Succeeding(id) => Carries(w, id, name) && Listens(c, w, id)
    case Created(id) => Carries(w, id, name) && Listens(c, w, id)
    case Unpublishing(id, from) => (
      && Carries(w, id, name) && UnpublishFits(from, c.access[id.node])
      && match UnpublishProgress(from)
         case Running => Listens(c, w, id)
         case Succeeded => !HasExport(c, w, id)
         case _ => false)
    case Dropping(id) => Carries(w, id, name) && !HasExport(c, w, id)
    case DeleteSucceeding(id) => !Exists(w, id) && !HasExport(c, w, id)
    case Deleted(id) => !Exists(w, id) && !HasExport(c, w, id)
    case _ => false
  }

  /** The export as far as publishing has got with it. */
  predicate MyExport(c: Config, w: World, id: VolumeId, at: PublishAt) {
    match at
    case NvmfAt(p) => (
      match p
      case CheckVolume => Clean(c, w, id)
      case CheckListener => Clean(c, w, id)
      case MakeTransport => !HasExport(c, w, id)
      case MakeSubsystem => !HasExport(c, w, id) && TransportReady(c, w, id.node)
      case AddNamespace => HasExport(c, w, id) && !Listens(c, w, id) && TransportReady(c, w, id.node)
      case AddListener => HasExport(c, w, id) && !Listens(c, w, id) && TransportReady(c, w, id.node)
      case Published => Listens(c, w, id)
      case _ => false)
    case IscsiAt(q) => (
      match q
      case CheckVolume => true
      case CheckNode => true
      case GetPortal => !Listens(c, w, id)
      case MakePortal => !Listens(c, w, id)
      case GetPortalAgain => !Listens(c, w, id) && PortalReady(w, id.node)
      case GetInitiator => !Listens(c, w, id) && PortalReady(w, id.node)
      case MakeInitiator => !Listens(c, w, id) && PortalReady(w, id.node)
      case GetInitiatorAgain => !Listens(c, w, id) && PortalReady(w, id.node) && InitiatorReady(w, id.node)
      case MakeNode => !Listens(c, w, id) && PortalReady(w, id.node) && InitiatorReady(w, id.node)
      case Published => Listens(c, w, id)
      case PublishFailed => false)
  }

  /** Nothing but this volume's lvol and export differs, and transports, groups and UUIDs in use only
      grow. This is what any step of any thread does, in any mode. */
  ghost predicate Touches(w: World, w': World, id: VolumeId) {
    && w'.targets.Keys == w.targets.Keys && w.issued <= w'.issued
    && (forall n <- w.targets :: n != id.node ==> w'.targets[n] == w.targets[n])
    && (id.node in w.targets ==>
          var t, t' := w.targets[id.node], w'.targets[id.node];
          SameElsewhere(t, t', id.lvol) && t'.lvols - {id.lvol} == t.lvols - {id.lvol})
  }

  /** Operations on one volume leave every other volume's lvol and export alone: whatever the RPCs
      answer, a step changes at most the thread's own volume. */
  lemma StepsTouchOneVolume(c: Config, name: string, pc: Pc, w: World, ch: Choice, pc': Pc, w': World)
    requires Local(c, name, pc, w, ch, pc', w')
    ensures w' == w || (HasId(pc') && Touches(w, w', pc'.id)) || (HasId(pc) && Touches(w, w', pc.id))
  {
    if pc.Publishing? {
      PublishingTouches(c, name, pc, w, ch, pc', w');
    } else if pc.UndoPublish? || pc.Unpublishing? {
      UnpublishingTouches(c, name, pc, w, ch, pc', w');
    }
  }

  lemma PublishingTouches(c: Config, name: string, pc: Pc, w: World, ch: Choice, pc': Pc, w': World)
    requires pc.Publishing? && Local(c, name, pc, w, ch, pc', w')
    ensures w' == w || Touches(w, w', pc.id)
  {
    if PublishProgress(pc.at) == Running {
      PublishNextEffect(pc.at, w.targets[pc.id.node], pc.id.lvol, c.access[pc.id.node], ch.answered);
    }
  }

  lemma UnpublishingTouches(c: Config, name: string, pc: Pc, w: World, ch: Choice, pc': Pc, w': World)
    requires (pc.UndoPublish? || pc.Unpublishing?) && Local(c, name, pc, w, ch, pc', w')
    ensures w' == w || Touches(w, w', pc.id)
  {
    if UnpublishProgress(pc.from) == Running {
      UnpublishNextEffect(pc.from, w.targets[pc.id.node], pc.id.lvol, c.access[pc.id.node], ch.answered);
    }
  }

  /** So a thread's view of its volume survives steps on other volumes. */
  lemma OtherVolumesAreKept(c: Config, w: World, w': World, id: VolumeId, other: VolumeId)
    requires Touches(w, w', id) && other != id
    ensures Exists(w', other) <==> Exists(w, other)
    ensures Exists(w, other) ==> w'.targets[other.node].lvols[other.lvol] == w.targets[other.node].lvols[other.lvol]
    ensures other.node in w.targets ==>
            other.node in w'.targets && SameExport(w.targets[other.node], w'.targets[other.node], other.lvol)
    ensures HasExport(c, w', other) <==> HasExport(c, w, other)
    ensures Listens(c, w', other) <==> Listens(c, w, other)
    ensures HasAnything(w', other) <==> HasAnything(w, other)
  {
    if other.node == id.node && id.node in w.targets {
      var t, t' := w.targets[id.node], w'.targets[id.node];
      OtherExportIsKept(t, t', id.lvol, other.lvol);
      assert other.lvol in t.lvols <==> other.lvol in t.lvols - {id.lvol};
      assert other.lvol in t'.lvols <==> other.lvol in t'.lvols - {id.lvol};
      assert other.lvol in t.lvols ==> (t.lvols - {id.lvol})[other.lvol] == t.lvols[other.lvol];
    }
  }

  /** The subsystem and the target node of a volume are the same before and after. */
  predicate SameExport(t: Target, t': Target, lvol: string) {
    && (Nqn(lvol) in t'.subsystems <==> Nqn(lvol) in t.subsystems)
    && (Nqn(lvol) in t.subsystems ==> t'.subsystems[Nqn(lvol)] == t.subsystems[Nqn(lvol)])
    && (lvol in t'.nodes <==> lvol in t.nodes)
  }

  lemma OtherExportIsKept(t: Target, t': Target, lvol: string, other: string)
    requires SameElsewhere(t, t', lvol) && other != lvol
    ensures SameExport(t, t', other)
  {
    var nqn := Nqn(other);
    if nqn == Nqn(lvol) { NqnIsInjective(other, lvol); }
    assert nqn in t.subsystems <==> nqn in t.subsystems - {Nqn(lvol)};
    assert nqn in t'.subsystems <==> nqn in t'.subsystems - {Nqn(lvol)};
    assert nqn in t.subsystems ==> (t.subsystems - {Nqn(lvol)})[nqn] == t.subsystems[nqn];
    assert other in t.nodes <==> other in t.nodes - {lvol};
    assert other in t'.nodes <==> other in t'.nodes - {lvol};
  }

  /** What is shared by a node's volumes only grows. */
  lemma SharedSetupIsKept(c: Config, w: World, w': World, id: VolumeId, node: string)
    requires Touches(w, w', id)
    ensures KnownNode(c, w, node) ==> KnownNode(c, w', node)
    ensures TransportReady(c, w, node) ==> TransportReady(c, w', node)
    ensures PortalReady(w, node) ==> PortalReady(w', node)
    ensures InitiatorReady(w, node) ==> InitiatorReady(w', node)
  {
  }

  lemma MineIsKept(c: Config, w: World, w': World, id: VolumeId, name: string, pc: Pc)
    requires Touches(w, w', id) && Mine(c, w, name, pc) && !Owns(pc, id)
    ensures Mine(c, w', name, pc)
  {
    if HasId(pc) {
      OtherVolumesAreKept(c, w, w', id, pc.id);
      SharedSetupIsKept(c, w, w', id, pc.id.node);
    }
  }

  /** A thread that is answered gets from each of its steps to the next in good order. */
  lemma LocalKeepsMine(c: Config, name: string, pc: Pc, w: World, ch: Choice, pc': Pc, w': World)
    requires Local(c, name, pc, w, ch, pc', w') && ch.answered && Mine(c, w, name, pc)
    requires c.Valid() && w.targets.Keys == c.stores.Keys
    requires Issued(w)
    requires (pc.Scan? || pc.Lookup?) && pc'.Publishing? ==> Clean(c, w, pc'.id)
    ensures Mine(c, w', name, pc')
  {
    if pc.Publishing? {
      PublishingKeepsMine(c, name, pc, w, ch, pc', w');
    } else if pc.Unpublishing? {
      UnpublishingKeepsMine(c, name, pc, w, ch, pc', w');
    }
  }

  lemma UnpublishingKeepsMine(c: Config, name: string, pc: Pc, w: World, ch: Choice, pc': Pc, w': World)
    requires pc.Unpublishing? && Local(c, name, pc, w, ch, pc', w') && ch.answered && Mine(c, w, name, pc)
    ensures Mine(c, w', name, pc')
  {
  }

  lemma PublishingKeepsMine(c: Config, name: string, pc: Pc, w: World, ch: Choice, pc': Pc, w': World)
    requires pc.Publishing? && Local(c, name, pc, w, ch, pc', w') && ch.answered && Mine(c, w, name, pc)
    ensures Mine(c, w', name, pc')
  {
  }

  /******* Creating only *******/

  const CREATES := Mode(false, false, false)

  predicate Creates(pc: Pc) {
    !(pc.Unpublishing? || pc.Dropping? || pc.DeleteSucceeding? || pc.DeleteFailing? || pc.Deleted? || pc.DeleteErrored?)
  }

  /** Between creating the volume's subsystem and adding the listener. */
  predicate Midway(pc: Pc, id: VolumeId) {
    pc.Publishing? && pc.id == id && (pc.at == NvmfAt(AddNamespace) || pc.at == NvmfAt(AddListener))
  }

  ghost predicate Issued(w: World) {
    forall id :: Exists(w, id) || HasAnything(w, id) ==> id in w.issued
  }

  ghost predicate CleanOrMidway(c: Config, s: State, id: VolumeId) {
    Clean(c, s.w, id) || exists i <- s.threads :: Midway(s.threads[i].pc, id)
  }

  ghost predicate InvCreates(c: Config, s: State) {
    && Unique.Inv(c, s) && Issued(s.w)
    && (forall i <- s.threads :: Mine(c, s.w, s.threads[i].name, s.threads[i].pc) && Creates(s.threads[i].pc))
    && (forall id :: Exists(s.w, id) ==> CleanOrMidway(c, s, id))
  }

  /** A volume found by a thread is not half published: whoever is publishing it holds the lock on
      the name, and that is the finder itself. */
  lemma FoundIsClean(c: Config, s: State, i: nat, id: VolumeId)
    requires InvCreates(c, s) && i in s.threads && HoldsName(s.threads[i].pc) && !s.threads[i].pc.Publishing?
    requires Carries(s.w, id, s.threads[i].name)
    ensures Clean(c, s.w, id)
  {
  }

  /** A volume of two threads is past its publication: it has one name, and only one of them holds the
      lock on it. */
  lemma SharedVolumeIsPublished(c: Config, s: State, i: nat, j: nat, id: VolumeId)
    requires InvCreates(c, s) && i in s.threads && j in s.threads && i != j
    requires Owns(s.threads[i].pc, id) && Owns(s.threads[j].pc, id) && HoldsName(s.threads[i].pc)
    ensures Listens(c, s.w, id)
  {
  }

  /** One thread's step to good order keeps the others' good order. */
  lemma OthersKeepMine(c: Config, s: State, w': World, i: nat, j: nat, id: VolumeId)
    requires InvCreates(c, s) && i in s.threads && j in s.threads && i != j
    requires Touches(s.w, w', id)
    requires id !in s.w.issued || (Owns(s.threads[i].pc, id) && HoldsName(s.threads[i].pc) && !Listens(c, s.w, id))
    ensures Mine(c, w', s.threads[j].name, s.threads[j].pc)
  {
    var name, pc := s.threads[j].name, s.threads[j].pc;
    if !Owns(pc, id) {
      MineIsKept(c, s.w, w', id, name, pc);
    } else if Owns(s.threads[i].pc, id) && HoldsName(s.threads[i].pc) {
      SharedVolumeIsPublished(c, s, i, j, id);
    }
  }

  /** What an answered step of a creating thread comes to: good order for itself, and no change to the
      nodes except to its volume, and then only if the volume is brand new or nothing listens for it. */
  ghost predicate OrderlyStep(c: Config, s: State, s': State, i: nat) {
    && OnlyThread(s, s', i) && s'.w.targets.Keys == s.w.targets.Keys
    && var pc, pc' := s.threads[i].pc, s'.threads[i].pc;
    && Mine(c, s'.w, s.threads[i].name, pc') && Creates(pc') && (HasId(pc) ==> Owns(pc', pc.id))
    && (s'.w != s.w ==>
          && HoldsName(pc) && HasId(pc') && Touches(s.w, s'.w, pc'.id)
          && (pc'.id !in s.w.issued || (Owns(pc, pc'.id) && !Listens(c, s.w, pc'.id))))
  }

  lemma HandlerStepIsOrderly(c: Config, s: State, s': State, i: nat, ch: Choice)
    requires HandlerStep(c, CREATES, s, s', i, ch)
    requires Mine(c, s.w, s.threads[i].name, s.threads[i].pc) && Creates(s.threads[i].pc)
    requires c.Valid() && s.w.targets.Keys == c.stores.Keys && Issued(s.w)
    requires !HasId(s.threads[i].pc) && HasId(s'.threads[i].pc) && s'.w == s.w ==> Clean(c, s.w, s'.threads[i].pc.id)
    ensures OrderlyStep(c, s, s', i)
  {
    LocalKeepsMine(c, s.threads[i].name, s.threads[i].pc, s.w, ch, s'.threads[i].pc, s'.w);
    StepsTouchOneVolume(c, s.threads[i].name, s.threads[i].pc, s.w, ch, s'.threads[i].pc, s'.w);
  }

  lemma OrderlyStepKeepsCreates(c: Config, s: State, s': State, i: nat)
    requires InvCreates(c, s) && Unique.Inv(c, s') && OrderlyStep(c, s, s', i)
    ensures InvCreates(c, s')
  {
    var pc' := s'.threads[i].pc;
    if s'.w != s.w {
      forall j <- s'.threads | j != i
        ensures Mine(c, s'.w, s.threads[j].name, s.threads[j].pc)
      {
        OthersKeepMine(c, s, s'.w, i, j, pc'.id);
      }
    }
    forall other | Exists(s'.w, other) || HasAnything(s'.w, other)
      ensures other in s'.w.issued && (Exists(s'.w, other) ==> CleanOrMidway(c, s', other))
    {
      if Owns(pc', other) {
        assert Clean(c, s'.w, other) || Midway(s'.threads[i].pc, other);
      } else {
        if s'.w != s.w { OtherVolumesAreKept(c, s.w, s'.w, pc'.id, other); }
        assert Exists(s.w, other) ==> CleanOrMidway(c, s, other);
        if j :| j in s.threads && Midway(s.threads[j].pc, other) {
          assert Midway(s'.threads[j].pc, other);
        }
      }
    }
  }

  lemma LockStepIsOrderly(c: Config, s: State, s': State, i: nat)
    requires LockStep(c, CREATES, s, s', i)
    requires Mine(c, s.w, s.threads[i].name, s.threads[i].pc) && Creates(s.threads[i].pc)
    ensures OrderlyStep(c, s, s', i)
  {
  }

  /** Besides `Init`: every existing subsystem belongs to an issued UUID, and no existing volume has
      one without the node's listener. */
  ghost predicate CleanStart(c: Config, s: State) {
    Issued(s.w) && forall id :: Exists(s.w, id) ==> Clean(c, s.w, id)
  }

  lemma AnyStepIsOrderly(c: Config, s: State, s': State, i: nat, ch: Choice)
    requires InvCreates(c, s)
    requires LockStep(c, CREATES, s, s', i) || HandlerStep(c, CREATES, s, s', i, ch)
    ensures OrderlyStep(c, s, s', i)
  {
    var pc, pc' := s.threads[i].pc, s'.threads[i].pc;
    if LockStep(c, CREATES, s, s', i) {
      LockStepIsOrderly(c, s, s', i);
    } else {
      if !HasId(pc) && HasId(pc') && s'.w == s.w {
        FoundIsClean(c, s, i, pc'.id);
      }
      HandlerStepIsOrderly(c, s, s', i, ch);
    }
  }

  lemma {:induction false} CreatesKeepOrder(c: Config, run: seq<State>, k: nat)
    requires IsRun(c, CREATES, run) && CleanStart(c, run[0]) && k < |run|
    ensures InvCreates(c, run[k])
  {
    Unique.NamesStayUnique(c, CREATES, run, k);
    if k == 0 {
      forall id | Exists(run[0].w, id) ensures CleanOrMidway(c, run[0], id) {}
    } else {
      CreatesKeepOrder(c, run, k - 1);
      assert Next(c, CREATES, run[k - 1], run[k - 1 + 1]);
      var i, ch :| Step(c, CREATES, run[k - 1], run[k], i, ch);
      StepKinds(c, CREATES, run[k - 1], run[k], i, ch);
      AnyStepIsOrderly(c, run[k - 1], run[k], i, ch);
      OrderlyStepKeepsCreates(c, run[k - 1], run[k], i);
    }
  }

  predicate GivesUp(pc: Pc) {
    pc.UndoPublish? || pc.UndoCreate?
    || (pc.Publishing? && (PublishProgress(pc.at) == Failed || (pc.at.NvmfAt? && 0 < PublishRank(pc.at.p) <= 3)))
  }

  /** If no volume starts with a subsystem that lacks the node's listener, no call that has found or
      created its volume ever gives it up, and so none deletes a volume. */
  lemma NoCreateGivesUp(c: Config, run: seq<State>, k: nat, i: nat)
    requires IsRun(c, CREATES, run) && CleanStart(c, run[0]) && k < |run| && i in run[k].threads
    ensures !GivesUp(run[k].threads[i].pc)
  {
    CreatesKeepOrder(c, run, k);
  }
}
