/**
 Without RPC failures and deletions, concurrent CreateVolume calls of one name all answer with the same
 volume. It is exported by this driver, unless its node listened for it from the start: such a volume is
 left exactly as it was.
 */
module SameVolume {
  import opened SpdkTarget
  import opened Exports
  import opened Lifecycle
  import opened FaultFree

  /** What a creating thread can rely on about its volume. It may be going to give up, but then nothing
      listens for the volume. */
  predicate Holding(c: Config, w: World, name: string, pc: Pc) {
    HasId(pc) ==>
      && KnownNode(c, w, pc.id.node) && Carries(w, pc.id, name)
      && match pc
         case Publishing(id, at) => PublishFits(at, c.access[id.node]) && HoldingExport(c, w, id, at)
         case Info(id) => Listens(c, w, id)
         case UndoCreate(id) => !Listens(c, w, id)
         case Succeeding(id) => Listens(c, w, id)
         case Created(id) => Listens(c, w, id)
         case _ => false
  }

  predicate HoldingExport(c: Config, w: World, id: VolumeId, at: PublishAt) {
    match at
    case NvmfAt(p) => (
      match p
      case CheckVolume => true
      case CheckListener => true
      case MakeTransport => !Listens(c, w, id)
      case MakeSubsystem => !Listens(c, w, id) && TransportReady(c, w, id.node)
      case AddNamespace => IsSubsystem(w, id, Subsystem({}, {})) && TransportReady(c, w, id.node)
      case AddListener => IsSubsystem(w, id, Subsystem({id.lvol}, {})) && TransportReady(c, w, id.node)
      case Published => Listens(c, w, id)
      case PublishFailed => !Listens(c, w, id)
      case _ => false)
    case IscsiAt(q) => MyExport(c, w, id, at)
  }

  predicate IsSubsystem(w: World, id: VolumeId, sub: Subsystem) {
    && id.node in w.targets && Nqn(id.lvol) in w.targets[id.node].subsystems
    && w.targets[id.node].subsystems[Nqn(id.lvol)] == sub
  }

  /** A host can reach the volume. */
  predicate IsReachable(c: Config, w: World, id: VolumeId) {
    KnownNode(c, w, id.node) && Reachable(w.targets[id.node], id.lvol, c.access[id.node])
  }

  ghost predicate Untouched(w0: World, w: World, id: VolumeId) {
    id.node in w0.targets && id.node in w.targets && SameExport(w0.targets[id.node], w.targets[id.node], id.lvol)
  }

  /** What is listened for now was so from the start and is as it was, or can be reached. */
  ghost predicate Account(c: Config, w0: World, w: World, id: VolumeId) {
    if Listens(c, w0, id) then Listens(c, w, id) && Untouched(w0, w, id)
    else Listens(c, w, id) ==> IsReachable(c, w, id)
  }

  /** Transports and groups are never taken away. */
  ghost predicate Grown(w0: World, w: World) {
    forall n <- w0.targets ::
      n in w.targets && w0.targets[n].transports <= w.targets[n].transports
      && (PortalReady(w0, n) ==> PortalReady(w, n)) && (InitiatorReady(w0, n) ==> InitiatorReady(w, n))
  }

  ghost predicate Inv(c: Config, w0: World, s: State) {
    && Unique.Inv(c, s) && Grown(w0, s.w)
    && (forall i <- s.threads :: Holding(c, s.w, s.threads[i].name, s.threads[i].pc))
    && (forall id :: Account(c, w0, s.w, id))
  }

  lemma LocalKeepsHolding(c: Config, name: string, pc: Pc, w: World, ch: Choice, pc': Pc, w': World)
    requires Local(c, name, pc, w, ch, pc', w') && ch.answered && Holding(c, w, name, pc)
    requires c.Valid() && w.targets.Keys == c.stores.Keys
    ensures Holding(c, w', name, pc')
  {
    if pc.Publishing? {
      if pc.at.NvmfAt? {
        NvmfKeepsHolding(c, name, pc, w, ch, pc', w');
      } else {
        IscsiKeepsHolding(c, name, pc, w, ch, pc', w');
      }
    }
  }

  lemma NvmfKeepsHolding(c: Config, name: string, pc: Pc, w: World, ch: Choice, pc': Pc, w': World)
    requires pc.Publishing? && pc.at.NvmfAt? && Local(c, name, pc, w, ch, pc', w') &&
             ch.answered && Holding(c, w, name, pc)
    ensures Holding(c, w', name, pc')
  {
  }

  lemma IscsiKeepsHolding(c: Config, name: string, pc: Pc, w: World, ch: Choice, pc': Pc, w': World)
    requires pc.Publishing? && pc.at.IscsiAt? && Local(c, name, pc, w, ch, pc', w') &&
             ch.answered && Holding(c, w, name, pc)
    ensures Holding(c, w', name, pc')
  {
  }

  /** A step changes at most the thread's own volume, and only one that is brand new or that nothing
      listens for; if something listens for it afterwards, it can be reached. */
  ghost predicate Cautious(c: Config, w: World, w': World, pc: Pc, id: VolumeId) {
    && Touches(w, w', id) && (id !in w.issued || (Owns(pc, id) && !Listens(c, w, id)))
    && (Untouched(w, w', id) || (!Listens(c, w, id) && (Listens(c, w', id) ==> IsReachable(c, w', id))))
  }

  lemma LocalIsCautious(c: Config, name: string, pc: Pc, w: World, ch: Choice, pc': Pc, w': World)
    requires Local(c, name, pc, w, ch, pc', w') && ch.answered && Holding(c, w, name, pc)
    ensures w' == w || exists id :: Cautious(c, w, w', pc, id)
  {
    StepsTouchOneVolume(c, name, pc, w, ch, pc', w');
    if w' != w {
      if pc.Publishing? {
        PublishingIsCautious(c, name, pc, w, ch, pc', w');
      } else if pc.Allocate? {
        assert Cautious(c, w, w', pc, ch.id);
      } else {
        assert Cautious(c, w, w', pc, pc.id);
      }
    }
  }

  lemma PublishingIsCautious(c: Config, name: string, pc: Pc, w: World, ch: Choice, pc': Pc, w': World)
    requires pc.Publishing? && Local(c, name, pc, w, ch, pc', w') && ch.answered && Holding(c, w, name, pc)
    requires w' != w && Touches(w, w', pc.id)
    ensures Cautious(c, w, w', pc, pc.id)
  {
  }

  lemma GrownIsKept(w0: World, w: World, w': World, id: VolumeId)
    requires Grown(w0, w) && Touches(w, w', id)
    ensures Grown(w0, w')
  {
  }

  lemma AccountIsKept(c: Config, w0: World, w: World, w': World, pc: Pc, id: VolumeId, other: VolumeId)
    requires Account(c, w0, w, other) && Cautious(c, w, w', pc, id)
    ensures Account(c, w0, w', other)
  {
    SharedSetupIsKept(c, w, w', id, other.node);
    if other != id {
      OtherVolumesAreKept(c, w, w', id, other);
    }
  }

  lemma HoldingIsKept(c: Config, w: World, w': World, id: VolumeId, name: string, pc: Pc)
    requires Touches(w, w', id) && Holding(c, w, name, pc) && !Owns(pc, id)
    ensures Holding(c, w', name, pc)
  {
    if HasId(pc) {
      OtherVolumesAreKept(c, w, w', id, pc.id);
      SharedSetupIsKept(c, w, w', id, pc.id.node);
    }
  }

  /** Another thread with the same volume has the same name, so it has given up the lock and answered: the
      volume is listened for, and left alone. */
  lemma OthersKeepHolding(c: Config, w0: World, s: State, w': World, i: nat, j: nat, id: VolumeId)
    requires Inv(c, w0, s) && i in s.threads && j in s.threads && i != j
    requires HoldsName(s.threads[i].pc) && Cautious(c, s.w, w', s.threads[i].pc, id)
    ensures Holding(c, w', s.threads[j].name, s.threads[j].pc)
  {
    if !Owns(s.threads[j].pc, id) {
      HoldingIsKept(c, s.w, w', id, s.threads[j].name, s.threads[j].pc);
    } else if Owns(s.threads[i].pc, id) {
      SharedVolumeListens(c, w0, s, i, j, id);
    }
  }

  lemma SharedVolumeListens(c: Config, w0: World, s: State, i: nat, j: nat, id: VolumeId)
    requires Inv(c, w0, s) && i in s.threads && j in s.threads && i != j
    requires Owns(s.threads[i].pc, id) && Owns(s.threads[j].pc, id) && HoldsName(s.threads[i].pc)
    ensures Listens(c, s.w, id)
  {
  }

  lemma HandlerStepKeepsHolding(c: Config, w0: World, s: State, s': State, i: nat, ch: Choice)
    requires Inv(c, w0, s) && Unique.Inv(c, s') && HandlerStep(c, CREATES, s, s', i, ch)
    ensures Inv(c, w0, s')
  {
    var th, pc' := s.threads[i], s'.threads[i].pc;
    LocalKeepsHolding(c, th.name, th.pc, s.w, ch, pc', s'.w);
    LocalIsCautious(c, th.name, th.pc, s.w, ch, pc', s'.w);
    if s'.w != s.w {
      var id :| Cautious(c, s.w, s'.w, th.pc, id);
      GrownIsKept(w0, s.w, s'.w, id);
      forall j <- s'.threads | j != i ensures Holding(c, s'.w, s.threads[j].name, s.threads[j].pc) {
        OthersKeepHolding(c, w0, s, s'.w, i, j, id);
      }
      forall other ensures Account(c, w0, s'.w, other) {
        AccountIsKept(c, w0, s.w, s'.w, th.pc, id, other);
      }
    }
  }

  lemma LockStepKeepsHolding(c: Config, w0: World, s: State, s': State, i: nat)
    requires Inv(c, w0, s) && Unique.Inv(c, s') && LockStep(c, CREATES, s, s', i)
    ensures Inv(c, w0, s')
  {
  }

  lemma {:induction false} RunsKeepHolding(c: Config, run: seq<State>, k: nat)
    requires IsRun(c, CREATES, run) && k < |run|
    ensures Inv(c, run[0].w, run[k])
  {
    Unique.NamesStayUnique(c, CREATES, run, k);
    if k > 0 {
      RunsKeepHolding(c, run, k - 1);
      assert Next(c, CREATES, run[k - 1], run[k - 1 + 1]);
      var i, ch :| Step(c, CREATES, run[k - 1], run[k], i, ch);
      StepKinds(c, CREATES, run[k - 1], run[k], i, ch);
      if AtLock(run[k - 1].threads[i].pc) {
        LockStepKeepsHolding(c, run[0].w, run[k - 1], run[k], i);
      } else {
        HandlerStepKeepsHolding(c, run[0].w, run[k - 1], run[k], i, ch);
      }
    }
  }

  /** In every interleaving of any number of CreateVolume calls, all successful calls for one name have
      returned the same volume, which exists under that name and is listened for. If its node did not
      listen for it at the start, a host can reach it; if it did, its export is what it was. */
  lemma SameNameSameVolume(c: Config, run: seq<State>, k: nat, i: nat, j: nat)
    requires IsRun(c, CREATES, run) && k < |run|
    requires i in run[k].threads && j in run[k].threads
    requires run[k].threads[i].pc.Created? && run[k].threads[j].pc.Created?
    requires run[k].threads[i].name == run[k].threads[j].name
    ensures var id := run[k].threads[i].pc.id;
            && id == run[k].threads[j].pc.id
            && Carries(run[k].w, id, run[k].threads[i].name) && Listens(c, run[k].w, id)
            && (if Listens(c, run[0].w, id) then Untouched(run[0].w, run[k].w, id) else IsReachable(c, run[k].w, id))
  {
    RunsKeepHolding(c, run, k);
    assert Account(c, run[0].w, run[k].w, run[k].threads[i].pc.id);
  }

  /** From nodes on which hosts can reach whatever is listened for, every volume returned can be reached. */
  lemma CreatedIsReachable(c: Config, run: seq<State>, k: nat, i: nat)
    requires IsRun(c, CREATES, run) && k < |run| && i in run[k].threads && run[k].threads[i].pc.Created?
    requires forall id :: Listens(c, run[0].w, id) ==> IsReachable(c, run[0].w, id)
    ensures IsReachable(c, run[k].w, run[k].threads[i].pc.id)
  {
    SameNameSameVolume(c, run, k, i, i);
    RunsKeepHolding(c, run, k);
  }
}
