/**
 Nothing is left behind: create-then-delete pairs with names of their own, run concurrently without
 RPC failures, return the storage nodes to the lvols, subsystems and iSCSI target nodes they started with.
 */
module Conservation {
  import opened SpdkTarget
  import opened Exports
  import opened Lifecycle
  import opened FaultFree

  const PAIRS := Mode(false, false, true)

  /** Names are the threads' own: distinct, and carried by no lvol at the start. */
  ghost predicate OwnNames(s: State) {
    && (forall i, j :: i in s.threads && j in s.threads && i != j ==> s.threads[i].name != s.threads[j].name)
    && (forall i <- s.threads :: Unique.Absent(s.w, s.threads[i].name))
  }

  ghost predicate Owned(s: State, id: VolumeId) {
    exists i <- s.threads :: Owns(s.threads[i].pc, id)
  }

  /** `s0` is the state the run began in. */
  ghost predicate InvPairs(c: Config, s0: State, s: State) {
    Fixed(c, s0, s) && Ownership(c, s0, s) && Remainder(c, s0, s)
  }

  ghost predicate Fixed(c: Config, s0: State, s: State) {
    && c.Valid() && s.w.targets.Keys == c.stores.Keys && s0.w.targets.Keys == c.stores.Keys
    && s.threads.Keys == s0.threads.Keys && (forall i <- s.threads :: s.threads[i].name == s0.threads[i].name)
    && OwnNames(s0) && Issued(s0.w) && s0.w.issued <= s.w.issued
  }

  /** Owned volumes are new, and each is owned once. */
  ghost predicate Ownership(c: Config, s0: State, s: State) {
    && (forall i <- s.threads :: Mine(c, s.w, s.threads[i].name, s.threads[i].pc))
    && (forall id :: Owned(s, id) ==> id !in s0.w.issued)
    && (forall i, j, id ::
          i in s.threads && j in s.threads && Owns(s.threads[i].pc, id) && Owns(s.threads[j].pc, id) ==> i == j)
  }

  /** Everything else is as it was. */
  ghost predicate Remainder(c: Config, s0: State, s: State)
    requires Fixed(c, s0, s)
  {
    && Issued(s.w)
    && (forall id :: Owned(s, id) ==> NoStray(c, s.w, id))
    && (forall id :: !Owned(s, id) ==> Same(s0.w, s.w, id))
    && (forall n, nqn :: n in s.w.targets ==> Accounted(s0, s, n, nqn))
    && (forall n <- s.w.targets :: SameGroups(s0.w.targets[n], s.w.targets[n]))
  }

  /** No export of the other kind than the node's. */
  predicate NoStray(c: Config, w: World, id: VolumeId) {
    KnownNode(c, w, id.node) ==>
      match c.access[id.node]
      case Nvmf(_) => id.lvol !in w.targets[id.node].nodes
      case Iscsi => Nqn(id.lvol) !in w.targets[id.node].subsystems
  }

  /** At most one new group of each kind. */
  predicate SameGroups(t0: Target, t: Target) {
    OneMore(t0.portalGroups, t.portalGroups) && OneMore(t0.initiatorGroups, t.initiatorGroups)
  }

  /** The subsystem is as it was, or it is that of an owned volume. */
  ghost predicate Accounted(s0: State, s: State, n: string, nqn: string)
    requires n in s0.w.targets && n in s.w.targets
  {
    SameSubsystem(s0.w.targets[n], s.w.targets[n], nqn) ||
    exists id :: Owned(s, id) && id.node == n && nqn == Nqn(id.lvol)
  }

  /** The lvol is there before and after, or neither, and so is the target node. */
  predicate Same(w0: World, w: World, id: VolumeId) {
    && (Exists(w, id) <==> Exists(w0, id))
    && (Exists(w, id) ==> w.targets[id.node].lvols[id.lvol] == w0.targets[id.node].lvols[id.lvol])
    && (HasNode(w, id) <==> HasNode(w0, id))
  }

  predicate HasNode(w: World, id: VolumeId) {
    id.node in w.targets && id.lvol in w.targets[id.node].nodes
  }

  predicate SameSubsystem(t0: Target, t: Target, nqn: string) {
    && (nqn in t.subsystems <==> nqn in t0.subsystems)
    && (nqn in t.subsystems ==> t.subsystems[nqn] == t0.subsystems[nqn])
  }

  /** No thread finds another's volume. */
  lemma NothingIsFound(c: Config, s0: State, s: State, i: nat)
    requires InvPairs(c, s0, s) && i in s.threads && !HasId(s.threads[i].pc)
    ensures Unique.Absent(s.w, s.threads[i].name)
  {
    forall id ensures !Carries(s.w, id, s.threads[i].name) {
      if !Owned(s, id) {
        assert Same(s0.w, s.w, id) && !Carries(s0.w, id, s0.threads[i].name);
      } else {
        var j :| j in s.threads && Owns(s.threads[j].pc, id);
        assert j != i && Mine(c, s.w, s.threads[j].name, s.threads[j].pc);
      }
    }
  }

  /** A thread's step changes its own volume only, and a new volume is new to everyone. */
  ghost predicate OwnEffect(c: Config, s: State, s': State, i: nat) {
    && OnlyThread(s, s', i)
    && Mine(c, s'.w, s'.threads[i].name, s'.threads[i].pc)
    && var pc, pc' := s.threads[i].pc, s'.threads[i].pc;
    && (s'.w == s.w || (HasId(pc') && Touches(s.w, s'.w, pc'.id)))
    && (if HasId(pc) then Owns(pc', pc.id) else HasId(pc') ==> pc'.id !in s.w.issued && Touches(s.w, s'.w, pc'.id))
    && (HasId(pc') && NoStray(c, s.w, pc'.id) ==> NoStray(c, s'.w, pc'.id))
  }

  lemma HandlerStepEffect(c: Config, s: State, s': State, i: nat, ch: Choice)
    requires HandlerStep(c, PAIRS, s, s', i, ch)
    requires Mine(c, s.w, s.threads[i].name, s.threads[i].pc)
    requires c.Valid() && s.w.targets.Keys == c.stores.Keys && Issued(s.w)
    requires !HasId(s.threads[i].pc) ==> Unique.Absent(s.w, s.threads[i].name)
    ensures OwnEffect(c, s, s', i)
  {
    LocalKeepsMine(c, s.threads[i].name, s.threads[i].pc, s.w, ch, s'.threads[i].pc, s'.w);
    StepsTouchOneVolume(c, s.threads[i].name, s.threads[i].pc, s.w, ch, s'.threads[i].pc, s'.w);
    StepsNeverStray(c, s.threads[i].name, s.threads[i].pc, s.w, ch, s'.threads[i].pc, s'.w);
  }

  lemma StepsNeverStray(c: Config, name: string, pc: Pc, w: World, ch: Choice, pc': Pc, w': World)
    requires Local(c, name, pc, w, ch, pc', w')
    ensures HasId(pc') && NoStray(c, w, pc'.id) ==> NoStray(c, w', pc'.id)
  {
  }

  lemma LockStepEffect(c: Config, s: State, s': State, i: nat)
    requires LockStep(c, PAIRS, s, s', i) && Mine(c, s.w, s.threads[i].name, s.threads[i].pc)
    ensures OwnEffect(c, s, s', i)
  {
  }

  lemma OwnershipAfter(s: State, s': State, i: nat)
    requires i in s.threads && s'.threads.Keys == s.threads.Keys
    requires forall j <- s.threads :: j != i ==> s'.threads[j] == s.threads[j]
    requires HasId(s.threads[i].pc) ==> Owns(s'.threads[i].pc, s.threads[i].pc.id)
    ensures forall id :: Owned(s', id) <==> Owned(s, id) || Owns(s'.threads[i].pc, id)
  {
  }

  lemma OthersAccounted(c: Config, s0: State, s: State, s': State, id: VolumeId)
    requires InvPairs(c, s0, s) && Touches(s.w, s'.w, id)
    requires forall other :: Owned(s, other) ==> Owned(s', other)
    requires Owned(s', id) && id in s'.w.issued
    ensures Issued(s'.w)
    ensures forall other :: !Owned(s', other) ==> Same(s0.w, s'.w, other)
    ensures forall other :: Owned(s, other) && other != id ==> NoStray(c, s'.w, other)
    ensures forall n, nqn :: n in s'.w.targets ==> Accounted(s0, s', n, nqn)
    ensures forall n <- s'.w.targets :: SameGroups(s0.w.targets[n], s'.w.targets[n])
  {
    forall other ensures (Exists(s'.w, other) || HasAnything(s'.w, other) ==> other in s'.w.issued)
                 ensures !Owned(s', other) ==> Same(s0.w, s'.w, other)
                 ensures Owned(s, other) && other != id ==> NoStray(c, s'.w, other)
    {
      if other != id { OtherVolumesAreKept(c, s.w, s'.w, id, other); }
    }
    forall n, nqn | n in s'.w.targets ensures Accounted(s0, s', n, nqn) {
      OtherSubsystemIsKept(s0, s, s', id, n, nqn);
    }
  }

  lemma OtherSubsystemIsKept(s0: State, s: State, s': State, id: VolumeId, n: string, nqn: string)
    requires Touches(s.w, s'.w, id) && n in s0.w.targets && n in s.w.targets && Accounted(s0, s, n, nqn)
    requires forall other :: Owned(s, other) ==> Owned(s', other)
    requires Owned(s', id)
    ensures n in s'.w.targets && Accounted(s0, s', n, nqn)
  {
    if n == id.node && nqn != Nqn(id.lvol) {
      var t, t' := s.w.targets[n], s'.w.targets[n];
      assert nqn in t.subsystems <==> nqn in t.subsystems - {Nqn(id.lvol)};
      assert nqn in t'.subsystems <==> nqn in t'.subsystems - {Nqn(id.lvol)};
      assert nqn in t.subsystems ==> (t.subsystems - {Nqn(id.lvol)})[nqn] == t.subsystems[nqn];
      assert SameSubsystem(t, t', nqn);
    }
  }

  lemma StepKeepsMine(c: Config, s0: State, s: State, s': State, i: nat)
    requires InvPairs(c, s0, s) && OwnEffect(c, s, s', i)
    ensures forall j <- s'.threads :: Mine(c, s'.w, s'.threads[j].name, s'.threads[j].pc)
  {
    if s'.w != s.w {
      var id := s'.threads[i].pc.id;
      forall j <- s'.threads | j != i ensures Mine(c, s'.w, s'.threads[j].name, s'.threads[j].pc) {
        assert Owns(s.threads[j].pc, id) ==> id in s.w.issued;
        MineIsKept(c, s.w, s'.w, id, s.threads[j].name, s.threads[j].pc);
      }
    }
  }

  lemma StepKeepsOwnership(c: Config, s0: State, s: State, s': State, i: nat)
    requires InvPairs(c, s0, s) && OwnEffect(c, s, s', i)
    ensures Fixed(c, s0, s') && Ownership(c, s0, s')
  {
    OwnershipAfter(s, s', i);
    StepKeepsMine(c, s0, s, s', i);
    assert forall j <- s.threads, id :: Owns(s.threads[j].pc, id) ==> id in s.w.issued;
  }

  lemma NewIsNotStray(c: Config, s0: State, s: State, id: VolumeId)
    requires InvPairs(c, s0, s) && (Owned(s, id) || id !in s.w.issued)
    ensures NoStray(c, s.w, id)
  {
    assert HasAnything(s.w, id) ==> id in s.w.issued;
  }

  lemma WriteKeepsRemainder(c: Config, s0: State, s: State, s': State, id: VolumeId)
    requires InvPairs(c, s0, s) && Fixed(c, s0, s') && Touches(s.w, s'.w, id) && id in s'.w.issued
    requires forall other :: Owned(s', other) <==> Owned(s, other) || other == id
    requires NoStray(c, s'.w, id)
    ensures Remainder(c, s0, s')
  {
    OthersAccounted(c, s0, s, s', id);
  }

  lemma StepWrites(c: Config, s0: State, s: State, s': State, i: nat)
    requires InvPairs(c, s0, s) && OwnEffect(c, s, s', i) && s'.w != s.w
    ensures HasId(s'.threads[i].pc)
    ensures var id := s'.threads[i].pc.id;
            && Touches(s.w, s'.w, id) && id in s'.w.issued && NoStray(c, s'.w, id)
            && forall other :: Owned(s', other) <==> Owned(s, other) || other == id
  {
    OwnershipAfter(s, s', i);
    NewIsNotStray(c, s0, s, s'.threads[i].pc.id);
  }

  lemma QuietStepKeepsRemainder(c: Config, s0: State, s: State, s': State, i: nat)
    requires InvPairs(c, s0, s) && OwnEffect(c, s, s', i) && Fixed(c, s0, s') && s'.w == s.w
    ensures Remainder(c, s0, s')
  {
    OwnershipAfter(s, s', i);
    var pc' := s'.threads[i].pc;
    if HasId(pc') {
      NewIsNotStray(c, s0, s, pc'.id);
    }
    forall n, nqn | n in s'.w.targets ensures Accounted(s0, s', n, nqn) {
      assert Accounted(s0, s, n, nqn);
    }
  }

  lemma {:induction false} PairsKeepOrder(c: Config, run: seq<State>, k: nat)
    requires IsRun(c, PAIRS, run) && Issued(run[0].w) && OwnNames(run[0]) && k < |run|
    ensures InvPairs(c, run[0], run[k])
  {
    if k > 0 {
      PairsKeepOrder(c, run, k - 1);
      assert Next(c, PAIRS, run[k - 1], run[k - 1 + 1]);
      var i, ch :| Step(c, PAIRS, run[k - 1], run[k], i, ch);
      StepKinds(c, PAIRS, run[k - 1], run[k], i, ch);
      if AtLock(run[k - 1].threads[i].pc) {
        LockStepEffect(c, run[k - 1], run[k], i);
      } else {
        if !HasId(run[k - 1].threads[i].pc) { NothingIsFound(c, run[0], run[k - 1], i); }
        HandlerStepEffect(c, run[k - 1], run[k], i, ch);
      }
      StepKeepsOwnership(c, run[0], run[k - 1], run[k], i);
      if run[k].w != run[k - 1].w {
        StepWrites(c, run[0], run[k - 1], run[k], i);
        WriteKeepsRemainder(c, run[0], run[k - 1], run[k], run[k].threads[i].pc.id);
      } else {
        QuietStepKeepsRemainder(c, run[0], run[k - 1], run[k], i);
      }
    }
  }

  lemma OwnedAtTheEnd(c: Config, s0: State, s: State, i: nat, id: VolumeId)
    requires InvPairs(c, s0, s) && i in s.threads && Terminal(s.threads[i]) && Owns(s.threads[i].pc, id)
    ensures id !in s0.w.issued && !Exists(s0.w, id) && !HasAnything(s0.w, id)
    ensures if s.threads[i].pc.Created? then Exists(s.w, id) && HasAnything(s.w, id) && Listens(c, s.w, id)
            else !Exists(s.w, id) && !HasAnything(s.w, id)
  {
    assert Mine(c, s.w, s.threads[i].name, s.threads[i].pc);
    assert Owned(s, id);
  }

  lemma NotOwnedAtTheEnd(c: Config, s0: State, s: State, id: VolumeId)
    requires InvPairs(c, s0, s) && !Owned(s, id)
    ensures Same(s0.w, s.w, id) && KeptExport(s0.w, s.w, id)
    ensures HasAnything(s.w, id) <==> HasAnything(s0.w, id)
  {
    if id.node in s.w.targets {
      assert Accounted(s0, s, id.node, Nqn(id.lvol));
      if other :| Owned(s, other) && other.node == id.node && Nqn(id.lvol) == Nqn(other.lvol) {
        NqnIsInjective(id.lvol, other.lvol);
      }
    }
  }

  ghost predicate Finished(s: State) {
    forall i <- s.threads :: Terminal(s.threads[i])
  }

  /** A finished thread created the volume and did not delete it. */
  ghost predicate Kept(s: State, id: VolumeId) {
    exists i <- s.threads :: s.threads[i].pc == Created(id)
  }

  /** What is on the nodes is what was there and what was kept. */
  ghost predicate Settled(c: Config, s0: State, s: State, id: VolumeId) {
    && (Exists(s.w, id) <==> Exists(s0.w, id) || Kept(s, id))
    && (HasAnything(s.w, id) <==> HasAnything(s0.w, id) || Kept(s, id))
    && (Kept(s, id) ==> Listens(c, s.w, id))
    && (!Kept(s, id) ==> Same(s0.w, s.w, id) && KeptExport(s0.w, s.w, id))
  }

  /** The volume's subsystem, with all it holds, and its target node are as they were. */
  predicate KeptExport(w0: World, w: World, id: VolumeId) {
    id.node in w0.targets && id.node in w.targets ==> SameExport(w0.targets[id.node], w.targets[id.node], id.lvol)
  }

  lemma OwnerKeeps(c: Config, s0: State, s: State, i: nat, id: VolumeId)
    requires Ownership(c, s0, s) && i in s.threads && Owns(s.threads[i].pc, id)
    ensures Kept(s, id) <==> s.threads[i].pc.Created?
  {
    if j :| j in s.threads && s.threads[j].pc == Created(id) {
      assert Owns(s.threads[j].pc, id);
    }
  }

  lemma FinishedIsSettled(c: Config, s0: State, s: State, id: VolumeId)
    requires InvPairs(c, s0, s) && Finished(s)
    ensures Settled(c, s0, s, id)
  {
    if i :| i in s.threads && Owns(s.threads[i].pc, id) {
      OwnedAtTheEnd(c, s0, s, i, id);
      OwnerKeeps(c, s0, s, i, id);
    } else {
      NotOwnedAtTheEnd(c, s0, s, id);
      assert forall j <- s.threads :: s.threads[j].pc == Created(id) ==> Owns(s.threads[j].pc, id);
    }
  }

  /** Once every thread has finished, the lvols are exactly those from the start and those created by
      threads that do not delete, and so are their exports, over NVMe-oF and over iSCSI; nothing of a
      deleted or failed volume is left on any node. */
  lemma NothingIsLeftBehind(c: Config, run: seq<State>, id: VolumeId)
    requires IsRun(c, PAIRS, run) && Issued(run[0].w) && OwnNames(run[0]) && Finished(run[|run| - 1])
    ensures Settled(c, run[0], run[|run| - 1], id)
  {
    PairsKeepOrder(c, run, |run| - 1);
    FinishedIsSettled(c, run[0], run[|run| - 1], id);
  }

  /** In every run of any kind, no more than one group of each kind is ever new on a node. */
  lemma {:induction false} GroupsAtMostOneNew(c: Config, mode: Mode, run: seq<State>, k: nat, n: string)
    requires IsRun(c, mode, run) && k < |run| && n in run[0].w.targets
    ensures n in run[k].w.targets && SameGroups(run[0].w.targets[n], run[k].w.targets[n])
  {
    if k > 0 {
      GroupsAtMostOneNew(c, mode, run, k - 1, n);
      assert Next(c, mode, run[k - 1], run[k - 1 + 1]);
      var i, ch :| Step(c, mode, run[k - 1], run[k], i, ch);
      StepKinds(c, mode, run[k - 1], run[k], i, ch);
      if !AtLock(run[k - 1].threads[i].pc) {
        HandlerStepAddsGroups(c, mode, run[k - 1], run[k], i, ch, n);
      }
    }
  }

  lemma HandlerStepAddsGroups(c: Config, mode: Mode, s: State, s': State, i: nat, ch: Choice, n: string)
    requires HandlerStep(c, mode, s, s', i, ch) && n in s.w.targets
    ensures n in s'.w.targets && SameGroups(s.w.targets[n], s'.w.targets[n])
  {
    StepsTouchOneVolume(c, s.threads[i].name, s.threads[i].pc, s.w, ch, s'.threads[i].pc, s'.w);
  }

  /** If all threads delete what they create, every node ends with the lvols, subsystems and target nodes it
      began with. */
  lemma PairsRestoreTheNodes(c: Config, run: seq<State>, n: string)
    requires IsRun(c, PAIRS, run) && Issued(run[0].w) && OwnNames(run[0]) && n in run[0].w.targets
    requires Finished(run[|run| - 1])
    requires var last := run[|run| - 1]; forall i <- last.threads :: last.threads[i].thenDelete
    ensures n in run[|run| - 1].w.targets
    ensures run[|run| - 1].w.targets[n].lvols == run[0].w.targets[n].lvols
    ensures run[|run| - 1].w.targets[n].subsystems == run[0].w.targets[n].subsystems
    ensures run[|run| - 1].w.targets[n].nodes == run[0].w.targets[n].nodes
  {
    var s0, last := run[0], run[|run| - 1];
    PairsKeepOrder(c, run, |run| - 1);
    forall u ensures Same(s0.w, last.w, VolumeId(n, u)) {
      NothingIsLeftBehind(c, run, VolumeId(n, u));
    }
    SameLvolsAndNodes(s0.w, last.w, n);
    var t0, t := s0.w.targets[n], last.w.targets[n];
    forall nqn ensures SameSubsystem(t0, t, nqn) {
      assert Accounted(s0, last, n, nqn);
      if id :| Owned(last, id) && id.node == n && nqn == Nqn(id.lvol) {
        NothingIsLeftBehind(c, run, id);
        assert HasAnything(s0.w, id) ==> id in s0.w.issued;
      }
    }
    forall nqn | nqn in t.subsystems || nqn in t0.subsystems
      ensures nqn in t.subsystems && nqn in t0.subsystems && t.subsystems[nqn] == t0.subsystems[nqn]
    {
      assert SameSubsystem(t0, t, nqn);
    }
  }

  lemma SameLvolsAndNodes(w0: World, w: World, n: string)
    requires n in w0.targets && n in w.targets && forall u :: Same(w0, w, VolumeId(n, u))
    ensures w.targets[n].lvols == w0.targets[n].lvols && w.targets[n].nodes == w0.targets[n].nodes
  {
    var t0, t := w0.targets[n], w.targets[n];
    forall u ensures (u in t.lvols <==> u in t0.lvols) && (u in t.lvols ==> t.lvols[u] == t0.lvols[u])
             ensures u in t.nodes <==> u in t0.nodes
    {
      var id := VolumeId(n, u);
      assert Same(w0, w, id);
      assert (Exists(w, id) <==> u in t.lvols) && (HasNode(w, id) <==> u in t.nodes);
    }
  }
}
