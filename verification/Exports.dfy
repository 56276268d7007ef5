/**
 What a storage node's two ways of exporting volumes have in common: `nodeNVMf` and `nodeISCSI` behind
 the interface `SpdkNode`.
 */
module Exports {
  import opened SpdkTarget
  import I = NodeIscsi

  /** How a node exports volumes, and where it listens. */
  datatype Access = Nvmf(addr: Address) | Iscsi

  /** Where a PublishVolume is, and where an UnpublishVolume. */
  datatype PublishAt = NvmfAt(p: PublishPc) | IscsiAt(q: I.Pc)

  datatype UnpublishAt = NvmfFrom(u: UnpublishPc) | IscsiFrom(v: I.UnpublishPc)

  function BeginPublish(a: Access): PublishAt {
    match a
    case Nvmf(_) => NvmfAt(CheckVolume)
    case Iscsi => IscsiAt(I.CheckVolume)
  }

  function BeginUnpublish(a: Access): UnpublishAt {
    match a
    case Nvmf(_) => NvmfFrom(FindVolume)
    case Iscsi => IscsiFrom(I.FindVolume)
  }

  datatype Progress = Running | Succeeded | Gone | Failed

  function PublishProgress(at: PublishAt): Progress {
    match at
    case NvmfAt(Published) => Succeeded
    case NvmfAt(PublishFailed) => Failed
    case IscsiAt(Published) => Succeeded
    case IscsiAt(PublishFailed) => Failed
    case _ => Running
  }

  function UnpublishProgress(at: UnpublishAt): Progress {
    match at
    case NvmfFrom(Unpublished) => Succeeded
    case NvmfFrom(VolumeGone) => Gone
    case NvmfFrom(UnpublishFailed) => Failed
    case IscsiFrom(Unpublished) => Succeeded
    case IscsiFrom(VolumeGone) => Gone
    case IscsiFrom(UnpublishFailed) => Failed
    case _ => Running
  }

  predicate PublishFits(at: PublishAt, a: Access) {
    at.NvmfAt? <==> a.Nvmf?
  }

  predicate UnpublishFits(at: UnpublishAt, a: Access) {
    at.NvmfFrom? <==> a.Nvmf?
  }

  function PublishNext(at: PublishAt, t: Target, id: string, a: Access, answered: bool): (r: (PublishAt, Target))
    requires PublishFits(at, a)
    ensures PublishFits(r.0, a)
  {
    match at
    case NvmfAt(p) => var (p', t') := PublishStep(p, t, id, a.addr, answered); (NvmfAt(p'), t')
    case IscsiAt(q) => var (q', t') := I.PublishStep(q, t, id, answered); (IscsiAt(q'), t')
  }

  function UnpublishNext(at: UnpublishAt, t: Target, id: string, a: Access, answered: bool): (r: (UnpublishAt, Target))
    requires UnpublishFits(at, a)
    ensures UnpublishFits(r.0, a)
  {
    match at
    case NvmfFrom(u) => var (u', t') := UnpublishStep(u, t, id, a.addr, answered); (NvmfFrom(u'), t')
    case IscsiFrom(v) => var (v', t') := I.UnpublishStep(v, t, id, answered); (IscsiFrom(v'), t')
  }

  /** The query for published volumes finds this one. */
  predicate Serves(t: Target, id: string, a: Access) {
    match a
    case Nvmf(addr) => Listening(t, id, addr)
    case Iscsi => id in t.nodes
  }

  /** There is something of the node's kind that exports the volume, or once did. */
  predicate HasExport(t: Target, id: string, a: Access) {
    match a
    case Nvmf(_) => Nqn(id) in t.subsystems
    case Iscsi => id in t.nodes
  }

  /** A host can reach the volume. */
  predicate Reachable(t: Target, id: string, a: Access) {
    match a
    case Nvmf(addr) => Exported(t, id, addr)
    case Iscsi => id in t.nodes && TAG in t.portalGroups && TAG in t.initiatorGroups
  }

  /** Publishing and unpublishing touch nothing of other volumes, and no lvol. */
  lemma PublishNextEffect(at: PublishAt, t: Target, id: string, a: Access, answered: bool)
    requires PublishFits(at, a)
    ensures var t' := PublishNext(at, t, id, a, answered).1; t'.lvols == t.lvols && SameElsewhere(t, t', id)
  {
  }

  lemma UnpublishNextEffect(at: UnpublishAt, t: Target, id: string, a: Access, answered: bool)
    requires UnpublishFits(at, a)
    ensures var t' := UnpublishNext(at, t, id, a, answered).1; t'.lvols == t.lvols && SameElsewhere(t, t', id)
  {
  }

  /******* Whole calls *******/

  /** PublishVolume of whichever kind of node this is. */
  function PublishVolume(t: Target, id: string, a: Access, o: PublishAt -> bool): (r: (bool, Target)) {
    match a
    case Nvmf(addr) => Publish(CheckVolume, t, id, addr, p => o(NvmfAt(p)))
    case Iscsi => I.Publish(I.CheckVolume, t, id, q => o(IscsiAt(q)))
  }

  function UnpublishVolume(t: Target, id: string, a: Access, o: UnpublishAt -> bool): (r: (Progress, Target)) {
    match a
    case Nvmf(addr) =>
      var (u, t') := Unpublish(FindVolume, t, id, addr, u => o(NvmfFrom(u)));
      (UnpublishProgress(NvmfFrom(u)), t')
    case Iscsi =>
      var (v, t') := I.Unpublish(I.FindVolume, t, id, v => o(IscsiFrom(v)));
      (UnpublishProgress(IscsiFrom(v)), t')
  }

  /** DeleteVolume: unpublish, then delete the lvol; a volume that is gone counts as deleted. */
  function DeleteOn(t: Target, id: string, a: Access, o: UnpublishAt -> bool, drop: bool): (r: (bool, Target)) {
    var (u, t1) := UnpublishVolume(t, id, a, o);
    match u
    case Gone => (true, t1)
    case Succeeded => (drop, DropLvol(t1, id, drop))
    case _ => (false, t1)
  }

  /** Everything CreateVolume does once it has a volume ID. */
  function PublishOrDeleteOn(t: Target, id: string, a: Access, o: PublishAt -> bool, info: bool,
                             u: UnpublishAt -> bool, drop: bool): (r: (bool, Target))
  {
    var (ok, t1) := PublishVolume(t, id, a, o);
    if !ok then (false, DropLvol(t1, id, drop))
    else if info then (true, t1)
    else (false, DropLvol(UnpublishVolume(t1, id, a, u).1, id, drop))
  }

  /** On an NVMe-oF node these are the calls of `SpdkTarget`. */
  lemma NvmfCalls(t: Target, id: string, addr: Address, o: PublishAt -> bool, info: bool,
                  u: UnpublishAt -> bool, drop: bool)
    ensures DeleteOn(t, id, Nvmf(addr), u, drop) == DeleteVolume(t, id, addr, pc => u(NvmfFrom(pc)), drop)
    ensures PublishOrDeleteOn(t, id, Nvmf(addr), o, info, u, drop) ==
            PublishOrDelete(t, id, addr, pc => o(NvmfAt(pc)), info, pc => u(NvmfFrom(pc)), drop)
  {
    UnpublishOutcome(t, id, addr, pc => u(NvmfFrom(pc)));
  }

  /** A volume without an export comes out reachable; one that has an export keeps its namespace, if its
      node is NVMe-oF, or its lack of one. */
  predicate PublishedAs(t: Target, t': Target, id: string, a: Access) {
    && (!HasExport(t, id, a) ==> Reachable(t', id, a))
    && (a.Nvmf? ==> (HasNamespace(t', id) <==> Nqn(id) !in t.subsystems || HasNamespace(t, id)))
  }

  /** With these answers an export that is not there can be made. */
  predicate CanExport(t: Target, id: string, a: Access, o: PublishAt -> bool) {
    match a
    case Nvmf(_) =>
      && Nqn(id) !in t.subsystems && o(NvmfAt(MakeTransport)) && o(NvmfAt(MakeSubsystem))
      && o(NvmfAt(AddNamespace)) && o(NvmfAt(AddListener))
    case Iscsi =>
      && (if TAG in t.portalGroups then o(IscsiAt(I.GetPortal)) || o(IscsiAt(I.GetPortalAgain))
          else o(IscsiAt(I.MakePortal)))
      && (if TAG in t.initiatorGroups then o(IscsiAt(I.GetInitiator)) || o(IscsiAt(I.GetInitiatorAgain))
          else o(IscsiAt(I.MakeInitiator)))
      && o(IscsiAt(I.MakeNode))
  }

  /** The query whether the volume is published is answered. */
  predicate Asked(a: Access, o: PublishAt -> bool) {
    if a.Nvmf? then o(NvmfAt(CheckListener)) else o(IscsiAt(I.CheckNode))
  }

  /** PublishVolume succeeds exactly for an existing volume if that query is answered, and the volume is
      published already or can be exported. */
  lemma PublishVolumeSucceeds(t: Target, id: string, a: Access, o: PublishAt -> bool)
    ensures PublishVolume(t, id, a, o).0 <==>
            id in t.lvols && Asked(a, o) && (Serves(t, id, a) || CanExport(t, id, a, o))
  {
    match a
    case Nvmf(addr) => PublishExactly(t, id, addr, p => o(NvmfAt(p)));
    case Iscsi => I.PublishExactly(t, id, q => o(IscsiAt(q)));
  }

  lemma PublishVolumeOutcome(t: Target, id: string, a: Access, o: PublishAt -> bool)
    ensures var (ok, t') := PublishVolume(t, id, a, o);
            && t'.lvols == t.lvols && SameElsewhere(t, t', id)
            && (ok ==> id in t.lvols && Serves(t', id, a) && PublishedAs(t, t', id, a))
            && (HasExport(t, id, a) ==> t'.subsystems == t.subsystems && t'.nodes == t.nodes)
            && (!ok ==> (Serves(t', id, a) <==> Serves(t, id, a)))
  {
    match a
    case Nvmf(addr) =>
      PublishOutcome(t, id, addr, p => o(NvmfAt(p)));
      if PublishVolume(t, id, a, o).0 {
        PublishedNamespace(t, id, addr, p => o(NvmfAt(p)));
      }
    case Iscsi =>
      I.PublishOutcome(t, id, q => o(IscsiAt(q)));
      I.PublishTouches(t, id, q => o(IscsiAt(q)));
  }

  /** The query whether the volume is published is answered, and so is the deletion that takes it down if
      it is. */
  predicate CanUnpublish(t: Target, id: string, a: Access, o: UnpublishAt -> bool) {
    match a
    case Nvmf(addr) => o(NvmfFrom(FindListener)) && (Listening(t, id, addr) ==> o(NvmfFrom(TakeSubsystem)))
    case Iscsi => o(IscsiFrom(I.FindNode)) && (id in t.nodes ==> o(IscsiFrom(I.DeleteNode)))
  }

  lemma UnpublishVolumeOutcome(t: Target, id: string, a: Access, o: UnpublishAt -> bool)
    ensures var (r, t') := UnpublishVolume(t, id, a, o);
            && t'.lvols == t.lvols && SameElsewhere(t, t', id) && r != Running
            && (r == Gone <==> id !in t.lvols) && (r == Gone ==> t' == t)
            && (r == Succeeded <==> id in t.lvols && CanUnpublish(t, id, a, o))
            && (r == Succeeded ==> !Serves(t', id, a))
            && (r == Failed ==> (Serves(t', id, a) <==> Serves(t, id, a)))
  {
    match a
    case Nvmf(addr) => UnpublishOutcome(t, id, addr, u => o(NvmfFrom(u)));
    case Iscsi => I.UnpublishOutcome(t, id, v => o(IscsiFrom(v)));
  }

  /** DeleteVolume, on either kind of node and under any failures, succeeds exactly when there is no lvol, or
      the unpublishing goes through and the lvol delete is answered; that is exactly when the lvol is gone
      afterwards. It deletes it only when the volume is not published any more, and touches no other volume. */
  lemma DeleteOnOutcome(t: Target, id: string, a: Access, o: UnpublishAt -> bool, drop: bool)
    ensures var (ok, t') := DeleteOn(t, id, a, o, drop);
            && (ok <==> id !in t.lvols || (CanUnpublish(t, id, a, o) && drop))
            && (ok <==> id !in t'.lvols)
            && (id in t.lvols && id !in t'.lvols ==> !Serves(t', id, a))
            && t'.lvols - {id} == t.lvols - {id} && SameElsewhere(t, t', id)
            && (id !in t.lvols ==> t' == t)
  {
    UnpublishVolumeOutcome(t, id, a, o);
  }

  /** After one success every repetition succeeds and changes nothing, whatever is answered. */
  lemma DeleteOnIsIdempotent(t: Target, id: string, a: Access,
                             o: UnpublishAt -> bool, drop: bool, o': UnpublishAt -> bool, drop': bool)
    requires DeleteOn(t, id, a, o, drop).0
    ensures var t' := DeleteOn(t, id, a, o, drop).1; DeleteOn(t', id, a, o', drop') == (true, t')
  {
    var t' := DeleteOn(t, id, a, o, drop).1;
    DeleteOnOutcome(t, id, a, o, drop);
    DeleteOnOutcome(t', id, a, o', drop');
  }

  /** What becomes of a volume that CreateVolume has found or made. */
  lemma PublishOrDeleteOnOutcome(t: Target, id: string, a: Access, o: PublishAt -> bool, info: bool,
                                 u: UnpublishAt -> bool, drop: bool)
    ensures var (ok, t') := PublishOrDeleteOn(t, id, a, o, info, u, drop);
            && SameElsewhere(t, t', id) && t'.lvols - {id} == t.lvols - {id}
            && (ok <==> id in t.lvols && Asked(a, o) && (Serves(t, id, a) || CanExport(t, id, a, o)) && info)
            && (ok ==> t'.lvols == t.lvols && Serves(t', id, a) && PublishedAs(t, t', id, a))
            && (!ok && drop ==> id !in t'.lvols)
            && (!ok && !drop ==> t'.lvols == t.lvols)
  {
    PublishVolumeSucceeds(t, id, a, o);
    PublishVolumeOutcome(t, id, a, o);
    var t1 := PublishVolume(t, id, a, o).1;
    UnpublishVolumeOutcome(t1, id, a, u);
    TouchedTwice(t, t1, UnpublishVolume(t1, id, a, u).1, id);
  }

  lemma TouchedTwice(t: Target, t': Target, t'': Target, id: string)
    requires SameElsewhere(t, t', id) && SameElsewhere(t', t'', id)
    ensures SameElsewhere(t, t'', id)
  {
  }
}
