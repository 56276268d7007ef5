/**
 The part of an SPDK storage target that the driver drives over JSON-RPC, and the
 PublishVolume, UnpublishVolume and DeleteVolume call sequences of `nodeNVMf` as small-step
 programs over it: one step for each RPC, in the order the driver issues them. Those of
 `nodeISCSI` are in module `NodeIscsi`.

 A step takes an `answered` flag. An RPC that is not answered has no effect and is reported
 to the driver as an error; an RPC that is answered may still be refused by the target.
 `bdev_get_bdevs` is always answered.
 */
module SpdkTarget {
  datatype Address = Address(trtype: string, adrfam: string, traddr: string, trsvcid: string)

  datatype Subsystem = Subsystem(namespaces: set<string>, listeners: set<Address>)

  /** `size` is in bytes. */
  datatype Lvol = Lvol(name: string, store: string, size: int)

  datatype Target = Target(
    lvols: map<string, Lvol>,             // by UUID
    transports: set<string>,
    subsystems: map<string, Subsystem>,   // by NQN
    portalGroups: multiset<int>,          // iSCSI groups, by tag
    initiatorGroups: multiset<int>,
    nodes: set<string>)                   // iSCSI target nodes, by alias

  const NQN_PREFIX := "nqn.2020-04.io.spdk.csi:uuid:"

  function Nqn(lvolID: string): string {
    NQN_PREFIX + lvolID
  }

  /** Volumes never share a subsystem. */
  lemma NqnIsInjective(a: string, b: string)
    requires Nqn(a) == Nqn(b)
    ensures a == b
  {
    assert a == Nqn(a)[|NQN_PREFIX|..];
    assert b == Nqn(b)[|NQN_PREFIX|..];
  }

  /** A subsystem's name is that of an NVMe subsystem and ends in the volume's UUID. */
  lemma NqnEndsInId(id: string)
    ensures var nqn := Nqn(id);
            "nqn." <= nqn && |nqn| >= |id| && nqn[|nqn| - |id|..] == id
  {
  }

  /** The volume's subsystem listens on the node's own address. */
  predicate Listening(t: Target, lvolID: string, addr: Address) {
    Nqn(lvolID) in t.subsystems && addr in t.subsystems[Nqn(lvolID)].listeners
  }

  /** What a host needs to reach the volume: its transport, and a subsystem with exactly
      this volume as namespace, listening on exactly the node's address. */
  predicate Exported(t: Target, lvolID: string, addr: Address) {
    && addr.trtype in t.transports
    && Nqn(lvolID) in t.subsystems
    && t.subsystems[Nqn(lvolID)] == Subsystem({lvolID}, {addr})
  }

  /** The tag of the one portal group and the one initiator group that the driver makes. */
  const TAG := 1

  /** At most the missing group is added. */
  predicate OneMore(groups: multiset<int>, groups': multiset<int>) {
    groups' == groups || (TAG !in groups && groups' == groups + multiset{TAG})
  }

  /** Nothing but this volume's subsystem and target node differs, except that transports and groups may
      have been added. */
  predicate SameElsewhere(t: Target, t': Target, lvolID: string) {
    && t.transports <= t'.transports
    && t'.subsystems - {Nqn(lvolID)} == t.subsystems - {Nqn(lvolID)}
    && OneMore(t.portalGroups, t'.portalGroups) && OneMore(t.initiatorGroups, t'.initiatorGroups)
    && t'.nodes - {lvolID} == t.nodes - {lvolID}
  }

  /** The state of one storage node. */
  class Spdk {
    var t: Target

    constructor (t: Target)
      ensures this.t == t
    {
      this.t := t;
    }

    /** Deletes the lvol; `found` says whether there was one ("No such device" otherwise). */
    method DeleteLvol(lvolID: string, answered: bool) returns (ok: bool, found: bool)
      modifies this
      ensures found <==> lvolID in old(t).lvols
      ensures ok <==> answered && found
      ensures t == DropLvol(old(t), lvolID, answered)
    {
      found := lvolID in t.lvols;
      ok := answered && found;
      if ok {
        t := DropLvol(t, lvolID, true);
      } else {
        assert !found ==> t.lvols - {lvolID} == t.lvols;
      }
    }
  }

  lemma SameEverywhere(t: Target, t': Target, lvolID: string)
    requires SameElsewhere(t, t', lvolID)
    requires Nqn(lvolID) !in t.subsystems && Nqn(lvolID) !in t'.subsystems
    ensures t'.subsystems == t.subsystems
  {
    assert t.subsystems == t.subsystems - {Nqn(lvolID)};
    assert t'.subsystems == t'.subsystems - {Nqn(lvolID)};
  }

  /******* PublishVolume *******/

  datatype PublishPc =
    | CheckVolume
    | CheckListener
    | MakeTransport
    | MakeSubsystem
    | AddNamespace
    | AddListener
    | FindNamespace     // undo after a failed AddListener, first half of subsystemRemoveNs
    | DropNamespace     // second half
    | UndoSubsystem
    | Published
    | PublishFailed

  function PublishRank(pc: PublishPc): nat {
    match pc
    case CheckVolume => 9
    case CheckListener => 8
    case MakeTransport => 7
    case MakeSubsystem => 6
    case AddNamespace => 5
    case AddListener => 4
    case FindNamespace => 3
    case DropNamespace => 2
    case UndoSubsystem => 1
    case Published => 0
    case PublishFailed => 0
  }

  function PublishStep(pc: PublishPc, t: Target, id: string, addr: Address, answered: bool): (r: (PublishPc, Target))
    ensures PublishRank(pc) > 0 ==> PublishRank(r.0) < PublishRank(pc)
  {
    var nqn := Nqn(id);
    match pc
    case CheckVolume =>
      (if id in t.lvols then CheckListener else PublishFailed, t)
    case CheckListener =>
      (if !answered then PublishFailed else if Listening(t, id, addr) then Published else MakeTransport, t)
    case MakeTransport =>
      if !answered then (PublishFailed, t)
      else (MakeSubsystem, t.(transports := t.transports + {addr.trtype}))
    case MakeSubsystem =>
      if !answered || nqn in t.subsystems then (PublishFailed, t)
      else (AddNamespace, t.(subsystems := t.subsystems[nqn := Subsystem({}, {})]))
    case AddNamespace =>
      if !answered || nqn !in t.subsystems || id !in t.lvols then (UndoSubsystem, t)
      else
        var s := t.subsystems[nqn];
        (AddListener, t.(subsystems := t.subsystems[nqn := s.(namespaces := s.namespaces + {id})]))
    case AddListener =>
      if !answered || nqn !in t.subsystems || addr.trtype !in t.transports then (FindNamespace, t)
      else
        var s := t.subsystems[nqn];
        (Published, t.(subsystems := t.subsystems[nqn := s.(listeners := s.listeners + {addr})]))
    case FindNamespace =>
      (if answered && HasNamespace(t, id) then DropNamespace else UndoSubsystem, t)
    case DropNamespace =>
      (UndoSubsystem, if answered then RemoveNamespace(t, id) else t)
    case UndoSubsystem =>
      (PublishFailed, if answered then DeleteSubsystem(t, id) else t)
    case Published => (pc, t)
    case PublishFailed => (pc, t)
  }

  predicate HasNamespace(t: Target, id: string) {
    Nqn(id) in t.subsystems && id in t.subsystems[Nqn(id)].namespaces
  }

  function RemoveNamespace(t: Target, id: string): Target {
    if !HasNamespace(t, id) then t
    else
      var s := t.subsystems[Nqn(id)];
      t.(subsystems := t.subsystems[Nqn(id) := s.(namespaces := s.namespaces - {id})])
  }

  function DeleteSubsystem(t: Target, id: string): Target {
    t.(subsystems := t.subsystems - {Nqn(id)})
  }

  /** PublishVolume from `pc` to its end. */
  function Publish(pc: PublishPc, t: Target, id: string, addr: Address, o: PublishPc -> bool): (r: (bool, Target))
    decreases PublishRank(pc)
  {
    if PublishRank(pc) == 0 then (pc.Published?, t)
    else
      var (pc', t') := PublishStep(pc, t, id, addr, o(pc));
      Publish(pc', t', id, addr, o)
  }

  /** Where an undo sequence ends: it fails, and the subsystem goes exactly when its own delete
      is answered, whatever happened to the namespace. */
  lemma UndoOutcome(pc: PublishPc, t: Target, id: string, addr: Address, o: PublishPc -> bool)
    requires pc in {FindNamespace, DropNamespace, UndoSubsystem}
    ensures var (ok, t') := Publish(pc, t, id, addr, o);
            && !ok && t'.lvols == t.lvols && t'.transports == t.transports
            && SameElsewhere(t, t', id)
            && (o(UndoSubsystem) ==> Nqn(id) !in t'.subsystems)
            && (!o(UndoSubsystem) ==>
                  && (Nqn(id) in t'.subsystems <==> Nqn(id) in t.subsystems)
                  && (Nqn(id) in t.subsystems ==> t'.subsystems[Nqn(id)].listeners == t.subsystems[Nqn(id)].listeners))
    decreases PublishRank(pc)
  {
  }

  /** How far PublishVolume gets before it has a subsystem to fill. */
  lemma PublishPrefix(t: Target, t1: Target, id: string, addr: Address, o: PublishPc -> bool)
    requires id in t.lvols && o(CheckListener) && !Listening(t, id, addr) && o(MakeTransport)
    requires t1 == t.(transports := t.transports + {addr.trtype})
    ensures var all := Publish(CheckVolume, t, id, addr, o);
            if !o(MakeSubsystem) || Nqn(id) in t.subsystems then all == (false, t1)
            else all == Publish(AddNamespace,
                                t1.(subsystems := t1.subsystems[Nqn(id) := Subsystem({}, {})]), id, addr, o)
  {
  }

  /** From a fresh subsystem on: it ends up holding exactly the volume and the listener, or
      without any listener, and gone if its delete is answered. */
  lemma FillOutcome(t: Target, id: string, addr: Address, o: PublishPc -> bool)
    requires id in t.lvols && addr.trtype in t.transports
    requires Nqn(id) in t.subsystems && t.subsystems[Nqn(id)] == Subsystem({}, {})
    ensures var (ok, t') := Publish(AddNamespace, t, id, addr, o);
            && t'.lvols == t.lvols && t'.transports == t.transports && SameElsewhere(t, t', id)
            && (ok <==> o(AddNamespace) && o(AddListener))
            && (ok ==> Exported(t', id, addr))
            && (!ok && o(UndoSubsystem) ==> Nqn(id) !in t'.subsystems)
            && (!ok && Nqn(id) in t'.subsystems ==> t'.subsystems[Nqn(id)].listeners == {})
  {
    var (p1, t1) := PublishStep(AddNamespace, t, id, addr, o(AddNamespace));
    if p1 == UndoSubsystem {
      UndoOutcome(p1, t1, id, addr, o);
    } else if !o(AddListener) {
      UndoOutcome(FindNamespace, t1, id, addr, o);
    }
  }

  /** PublishVolume is all or nothing. On success the node listens for the volume, and the volume is
      exported if there was no subsystem before; an existing subsystem is left as it is. On failure no
      listener was added, and if no subsystem existed before, none is left as soon as the rolling-back
      delete is answered. Other volumes' subsystems and all lvols are never touched. */
  lemma PublishOutcome(t: Target, id: string, addr: Address, o: PublishPc -> bool)
    ensures var (ok, t') := Publish(CheckVolume, t, id, addr, o);
            && t'.lvols == t.lvols
            && SameElsewhere(t, t', id)
            && (ok ==> id in t.lvols && Listening(t', id, addr))
            && (ok && Nqn(id) !in t.subsystems ==> Exported(t', id, addr))
            && (Nqn(id) in t.subsystems ==> t'.subsystems == t.subsystems)
            && (!ok && Nqn(id) !in t.subsystems && o(UndoSubsystem) ==> t'.subsystems == t.subsystems)
            && (!ok && Nqn(id) !in t.subsystems && Nqn(id) in t'.subsystems ==> t'.subsystems[Nqn(id)].listeners == {})
  {
    if id in t.lvols && o(CheckListener) && !Listening(t, id, addr) {
      assert Publish(MakeTransport, t, id, addr, o) == Publish(CheckVolume, t, id, addr, o);
      if o(MakeTransport) {
        var t1 := t.(transports := t.transports + {addr.trtype});
        PublishPrefix(t, t1, id, addr, o);
        if o(MakeSubsystem) && Nqn(id) !in t.subsystems {
          var t2 := t1.(subsystems := t1.subsystems[Nqn(id) := Subsystem({}, {})]);
          FillOutcome(t2, id, addr, o);
          assert SameElsewhere(t, t2, id);
          if !o(AddNamespace) || !o(AddListener) {
            if o(UndoSubsystem) { SameEverywhere(t, Publish(AddNamespace, t2, id, addr, o).1, id); }
          }
        }
      }
    }
  }

  /** Exactly what PublishVolume does under all answers, in closed form: when it succeeds, and what it
      leaves of the transport and the subsystem, whether it succeeds, fails or fails to roll back. */
  lemma PublishExactly(t: Target, id: string, addr: Address, o: PublishPc -> bool)
    ensures var (ok, t') := Publish(CheckVolume, t, id, addr, o);
            var looked := id in t.lvols && o(CheckListener);
            var ready := looked && !Listening(t, id, addr) && o(MakeTransport);
            var made := ready && o(MakeSubsystem) && Nqn(id) !in t.subsystems;
            var filled := o(AddNamespace) && o(AddListener);
            && (ok <==> looked && (Listening(t, id, addr) || (made && filled)))
            && t' == t.(transports := t'.transports, subsystems := t'.subsystems)
            && t'.transports == (if ready then t.transports + {addr.trtype} else t.transports)
            && t'.subsystems ==
               (if made && filled then t.subsystems[Nqn(id) := Subsystem({id}, {addr})]
                else if made && !o(UndoSubsystem) then
                  var kept := o(AddNamespace) && !(o(FindNamespace) && o(DropNamespace));
                  t.subsystems[Nqn(id) := Subsystem(if kept then {id} else {}, {})]
                else t.subsystems)
  {
    if id in t.lvols && o(CheckListener) && !Listening(t, id, addr) {
      assert Publish(MakeTransport, t, id, addr, o) == Publish(CheckVolume, t, id, addr, o);
      if o(MakeTransport) {
        var t1 := t.(transports := t.transports + {addr.trtype});
        PublishPrefix(t, t1, id, addr, o);
        if o(MakeSubsystem) && Nqn(id) !in t.subsystems {
          var t2 := t1.(subsystems := t1.subsystems[Nqn(id) := Subsystem({}, {})]);
          FillExactly(t2, id, addr, o);
          assert t2.subsystems - {Nqn(id)} == t.subsystems;
        }
      }
    }
  }

  lemma FillExactly(t: Target, id: string, addr: Address, o: PublishPc -> bool)
    requires id in t.lvols && addr.trtype in t.transports
    requires Nqn(id) in t.subsystems && t.subsystems[Nqn(id)] == Subsystem({}, {})
    ensures var kept := o(AddNamespace) && !(o(FindNamespace) && o(DropNamespace));
            Publish(AddNamespace, t, id, addr, o) ==
            if o(AddNamespace) && o(AddListener)
            then (true, t.(subsystems := t.subsystems[Nqn(id) := Subsystem({id}, {addr})]))
            else if o(UndoSubsystem) then (false, t.(subsystems := t.subsystems - {Nqn(id)}))
            else (false, t.(subsystems := t.subsystems[Nqn(id) := Subsystem(if kept then {id} else {}, {})]))
  {
    if o(AddNamespace) {
      var t1 := t.(subsystems := t.subsystems[Nqn(id) := Subsystem({id}, {})]);
      assert {} + {id} == {id} && {} + {addr} == {addr} && {id} - {id} == {};
      assert Publish(AddListener, t1, id, addr, o) == Publish(AddNamespace, t, id, addr, o);
      if o(AddListener) {
        var full := Subsystem({id}, {addr});
        assert t1.subsystems[Nqn(id) := full] == t.subsystems[Nqn(id) := full];
      } else {
        UndoExactly(t1, id, addr, o);
        var emptied := t.subsystems[Nqn(id) := Subsystem({}, {})];
        assert RemoveNamespace(t1, id) == t.(subsystems := emptied);
        assert t1.subsystems - {Nqn(id)} == t.subsystems - {Nqn(id)} == emptied - {Nqn(id)};
      }
    } else {
      assert t.subsystems[Nqn(id) := Subsystem({}, {})] == t.subsystems;
    }
  }

  lemma UndoExactly(t: Target, id: string, addr: Address, o: PublishPc -> bool)
    requires HasNamespace(t, id)
    ensures var t1 := if o(FindNamespace) && o(DropNamespace) then RemoveNamespace(t, id) else t;
            Publish(FindNamespace, t, id, addr, o) ==
            (false, if o(UndoSubsystem) then t1.(subsystems := t1.subsystems - {Nqn(id)}) else t1)
  {
    if o(FindNamespace) {
      assert Publish(DropNamespace, t, id, addr, o) == Publish(FindNamespace, t, id, addr, o);
    }
  }

  /** A successful PublishVolume has looked at the listeners only: there is a namespace exactly if there
      was no subsystem before, or one with the namespace. */
  lemma PublishedNamespace(t: Target, id: string, addr: Address, o: PublishPc -> bool)
    requires Publish(CheckVolume, t, id, addr, o).0
    ensures HasNamespace(Publish(CheckVolume, t, id, addr, o).1, id) <==>
            Nqn(id) !in t.subsystems || HasNamespace(t, id)
  {
    PublishOutcome(t, id, addr, o);
  }

  /** With every RPC answered, PublishVolume succeeds exactly when the volume exists and is either
      exported already or has no subsystem at all. */
  lemma PublishWithoutFaults(t: Target, id: string, addr: Address)
    ensures Publish(CheckVolume, t, id, addr, _ => true).0 <==>
            id in t.lvols && (Listening(t, id, addr) || Nqn(id) !in t.subsystems)
  {
    var o := (_: PublishPc) => true;
    if id in t.lvols && !Listening(t, id, addr) {
      var t1 := t.(transports := t.transports + {addr.trtype});
      PublishPrefix(t, t1, id, addr, o);
      if Nqn(id) !in t.subsystems {
        FillOutcome(t1.(subsystems := t1.subsystems[Nqn(id) := Subsystem({}, {})]), id, addr, o);
      }
    }
  }

  /** A subsystem left behind without the node's listener (a rollback that was cut short) blocks
      the volume: no publish gets through it, under any answers, and none repairs it. */
  lemma StaleSubsystemBlocksPublish(t: Target, id: string, addr: Address, o: PublishPc -> bool)
    requires Nqn(id) in t.subsystems && !Listening(t, id, addr)
    ensures var (ok, t') := Publish(CheckVolume, t, id, addr, o);
            !ok && t'.subsystems == t.subsystems && t'.lvols == t.lvols
  {
    PublishOutcome(t, id, addr, o);
  }

  /******* UnpublishVolume *******/

  datatype UnpublishPc =
    | FindVolume
    | FindListener
    | LookupNamespace
    | TakeNamespace
    | TakeSubsystem
    | Unpublished
    | VolumeGone        // ErrVolumeDeleted
    | UnpublishFailed

  function UnpublishRank(pc: UnpublishPc): nat {
    match pc
    case FindVolume => 5
    case FindListener => 4
    case LookupNamespace => 3
    case TakeNamespace => 2
    case TakeSubsystem => 1
    case Unpublished => 0
    case VolumeGone => 0
    case UnpublishFailed => 0
  }

  function UnpublishStep(pc: UnpublishPc, t: Target, id: string, addr: Address, answered: bool)
    : (r: (UnpublishPc, Target))
    ensures UnpublishRank(pc) > 0 ==> UnpublishRank(r.0) < UnpublishRank(pc)
  {
    match pc
    case FindVolume =>
      (if id in t.lvols then FindListener else VolumeGone, t)
    case FindListener =>
      (if !answered then UnpublishFailed else if Listening(t, id, addr) then LookupNamespace else Unpublished, t)
    case LookupNamespace =>
      (if answered && HasNamespace(t, id) then TakeNamespace else TakeSubsystem, t)
    case TakeNamespace =>
      (TakeSubsystem, if answered then RemoveNamespace(t, id) else t)
    case TakeSubsystem =>
      if !answered || Nqn(id) !in t.subsystems then (UnpublishFailed, t)
      else (Unpublished, DeleteSubsystem(t, id))
    case Unpublished => (pc, t)
    case VolumeGone => (pc, t)
    case UnpublishFailed => (pc, t)
  }

  function Unpublish(pc: UnpublishPc, t: Target, id: string, addr: Address, o: UnpublishPc -> bool)
    : (r: (UnpublishPc, Target))
    ensures UnpublishRank(r.0) == 0
    decreases UnpublishRank(pc)
  {
    if UnpublishRank(pc) == 0 then (pc, t)
    else
      var (pc', t') := UnpublishStep(pc, t, id, addr, o(pc));
      Unpublish(pc', t', id, addr, o)
  }

  /** UnpublishVolume reports a deleted volume exactly when there is none; success means the
      volume is not exported any more; an answered subsystem delete clears the whole subsystem
      whatever became of the namespace removal before it; and failure leaves the listeners. */
  lemma UnpublishOutcome(t: Target, id: string, addr: Address, o: UnpublishPc -> bool)
    ensures var (r, t') := Unpublish(FindVolume, t, id, addr, o);
            && t'.lvols == t.lvols && SameElsewhere(t, t', id) && t'.transports == t.transports
            && (r.VolumeGone? <==> id !in t.lvols)
            && (r.Unpublished? ==> !Listening(t', id, addr))
            && (r.Unpublished? && Listening(t, id, addr) ==> Nqn(id) !in t'.subsystems)
            && (id in t.lvols && Listening(t, id, addr) ==> (r.Unpublished? <==> o(FindListener) && o(TakeSubsystem)))
            && (id in t.lvols && !Listening(t, id, addr) ==> (r.Unpublished? <==> o(FindListener)))
            && (!Listening(t, id, addr) || r.VolumeGone? ==> t' == t)
            && (r.UnpublishFailed? ==> (Listening(t', id, addr) <==> Listening(t, id, addr)))
  {
    var (p1, t1) := UnpublishStep(FindVolume, t, id, addr, o(FindVolume));
    var (p2, t2) := UnpublishStep(p1, t1, id, addr, o(p1));
    var (p3, t3) := UnpublishStep(p2, t2, id, addr, o(p2));
    var (p4, t4) := UnpublishStep(p3, t3, id, addr, o(p3));
    assert Unpublish(p2, t2, id, addr, o) == Unpublish(FindVolume, t, id, addr, o);
    assert Unpublish(p4, t4, id, addr, o) == Unpublish(p2, t2, id, addr, o);
  }

  /** Exactly what UnpublishVolume does under all answers, in closed form. */
  lemma UnpublishExactly(t: Target, id: string, addr: Address, o: UnpublishPc -> bool)
    ensures var (r, t') := Unpublish(FindVolume, t, id, addr, o);
            var finds := id in t.lvols && o(FindListener) && Listening(t, id, addr);
            && r == (if id !in t.lvols then VolumeGone
                     else if !o(FindListener) || (finds && !o(TakeSubsystem)) then UnpublishFailed else Unpublished)
            && t' == t.(subsystems := t'.subsystems)
            && t'.subsystems ==
               (if finds && o(TakeSubsystem) then t.subsystems - {Nqn(id)}
                else if finds && o(LookupNamespace) && o(TakeNamespace) then
                  var s := t.subsystems[Nqn(id)];
                  t.subsystems[Nqn(id) := s.(namespaces := s.namespaces - {id})]
                else t.subsystems)
  {
    if id in t.lvols && o(FindListener) && Listening(t, id, addr) {
      assert Unpublish(FindListener, t, id, addr, o) == Unpublish(FindVolume, t, id, addr, o);
      assert Unpublish(LookupNamespace, t, id, addr, o) == Unpublish(FindListener, t, id, addr, o);
      var s := t.subsystems[Nqn(id)];
      if HasNamespace(t, id) {
        UnpublishNamespace(t, id, addr, o);
      } else {
        assert s.namespaces - {id} == s.namespaces;
        assert t.subsystems[Nqn(id) := s.(namespaces := s.namespaces)] == t.subsystems;
      }
    }
  }

  lemma UnpublishNamespace(t: Target, id: string, addr: Address, o: UnpublishPc -> bool)
    requires HasNamespace(t, id)
    ensures var t1 := if o(LookupNamespace) && o(TakeNamespace) then RemoveNamespace(t, id) else t;
            Unpublish(LookupNamespace, t, id, addr, o) ==
            if o(TakeSubsystem) then (Unpublished, t1.(subsystems := t1.subsystems - {Nqn(id)}))
            else (UnpublishFailed, t1)
  {
    if o(LookupNamespace) {
      assert Unpublish(TakeNamespace, t, id, addr, o) == Unpublish(LookupNamespace, t, id, addr, o);
    }
  }

  /******* The controller's use of one node: the second half of CreateVolume, and DeleteVolume *******/

  function DropLvol(t: Target, id: string, answered: bool): Target {
    if answered then t.(lvols := t.lvols - {id}) else t
  }

  /** DeleteVolume: unpublish, then delete the lvol; a volume that is gone counts as deleted. */
  function DeleteVolume(t: Target, id: string, addr: Address, o: UnpublishPc -> bool, drop: bool): (r: (bool, Target)) {
    var (u, t1) := Unpublish(FindVolume, t, id, addr, o);
    match u
    case VolumeGone => (true, t1)
    case Unpublished => (drop, DropLvol(t1, id, drop))
    case _ => (false, t1)
  }

  /** Everything CreateVolume does once it has a volume id, found or new: publish it, ask for its
      volume info, and on any failure delete the lvol. */
  function PublishOrDelete(t: Target, id: string, addr: Address,
                           p: PublishPc -> bool, info: bool, u: UnpublishPc -> bool, drop: bool): (r: (bool, Target))
  {
    var (ok, t1) := Publish(CheckVolume, t, id, addr, p);
    if !ok then (false, DropLvol(t1, id, drop))
    else if info then (true, t1)
    else (false, DropLvol(Unpublish(FindVolume, t1, id, addr, u).1, id, drop))
  }

  /** DeleteVolume succeeds exactly when there is no lvol, or the listener query, the subsystem delete that
      a listener calls for, and the lvol delete are answered. It deletes the lvol only when nothing listens
      for it, touches nothing that belongs to another volume, and reports success exactly when the lvol is
      gone. */
  lemma DeleteOutcome(t: Target, id: string, addr: Address, o: UnpublishPc -> bool, drop: bool)
    ensures var (ok, t') := DeleteVolume(t, id, addr, o, drop);
            && (ok <==> id !in t.lvols ||
                        (o(FindListener) && (Listening(t, id, addr) ==> o(TakeSubsystem)) && drop))
            && (ok <==> id !in t'.lvols)
            && (id in t.lvols && id !in t'.lvols ==> !Listening(t', id, addr))
            && t'.lvols - {id} == t.lvols - {id} && SameElsewhere(t, t', id) && t'.transports == t.transports
            && (id !in t.lvols ==> t' == t)
  {
    UnpublishOutcome(t, id, addr, o);
  }

  /** After one success every repetition succeeds and changes nothing, whatever is answered. */
  lemma DeleteIsIdempotent(t: Target, id: string, addr: Address,
                           o: UnpublishPc -> bool, drop: bool, o': UnpublishPc -> bool, drop': bool)
    requires DeleteVolume(t, id, addr, o, drop).0
    ensures var t' := DeleteVolume(t, id, addr, o, drop).1;
            DeleteVolume(t', id, addr, o', drop') == (true, t')
  {
    DeleteOutcome(t, id, addr, o, drop);
    DeleteOutcome(DeleteVolume(t, id, addr, o, drop).1, id, addr, o', drop');
  }

  /** A deleted volume leaves its subsystem behind exactly when that subsystem was stale, that is
      present without the node's listener. */
  lemma DeleteLeavesStaleSubsystem(t: Target, id: string, addr: Address, o: UnpublishPc -> bool, drop: bool)
    requires id in t.lvols && DeleteVolume(t, id, addr, o, drop).0
    ensures Nqn(id) in DeleteVolume(t, id, addr, o, drop).1.subsystems <==>
            Nqn(id) in t.subsystems && !Listening(t, id, addr)
  {
  }

  /** The second half of CreateVolume succeeds exactly when the volume exists, the queries for listeners and
      for the volume info are answered, and so is everything it takes to export a volume that is not listened
      for and has no subsystem; and on any failure the lvol goes exactly when its delete is answered. */
  lemma CreateExactly(t: Target, id: string, addr: Address,
                      p: PublishPc -> bool, info: bool, u: UnpublishPc -> bool, drop: bool)
    ensures var (ok, t') := PublishOrDelete(t, id, addr, p, info, u, drop);
            && (ok <==> id in t.lvols && p(CheckListener) && info &&
                        (Listening(t, id, addr) ||
                         (p(MakeTransport) && Nqn(id) !in t.subsystems && p(MakeSubsystem) &&
                          p(AddNamespace) && p(AddListener))))
            && t'.lvols == (if !ok && drop then t.lvols - {id} else t.lvols)
  {
    PublishExactly(t, id, addr, p);
    UnpublishExactly(Publish(CheckVolume, t, id, addr, p).1, id, addr, u);
  }

  /** CreateVolume on a volume that exists and is exported, a plain repetition, destroys the lvol
      under its users exactly when the query for listeners or the volume info goes unanswered and
      the delete is answered. */
  lemma RepeatedCreateDestroysVolume(t: Target, id: string, addr: Address,
                                     p: PublishPc -> bool, info: bool, u: UnpublishPc -> bool, drop: bool)
    requires id in t.lvols && Listening(t, id, addr)
    ensures var (ok, t') := PublishOrDelete(t, id, addr, p, info, u, drop);
            && (ok <==> p(CheckListener) && info)
            && (id !in t'.lvols <==> drop && !(p(CheckListener) && info))
  {
  }

  /** A DeleteVolume in which only the subsystem's deletion goes unanswered takes the namespace away and
      fails. From then on CreateVolume reports success for a volume that no host can reach, and repairs
      nothing. */
  lemma HalfDeletedIsReportedPublished(t: Target, id: string, addr: Address, u: UnpublishPc -> bool, drop: bool,
                                       p: PublishPc -> bool, u': UnpublishPc -> bool, drop': bool)
    requires id in t.lvols && Exported(t, id, addr)
    requires u(FindListener) && u(LookupNamespace) && u(TakeNamespace) && !u(TakeSubsystem) && p(CheckListener)
    ensures var (ok, t1) := DeleteVolume(t, id, addr, u, drop);
            && !ok && id in t1.lvols && !HasNamespace(t1, id)
            && PublishOrDelete(t1, id, addr, p, true, u', drop') == (true, t1)
  {
    HalfUnpublished(t, id, addr, u);
    var t1 := RemoveNamespace(t, id);
    assert Publish(CheckListener, t1, id, addr, p) == Publish(CheckVolume, t1, id, addr, p);
  }

  lemma HalfUnpublished(t: Target, id: string, addr: Address, u: UnpublishPc -> bool)
    requires id in t.lvols && Listening(t, id, addr) && HasNamespace(t, id)
    requires u(FindListener) && u(LookupNamespace) && u(TakeNamespace) && !u(TakeSubsystem)
    ensures Unpublish(FindVolume, t, id, addr, u) == (UnpublishFailed, RemoveNamespace(t, id))
  {
    assert Unpublish(FindListener, t, id, addr, u) == Unpublish(FindVolume, t, id, addr, u);
    assert Unpublish(LookupNamespace, t, id, addr, u) == Unpublish(FindListener, t, id, addr, u);
    assert Unpublish(TakeNamespace, t, id, addr, u) == Unpublish(LookupNamespace, t, id, addr, u);
  }

  /** A new volume never outlives a failed CreateVolume whose deletes are answered: publishing and
      everything after it is undone, up to the transport. */
  lemma FailedCreateRollsBack(t: Target, id: string, addr: Address,
                              p: PublishPc -> bool, info: bool, u: UnpublishPc -> bool, drop: bool)
    requires Nqn(id) !in t.subsystems
    requires p(UndoSubsystem) && u(FindListener) && u(TakeSubsystem) && drop
    ensures var (ok, t') := PublishOrDelete(t, id, addr, p, info, u, drop);
            && (!ok ==> t'.lvols == t.lvols - {id} && t'.subsystems == t.subsystems)
            && (ok ==> t'.lvols == t.lvols && Exported(t', id, addr) && SameElsewhere(t, t', id))
  {
    PublishOutcome(t, id, addr, p);
    var (ok, t1) := Publish(CheckVolume, t, id, addr, p);
    if ok && !info {
      UnpublishOutcome(t1, id, addr, u);
      SameEverywhere(t, Unpublish(FindVolume, t1, id, addr, u).1, id);
    }
  }

  /******* Whole histories of one volume *******/

  /** One call about the volume, with what is answered during it. Calls are serialised. */
  datatype Call =
    | CreateCall(p: PublishPc -> bool, info: bool, u: UnpublishPc -> bool, drop: bool)
    | DeleteCall(u: UnpublishPc -> bool, drop: bool)

  function After(t: Target, id: string, addr: Address, call: Call): Target {
    match call
    case CreateCall(p, info, u, drop) => PublishOrDelete(t, id, addr, p, info, u, drop).1
    case DeleteCall(u, drop) => DeleteVolume(t, id, addr, u, drop).1
  }

  function History(t: Target, id: string, addr: Address, calls: seq<Call>): Target {
    if calls == [] then t else After(History(t, id, addr, calls[..|calls|-1]), id, addr, calls[|calls|-1])
  }

  /** Over every history of calls about one volume, whatever is answered: no other volume's lvol
      or subsystem changes, no lvol appears, and once the lvol is gone the target is frozen. If the
      calls are all deletions, a listener that exported an existing lvol never outlives it. */
  lemma {:induction false} HistoryOutcome(t: Target, id: string, addr: Address, calls: seq<Call>)
    ensures var t' := History(t, id, addr, calls);
            && SameElsewhere(t, t', id) && t'.lvols - {id} == t.lvols - {id}
            && (id in t'.lvols ==> id in t.lvols && t'.lvols == t.lvols)
            && (id !in t.lvols ==> t' == t)
            && ((forall c <- calls :: c.DeleteCall?) && (Listening(t, id, addr) ==> id in t.lvols) ==>
                  (Listening(t', id, addr) ==> id in t'.lvols))
  {
    if calls != [] {
      var before, last := calls[..|calls|-1], calls[|calls|-1];
      HistoryOutcome(t, id, addr, before);
      CallOutcome(History(t, id, addr, before), id, addr, last);
    }
  }

  lemma CallOutcome(t: Target, id: string, addr: Address, call: Call)
    ensures var t' := After(t, id, addr, call);
            && SameElsewhere(t, t', id) && t'.lvols - {id} == t.lvols - {id}
            && (id in t'.lvols ==> id in t.lvols && t'.lvols == t.lvols)
            && (id !in t.lvols ==> t' == t)
            && (call.DeleteCall? && (Listening(t, id, addr) ==> id in t.lvols) ==>
                  (Listening(t', id, addr) ==> id in t'.lvols))
  {
    match call
    case DeleteCall(u, drop) =>
      DeleteOutcome(t, id, addr, u, drop);
      UnpublishOutcome(t, id, addr, u);
    case CreateCall(p, info, u, drop) =>
      PublishOutcome(t, id, addr, p);
      UnpublishOutcome(Publish(CheckVolume, t, id, addr, p).1, id, addr, u);
      if id !in t.lvols {
        assert PublishStep(CheckVolume, t, id, addr, p(CheckVolume)) == (PublishFailed, t);
        assert Publish(CheckVolume, t, id, addr, p) == Publish(PublishFailed, t, id, addr, p);
      }
  }
}
