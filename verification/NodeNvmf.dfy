/**
 `nodeNVMf`, the driver's handle on one SPDK storage node. The target's state lives in the
 storage node, so it is kept in an `Spdk` object of its own; the handle itself only remembers
 whether it has seen the transport exist.

 Methods take what is answered of the RPCs they issue, keyed by the step that issues them.
 */
module NodeNvmf {
  import opened SpdkTarget

  class Node {
    const spdk: Spdk
    const addr: Address
    var transCreated: bool

    ghost predicate Valid()
      reads this, spdk
    {
      transCreated ==> addr.trtype in spdk.t.transports
    }

    constructor (spdk: Spdk, addr: Address)
      ensures Valid() && !transCreated
      ensures this.spdk == spdk && this.addr == addr
    {
      this.spdk := spdk;
      this.addr := addr;
      this.transCreated := false;
    }

    method IsVolumeCreated(lvolID: string) returns (exists_: bool)
      requires Valid()
      ensures exists_ <==> lvolID in spdk.t.lvols
    {
      exists_ := lvolID in spdk.t.lvols;
    }

    /** Scans the subsystem's listeners for the node's own address. A subsystem that does not
        exist is answered with "Invalid parameters" and counts as not published. */
    method IsVolumePublished(lvolID: string, answered: bool) returns (ok: bool, published: bool)
      requires Valid()
      ensures ok <==> answered
      ensures published <==> answered && Listening(spdk.t, lvolID, addr)
    {
      if !answered {
        return false, false;
      }
      if Nqn(lvolID) !in spdk.t.subsystems {
        return true, false;
      }
      var result := spdk.t.subsystems[Nqn(lvolID)].listeners;
      while result != {}
        invariant addr in spdk.t.subsystems[Nqn(lvolID)].listeners ==> addr in result
        invariant result <= spdk.t.subsystems[Nqn(lvolID)].listeners
        decreases |result|
      {
        var a :| a in result;
        if a.trtype == addr.trtype && a.traddr == addr.traddr && a.trsvcid == addr.trsvcid && a.adrfam == addr.adrfam {
          return true, true;
        }
        result := result - {a};
      }
      return true, false;
    }

    /** Issues the RPC only when the handle has not seen the transport yet; a transport that
        exists already is not an error. */
    method CreateTransport(answered: bool) returns (ok: bool)
      requires Valid()
      modifies this`transCreated, spdk
      ensures Valid()
      ensures ok <==> answered || old(transCreated)
      ensures spdk.t == if ok then old(spdk.t).(transports := old(spdk.t).transports + {addr.trtype}) else old(spdk.t)
      ensures transCreated <==> ok
    {
      if transCreated {
        return true;
      }
      if answered {
        var t := spdk.t;
        spdk.t := t.(transports := t.transports + {addr.trtype});
        transCreated := true;
      }
      return answered;
    }

    method CreateSubsystem(lvolID: string, answered: bool) returns (ok: bool)
      requires Valid()
      modifies spdk
      ensures Valid()
      ensures ok <==> answered && Nqn(lvolID) !in old(spdk.t).subsystems
      ensures ok ==> spdk.t == old(spdk.t).(subsystems := old(spdk.t).subsystems[Nqn(lvolID) := Subsystem({}, {})])
      ensures !ok ==> spdk.t == old(spdk.t)
    {
      var t := spdk.t;
      ok := answered && Nqn(lvolID) !in t.subsystems;
      if ok {
        spdk.t := t.(subsystems := t.subsystems[Nqn(lvolID) := Subsystem({}, {})]);
      }
    }

    method SubsystemAddNs(lvolID: string, answered: bool) returns (ok: bool)
      requires Valid()
      modifies spdk
      ensures Valid()
      ensures ok <==> answered && Nqn(lvolID) in old(spdk.t).subsystems && lvolID in old(spdk.t).lvols
      ensures ok ==> var s := old(spdk.t).subsystems[Nqn(lvolID)];
                     spdk.t == old(spdk.t).(subsystems :=
                       old(spdk.t).subsystems[Nqn(lvolID) := s.(namespaces := s.namespaces + {lvolID})])
      ensures !ok ==> spdk.t == old(spdk.t)
    {
      var t := spdk.t;
      ok := answered && Nqn(lvolID) in t.subsystems && lvolID in t.lvols;
      if ok {
        var s := t.subsystems[Nqn(lvolID)];
        spdk.t := t.(subsystems := t.subsystems[Nqn(lvolID) := s.(namespaces := s.namespaces + {lvolID})]);
      }
    }

    method SubsystemAddListener(lvolID: string, answered: bool) returns (ok: bool)
      requires Valid()
      modifies spdk
      ensures Valid()
      ensures ok <==> answered && Nqn(lvolID) in old(spdk.t).subsystems && addr.trtype in old(spdk.t).transports
      ensures ok ==> var s := old(spdk.t).subsystems[Nqn(lvolID)];
                     spdk.t == old(spdk.t).(subsystems :=
                       old(spdk.t).subsystems[Nqn(lvolID) := s.(listeners := s.listeners + {addr})])
      ensures !ok ==> spdk.t == old(spdk.t)
    {
      var t := spdk.t;
      ok := answered && Nqn(lvolID) in t.subsystems && addr.trtype in t.transports;
      if ok {
        var s := t.subsystems[Nqn(lvolID)];
        spdk.t := t.(subsystems := t.subsystems[Nqn(lvolID) := s.(listeners := s.listeners + {addr})]);
      }
    }

    /** Looks the namespace up, then removes it: two RPCs. */
    method SubsystemRemoveNs(lvolID: string, lookup: bool, remove: bool) returns (ok: bool)
      requires Valid()
      modifies spdk
      ensures Valid()
      ensures ok <==> lookup && remove && HasNamespace(old(spdk.t), lvolID)
      ensures spdk.t == if ok then RemoveNamespace(old(spdk.t), lvolID) else old(spdk.t)
    {
      var t := spdk.t;
      ok := lookup && HasNamespace(t, lvolID);
      if ok {
        ok := remove;
        if ok {
          spdk.t := RemoveNamespace(t, lvolID);
        }
      }
    }

    method DeleteSubsystem(lvolID: string, answered: bool) returns (ok: bool)
      requires Valid()
      modifies spdk
      ensures Valid()
      ensures ok <==> answered && Nqn(lvolID) in old(spdk.t).subsystems
      ensures spdk.t == if answered then SpdkTarget.DeleteSubsystem(old(spdk.t), lvolID) else old(spdk.t)
    {
      var t := spdk.t;
      ok := answered && Nqn(lvolID) in t.subsystems;
      if ok {
        spdk.t := SpdkTarget.DeleteSubsystem(t, lvolID);
      } else {
        assert Nqn(lvolID) !in t.subsystems ==> t.subsystems - {Nqn(lvolID)} == t.subsystems;
      }
    }

    /** A handle that has seen the transport is not stopped by an unanswered create. */
    ghost function Effective(o: PublishPc -> bool): PublishPc -> bool
      reads this
    {
      var seen := transCreated;
      (pc: PublishPc) => o(pc) || (seen && pc == MakeTransport)
    }

    method PublishVolume(lvolID: string, o: PublishPc -> bool) returns (ok: bool)
      requires Valid()
      modifies this`transCreated, spdk
      ensures Valid()
      ensures (ok, spdk.t) == Publish(CheckVolume, old(spdk.t), lvolID, addr, old(Effective(o)))
    {
      ghost var e := Effective(o);
      var created := IsVolumeCreated(lvolID);
      if !created {
        return false;
      }
      var answered, published := IsVolumePublished(lvolID, o(CheckListener));
      if !answered || published {
        return answered;
      }
      ghost var t0 := spdk.t;
      ok := CreateTransport(o(MakeTransport));
      if !ok {
        return;
      }
      ghost var t1 := spdk.t;
      ok := CreateSubsystem(lvolID, o(MakeSubsystem));
      if !ok {
        PublishPrefix(t0, t1, lvolID, addr, e);
        return;
      }
      ok := PublishExport(lvolID, o, e);
      PublishPrefix(t0, t1, lvolID, addr, e);
    }

    /** The second half of PublishVolume: fill the new subsystem, or take it down again. */
    method PublishExport(lvolID: string, o: PublishPc -> bool, ghost e: PublishPc -> bool) returns (ok: bool)
      requires Valid()
      requires forall pc :: pc != MakeTransport ==> e(pc) == o(pc)
      modifies spdk
      ensures Valid()
      ensures (ok, spdk.t) == Publish(AddNamespace, old(spdk.t), lvolID, addr, e)
    {
      ok := SubsystemAddNs(lvolID, o(AddNamespace));
      if !ok {
        var _ := DeleteSubsystem(lvolID, o(UndoSubsystem));
        return;
      }
      ok := SubsystemAddListener(lvolID, o(AddListener));
      if !ok {
        ghost var t := spdk.t;
        var _ := SubsystemRemoveNs(lvolID, o(FindNamespace), o(DropNamespace));
        assert Publish(UndoSubsystem, spdk.t, lvolID, addr, e) == Publish(FindNamespace, t, lvolID, addr, e);
        var _ := DeleteSubsystem(lvolID, o(UndoSubsystem));
      }
    }

    method UnpublishVolume(lvolID: string, o: UnpublishPc -> bool) returns (r: UnpublishPc)
      requires Valid()
      modifies spdk
      ensures Valid()
      ensures (r, spdk.t) == Unpublish(FindVolume, old(spdk.t), lvolID, addr, o)
    {
      ghost var all := Unpublish(FindVolume, spdk.t, lvolID, addr, o);
      var created := IsVolumeCreated(lvolID);
      if !created {
        return VolumeGone;
      }
      assert all == Unpublish(FindListener, spdk.t, lvolID, addr, o);
      var answered, published := IsVolumePublished(lvolID, o(FindListener));
      if !answered {
        return UnpublishFailed;
      }
      if !published {
        return Unpublished;
      }
      assert all == Unpublish(LookupNamespace, spdk.t, lvolID, addr, o);
      var _ := SubsystemRemoveNs(lvolID, o(LookupNamespace), o(TakeNamespace));
      assert all == Unpublish(TakeSubsystem, spdk.t, lvolID, addr, o);
      var ok := DeleteSubsystem(lvolID, o(TakeSubsystem));
      return if ok then Unpublished else UnpublishFailed;
    }
  }
}
