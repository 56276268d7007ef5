/**
 `xpuInitiator` on KVM over the OPI backends: what it stashes when it connects, what one built after a
 driver restart makes of the stash, and what a lost stash loses.
 */
module XpuInitiator {
  import opened Saga
  import opened Text
  import opened XpuContext
  import opened OpiInitiator

  /** The stashed contexts, one file for each staging directory. */
  class Stash {
    var files: map<string, Context>

    constructor ()
      ensures files == map[]
    {
      files := map[];
    }
  }

  /** What GetAvailableFunctions finds. */
  datatype Functions = NoneFree | Free(pfID: uint32, vfID: uint32, pfBdf: string, vfBdf: string)

  /** What the host answers during one Connect: the path of a device that is there already and that of
      the device to wait for ("" if there is none), the PCI functions, and which files can be written. */
  datatype Host = Host(existing: string, functions: Functions, appears: string, saved: bool)

  class Xpu {
    const backend: Opi
    const stash: Stash
    const parent: string
    var devicePath: string
    var pfID: uint32
    var vfID: uint32
    var pfBdf: string
    var vfBdf: string

    /** Reads the stash, if there is one and it can be read. */
    constructor (bridge: Bridge, stash: Stash, model: string, portOk: bool, kind: BackendKind,
                 parent: string, readable: bool)
      requires kind != SmaKind
      ensures fresh(backend)
      ensures backend.bridge == bridge && backend.model == model && backend.portOk == portOk && backend.kind == kind
      ensures this.stash == stash && this.parent == parent
      ensures Remembered() == Restore(kind, if readable && parent in stash.files then stash.files[parent] else map[])
    {
      var stored: Context := if readable && parent in stash.files then stash.files[parent] else map[];
      this.stash := stash;
      this.parent := parent;
      devicePath := Get(stored, "devicePath");
      pfBdf := Get(stored, "pfBdf");
      vfBdf := Get(stored, "vfBdf");
      pfID := ParseUint32(Get(stored, "pfID"));
      vfID := ParseUint32(Get(stored, "vfID"));
      backend := new Opi(bridge, model, portOk, kind, stored);
    }

    ghost function Remembered(): Fields
      reads this, backend
    {
      Fields(backend.Names(), devicePath, pfID, vfID, pfBdf, vfBdf)
    }

    ghost function Now(): View
      reads this, backend, backend.bridge
    {
      backend.Now()
    }

    ghost predicate Valid()
      reads this, backend, backend.bridge
    {
      backend.Valid()
    }

    method SaveXpuContext(answered: bool) returns (ok: bool)
      modifies stash
      ensures ok == answered
      ensures stash.files == if ok then old(stash.files)[parent := Save(Remembered())] else old(stash.files)
    {
      var context := backend.GetParam();
      context := context["devicePath" := devicePath]["pfID" := Decimal(pfID as nat)]["vfID" := Decimal(vfID as nat)];
      context := context["pfBdf" := pfBdf]["vfBdf" := vfBdf];
      ok := answered;
      if ok {
        stash.files := stash.files[parent := context];
      }
    }

    /** Only the NVMe initiator looks for a device that exists already. */
    predicate Finds(h: Host) {
      backend.kind == OpiNvmeKind && h.existing != ""
    }

    /** ConnectNvme. A device that exists already is returned as it is: nothing is created, and nothing is
        remembered, not even its path. */
    method ConnectNvme(h: Host, o: Kind -> bool, d: Kind -> bool, undo: Kind -> bool) returns (ok: bool, path: string)
      requires Valid() && backend.kind == OpiNvmeKind
      modifies this, backend, backend.bridge`resources
      ensures Valid() && backend.OthersKept()
      ensures ok ==> path == if Finds(h) then h.existing else h.appears
      ensures Finds(h) ==> ok && Remembered() == old(Remembered()) &&
                           backend.bridge.resources == old(backend.bridge.resources)
      ensures !Finds(h) ==> Connected(old(Now()), old(devicePath), h, o, d, undo, ok)
    {
      if h.existing != "" {
        return true, h.existing;
      }
      ok, path := ConnectDevice(h, o, d, undo);
    }

    /** What a Connect that finds no device amounts to: the backend connects, and disconnects again if no
        device appears. */
    ghost predicate Connected(v: View, path: string, h: Host, o: Kind -> bool, d: Kind -> bool,
                              undo: Kind -> bool, ok: bool)
      reads this, backend, backend.bridge
    {
      if h.functions.NoneFree? then !ok && Now() == v && devicePath == path
      else
        var (connected, v') := Saga.Connect(backend.ThePlan(), v, backend.Effective(o), d);
        && Free(pfID, vfID, pfBdf, vfBdf) == h.functions
        && (ok <==> connected && h.appears != "")
        && devicePath == (if ok then h.appears else path)
        && Now() == if connected && h.appears == "" then Saga.Disconnect(backend.ThePlan(), v', undo).1 else v'
    }

    /** ConnectVirtioBlk, and what ConnectNvme does after its look for a device. */
    method ConnectDevice(h: Host, o: Kind -> bool, d: Kind -> bool, undo: Kind -> bool) returns (ok: bool, path: string)
      requires Valid()
      modifies this, backend, backend.bridge`resources
      ensures Valid() && backend.OthersKept()
      ensures ok ==> path == h.appears
      ensures Connected(old(Now()), old(devicePath), h, o, d, undo, ok)
    {
      if h.functions.NoneFree? {
        return false, "";
      }
      pfID, vfID, pfBdf, vfBdf := h.functions.pfID, h.functions.vfID, h.functions.pfBdf, h.functions.vfBdf;
      ok := backend.Connect(o, d);
      if !ok {
        return false, "";
      }
      if h.appears == "" {
        var _ := backend.Disconnect(undo);
        return false, "";
      }
      devicePath := h.appears;
      return true, h.appears;
    }

    /** What is stashed on success is what the initiator remembers. A stash that cannot be written makes
        Connect fail, and undoes nothing. */
    method Connect(h: Host, o: Kind -> bool, d: Kind -> bool, undo: Kind -> bool) returns (ok: bool, path: string)
      requires Valid()
      modifies this, backend, backend.bridge`resources, stash
      ensures Valid() && backend.OthersKept()
      ensures stash.files == if ok then old(stash.files)[parent := Save(Remembered())] else old(stash.files)
      ensures ok ==> h.saved && path == if Finds(h) then h.existing else h.appears
      ensures Finds(h) ==> (ok <==> h.saved) && Remembered() == old(Remembered()) &&
                           backend.bridge.resources == old(backend.bridge.resources)
      ensures !Finds(h) ==> exists connected ::
                Connected(old(Now()), old(devicePath), h, o, d, undo, connected) && (ok <==> connected && h.saved)
    {
      if backend.kind == OpiNvmeKind {
        ok, path := ConnectNvme(h, o, d, undo);
      } else {
        ok, path := ConnectDevice(h, o, d, undo);
      }
      ghost var connected := ok;
      if ok {
        ok := SaveXpuContext(h.saved);
      }
      if !ok {
        path := "";
      }
      assert !Finds(h) ==> Connected(old(Now()), old(devicePath), h, o, d, undo, connected);
    }

    /** Without a device path nothing is taken down at all. The stash goes in any case. */
    method Disconnect(d: Kind -> bool, gone: bool, cleaned: bool) returns (ok: bool)
      requires Valid()
      modifies this, backend, backend.bridge`resources, stash
      ensures Valid() && backend.OthersKept()
      ensures devicePath == old(devicePath)
      ensures stash.files == if cleaned then old(stash.files) - {parent} else old(stash.files)
      ensures old(devicePath) == "" ==> !ok && backend.bridge.resources == old(backend.bridge.resources)
      ensures old(devicePath) != "" ==> Now() == Saga.Disconnect(backend.ThePlan(), old(Now()), d).1
      ensures ok <==> old(devicePath) != "" && gone && Saga.Disconnect(backend.ThePlan(), old(Now()), d).0
    {
      ok := DisconnectDevice(d, gone);
      if cleaned {
        stash.files := stash.files - {parent};
      }
    }

    /** DisconnectNvme and DisconnectVirtioBlk, which do the same on KVM. */
    method DisconnectDevice(d: Kind -> bool, gone: bool) returns (ok: bool)
      requires Valid()
      modifies this, backend, backend.bridge`resources
      ensures Valid() && backend.OthersKept()
      ensures devicePath == old(devicePath)
      ensures old(devicePath) == "" ==> !ok && backend.bridge.resources == old(backend.bridge.resources)
      ensures old(devicePath) != "" ==> Now() == Saga.Disconnect(backend.ThePlan(), old(Now()), d).1
      ensures ok <==> old(devicePath) != "" && gone && Saga.Disconnect(backend.ThePlan(), old(Now()), d).0
    {
      if devicePath == "" {
        return false;
      }
      ok := backend.Disconnect(d);
      if !ok {
        return;
      }
      ok := gone;
    }
  }

  /** The stashed names are the volume's own, as they are in whatever the driver stashes. */
  ghost predicate StashIsOwn(x: Xpu)
    reads x, x.backend, x.stash
  {
    x.parent in x.stash.files ==> HasOwnNames(RestoreBackend(x.backend.kind, x.stash.files[x.parent]), x.backend.Name())
  }

  /** The driver restarts: an initiator for the same volume is built from the stash alone. */
  method Restart(x: Xpu, readable: bool) returns (y: Xpu)
    requires x.Valid() && StashIsOwn(x)
    ensures fresh(y) && fresh(y.backend) && y.Valid()
    ensures y.stash == x.stash && y.parent == x.parent && y.backend.bridge == x.backend.bridge
    ensures y.backend.kind == x.backend.kind && y.backend.Name() == x.backend.Name()
    ensures y.Remembered() ==
            Restore(x.backend.kind, if readable && x.parent in x.stash.files then x.stash.files[x.parent] else map[])
  {
    var b := x.backend;
    y := new Xpu(b.bridge, x.stash, b.model, b.portOk, b.kind, x.parent, readable);
  }

  /** An initiator rebuilt from what was stashed takes down everything that the old one knew of, with
      every request answered. */
  method RestartDisconnect(x: Xpu) returns (ok: bool)
    requires OfOneKind(x.backend) && x.devicePath != ""
    requires x.parent in x.stash.files && x.stash.files[x.parent] == Save(x.Remembered())
    modifies x.backend.bridge`resources, x.stash
    ensures ok && x.stash.files == old(x.stash.files) - {x.parent}
    ensures ViewOf(x.backend.Names(), x.backend.Name(), x.backend.bridge.resources).existing == old(Forgotten(x.Now()))
    ensures x.backend.OthersKept()
  {
    RestoreSaved(x.Remembered());
    var y := Restart(x, true);
    assert y.Now() == x.Now();
    var all: Kind -> bool := _ => true;
    ForgottenRemains(y.backend.kind, y.backend.ThePlan(), y.Now(), all);
    ok := y.Disconnect(all, true, true);
  }

  lemma ForgottenRemains(kind: BackendKind, plan: Plan, v: View, all: Kind -> bool)
    requires plan == (if kind == OpiNvmeKind then NVME else VIRTIO_BLK) && InPlan(plan, v) && forall k :: all(k)
    ensures Saga.Disconnect(plan, v, all) == (true, View({}, Forgotten(v)))
  {
    PlanIsGood(kind);
    DisconnectOutcome(plan, v, all);
    assert v.existing - (v.tracked - {}) == Forgotten(v);
  }

  lemma NothingIsLeft(plan: Plan, o: Kind -> bool, d: Kind -> bool, undo: Kind -> bool)
    requires Good(plan) && forall k :: d(k) && undo(k)
    ensures var (ok, v) := Saga.Connect(plan, View({}, {}), o, d);
            (if ok then Saga.Disconnect(plan, v, undo).1 else v) == View({}, {})
  {
    ConnectOutcome(plan, View({}, {}), o, d);
    var (ok, v) := Saga.Connect(plan, View({}, {}), o, d);
    if ok {
      DisconnectOutcome(plan, v, undo);
      assert {} + Made(plan, 0, |plan.create|, o) == Made(plan, 0, |plan.create|, o);
    }
  }

  /** Connect from nothing succeeds exactly if the host and every creation play along, and then all that
      there is of the volume is remembered and stashed. A failure leaves nothing if every delete is answered,
      unless it is the stash that fails: then everything stays. */
  method ConnectFresh(x: Xpu, h: Host, o: Kind -> bool, d: Kind -> bool, undo: Kind -> bool) returns (connected: bool)
    requires x.Valid() && x.Now() == View({}, {}) && !x.Finds(h)
    modifies x, x.backend, x.backend.bridge`resources, x.stash
    ensures x.backend.OthersKept()
    ensures connected <==> h.saved && h.functions.Free? && h.appears != "" &&
                           forall k <- x.backend.ThePlan().create :: x.backend.Effective(o)(k)
    ensures connected ==> OfOneKind(x.backend) && Forgotten(x.Now()) == {} && x.devicePath == h.appears
    ensures !connected && h.saved && (forall k :: d(k) && undo(k)) ==> x.Now() == View({}, {})
    ensures !h.saved && h.functions.Free? && h.appears != "" &&
            (forall k <- x.backend.ThePlan().create :: x.backend.Effective(o)(k)) ==>
              forall k <- x.backend.ThePlan().create :: k in x.Now().existing
    ensures connected ==> x.stash.files == old(x.stash.files)[x.parent := Save(x.Remembered())]
  {
    var path;
    connected, path := x.Connect(h, o, d, undo);
    PlanIsGood(x.backend.kind);
    if forall k :: d(k) && undo(k) {
      NothingIsLeft(x.backend.ThePlan(), x.backend.Effective(o), d, undo);
    }
    ConnectOutcome(x.backend.ThePlan(), View({}, {}), x.backend.Effective(o), d);
  }

  /** Across a restart nothing is lost, for NVMe and for virtio-blk: if Connect from nothing created what it
      wanted and stashed it, the initiator rebuilt from the stash leaves the bridge as it was before. */
  method ConnectRestartDisconnect(x: Xpu, h: Host, o: Kind -> bool, d: Kind -> bool, undo: Kind -> bool)
    returns (connected: bool, ok: bool)
    requires x.Valid() && x.Now() == View({}, {}) && !x.Finds(h)
    modifies x, x.backend, x.backend.bridge`resources, x.stash
    ensures connected <==> h.saved && h.functions.Free? && h.appears != "" &&
                           forall k <- x.backend.ThePlan().create :: x.backend.Effective(o)(k)
    ensures connected ==> ok && x.backend.bridge.resources == old(x.backend.bridge.resources)
    ensures connected ==> x.stash.files == old(x.stash.files) - {x.parent}
  {
    ok := false;
    ghost var name := x.backend.Name();
    ghost var before := x.backend.bridge.resources;
    NothingOfMine(x.backend.Names(), name, before);
    connected := ConnectFresh(x, h, o, d, undo);
    if connected {
      ok := RestartDisconnect(x);
      BackToBefore(x.backend.Names(), name, before, x.backend.bridge.resources);
    }
  }

  lemma BackToBefore(b: Backend, name: string, rs: Resources, rs': Resources)
    requires Others(rs, name) == Others(rs', name) && ViewOf(b, name, rs').existing == {}
    requires forall k :: Resource(k, name) !in rs
    ensures rs == rs'
  {
    forall k ensures Resource(k, name) !in rs' {
      assert k !in ViewOf(b, name, rs').existing;
    }
    SameResources(name, rs, rs');
  }

  /** What a Disconnect leaves behind: the next one, by an initiator built anew, succeeds exactly if the
      stash was not dropped, can be read and holds a device path, and it succeeds by the names stashed. Once
      the stash is gone every further Disconnect fails and leaves the bridge as it is. */
  method DisconnectRestartDisconnect(x: Xpu, d: Kind -> bool, gone: bool, cleaned: bool, readable: bool,
                                     d': Kind -> bool, gone': bool, cleaned': bool)
    returns (first: bool, second: bool, ghost between: Resources)
    requires x.Valid() && StashIsOwn(x)
    modifies x, x.backend, x.backend.bridge`resources, x.stash
    ensures first <==> old(x.devicePath) != "" && gone && Saga.Disconnect(x.backend.ThePlan(), old(x.Now()), d).0
    ensures ViewOf(old(x.backend.Names()), x.backend.Name(), between).existing ==
            if old(x.devicePath) == "" then old(x.Now()).existing
            else Saga.Disconnect(x.backend.ThePlan(), old(x.Now()), d).1.existing
    ensures var files := old(x.stash.files);
            var stored := if !cleaned && readable && x.parent in files then files[x.parent] else map[];
            var f := Restore(x.backend.kind, stored);
            && (second <==> f.devicePath != "" && gone' &&
                            Saga.Disconnect(x.backend.ThePlan(), ViewOf(f.backend, x.backend.Name(), between), d').0)
            && (f.devicePath == "" ==> x.backend.bridge.resources == between)
            && (cleaned || !readable || x.parent !in files ==> f.devicePath == "")
  {
    ghost var v := x.Now();
    first := x.Disconnect(d, gone, cleaned);
    between := x.backend.bridge.resources;
    SameExisting(old(x.backend.Names()), x.backend.Names(), x.backend.Name(), between);
    var y := Restart(x, readable);
    second := y.Disconnect(d', gone', cleaned');
  }

  lemma SameExisting(b: Backend, b': Backend, name: string, rs: Resources)
    ensures ViewOf(b, name, rs).existing == ViewOf(b', name, rs).existing
  {
  }

  /** A device that is there already, found by an initiator without a stash: Connect succeeds and stashes
      function 0, no device path and no names, and so no Disconnect will ever take the device down. */
  method FoundWithoutStash(bridge: Bridge, stash: Stash, model: string, portOk: bool, parent: string, h: Host,
                           o: Kind -> bool, d: Kind -> bool, undo: Kind -> bool)
    returns (ok: bool, x: Xpu)
    requires h.existing != "" && h.saved && parent !in stash.files
    requires WellReferenced(bridge.resources) && forall r <- bridge.resources :: r.name != ""
    modifies bridge`resources, stash
    ensures ok && bridge.resources == old(bridge.resources)
    ensures stash.files == old(stash.files)[parent := Save(Fields(OpiNvme("", "", "", "", ""), "", 0, 0, "", ""))]
  {
    x := new Xpu(bridge, stash, model, portOk, OpiNvmeKind, parent, true);
    var path;
    ok, path := x.Connect(h, o, d, undo);
  }
}
