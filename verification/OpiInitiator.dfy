/**
 The OPI initiators: the resources they create on the xPU's bridge, step by step, and the name fields
 by which they remember them. Connect, cleanup and Disconnect are proved to be the sagas of module
 `Saga`, without touching what belongs to other volumes. The two initiators share the connection to
 the storage node and the form of every step, so they are one class here, of two kinds.
 */
module OpiInitiator {
  import opened Saga
  import opened XpuContext

  datatype Resource = Resource(kind: Kind, name: string)

  /** Resources, with the resources they refer to. */
  type Resources = map<Resource, set<Resource>>

  /** What a resource should refer to: resources of the same volume, so of the same name. */
  function Refs(r: Resource): set<Resource> {
    set k <- Needs(r.kind) :: Resource(k, r.name)
  }

  ghost predicate WellReferenced(rs: Resources) {
    forall r <- rs :: rs[r] == Refs(r)
  }

  /** Every reference leads to a resource. */
  ghost predicate NoDangling(rs: Resources) {
    forall r <- rs, t <- rs[r] :: t in rs
  }

  /** What belongs to other volumes. */
  function Others(rs: Resources, name: string): Resources {
    map r | r in rs && r.name != name :: rs[r]
  }

  const OBJECT_PREFIX := "opi-spckcsi-"

  /** The bridge on the xPU. It names a resource after the ID in the request, creates nothing twice, and
      refuses references to nothing. */
  class Bridge {
    const root: string
    var resources: Resources

    constructor (root: string)
      ensures this.root == root && resources == map[]
    {
      this.root := root;
      resources := map[];
    }

    method Create(kind: Kind, id: string, refs: set<Resource>, answered: bool) returns (ok: bool, name: string)
      modifies this`resources
      ensures name == root + id
      ensures ok <==> answered && forall t <- refs :: t in old(resources)
      ensures var r := Resource(kind, name);
              resources == if ok && r !in old(resources) then old(resources)[r := refs] else old(resources)
    {
      name := root + id;
      ok := answered && forall t <- refs :: t in resources;
      if ok && Resource(kind, name) !in resources {
        resources := resources[Resource(kind, name) := refs];
      }
    }

    /** With AllowMissing, so an answered delete always succeeds. */
    method Delete(kind: Kind, name: string, answered: bool) returns (ok: bool)
      modifies this`resources
      ensures ok == answered
      ensures resources == if ok then old(resources) - {Resource(kind, name)} else old(resources)
    {
      ok := answered;
      if ok {
        resources := resources - {Resource(kind, name)};
      }
    }
  }

  /******* An initiator's view *******/

  /** The name field for each kind of resource. */
  function NameIn(b: Backend, k: Kind): string {
    match b
    case OpiNvme(r, p, s, n, c) => (
      match k
      case RemoteController => r
      case Path => p
      case Subsystem => s
      case Namespace => n
      case Controller => c
      case VirtioBlk => "")
    case OpiVirtioBlk(r, p, v) => (
      match k
      case RemoteController => r
      case Path => p
      case VirtioBlk => v
      case _ => "")
    case Sma(_) => ""
  }

  /** Which of the volume's resources the names remember, and which there are. */
  ghost function ViewOf(b: Backend, name: string, rs: Resources): View {
    View(set k: Kind | NameIn(b, k) != "", set k: Kind | Resource(k, name) in rs)
  }

  /** The non-empty names are the volume's own. They need not say what exists. */
  ghost predicate InStep(b: Backend, name: string, rs: Resources) {
    WellReferenced(rs) && (forall r <- rs :: r.name != "") && name != "" && HasOwnNames(b, name)
  }

  ghost predicate HasOwnNames(b: Backend, name: string) {
    forall k :: NameIn(b, k) == "" || NameIn(b, k) == name
  }

  /** The references that a create request carries: the remembered names of what the resource needs. */
  function Referring(b: Backend, k: Kind): set<Resource> {
    set n <- Needs(k) :: Resource(n, NameIn(b, n))
  }

  /** They all lead to something exactly when what the resource needs is remembered and exists. */
  lemma ReferencesHold(b: Backend, k: Kind, name: string, rs: Resources)
    requires InStep(b, name, rs)
    ensures var v := ViewOf(b, name, rs);
            ((forall t <- Referring(b, k) :: t in rs) <==> Needs(k) <= v.tracked * v.existing)
            && (Needs(k) <= v.tracked ==> Referring(b, k) == Refs(Resource(k, name)))
  {
    var v := ViewOf(b, name, rs);
    if n :| n in Needs(k) && n !in v.tracked * v.existing {
      assert Resource(n, NameIn(b, n)) in Referring(b, k);
    } else {
      forall n <- Needs(k) ensures NameIn(b, n) == name && Resource(n, name) in rs {
        assert n in v.tracked * v.existing;
      }
    }
  }

  lemma ViewWith(b: Backend, b': Backend, k: Kind, name: string, rs: Resources, rs': Resources)
    requires NameIn(b', k) != "" && forall other :: other != k ==> NameIn(b', other) == NameIn(b, other)
    requires forall x: Kind :: Resource(x, name) in rs' <==> Resource(x, name) in rs || x == k
    ensures var v := ViewOf(b, name, rs); ViewOf(b', name, rs') == View(v.tracked + {k}, v.existing + {k})
  {
  }

  lemma ViewWithout(b: Backend, b': Backend, k: Kind, name: string, rs: Resources, rs': Resources)
    requires NameIn(b', k) == "" && forall other :: other != k ==> NameIn(b', other) == NameIn(b, other)
    requires forall x: Kind :: Resource(x, name) in rs' <==> Resource(x, name) in rs && x != k
    ensures var v := ViewOf(b, name, rs); ViewOf(b', name, rs') == View(v.tracked - {k}, v.existing - {k})
  {
  }

  lemma SameView(b: Backend, b': Backend, name: string, rs: Resources)
    requires forall k :: NameIn(b', k) == NameIn(b, k)
    ensures ViewOf(b', name, rs) == ViewOf(b, name, rs)
  {
  }

  /** A create request as the bridge carries it out, with the name stored on success. */
  lemma AfterCreate(b: Backend, b': Backend, k: Kind, name: string, rs: Resources, rs': Resources,
                    answered: bool, ok: bool)
    requires InStep(b, name, rs)
    requires ok <==> answered && forall t <- Referring(b, k) :: t in rs
    requires rs' == if ok && Resource(k, name) !in rs then rs[Resource(k, name) := Referring(b, k)] else rs
    requires NameIn(b', k) == if ok then name else NameIn(b, k)
    requires forall other :: other != k ==> NameIn(b', other) == NameIn(b, other)
    ensures InStep(b', name, rs') && Others(rs', name) == Others(rs, name)
    ensures (ok, ViewOf(b', name, rs')) == CreateOne(k, ViewOf(b, name, rs), answered)
  {
    ReferencesHold(b, k, name, rs);
    if ok {
      ViewWith(b, b', k, name, rs, rs');
    } else {
      SameView(b, b', name, rs);
    }
    assert Others(rs', name) == Others(rs, name);
  }

  /** A delete request, issued only for a name that is remembered. */
  lemma AfterDelete(b: Backend, b': Backend, k: Kind, name: string, rs: Resources, rs': Resources,
                    answered: bool, ok: bool)
    requires InStep(b, name, rs)
    requires ok <==> NameIn(b, k) == "" || answered
    requires rs' == if ok && NameIn(b, k) != "" then rs - {Resource(k, NameIn(b, k))} else rs
    requires NameIn(b', k) == if ok then "" else NameIn(b, k)
    requires forall other :: other != k ==> NameIn(b', other) == NameIn(b, other)
    ensures InStep(b', name, rs') && Others(rs', name) == Others(rs, name)
    ensures (ok, ViewOf(b', name, rs')) == DeleteOne(k, ViewOf(b, name, rs), answered)
  {
    if ok && NameIn(b, k) != "" {
      ViewWithout(b, b', k, name, rs, rs');
    } else {
      SameView(b, b', name, rs);
    }
    assert Others(rs', name) == Others(rs, name);
  }

  /** Where no other volume's reference dangles, none does exactly if this volume's view is whole. */
  lemma WholeMeansNoDangling(b: Backend, name: string, rs: Resources)
    requires InStep(b, name, rs) && NoDangling(Others(rs, name))
    ensures NoDangling(rs) <==> Whole(ViewOf(b, name, rs))
  {
    var v := ViewOf(b, name, rs);
    if Whole(v) {
      forall r <- rs, t <- rs[r] ensures t in rs {
        if r.name == name {
          assert r.kind in v.existing && t.kind in v.existing;
        } else {
          assert r in Others(rs, name) && t in Others(rs, name)[r] && t in Others(rs, name);
        }
      }
    } else {
      var k, n :| k in v.existing && n in Needs(k) && n !in v.existing;
      assert Resource(n, name) in rs[Resource(k, name)];
    }
  }

  /** An OPI initiator, for an NVMe or for a virtio-blk device. */
  class Opi {
    const bridge: Bridge
    const model: string
    const portOk: bool      // targetPort parses as a number
    const kind: BackendKind
    var nvmfRemoteControllerName: string
    var nvmfPathName: string
    var subsystemName: string
    var namespaceName: string
    var nvmeControllerName: string
    var virtioBlkName: string

    /** Starts from the stored names of its kind, or from none. */
    constructor (bridge: Bridge, model: string, portOk: bool, kind: BackendKind, stored: Context)
      requires kind != SmaKind
      ensures this.bridge == bridge && this.model == model && this.portOk == portOk && this.kind == kind
      ensures Names() == RestoreBackend(kind, stored)
    {
      this.bridge := bridge;
      this.model := model;
      this.portOk := portOk;
      this.kind := kind;
      nvmfRemoteControllerName := Get(stored, "nvmfRemoteControllerName");
      nvmfPathName := Get(stored, "nvmfPathName");
      if kind == OpiNvmeKind {
        subsystemName := Get(stored, "subsystemName");
        namespaceName := Get(stored, "namespaceName");
        nvmeControllerName := Get(stored, "nvmeControllerName");
        virtioBlkName := "";
      } else {
        subsystemName, namespaceName, nvmeControllerName := "", "", "";
        virtioBlkName := Get(stored, "virtioBlkName");
      }
    }

    /** Every resource of the volume has this name on the bridge. */
    function Name(): string {
      bridge.root + (OBJECT_PREFIX + model)
    }

    function ThePlan(): Plan {
      if kind == OpiNvmeKind then NVME else VIRTIO_BLK
    }

    ghost function Names(): Backend
      reads this
    {
      if kind == OpiNvmeKind
      then OpiNvme(nvmfRemoteControllerName, nvmfPathName, subsystemName, namespaceName, nvmeControllerName)
      else OpiVirtioBlk(nvmfRemoteControllerName, nvmfPathName, virtioBlkName)
    }

    method GetParam() returns (param: Context)
      ensures param == Params(Names())
    {
      param := map["nvmfRemoteControllerName" := nvmfRemoteControllerName, "nvmfPathName" := nvmfPathName];
      if kind == OpiNvmeKind {
        param := param["subsystemName" := subsystemName]["namespaceName" := namespaceName];
        param := param["nvmeControllerName" := nvmeControllerName];
      } else {
        param := param["virtioBlkName" := virtioBlkName];
      }
    }

    ghost function Now(): View
      reads this, bridge
    {
      ViewOf(Names(), Name(), bridge.resources)
    }

    ghost predicate Valid()
      reads this, bridge
    {
      kind != SmaKind && InStep(Names(), Name(), bridge.resources)
    }

    twostate predicate OthersKept()
      reads this, bridge
    {
      Others(bridge.resources, Name()) == old(Others(bridge.resources, Name()))
    }

    function Remembered(k: Kind): string
      reads this
    {
      match k
      case RemoteController => nvmfRemoteControllerName
      case Path => nvmfPathName
      case Subsystem => subsystemName
      case Namespace => namespaceName
      case Controller => nvmeControllerName
      case VirtioBlk => virtioBlkName
    }

    method Remember(k: Kind, name: string)
      requires k in ThePlan().create
      modifies this
      ensures NameIn(Names(), k) == name &&
              forall other :: other != k ==> NameIn(Names(), other) == NameIn(old(Names()), other)
    {
      match k
      case RemoteController => nvmfRemoteControllerName := name;
      case Path => nvmfPathName := name;
      case Subsystem => subsystemName := name;
      case Namespace => namespaceName := name;
      case Controller => nvmeControllerName := name;
      case VirtioBlk => virtioBlkName := name;
    }

    /** Creates one resource and stores the name in the response. A path needs a numeric port. */
    method CreateResource(k: Kind, answered: bool) returns (ok: bool)
      requires Valid() && k in ThePlan().create
      modifies this, bridge`resources
      ensures Valid() && OthersKept()
      ensures (ok, Now()) == CreateOne(k, old(Now()), answered && (k == Path ==> portOk))
    {
      ghost var b, rs := Names(), bridge.resources;
      PlanIsNamed(k);
      ok := k == Path ==> portOk;
      if ok {
        var refs := set n <- Needs(k) :: Resource(n, Remembered(n));
        assert refs == Referring(b, k);
        var name;
        ok, name := bridge.Create(k, OBJECT_PREFIX + model, refs, answered);
        if ok {
          Remember(k, name);
        }
      }
      AfterCreate(b, Names(), k, Name(), rs, bridge.resources, answered && (k == Path ==> portOk), ok);
    }

    /** Deletes one resource and clears its name; without a name there is nothing to delete. */
    method DeleteResource(k: Kind, answered: bool) returns (ok: bool)
      requires Valid() && k in ThePlan().create
      modifies this, bridge`resources
      ensures Valid() && OthersKept()
      ensures (ok, Now()) == DeleteOne(k, old(Now()), answered)
    {
      ghost var b, rs := Names(), bridge.resources;
      PlanIsNamed(k);
      ok := true;
      if Remembered(k) != "" {
        ok := bridge.Delete(k, Remembered(k), answered);
        if ok {
          Remember(k, "");
        }
      }
      AfterDelete(b, Names(), k, Name(), rs, bridge.resources, answered, ok);
    }

    /** The fields that matter are those of the initiator's kind. */
    lemma PlanIsNamed(k: Kind)
      requires kind != SmaKind && k in ThePlan().create
      ensures NameIn(Names(), k) == Remembered(k) && forall n <- Needs(k) :: NameIn(Names(), n) == Remembered(n)
    {
    }

    /** A path is not created without a port number. */
    ghost function Effective(o: Kind -> bool): Kind -> bool {
      var portOk := portOk;
      (k: Kind) => o(k) && (k == Path ==> portOk)
    }

    method Cleanup(d: Kind -> bool) returns (ok: bool)
      requires Valid()
      modifies this, bridge`resources
      ensures Valid() && OthersKept()
      ensures (ok, Now()) == Saga.Disconnect(ThePlan(), old(Now()), d)
    {
      if kind == OpiNvmeKind {
        ok := CleanupNvme(d);
      } else {
        ok := CleanupVirtioBlk(d);
      }
    }

    method CleanupNvme(d: Kind -> bool) returns (ok: bool)
      requires Valid() && kind == OpiNvmeKind
      modifies this, bridge`resources
      ensures Valid() && OthersKept()
      ensures (ok, Now()) == Saga.Disconnect(NVME, old(Now()), d)
    {
      ghost var v := Now();
      ok := DeleteResource(Namespace, d(Namespace));
      DeleteStep(NVME, 0, v, d, ok, Now());
      if !ok {
        return;
      }
      v := Now();
      ok := DeleteResource(Path, d(Path));
      DeleteStep(NVME, 1, v, d, ok, Now());
      if !ok {
        return;
      }
      ok := CleanupNvmeFrontend(d);
    }

    /** From the remote controller on. */
    method CleanupNvmeFrontend(d: Kind -> bool) returns (ok: bool)
      requires Valid() && kind == OpiNvmeKind
      modifies this, bridge`resources
      ensures Valid() && OthersKept()
      ensures (ok, Now()) == Delete(NVME, 2, 5, old(Now()), d)
    {
      ghost var v := Now();
      ok := DeleteResource(RemoteController, d(RemoteController));
      DeleteStep(NVME, 2, v, d, ok, Now());
      if !ok {
        return;
      }
      v := Now();
      ok := DeleteResource(Controller, d(Controller));
      DeleteStep(NVME, 3, v, d, ok, Now());
      if !ok {
        return;
      }
      v := Now();
      ok := DeleteResource(Subsystem, d(Subsystem));
      DeleteStep(NVME, 4, v, d, ok, Now());
    }

    method CleanupVirtioBlk(d: Kind -> bool) returns (ok: bool)
      requires Valid() && kind == OpiVirtioBlkKind
      modifies this, bridge`resources
      ensures Valid() && OthersKept()
      ensures (ok, Now()) == Saga.Disconnect(VIRTIO_BLK, old(Now()), d)
    {
      ghost var v := Now();
      ok := DeleteResource(VirtioBlk, d(VirtioBlk));
      DeleteStep(VIRTIO_BLK, 0, v, d, ok, Now());
      if !ok {
        return;
      }
      v := Now();
      ok := DeleteResource(Path, d(Path));
      DeleteStep(VIRTIO_BLK, 1, v, d, ok, Now());
      if !ok {
        return;
      }
      v := Now();
      ok := DeleteResource(RemoteController, d(RemoteController));
      DeleteStep(VIRTIO_BLK, 2, v, d, ok, Now());
    }

    method Disconnect(d: Kind -> bool) returns (ok: bool)
      requires Valid()
      modifies this, bridge`resources
      ensures Valid() && OthersKept()
      ensures (ok, Now()) == Saga.Disconnect(ThePlan(), old(Now()), d)
    {
      ok := Cleanup(d);
    }

    /** The creations after the first, which the deferred cleanup covers. */
    method ConnectRest(o: Kind -> bool) returns (ok: bool)
      requires Valid()
      modifies this, bridge`resources
      ensures Valid() && OthersKept()
      ensures (ok, Now()) == Create(ThePlan(), 1, |ThePlan().create|, old(Now()), Effective(o))
    {
      if kind == OpiNvmeKind {
        ok := ConnectNvmeRest(o);
      } else {
        ok := ConnectVirtioBlkRest(o);
      }
    }

    method ConnectNvmeRest(o: Kind -> bool) returns (ok: bool)
      requires Valid() && kind == OpiNvmeKind
      modifies this, bridge`resources
      ensures Valid() && OthersKept()
      ensures (ok, Now()) == Create(NVME, 1, 5, old(Now()), Effective(o))
    {
      ghost var e := Effective(o);
      ghost var v := Now();
      ok := CreateResource(Controller, o(Controller));
      CreateStep(NVME, 1, v, e, ok, Now());
      if !ok {
        return;
      }
      v := Now();
      ok := CreateResource(RemoteController, o(RemoteController));
      CreateStep(NVME, 2, v, e, ok, Now());
      if !ok {
        return;
      }
      v := Now();
      ok := CreateResource(Path, o(Path));
      CreateStep(NVME, 3, v, e, ok, Now());
      if !ok {
        return;
      }
      v := Now();
      ok := CreateResource(Namespace, o(Namespace));
      CreateStep(NVME, 4, v, e, ok, Now());
    }

    method ConnectVirtioBlkRest(o: Kind -> bool) returns (ok: bool)
      requires Valid() && kind == OpiVirtioBlkKind
      modifies this, bridge`resources
      ensures Valid() && OthersKept()
      ensures (ok, Now()) == Create(VIRTIO_BLK, 1, 3, old(Now()), Effective(o))
    {
      ghost var e := Effective(o);
      ghost var v := Now();
      ok := CreateResource(Path, o(Path));
      CreateStep(VIRTIO_BLK, 1, v, e, ok, Now());
      if !ok {
        return;
      }
      v := Now();
      ok := CreateResource(VirtioBlk, o(VirtioBlk));
      CreateStep(VIRTIO_BLK, 2, v, e, ok, Now());
    }

    method Connect(o: Kind -> bool, d: Kind -> bool) returns (ok: bool)
      requires Valid()
      modifies this, bridge`resources
      ensures Valid() && OthersKept()
      ensures (ok, Now()) == Saga.Connect(ThePlan(), old(Now()), Effective(o), d)
    {
      ghost var v := Now();
      var first := if kind == OpiNvmeKind then Subsystem else RemoteController;
      ok := CreateResource(first, o(first));
      CreateStep(ThePlan(), 0, v, Effective(o), ok, Now());
      if !ok {
        return;
      }
      ok := ConnectRest(o);
      if !ok {
        var _ := Cleanup(d);
      }
    }
  }

  /** Initiators for different volumes use different names on a bridge. */
  lemma NamesDiffer(i: Opi, j: Opi)
    requires i.bridge == j.bridge && i.Name() == j.Name()
    ensures i.model == j.model
  {
    var n := |i.bridge.root| + |OBJECT_PREFIX|;
    assert i.Name()[n..] == i.model && j.Name()[n..] == j.model;
  }

  lemma PlanIsGood(kind: BackendKind)
    ensures Good(if kind == OpiNvmeKind then NVME else VIRTIO_BLK)
  {
    if kind == OpiNvmeKind {
      NvmeIsGood();
    } else {
      VirtioBlkIsGood();
    }
  }

  /** All that an initiator remembers is of its plan, and so is all there is of the volume if the volume is
      only ever connected through this kind of initiator. */
  ghost predicate OfOneKind(i: Opi)
    reads i, i.bridge
  {
    i.Valid() && InPlan(i.ThePlan(), i.Now())
  }

  lemma SameResources(name: string, rs: Resources, rs': Resources)
    requires Others(rs, name) == Others(rs', name)
    requires forall k :: Resource(k, name) !in rs && Resource(k, name) !in rs'
    ensures rs == rs'
  {
    forall r | r in rs || r in rs' ensures r in rs && r in rs' && rs[r] == rs'[r] {
      assert r.name != name by {
        assert Resource(r.kind, r.name) == r;
      }
      assert r in Others(rs, name) || r in Others(rs', name);
    }
  }

  lemma PortDecides(i: Opi, o: Kind -> bool)
    ensures (forall k <- i.ThePlan().create :: i.Effective(o)(k)) <==>
            i.portOk && forall k <- i.ThePlan().create :: o(k)
  {
    assert NVME.create[3] == Path && VIRTIO_BLK.create[1] == Path;
    assert Path in i.ThePlan().create;
  }

  /** Connect of an initiator that holds nothing, with every delete answered: it is all or nothing. */
  method ConnectFromNothing(i: Opi, o: Kind -> bool) returns (ok: bool)
    requires i.Valid() && i.Now() == View({}, {})
    modifies i, i.bridge`resources
    ensures i.Valid() && i.OthersKept()
    ensures ok <==> i.portOk && forall k <- i.ThePlan().create :: o(k)
    ensures ok ==> forall k :: Resource(k, i.Name()) in i.bridge.resources <==> k in i.ThePlan().create
    ensures !ok ==> i.bridge.resources == old(i.bridge.resources)
  {
    ghost var name, before := i.Name(), i.bridge.resources;
    NothingOfMine(i.Names(), name, before);
    ok := i.Connect(o, _ => true);
    PortDecides(i, o);
    PlanIsGood(i.kind);
    ConnectOutcome(i.ThePlan(), View({}, {}), i.Effective(o), _ => true);
    ghost var now := i.bridge.resources;
    assert i.Now() == ViewOf(i.Names(), name, now);
    MadeInPlan(i.ThePlan(), 0, |i.ThePlan().create|, i.Effective(o));
    if !ok {
      NothingOfMine(i.Names(), name, now);
      SameResources(name, before, now);
    }
  }

  /** Connect of any initiator, whatever it remembers, on a bridge without dangling references: none dangles
      afterwards if nothing that it has forgotten refers to anything. */
  method ConnectWithCare(i: Opi, o: Kind -> bool, d: Kind -> bool) returns (ok: bool)
    requires OfOneKind(i) && NoDangling(i.bridge.resources) && Harmless(i.Now())
    modifies i, i.bridge`resources
    ensures i.Valid() && i.OthersKept() && Harmless(i.Now()) && NoDangling(i.bridge.resources)
  {
    ghost var name, before, v := i.Name(), i.bridge.resources, i.Now();
    NoDanglingAmongOthers(name, before);
    WholeMeansNoDangling(i.Names(), name, before);
    PlanIsGood(i.kind);
    ConnectKeepsWhole(i.ThePlan(), v, i.Effective(o), d);
    ok := i.Connect(o, d);
    WholeMeansNoDangling(i.Names(), name, i.bridge.resources);
  }

  /** The same for Disconnect, if nothing that it has forgotten refers to anything that it remembers; what
      it has forgotten it leaves alone or makes less. */
  method DisconnectWithCare(i: Opi, d: Kind -> bool) returns (ok: bool)
    requires OfOneKind(i) && NoDangling(i.bridge.resources) && Apart(i.Now())
    modifies i, i.bridge`resources
    ensures i.Valid() && i.OthersKept() && Apart(i.Now()) && NoDangling(i.bridge.resources)
    ensures Forgotten(i.Now()) <= Forgotten(old(i.Now()))
  {
    ghost var name, before, v := i.Name(), i.bridge.resources, i.Now();
    NoDanglingAmongOthers(name, before);
    WholeMeansNoDangling(i.Names(), name, before);
    PlanIsGood(i.kind);
    assert i.ThePlan().delete[0..] == i.ThePlan().delete;
    DeletesKeepWhole(i.ThePlan(), 0, |i.ThePlan().delete|, v, d);
    ok := i.Disconnect(d);
    WholeMeansNoDangling(i.Names(), name, i.bridge.resources);
  }

  lemma NoDanglingAmongOthers(name: string, rs: Resources)
    requires NoDangling(rs) && WellReferenced(rs)
    ensures NoDangling(Others(rs, name))
  {
  }

  lemma NothingOfMine(b: Backend, name: string, rs: Resources)
    requires ViewOf(b, name, rs) == View({}, {})
    ensures forall k :: Resource(k, name) !in rs
  {
    forall k ensures Resource(k, name) !in rs {
      assert k !in ViewOf(b, name, rs).existing;
    }
  }
}
