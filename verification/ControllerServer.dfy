/**
 `controllerServer`: CreateVolume and DeleteVolume over the configured storage nodes, one call at a time
 (the calls' interleavings are the subject of module `Lifecycle`). Nodes are visited in any order, and
 every call works on a node through a handle of its own.
 */
module Controller {
  import opened SpdkTarget
  import opened Exports
  import opened NodeNvmf
  import I = NodeIscsi
  import opened Text
  import opened Ids
  import opened Scheduling

  datatype Reply = Success | Failure | Panic

  /** What is answered while a volume is looked for, scheduled and allocated. */
  datatype Finding = Finding(
    reports: map<string, seq<Report>>,    // the nodes' lvstores
    lists: string -> bool,                // is the query for them answered to getVolume
    listsAgain: string -> bool,           // and to the scheduler
    sourceInfo: bool,                     // is the lvstore of the content source found out
    allocates: bool,                      // does bdev_lvol_create, or bdev_lvol_clone, go through
    uuid: string)                         // of the new lvol

  /** What is answered from then on. */
  datatype Publishing = Publishing(o: PublishAt -> bool, info: bool, u: UnpublishAt -> bool, drop: bool)

  /** The volume content source of a request. */
  datatype Source = NoSource | OtherSource | Snapshot(id: string)

  predicate SameExports(ts: map<string, Target>, ts': map<string, Target>) {
    ts'.Keys == ts.Keys && forall n <- ts :: ts'[n] == ts[n].(lvols := ts'[n].lvols)
  }

  /** There is an lvol under the alias store/name. */
  predicate HasNamed(t: Target, name: string, store: string) {
    exists id <- t.lvols :: t.lvols[id].name == name && t.lvols[id].store == store
  }

  /** A new lvol of the answered capacity, on the first lvstore with room of a node that answers the
      scheduler; in bytes, that lvstore has more than the capacity free, and that is no less than requested. */
  predicate Placed(f: Finding, required: int, nodeName: string, l: Lvol) {
    && l.size == Capacity(required)
    && nodeName in f.reports && f.listsAgain(nodeName)
    && IsFirstFit(f.reports[nodeName], ToMiB(VolumeSize(required)), l.store)
    && (Sensible(f.reports, required) ==>
          && required <= l.size
          && exists r <- f.reports[nodeName] :: r.name == l.store && r.freeClusters * r.clusterSize > l.size)
  }

  predicate HasStore(reports: seq<Report>, store: string) {
    exists i :: 0 <= i < |reports| && reports[i].name == store
  }

  /** No lvol of that name is on a reported lvstore of any node. */
  ghost predicate NoneNamed(ts: map<string, Target>, reports: map<string, seq<Report>>, name: string) {
    forall n <- ts, id <- ts[n].lvols ::
      n in reports && HasStore(reports[n], ts[n].lvols[id].store) ==> ts[n].lvols[id].name != name
  }

  type Nodes = map<string, Target>

  /** An lvol of that name came to be, or was there, and nothing else changed; or nothing changed. */
  predicate Made(ts: Nodes, ts': Nodes, name: string, r: Reply, n: string, id: string) {
    && SameExports(ts, ts')
    && (r == Success ==>
          && n in ts && id in ts'[n].lvols && ts'[n].lvols[id].name == name
          && OneVolumeChanged(ts, ts', n, id) && (id in ts[n].lvols ==> ts' == ts))
    && (r != Success ==> ts' == ts)
  }

  /** The snapshot's ID names a node that is not configured. */
  predicate Dangling(ts: Nodes, source: Source) {
    source.Snapshot? && GetSpdkVol(source.id).Some? && GetSpdkVol(source.id).value.nodeName !in ts
  }

  /** The snapshot and its lvstore are found. */
  predicate Readable(ts: Nodes, source: Source, f: Finding) {
    source.Snapshot? && GetSpdkVol(source.id).Some? &&
    var v := GetSpdkVol(source.id).value;
    v.nodeName in ts && v.lvolID in ts[v.nodeName].lvols && f.sourceInfo
  }

  /** A clone is on the node and lvstore of its snapshot, and as large. */
  predicate Cloned(ts: Nodes, source: Source, f: Finding, n: string, l: Lvol) {
    Readable(ts, source, f) &&
    var v := GetSpdkVol(source.id).value;
    var snapshot := ts[v.nodeName].lvols[v.lvolID];
    n == v.nodeName && l.store == snapshot.store && l.size == snapshot.size
  }

  /** A new volume is where there was room for it, or is a clone; and if every node lists its lvstores there
      was none of its name. */
  ghost predicate NewVolume(ts: Nodes, name: string, required: int, source: Source, f: Finding,
                            n: string, id: string, l: Lvol) {
    && id == f.uuid
    && (if source == NoSource then Placed(f, required, n, l) else Cloned(ts, source, f, n, l))
    && ((forall m <- ts :: f.lists(m)) ==> NoneNamed(ts, f.reports, name))
  }

  /** Whether there comes to be a volume at all. If every node lists its lvstores, one that is there is found.
      One that is not, and has no source, is created exactly if there is room for it and it can be allocated;
      a snapshot is cloned exactly if it is found and the clone goes through, or its lvstore has a volume of
      that name. */
  ghost predicate IsThere(ts: Nodes, name: string, required: int, source: Source, f: Finding,
                          had: bool, n: string, id: string) {
    var none := NoneNamed(ts, f.reports, name);
    && (had ==> n in ts)
    && (!none && (forall m <- ts :: f.lists(m)) ==> had && id in ts[n].lvols)
    && (none && source == NoSource ==>
          && (had <==> SomeRoom(f.reports, f.listsAgain, required) && f.allocates)
          && (had ==> id !in ts[n].lvols))
    && (none && source != NoSource ==>
          (had <==> Readable(ts, source, f) &&
                    var v := GetSpdkVol(source.id).value;
                    f.allocates || HasNamed(ts[v.nodeName], name, ts[v.nodeName].lvols[v.lvolID].store)))
  }

  /** What createVolume comes up with. What is found is answered as it is; a snapshot of an unknown node is
      dereferenced unless the volume is found. */
  ghost predicate Obtained(ts: Nodes, ts': Nodes, name: string, required: int, source: Source, f: Finding,
                           r: Reply, n: string, id: string) {
    && Made(ts, ts', name, r, n, id)
    && IsThere(ts, name, required, source, f, r == Success, n, id)
    && (r == Success && id !in ts[n].lvols ==> NewVolume(ts, name, required, source, f, n, id, ts'[n].lvols[id]))
    && (r == Panic ==> Dangling(ts, source))
    && (Dangling(ts, source) ==> r == Panic || (r == Success && id in ts[n].lvols))
  }

  /** The queries for published volumes and for the volume info are answered, and the volume is published
      or can be exported. */
  predicate Publishable(t: Target, lvolID: string, ac: Access, a: Publishing) {
    Asked(ac, a.o) && (Serves(t, lvolID, ac) || CanExport(t, lvolID, ac, a.o)) && a.info
  }

  /** What becomes of a volume from there on: it is published exactly if the answers allow it and its ID
      parses back; otherwise it is gone, if it can be named and the delete is answered. */
  predicate ExportedOrGone(t: Target, t': Target, n: string, id: string, ac: Access, a: Publishing, ok: bool) {
    && (ok <==> ':' !in n && ':' !in id && Publishable(t, id, ac, a))
    && (ok ==> t'.lvols == t.lvols && Serves(t', id, ac) && PublishedAs(t, t', id, ac))
    && (!ok && a.drop && ':' !in n && ':' !in id ==> id !in t'.lvols)
  }

  /** CreateVolume as a whole, for the volume `id` of node `n`, if there is one (`had`). */
  ghost predicate Created(ts: Nodes, ts': Nodes, access: map<string, Access>,
                          name: string, required: int, source: Source, f: Finding, a: Publishing,
                          r: Reply, had: bool, n: string, id: string)
    requires access.Keys == ts.Keys
  {
    && OneVolumeChanged(ts, ts', n, id)
    && IsThere(ts, name, required, source, f, had, n, id)
    && (!had ==> ts' == ts && r != Success)
    && (had ==> (r == Success <==> ':' !in n && ':' !in id && Publishable(ts[n], id, access[n], a)))
    && (r == Success ==>
          && id in ts'[n].lvols && ts'[n].lvols[id].name == name
          && Serves(ts'[n], id, access[n]) && PublishedAs(ts[n], ts'[n], id, access[n])
          && if id in ts[n].lvols then ts'[n].lvols[id] == ts[n].lvols[id]
             else NewVolume(ts, name, required, source, f, n, id, ts'[n].lvols[id]))
    && (had && r == Failure && a.drop && ':' !in n && ':' !in id ==> id !in ts'[n].lvols)
    && (r == Panic ==> Dangling(ts, source) && ts' == ts)
    && (Dangling(ts, source) ==> r == Panic || (had && id in ts[n].lvols))
  }

  lemma FoundIsObtained(ts: Nodes, name: string, required: int, source: Source, f: Finding, n: string, id: string)
    requires n in ts && id in ts[n].lvols && ts[n].lvols[id].name == name
    requires n in f.reports && HasStore(f.reports[n], ts[n].lvols[id].store)
    ensures Obtained(ts, ts, name, required, source, f, Success, n, id)
  {
    assert OneVolumeChanged(ts, ts, n, id);
  }

  lemma ObtainedThenExported(ts: Nodes, mid: Nodes, ts': Nodes, access: map<string, Access>,
                             name: string, required: int, source: Source, f: Finding, a: Publishing,
                             ok: bool, n: string, id: string)
    requires access.Keys == ts.Keys && Obtained(ts, mid, name, required, source, f, Success, n, id)
    requires OneVolumeChanged(mid, ts', n, id) && ExportedOrGone(mid[n], ts'[n], n, id, access[n], a, ok)
    ensures Created(ts, ts', access, name, required, source, f, a, if ok then Success else Failure, true, n, id)
  {
    OneVolumeTwice(ts, mid, ts', n, id);
    ExportsAlone(ts[n], mid[n], ts'[n], id, access[n], a);
  }

  /** Publishing does not depend on lvols. */
  lemma ExportsAlone(t: Target, mid: Target, t': Target, id: string, ac: Access, a: Publishing)
    requires mid == t.(lvols := mid.lvols)
    ensures Publishable(t, id, ac, a) <==> Publishable(mid, id, ac, a)
    ensures PublishedAs(t, t', id, ac) <==> PublishedAs(mid, t', id, ac)
  {
  }

  /** Two oracles that agree lead to the same end. */
  lemma {:induction false} PublishByAnswers(pc: PublishPc, t: Target, id: string, addr: Address,
                                            o: PublishPc -> bool, o': PublishPc -> bool)
    requires forall q :: o(q) == o'(q)
    ensures Publish(pc, t, id, addr, o) == Publish(pc, t, id, addr, o')
    decreases PublishRank(pc)
  {
    if PublishRank(pc) > 0 {
      var (pc', t') := PublishStep(pc, t, id, addr, o(pc));
      PublishByAnswers(pc', t', id, addr, o, o');
    }
  }

  lemma {:induction false} UnpublishByAnswers(pc: UnpublishPc, t: Target, id: string, addr: Address,
                                              o: UnpublishPc -> bool, o': UnpublishPc -> bool)
    requires forall q :: o(q) == o'(q)
    ensures Unpublish(pc, t, id, addr, o) == Unpublish(pc, t, id, addr, o')
    decreases UnpublishRank(pc)
  {
    if UnpublishRank(pc) > 0 {
      var (pc', t') := UnpublishStep(pc, t, id, addr, o(pc));
      UnpublishByAnswers(pc', t', id, addr, o, o');
    }
  }

  class ControllerServer {
    const spdks: map<string, Spdk>
    const access: map<string, Access>

    ghost predicate Valid() {
      spdks.Keys == access.Keys && forall m <- spdks, n <- spdks :: m != n ==> spdks[m] != spdks[n]
    }

    constructor (spdks: map<string, Spdk>, access: map<string, Access>)
      requires spdks.Keys == access.Keys && forall m <- spdks, n <- spdks :: m != n ==> spdks[m] != spdks[n]
      ensures Valid() && this.spdks == spdks && this.access == access
    {
      this.spdks := spdks;
      this.access := access;
    }

    /** The state of all nodes. */
    ghost function Targets(): map<string, Target>
      reads spdks.Values
    {
      map n | n in spdks :: spdks[n].t
    }

    /** Looks the name up on every lvstore of every node, and gives up at the first node that does not list
        its lvstores. */
    method GetVolume(name: string, f: Finding) returns (found: bool, nodeName: string, lvolID: string)
      requires Valid() && f.reports.Keys == spdks.Keys
      ensures found ==>
                && nodeName in spdks && lvolID in spdks[nodeName].t.lvols
                && spdks[nodeName].t.lvols[lvolID].name == name
                && HasStore(f.reports[nodeName], spdks[nodeName].t.lvols[lvolID].store)
      ensures !found && (forall n <- spdks :: f.lists(n)) ==> NoneNamed(Targets(), f.reports, name)
    {
      var left := spdks.Keys;
      while left != {}
        invariant left <= spdks.Keys
        invariant forall n <- spdks, id <- spdks[n].t.lvols ::
                    n !in left && HasStore(f.reports[n], spdks[n].t.lvols[id].store) ==>
                      spdks[n].t.lvols[id].name != name
        decreases |left|
      {
        var node :| node in left;
        left := left - {node};
        if !f.lists(node) {
          return false, "", "";
        }
        var lvols := spdks[node].t.lvols;
        var i := 0;
        while i < |f.reports[node]|
          invariant 0 <= i <= |f.reports[node]|
          invariant forall k, id :: 0 <= k < i && id in lvols && lvols[id].name == name ==>
                      lvols[id].store != f.reports[node][k].name
        {
          if id :| id in lvols && lvols[id].name == name && lvols[id].store == f.reports[node][i].name {
            return true, node, id;
          }
          i := i + 1;
        }
      }
      return false, "", "";
    }

    /** node.CreateVolume and node.CloneVolume: an lvol that is there under the alias already is taken as it
        is. */
    method CreateLvol(nodeName: string, name: string, store: string, size: int, allocates: bool, uuid: string)
      returns (ok: bool, lvolID: string)
      requires Valid() && nodeName in spdks && uuid !in spdks[nodeName].t.lvols
      modifies spdks[nodeName]
      ensures ok <==> allocates || HasNamed(old(spdks[nodeName].t), name, store)
      ensures ok ==>
                && lvolID in spdks[nodeName].t.lvols
                && var l := spdks[nodeName].t.lvols[lvolID];
                && l.name == name && l.store == store
                && (if HasNamed(old(spdks[nodeName].t), name, store) then lvolID in old(spdks[nodeName].t).lvols
                    else lvolID == uuid && l.size == size)
      ensures ok ==> OneVolumeChanged(old(Targets()), Targets(), nodeName, lvolID)
      ensures !ok || lvolID in old(spdks[nodeName].t).lvols ==> Targets() == old(Targets())
      ensures SameExports(old(Targets()), Targets())
    {
      var t := spdks[nodeName].t;
      if id :| id in t.lvols && t.lvols[id].name == name && t.lvols[id].store == store {
        return true, id;
      }
      ok, lvolID := allocates, uuid;
      if ok {
        ghost var ts := Targets();
        AddedLvol(ts, nodeName, uuid, Lvol(name, store, size));
        spdks[nodeName].t := t.(lvols := t.lvols[uuid := Lvol(name, store, size)]);
        assert Targets() == ts[nodeName := spdks[nodeName].t];
      }
    }

    /** Schedules a node and an lvstore, and creates the volume there. It fails without room, and with room
        if the volume cannot be allocated. */
    method ScheduleAndCreate(name: string, required: int, f: Finding)
      returns (r: Reply, nodeName: string, lvolID: string)
      requires Valid() && f.reports.Keys == spdks.Keys && forall n <- spdks :: f.uuid !in spdks[n].t.lvols
      modifies spdks.Values
      ensures Made(old(Targets()), Targets(), name, r, nodeName, lvolID) && r != Panic
      ensures r == Success && lvolID !in old(Targets())[nodeName].lvols ==>
                lvolID == f.uuid && Placed(f, required, nodeName, Targets()[nodeName].lvols[lvolID])
      ensures NoneNamed(old(Targets()), f.reports, name) ==>
                (r == Success <==> SomeRoom(f.reports, f.listsAgain, required) && f.allocates)
      ensures NoneNamed(old(Targets()), f.reports, name) && r == Success ==> lvolID !in old(Targets())[nodeName].lvols
    {
      var ok, store;
      ok, nodeName, store := Schedule(f.reports, f.listsAgain, ToMiB(VolumeSize(required)));
      if !ok {
        return Failure, "", "";
      }
      if Sensible(f.reports, required) {
        CapacityCoversRequest(required);
        FirstFitInBytes(f.reports, required, nodeName, store);
      }
      assert HasStore(f.reports[nodeName], store);
      assert NoneNamed(Targets(), f.reports, name) ==> !HasNamed(Targets()[nodeName], name, store);
      ok, lvolID := CreateLvol(nodeName, name, store, Capacity(required), f.allocates, f.uuid);
      r := if ok then Success else Failure;
    }

    /** Clones a snapshot on its own node and lvstore. A snapshot of an unknown node is dereferenced all the
        same. */
    method CloneFrom(name: string, source: Source, f: Finding) returns (r: Reply, nodeName: string, lvolID: string)
      requires Valid() && source != NoSource && forall n <- spdks :: f.uuid !in spdks[n].t.lvols
      modifies spdks.Values
      ensures Made(old(Targets()), Targets(), name, r, nodeName, lvolID)
      ensures r == Panic <==> Dangling(old(Targets()), source)
      ensures r == Success && lvolID !in old(Targets())[nodeName].lvols ==>
                lvolID == f.uuid && Cloned(old(Targets()), source, f, nodeName, Targets()[nodeName].lvols[lvolID])
      ensures r == Success <==>
                Readable(old(Targets()), source, f) &&
                var v, ts := GetSpdkVol(source.id).value, old(Targets());
                f.allocates || HasNamed(ts[v.nodeName], name, ts[v.nodeName].lvols[v.lvolID].store)
    {
      if source == OtherSource {
        return Failure, "", "";
      }
      var vol := GetSpdkVol(source.id);
      if vol.None? {
        return Failure, "", "";
      }
      nodeName := vol.value.nodeName;
      if nodeName !in spdks {
        return Panic, "", "";
      }
      var lvols := spdks[nodeName].t.lvols;
      if vol.value.lvolID !in lvols || !f.sourceInfo {
        return Failure, "", "";
      }
      var snapshot := lvols[vol.value.lvolID];
      ghost var ts := Targets();
      assert ts[nodeName] == spdks[nodeName].t;
      var ok;
      ok, lvolID := CreateLvol(nodeName, name, snapshot.store, snapshot.size, f.allocates, f.uuid);
      r := if ok then Success else Failure;
    }

    /** createVolume: find the volume, or clone or create it. */
    method FindOrCreate(name: string, required: int, source: Source, f: Finding)
      returns (r: Reply, nodeName: string, lvolID: string)
      requires Valid() && f.reports.Keys == spdks.Keys && forall n <- spdks :: f.uuid !in spdks[n].t.lvols
      modifies spdks.Values
      ensures Obtained(old(Targets()), Targets(), name, required, source, f, r, nodeName, lvolID)
    {
      ghost var ts := Targets();
      var found;
      found, nodeName, lvolID := GetVolume(name, f);
      if found {
        FoundIsObtained(ts, name, required, source, f, nodeName, lvolID);
        r := Success;
      } else if source != NoSource {
        r, nodeName, lvolID := CloneFrom(name, source, f);
      } else {
        r, nodeName, lvolID := ScheduleAndCreate(name, required, f);
      }
    }

    /** The calls that the node's kind decides, each through a handle of its own. */
    method PublishOn(nodeName: string, lvolID: string, o: PublishAt -> bool) returns (ok: bool)
      requires Valid() && nodeName in spdks
      modifies spdks[nodeName]
      ensures (ok, spdks[nodeName].t) == PublishVolume(old(spdks[nodeName].t), lvolID, access[nodeName], o)
    {
      match access[nodeName]
      case Nvmf(addr) =>
        var node := new Node(spdks[nodeName], addr);
        var p := (pc: PublishPc) => o(NvmfAt(pc));
        PublishByAnswers(CheckVolume, spdks[nodeName].t, lvolID, addr, p, node.Effective(p));
        PublishByAnswers(CheckVolume, spdks[nodeName].t, lvolID, addr, p, pc => o(NvmfAt(pc)));
        ok := node.PublishVolume(lvolID, p);
      case Iscsi =>
        var node := new I.Node(spdks[nodeName]);
        var q := (pc: I.Pc) => o(IscsiAt(pc));
        I.PublishByAnswers(I.CheckVolume, spdks[nodeName].t, lvolID, q, pc => o(IscsiAt(pc)));
        ok := node.PublishVolume(lvolID, q);
    }

    method UnpublishOn(nodeName: string, lvolID: string, o: UnpublishAt -> bool) returns (r: Progress)
      requires Valid() && nodeName in spdks
      modifies spdks[nodeName]
      ensures (r, spdks[nodeName].t) == UnpublishVolume(old(spdks[nodeName].t), lvolID, access[nodeName], o)
    {
      match access[nodeName]
      case Nvmf(addr) =>
        var node := new Node(spdks[nodeName], addr);
        var p := (pc: UnpublishPc) => o(NvmfFrom(pc));
        UnpublishByAnswers(FindVolume, spdks[nodeName].t, lvolID, addr, p, pc => o(NvmfFrom(pc)));
        var u := node.UnpublishVolume(lvolID, p);
        r := UnpublishProgress(NvmfFrom(u));
      case Iscsi =>
        var node := new I.Node(spdks[nodeName]);
        var q := (pc: I.UnpublishPc) => o(IscsiFrom(pc));
        I.UnpublishByAnswers(I.FindVolume, spdks[nodeName].t, lvolID, q, pc => o(IscsiFrom(pc)));
        var v := node.UnpublishVolume(lvolID, q);
        r := UnpublishProgress(IscsiFrom(v));
    }

    /** Everything after createVolume, by volume ID: publish, ask for the volume info, undo both and delete
        the lvol if anything fails. An ID that does not parse back undoes nothing. */
    method PublishOrDelete(nodeName: string, lvolID: string, a: Publishing) returns (ok: bool)
      requires Valid() && nodeName in spdks
      modifies spdks[nodeName]
      ensures ':' !in nodeName && ':' !in lvolID ==>
                (ok, spdks[nodeName].t) ==
                PublishOrDeleteOn(old(spdks[nodeName].t), lvolID, access[nodeName], a.o, a.info, a.u, a.drop)
      ensures ':' in nodeName || ':' in lvolID ==> !ok && spdks[nodeName].t == old(spdks[nodeName].t)
    {
      var volumeID := FormatVolume(nodeName, lvolID);
      FormattedVolume(nodeName, lvolID);
      var vol := GetSpdkVol(volumeID);
      if vol.None? {
        return false;
      }
      ok := PublishOn(nodeName, lvolID, a.o);
      if ok && !a.info {
        var _ := UnpublishOn(nodeName, lvolID, a.u);
        ok := false;
      }
      if !ok {
        var deleted, found := spdks[nodeName].DeleteLvol(lvolID, a.drop);
      }
    }

    /** The same, by its effect. */
    method Export(nodeName: string, lvolID: string, a: Publishing) returns (ok: bool, volumeID: string)
      requires Valid() && nodeName in spdks && lvolID in spdks[nodeName].t.lvols
      modifies spdks[nodeName]
      ensures ok ==> GetSpdkVol(volumeID) == Some(SpdkVolume(nodeName, lvolID))
      ensures ExportedOrGone(old(spdks[nodeName].t), spdks[nodeName].t, nodeName, lvolID, access[nodeName], a, ok)
      ensures OneVolumeChanged(old(Targets()), Targets(), nodeName, lvolID)
    {
      ghost var t := spdks[nodeName].t;
      volumeID := FormatVolume(nodeName, lvolID);
      FormattedVolume(nodeName, lvolID);
      PublishOrDeleteOnOutcome(t, lvolID, access[nodeName], a.o, a.info, a.u, a.drop);
      ok := PublishOrDelete(nodeName, lvolID, a);
    }

    /** CreateVolume. What it answers is a volume of that name that is published, whose ID leads back to it;
        it can be reached if it had no export before, and otherwise is exported as it was. At most one volume
        of one node is touched; and after a failure that one is gone, if the delete is answered. The capacity
        answered is that of a new volume without a source; a volume found or cloned keeps the size it has. */
    method CreateVolume(name: string, required: int, source: Source, f: Finding, a: Publishing)
      returns (r: Reply, volumeID: string, capacity: int, ghost had: bool, ghost nodeName: string, ghost lvolID: string)
      requires Valid() && f.reports.Keys == spdks.Keys && forall n <- spdks :: f.uuid !in spdks[n].t.lvols
      modifies spdks.Values
      ensures Created(old(Targets()), Targets(), access, name, required, source, f, a, r, had, nodeName, lvolID)
      ensures r == Success ==>
                GetSpdkVol(volumeID) == Some(SpdkVolume(nodeName, lvolID)) && capacity == Capacity(required)
    {
      ghost var ts := Targets();
      var node, lvol;
      r, node, lvol := FindOrCreate(name, required, source, f);
      nodeName, lvolID := node, lvol;
      volumeID, capacity, had := "", Capacity(required), r == Success;
      if r != Success {
        return;
      }
      ghost var mid := Targets();
      var ok;
      ok, volumeID := Export(node, lvol, a);
      ObtainedThenExported(ts, mid, Targets(), access, name, required, source, f, a, ok, node, lvol);
      r := if ok then Success else Failure;
    }

    /** DeleteVolume. An ID that names no configured node is dereferenced all the same. */
    method DeleteVolume(volumeID: string, o: UnpublishAt -> bool, drop: bool) returns (r: Reply)
      requires Valid()
      modifies spdks.Values
      ensures GetSpdkVol(volumeID).None? ==> r == Failure
      ensures GetSpdkVol(volumeID).Some? ==> var v := GetSpdkVol(volumeID).value;
                if v.nodeName !in spdks then r == Panic
                else
                  && r != Panic
                  && Targets() == old(Targets())[v.nodeName := spdks[v.nodeName].t]
                  && (r == Success, spdks[v.nodeName].t) ==
                     DeleteOn(old(spdks[v.nodeName].t), v.lvolID, access[v.nodeName], o, drop)
      ensures r == Panic || GetSpdkVol(volumeID).None? ==> Targets() == old(Targets())
    {
      var vol := GetSpdkVol(volumeID);
      if vol.None? {
        return Failure;
      }
      var nodeName, lvolID := vol.value.nodeName, vol.value.lvolID;
      if nodeName !in spdks {
        return Panic;
      }
      UnpublishVolumeOutcome(spdks[nodeName].t, lvolID, access[nodeName], o);
      var u := UnpublishOn(nodeName, lvolID, o);
      match u {
        case Gone => r := Success;
        case Succeeded =>
          var deleted, found := spdks[nodeName].DeleteLvol(lvolID, drop);
          r := if deleted || !found then Success else Failure;
        case _ => r := Failure;
      }
      assert Targets() == old(Targets())[nodeName := spdks[nodeName].t];
    }
  }

  /** Nodes but `n` are as before, and on it every lvol and export but those of `id`. */
  predicate OneVolumeChanged(ts: map<string, Target>, ts': map<string, Target>, n: string, id: string) {
    && ts'.Keys == ts.Keys && (forall m <- ts :: m != n ==> ts'[m] == ts[m])
    && (n in ts ==> SameElsewhere(ts[n], ts'[n], id) && ts'[n].lvols - {id} == ts[n].lvols - {id})
  }

  lemma AddedLvol(ts: map<string, Target>, n: string, id: string, l: Lvol)
    requires n in ts
    ensures var ts' := ts[n := ts[n].(lvols := ts[n].lvols[id := l])];
            OneVolumeChanged(ts, ts', n, id) && SameExports(ts, ts')
  {
  }

  lemma OneVolumeTwice(ts: map<string, Target>, ts': map<string, Target>, ts'': map<string, Target>,
                       n: string, id: string)
    requires OneVolumeChanged(ts, ts', n, id) && OneVolumeChanged(ts', ts'', n, id)
    ensures OneVolumeChanged(ts, ts'', n, id)
  {
  }
}
