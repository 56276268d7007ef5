/**
 The node server's handlers as small-step programs over one host: its mount table, the devices it is
 connected to, and the volume contexts stashed in the staging directories.
 */
module NodeStaging {
  /** `mounts` by path; `dirs` are the mount points there are, mounted or not; `connected` by volume;
      `stash` maps a staging parent to the volume whose context is stored there. */
  datatype Host = Host(mounts: map<string, string>, dirs: set<string>, connected: set<string>,
                       stash: map<string, string>)

  datatype Request = Request(vol: string, parent: string, target: string)

  function StagingPath(r: Request): string {
    r.parent + "/" + r.vol
  }

  function Device(vol: string): string {
    "/dev/" + vol
  }

  lemma SlashInside(a: string, u: string, b: string, v: string)
    requires a + "/" + u == b + "/" + v && |a| < |b|
    ensures '/' in u
  {
    var i := |b| - |a| - 1;
    assert u[i] == (a + "/" + u)[|b|] == (b + "/" + v)[|b|];
  }

  /** Volume IDs have no slash, so volumes never share a staging path, whatever the parents. */
  lemma StagingPathsDiffer(r: Request, r': Request)
    requires StagingPath(r) == StagingPath(r') && '/' !in r.vol && '/' !in r'.vol
    ensures r.vol == r'.vol && r.parent == r'.parent
  {
    if |r.parent| < |r'.parent| {
      SlashInside(r.parent, r.vol, r'.parent, r'.vol);
    } else if |r'.parent| < |r.parent| {
      SlashInside(r'.parent, r'.vol, r.parent, r.vol);
    } else {
      var p := StagingPath(r);
      assert p[..|r.parent|] == r.parent && p[..|r.parent|] == r'.parent;
      assert p[|r.parent| + 1..] == r.vol && p[|r.parent| + 1..] == r'.vol;
    }
  }

  /** The staging path is the entry named after the volume in the directory that was asked for. */
  lemma StagedInParent(r: Request)
    ensures var path := StagingPath(r);
            r.parent + "/" <= path && path[|r.parent| + 1..] == r.vol
  {
  }

  /** Volumes never share a device. */
  lemma DevicesDiffer(u: string, v: string)
    requires Device(u) == Device(v)
    ensures u == v
  {
    assert Device(u)[5..] == u && Device(v)[5..] == v;
  }

  /** What an operation on the host reports. A connect or disconnect may be reported as failed, by a
      timeout, and have happened all the same; any other failed operation has no effect. */
  datatype Answer = Ok | Fails | FailsLate

  datatype Pc =
    // NodeStageVolume
    | StageCheck
    | Connect
    | MakeMountPoint
    | Mount
    | Stash
    | Undo
    // NodeUnstageVolume
    | UnstageCheck
    | FindMount
    | Unmount
    | RemoveMountPoint
    | Lookup
    | Disconnect(vol: string)
    | CleanUp
    // NodePublishVolume
    | MakeTarget
    | BindMount
    // NodeUnpublishVolume
    | FindTarget
    | UnmountTarget
    | RemoveTarget
    | Done(ok: bool)

  function Rank(pc: Pc): nat {
    match pc
    case StageCheck => 6
    case Connect => 5
    case MakeMountPoint => 4
    case Mount => 3
    case Stash => 2
    case Undo => 1
    case UnstageCheck => 7
    case FindMount => 6
    case Unmount => 5
    case RemoveMountPoint => 4
    case Lookup => 3
    case Disconnect(_) => 2
    case CleanUp => 1
    case MakeTarget => 2
    case BindMount => 1
    case FindTarget => 3
    case UnmountTarget => 2
    case RemoveTarget => 1
    case Done(_) => 0
  }

  function MakeDir(h: Host, path: string): Host {
    h.(dirs := h.dirs + {path})
  }

  function RemoveDir(h: Host, path: string): Host {
    h.(dirs := h.dirs - {path})
  }

  function Step(pc: Pc, h: Host, r: Request, a: Answer): (next: (Pc, Host))
    ensures Rank(pc) > 0 ==> Rank(next.0) < Rank(pc)
  {
    var path := StagingPath(r);
    match pc
    case StageCheck => (if a != Ok then Done(false) else if path in h.mounts then Done(true) else Connect, h)
    case Connect => (if a == Ok then MakeMountPoint else Done(false),
                     if a == Fails then h else h.(connected := h.connected + {r.vol}))
    case MakeMountPoint => if a != Ok then (Undo, h) else (if path in h.mounts then Stash else Mount, MakeDir(h, path))
    case Mount => if a != Ok then (Undo, h) else (Stash, h.(mounts := h.mounts[path := Device(r.vol)]))
    case Stash => if a != Ok then (Undo, h) else (Done(true), h.(stash := h.stash[r.parent := r.vol]))
    case Undo => (Done(false), if a == Fails then h else h.(connected := h.connected - {r.vol}))
    case UnstageCheck => (if a != Ok then Done(false) else if path in h.mounts then FindMount else Done(true), h)
    case FindMount =>
      (if a != Ok then Done(false) else if path !in h.dirs then Lookup
       else if path in h.mounts then Unmount else RemoveMountPoint, h)
    case Unmount => if a != Ok then (Done(false), h) else (RemoveMountPoint, h.(mounts := h.mounts - {path}))
    case RemoveMountPoint => if a != Ok then (Done(false), h) else (Lookup, RemoveDir(h, path))
    case Lookup => (if a != Ok || r.parent !in h.stash then Done(false) else Disconnect(h.stash[r.parent]), h)
    case Disconnect(vol) => (if a == Ok then CleanUp else Done(false),
                             if a == Fails then h else h.(connected := h.connected - {vol}))
    case CleanUp =>
      if a != Ok || r.parent !in h.stash then (Done(false), h) else (Done(true), h.(stash := h.stash - {r.parent}))
    case MakeTarget =>
      if a != Ok then (Done(false), h)
      else (if r.target in h.mounts then Done(true) else BindMount, MakeDir(h, r.target))
    case BindMount => if a != Ok then (Done(false), h) else (Done(true), h.(mounts := h.mounts[r.target := path]))
    case FindTarget =>
      // a path that is not there is deleted already
      (if a != Ok then Done(false) else if r.target !in h.dirs then Done(true)
       else if r.target in h.mounts then UnmountTarget else RemoveTarget, h)
    case UnmountTarget => if a != Ok then (Done(false), h) else (RemoveTarget, h.(mounts := h.mounts - {r.target}))
    case RemoveTarget => if a != Ok then (Done(false), h) else (Done(true), RemoveDir(h, r.target))
    case Done(_) => (pc, h)
  }

  /** A handler from `pc` to its end. */
  function Finish(pc: Pc, h: Host, r: Request, o: Pc -> Answer): (end: (bool, Host))
    decreases Rank(pc)
  {
    if pc.Done? then (pc.ok, h)
    else
      var (pc', h') := Step(pc, h, r, o(pc));
      Finish(pc', h', r, o)
  }

  /******* What staging promises *******/

  predicate Mounted(h: Host, r: Request) {
    StagingPath(r) in h.mounts
  }

  predicate Stashed(h: Host, r: Request) {
    r.parent in h.stash && h.stash[r.parent] == r.vol
  }

  /** A staged volume can be used and can be taken down again. */
  predicate Good(h: Host, r: Request) {
    Mounted(h, r) ==> r.vol in h.connected && Stashed(h, r)
  }

  /** What is mounted is mounted on something. */
  predicate Rooted(h: Host, path: string) {
    path in h.mounts ==> path in h.dirs
  }

  /** No other volume has stashed its context in this volume's directory. */
  predicate OwnStash(h: Host, r: Request) {
    r.parent in h.stash ==> h.stash[r.parent] == r.vol
  }

  /** Mounts at other paths, other connections and other stashes are as before. */
  predicate SameElsewhere(h: Host, h': Host, path: string, r: Request) {
    && h'.mounts - {path} == h.mounts - {path} && h'.dirs - {path} == h.dirs - {path}
    && h'.connected - {r.vol} == h.connected - {r.vol}
    && h'.stash - {r.parent} == h.stash - {r.parent}
  }

  predicate ReachesStash(h: Host, r: Request, o: Pc -> Answer) {
    !Mounted(h, r) && o(StageCheck) == Ok && o(Connect) == Ok && o(MakeMountPoint) == Ok && o(Mount) == Ok
  }

  lemma StageSteps(h: Host, r: Request, o: Pc -> Answer)
    requires !Mounted(h, r) && o(StageCheck) == Ok && o(Connect) == Ok
    ensures var h1, path := h.(connected := h.connected + {r.vol}), StagingPath(r);
            Finish(StageCheck, h, r, o) ==
              if o(MakeMountPoint) != Ok then Finish(Undo, h1, r, o)
              else if o(Mount) != Ok then Finish(Undo, MakeDir(h1, path), r, o)
              else Finish(Stash, MakeDir(h1.(mounts := h1.mounts[path := Device(r.vol)]), path), r, o)
  {
    var h1 := h.(connected := h.connected + {r.vol});
    assert Finish(MakeMountPoint, h1, r, o) == Finish(StageCheck, h, r, o);
  }

  /** NodeStageVolume: success means mounted, connected and stashed; a failure leaves the mount behind
      exactly when everything up to the stash went well and the stash did not. That is then the only way
      to a bad state: mounted, and its context lost or its device gone. */
  lemma StageOutcome(h: Host, r: Request, o: Pc -> Answer)
    requires Good(h, r) && OwnStash(h, r) && Rooted(h, StagingPath(r))
    ensures var (ok, h') := Finish(StageCheck, h, r, o);
            && SameElsewhere(h, h', StagingPath(r), r) && OwnStash(h', r) && Rooted(h', StagingPath(r))
            && (ok ==> Mounted(h', r) && r.vol in h'.connected && Stashed(h', r))
            && (!ok ==> (Mounted(h', r) <==> Mounted(h, r) || ReachesStash(h, r, o)))
            && (Good(h', r) <==> !(ReachesStash(h, r, o) && o(Stash) != Ok && (o(Undo) != Fails || !Stashed(h, r))))
            && (ok && Mounted(h, r) ==> h' == h)
  {
    if !Mounted(h, r) && o(StageCheck) == Ok && o(Connect) == Ok {
      StageSteps(h, r, o);
    }
  }

  /** NodeStageVolume succeeds exactly if the volume is mounted already, or every operation is answered. All
      that it ever mounts is the volume's own device, in the directory asked for and under the volume's ID. */
  lemma StageMountsInParent(h: Host, r: Request, o: Pc -> Answer)
    ensures var (ok, h') := Finish(StageCheck, h, r, o);
            && (ok <==> o(StageCheck) == Ok && (Mounted(h, r) || (ReachesStash(h, r, o) && o(Stash) == Ok)))
            && (forall path <- h'.mounts :: (path in h.mounts && h'.mounts[path] == h.mounts[path]) ||
                  (r.parent + "/" <= path && path[|r.parent| + 1..] == r.vol && h'.mounts[path] == Device(r.vol)))
            && (ReachesStash(h, r, o) ==>
                  exists path <- h'.mounts :: r.parent + "/" <= path && path[|r.parent| + 1..] == r.vol)
  {
    StagedInParent(r);
    if !Mounted(h, r) && o(StageCheck) == Ok && o(Connect) == Ok {
      StageSteps(h, r, o);
    }
    assert ReachesStash(h, r, o) ==> StagingPath(r) in Finish(StageCheck, h, r, o).1.mounts;
  }

  /** Exactly what NodeStageVolume does to the host, in closed form, under all answers: whatever goes wrong
      after the connection is answered by one attempt to disconnect, a connection reported as failed by none,
      and a mount or a mount point that was made stays. */
  lemma StageExactly(h: Host, r: Request, o: Pc -> Answer)
    requires !Mounted(h, r)
    ensures var h', path := Finish(StageCheck, h, r, o).1, StagingPath(r);
            var connects := o(StageCheck) == Ok && o(Connect) == Ok;
            var done := ReachesStash(h, r, o) && o(Stash) == Ok;
            && h'.mounts == (if ReachesStash(h, r, o) then h.mounts[path := Device(r.vol)] else h.mounts)
            && h'.dirs == (if connects && o(MakeMountPoint) == Ok then h.dirs + {path} else h.dirs)
            && h'.stash == (if done then h.stash[r.parent := r.vol] else h.stash)
            && h'.connected ==
               (if o(StageCheck) != Ok || o(Connect) == Fails then h.connected
                else if done || !connects || o(Undo) == Fails then h.connected + {r.vol}
                else h.connected - {r.vol})
  {
    if o(StageCheck) == Ok && o(Connect) == Ok {
      StageSteps(h, r, o);
      assert h.connected + {r.vol} - {r.vol} == h.connected - {r.vol};
    }
  }

  /** And NodeUnstageVolume, on a mounted volume: each operation happens exactly if all before it are
      answered, and the disconnection also if it is reported as failed after it has happened. */
  lemma UnstageExactly(h: Host, r: Request, o: Pc -> Answer)
    requires Mounted(h, r) && Good(h, r) && Rooted(h, StagingPath(r))
    ensures var h', path := Finish(UnstageCheck, h, r, o).1, StagingPath(r);
            var unmounts := o(UnstageCheck) == Ok && o(FindMount) == Ok && o(Unmount) == Ok;
            var finds := unmounts && o(RemoveMountPoint) == Ok && o(Lookup) == Ok;
            && h'.mounts == (if unmounts then h.mounts - {path} else h.mounts)
            && h'.dirs == (if unmounts && o(RemoveMountPoint) == Ok then h.dirs - {path} else h.dirs)
            && h'.connected == (if finds && o(Disconnect(r.vol)) != Fails then h.connected - {r.vol} else h.connected)
            && h'.stash == (if finds && o(Disconnect(r.vol)) == Ok && o(CleanUp) == Ok then h.stash - {r.parent}
                            else h.stash)
  {
    if o(UnstageCheck) == Ok {
      UnstageSteps(h, r, o);
      if o(FindMount) == Ok && o(Unmount) == Ok && o(RemoveMountPoint) == Ok {
        var h1 := RemoveDir(h.(mounts := h.mounts - {StagingPath(r)}), StagingPath(r));
        if o(Lookup) == Ok {
          assert Finish(Disconnect(r.vol), h1, r, o) == Finish(Lookup, h1, r, o);
        }
      }
    }
  }

  /** A stash that could not be written is forgotten: the retry looks at the mount only, and reports a
      staged volume whose device is gone. */
  lemma FailedStashIsHidden(h: Host, r: Request, o: Pc -> Answer, o': Pc -> Answer)
    requires ReachesStash(h, r, o) && o(Stash) != Ok && o(Undo) != Fails && o'(StageCheck) == Ok
    ensures var (ok, h1) := Finish(StageCheck, h, r, o);
            && !ok && Finish(StageCheck, h1, r, o') == (true, h1)
            && Mounted(h1, r) && r.vol !in h1.connected
  {
    StageSteps(h, r, o);
  }

  /** From the lookup on. */
  lemma UnstageTail(h: Host, r: Request, o: Pc -> Answer)
    requires !Mounted(h, r) && OwnStash(h, r)
    ensures var (ok, h') := Finish(Lookup, h, r, o);
            && h'.mounts == h.mounts && h'.dirs == h.dirs && SameElsewhere(h, h', StagingPath(r), r) && OwnStash(h', r)
            && (ok ==> r.vol !in h'.connected && r.parent !in h'.stash)
            && (ok <==> Stashed(h, r) && o(Lookup) == Ok && o(Disconnect(r.vol)) == Ok && o(CleanUp) == Ok)
  {
  }

  /** NodeUnstageVolume never leaves a bad state, but what its success means depends on where it began:
      the device is disconnected exactly when the volume was mounted, or there was no connection. */
  lemma UnstageOutcome(h: Host, r: Request, o: Pc -> Answer)
    requires Good(h, r) && OwnStash(h, r) && Rooted(h, StagingPath(r))
    ensures var (ok, h') := Finish(UnstageCheck, h, r, o);
            && SameElsewhere(h, h', StagingPath(r), r) && OwnStash(h', r) && Good(h', r) && Rooted(h', StagingPath(r))
            && (ok ==> !Mounted(h', r))
            && (ok ==> (r.vol !in h'.connected <==> Mounted(h, r) || r.vol !in h.connected))
            && (ok && Mounted(h, r) ==> r.parent !in h'.stash && StagingPath(r) !in h'.dirs)
            && (!Mounted(h, r) ==> h' == h)
            && (ok <==> o(UnstageCheck) == Ok &&
                        (Mounted(h, r) ==>
                          && o(FindMount) == Ok && o(Unmount) == Ok && o(RemoveMountPoint) == Ok
                          && o(Lookup) == Ok && o(Disconnect(r.vol)) == Ok && o(CleanUp) == Ok))
  {
    if o(UnstageCheck) == Ok && Mounted(h, r) {
      UnstageSteps(h, r, o);
      if o(FindMount) == Ok && o(Unmount) == Ok && o(RemoveMountPoint) == Ok {
        UnstageTail(RemoveDir(h.(mounts := h.mounts - {StagingPath(r)}), StagingPath(r)), r, o);
      }
    }
  }

  lemma UnstageSteps(h: Host, r: Request, o: Pc -> Answer)
    requires Mounted(h, r) && Rooted(h, StagingPath(r)) && o(UnstageCheck) == Ok
    ensures var h1, path := h.(mounts := h.mounts - {StagingPath(r)}), StagingPath(r);
            Finish(UnstageCheck, h, r, o) ==
              if o(FindMount) != Ok || o(Unmount) != Ok then (false, h)
              else if o(RemoveMountPoint) != Ok then (false, h1)
              else Finish(Lookup, RemoveDir(h1, path), r, o)
  {
    assert Finish(FindMount, h, r, o) == Finish(UnstageCheck, h, r, o);
    if o(FindMount) == Ok {
      assert Finish(Unmount, h, r, o) == Finish(FindMount, h, r, o);
    }
  }

  lemma StageWithoutFaults(h: Host, r: Request)
    requires !Mounted(h, r)
    ensures Finish(StageCheck, h, r, _ => Ok) ==
            (true, Host(h.mounts[StagingPath(r) := Device(r.vol)], h.dirs + {StagingPath(r)}, h.connected + {r.vol},
                        h.stash[r.parent := r.vol]))
  {
    StageSteps(h, r, _ => Ok);
  }

  lemma UnstageWithoutFaults(h: Host, r: Request)
    requires Mounted(h, r) && Rooted(h, StagingPath(r)) && Stashed(h, r)
    ensures Finish(UnstageCheck, h, r, _ => Ok) ==
            (true, Host(h.mounts - {StagingPath(r)}, h.dirs - {StagingPath(r)},
                        h.connected - {r.vol}, h.stash - {r.parent}))
  {
    UnstageSteps(h, r, _ => Ok);
    var h1 := RemoveDir(h.(mounts := h.mounts - {StagingPath(r)}), StagingPath(r));
    assert Finish(Disconnect(r.vol), h1, r, _ => Ok) == Finish(Lookup, h1, r, _ => Ok);
  }

  /** Without faults, unstaging undoes staging completely, and removes the mount point. */
  lemma StageThenUnstage(h: Host, r: Request)
    requires !Mounted(h, r) && r.vol !in h.connected && r.parent !in h.stash
    ensures var (ok, h1) := Finish(StageCheck, h, r, _ => Ok);
            ok && Finish(UnstageCheck, h1, r, _ => Ok) == (true, RemoveDir(h, StagingPath(r)))
  {
    var path := StagingPath(r);
    StageWithoutFaults(h, r);
    var h1 := Host(h.mounts[path := Device(r.vol)], h.dirs + {path}, h.connected + {r.vol}, h.stash[r.parent := r.vol]);
    UnstageWithoutFaults(h1, r);
    assert h1.mounts - {path} == h.mounts && h1.connected - {r.vol} == h.connected;
    assert h1.stash - {r.parent} == h.stash && h1.dirs - {path} == h.dirs - {path};
  }

  /** Every handler that has succeeded succeeds again without changing anything, if what it asks of the
      host is answered then. */
  lemma RepeatedCalls(pc: Pc, h: Host, r: Request, o: Pc -> Answer, o': Pc -> Answer)
    requires pc in {StageCheck, UnstageCheck, MakeTarget, FindTarget} && Finish(pc, h, r, o).0
    requires Good(h, r) && OwnStash(h, r) && Rooted(h, StagingPath(r)) && Rooted(h, r.target)
    requires o'(pc) == Ok
    ensures var h' := Finish(pc, h, r, o).1; Finish(pc, h', r, o') == (true, h')
  {
    match pc
    case StageCheck => StageOutcome(h, r, o);
    case UnstageCheck => UnstageOutcome(h, r, o);
    case MakeTarget =>
    case FindTarget => UnpublishOutcome(h, r, o);
  }

  /** A failed unstage followed by a successful one can leave the device connected and the context stashed
      for good: the retry looks at the mount only, and that has gone. */
  lemma UnstageRetryLeaks(h: Host, r: Request, o: Pc -> Answer, o': Pc -> Answer)
    requires Mounted(h, r) && Good(h, r) && Rooted(h, StagingPath(r))
    requires o(UnstageCheck) == Ok && o(FindMount) == Ok && o(Unmount) == Ok && o'(UnstageCheck) == Ok
    requires o(RemoveMountPoint) != Ok || o(Lookup) != Ok || o(Disconnect(r.vol)) == Fails
    ensures var h1 := Finish(UnstageCheck, h, r, o).1;
            && !Finish(UnstageCheck, h, r, o).0 && Finish(UnstageCheck, h1, r, o') == (true, h1)
            && r.vol in h1.connected && Stashed(h1, r)
  {
  }

  /** Only the mount at `path`, and the mount point itself, may differ. */
  predicate SameBut(h: Host, h': Host, path: string) {
    && h'.connected == h.connected && h'.stash == h.stash
    && h'.mounts - {path} == h.mounts - {path} && h'.dirs - {path} == h.dirs - {path}
  }

  /** NodePublishVolume touches nothing but its target. It does not ask whether the volume is staged. */
  lemma PublishOutcome(h: Host, r: Request, o: Pc -> Answer)
    ensures var (ok, h') := Finish(MakeTarget, h, r, o);
            && SameBut(h, h', r.target)
            && (ok <==> o(MakeTarget) == Ok && (r.target in h.mounts || o(BindMount) == Ok))
            && (ok ==> r.target in h'.mounts && r.target in h'.dirs)
            && (ok && r.target !in h.mounts ==>
                  var from := h'.mounts[r.target];
                  from == StagingPath(r) && r.parent + "/" <= from && from[|r.parent| + 1..] == r.vol)
            && (!ok || r.target in h.mounts ==> h'.mounts == h.mounts)
            && h'.dirs == (if o(MakeTarget) == Ok then h.dirs + {r.target} else h.dirs)
  {
  }

  /** NodeUnpublishVolume: a target that is not there counts as unpublished. */
  lemma UnpublishOutcome(h: Host, r: Request, o: Pc -> Answer)
    requires Rooted(h, r.target)
    ensures var (ok, h') := Finish(FindTarget, h, r, o);
            && SameBut(h, h', r.target)
            && (ok ==> r.target !in h'.mounts && r.target !in h'.dirs)
            && (ok <==> o(FindTarget) == Ok &&
                        (r.target in h.dirs ==>
                         (r.target in h.mounts ==> o(UnmountTarget) == Ok) && o(RemoveTarget) == Ok))
            && (r.target !in h.dirs ==> h' == h)
            && (!ok ==> h'.dirs == h.dirs)
            && (r.target in h.mounts ==>
                  (r.target in h'.mounts <==> !(o(FindTarget) == Ok && o(UnmountTarget) == Ok)))
  {
    if o(FindTarget) == Ok && r.target in h.mounts {
      assert Finish(UnmountTarget, h, r, o) == Finish(FindTarget, h, r, o);
    }
  }

  /** Publishing or unpublishing one volume at a path where nothing is staged leaves every staged volume
      staged, under any faults. */
  lemma TargetsLeaveStagingAlone(pc: Pc, h: Host, r: Request, o: Pc -> Answer, other: Request)
    requires pc in {MakeTarget, FindTarget} && Rooted(h, r.target) && r.target != StagingPath(other)
    ensures var h', path := Finish(pc, h, r, o).1, StagingPath(other);
            && h'.connected == h.connected && h'.stash == h.stash
            && (path in h'.dirs <==> path in h.dirs)
            && (Mounted(h', other) <==> Mounted(h, other))
            && (Mounted(h, other) ==> h'.mounts[path] == h.mounts[path])
  {
    PublishOutcome(h, r, o);
    UnpublishOutcome(h, r, o);
    var h', p := Finish(pc, h, r, o).1, StagingPath(other);
    assert p in h'.mounts <==> p in h'.mounts - {r.target};
    assert p in h.mounts <==> p in h.mounts - {r.target};
    assert p in h'.dirs <==> p in h'.dirs - {r.target};
    assert p in h.dirs <==> p in h.dirs - {r.target};
    if p in h.mounts {
      assert (h'.mounts - {r.target})[p] == (h.mounts - {r.target})[p];
    }
  }

  /******* The server *******/

  class NodeServer {
    var host: Host

    constructor (host: Host)
      ensures this.host == host
    {
      this.host := host;
    }

    method IsStaged(path: string, a: Answer) returns (ok: bool, staged: bool)
      ensures ok <==> a == Ok
      ensures staged <==> !ok || path in host.mounts
    {
      if a != Ok {
        return false, true;
      }
      return true, path in host.mounts;
    }

    /** Makes the directory if there is none. */
    method CreateMountPoint(path: string, a: Answer) returns (ok: bool, mounted: bool)
      modifies this
      ensures ok <==> a == Ok
      ensures mounted <==> ok && path in old(host.mounts)
      ensures host == if ok then MakeDir(old(host), path) else old(host)
    {
      ok := a == Ok;
      mounted := ok && path in host.mounts;
      if ok {
        host := MakeDir(host, path);
      }
    }

    /** Unmounts what is mounted, then removes the directory; one that is not there is deleted already. */
    method DeleteMountPoint(path: string, find: Answer, unmount: Answer, remove: Answer) returns (ok: bool)
      modifies this
      ensures ok <==> find == Ok &&
                      (path in old(host.dirs) ==> (path in old(host.mounts) ==> unmount == Ok) && remove == Ok)
      ensures var there := find == Ok && path in old(host.dirs);
              var h := if there && path in old(host.mounts) && unmount == Ok
                       then old(host).(mounts := old(host.mounts) - {path}) else old(host);
              host == if there && ok then RemoveDir(h, path) else h
    {
      if find != Ok {
        return false;
      }
      if path !in host.dirs {
        return true;
      }
      if path in host.mounts {
        if unmount != Ok {
          return false;
        }
        host := host.(mounts := host.mounts - {path});
      }
      ok := remove == Ok;
      if ok {
        host := RemoveDir(host, path);
      }
    }

    method StageVolume(r: Request, o: Pc -> Answer) returns (ok: bool)
      modifies this
      ensures ok <==> o(MakeMountPoint) == Ok && (Mounted(old(host), r) || o(Mount) == Ok)
      ensures var h := if o(MakeMountPoint) == Ok then MakeDir(old(host), StagingPath(r)) else old(host);
              host == if ok && !Mounted(h, r) then h.(mounts := h.mounts[StagingPath(r) := Device(r.vol)]) else h
    {
      var mounted;
      ok, mounted := CreateMountPoint(StagingPath(r), o(MakeMountPoint));
      if !ok || mounted {
        return;
      }
      ok := o(Mount) == Ok;
      if ok {
        host := host.(mounts := host.mounts[StagingPath(r) := Device(r.vol)]);
      }
    }

    method NodeStageVolume(r: Request, o: Pc -> Answer) returns (ok: bool)
      modifies this
      ensures (ok, host) == Finish(StageCheck, old(host), r, o)
    {
      var staged;
      ok, staged := IsStaged(StagingPath(r), o(StageCheck));
      if !ok || staged {
        return;
      }
      if o(Connect) != Fails {
        host := host.(connected := host.connected + {r.vol});
      }
      if o(Connect) != Ok {
        return false;
      }
      StageSteps(old(host), r, o);
      ok := StageVolume(r, o);
      if ok {
        ok := o(Stash) == Ok;
        if ok {
          host := host.(stash := host.stash[r.parent := r.vol]);
        }
      }
      if !ok && o(Undo) != Fails {
        host := host.(connected := host.connected - {r.vol});
      }
    }

    method NodeUnstageVolume(r: Request, o: Pc -> Answer) returns (ok: bool)
      requires Rooted(host, StagingPath(r))
      modifies this
      ensures (ok, host) == Finish(UnstageCheck, old(host), r, o)
    {
      var staged;
      ok, staged := IsStaged(StagingPath(r), o(UnstageCheck));
      if !ok || !staged {
        return;
      }
      UnstageSteps(host, r, o);
      ok := DeleteMountPoint(StagingPath(r), o(FindMount), o(Unmount), o(RemoveMountPoint));
      if !ok {
        return;
      }
      ghost var h := host;
      if o(Lookup) != Ok || r.parent !in host.stash {
        return false;
      }
      var vol := host.stash[r.parent];
      assert Finish(Disconnect(vol), h, r, o) == Finish(Lookup, h, r, o);
      if o(Disconnect(vol)) != Fails {
        host := host.(connected := host.connected - {vol});
      }
      if o(Disconnect(vol)) != Ok {
        return false;
      }
      ok := o(CleanUp) == Ok;
      if ok {
        host := host.(stash := host.stash - {r.parent});
      }
    }

    method NodePublishVolume(r: Request, o: Pc -> Answer) returns (ok: bool)
      modifies this
      ensures (ok, host) == Finish(MakeTarget, old(host), r, o)
    {
      var mounted;
      ok, mounted := CreateMountPoint(r.target, o(MakeTarget));
      if !ok || mounted {
        return;
      }
      ok := o(BindMount) == Ok;
      if ok {
        host := host.(mounts := host.mounts[r.target := StagingPath(r)]);
      }
    }

    method NodeUnpublishVolume(r: Request, o: Pc -> Answer) returns (ok: bool)
      modifies this
      ensures (ok, host) == Finish(FindTarget, old(host), r, o)
    {
      assert o(FindTarget) == Ok && r.target in host.dirs && r.target in host.mounts ==>
          Finish(UnmountTarget, host, r, o) == Finish(FindTarget, host, r, o);
      ok := DeleteMountPoint(r.target, o(FindTarget), o(UnmountTarget), o(RemoveTarget));
    }
  }
}
