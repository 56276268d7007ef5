/**
 `xpuInitiator` over the SMA backends for NVMe/TCP, where the host connects to the agent's device over the
 loopback interface, and for NVMe, where the device appears as a PCI function. Every NodeStageVolume and
 NodeUnstageVolume builds an initiator of its own from the stash, so what matters is what outlives them:
 the agent and the stash.
 */
module XpuSma {
  import opened Text
  import opened XpuContext
  import opened XpuInitiator
  import S = SmaInitiator

  datatype Transport = NvmfTcp | NvmePci

  /** What an initiator without a stash reads counts as empty. */
  function Stored(files: map<string, Context>, parent: string, readable: bool): Context {
    if readable && parent in files then files[parent] else map[]
  }

  /******* What calls amount to *******/

  /** The backend connects, and disconnects again if then no device appears on the host. */
  function Attempted(s: S.State, appears: string, a: S.ConnectAnswers, undo: S.DisconnectAnswers)
    : (r: (bool, S.State))
  {
    var (ok, s1) := S.AfterConnect(s, a);
    if ok && appears == "" then (false, S.AfterDisconnect(s1, undo).1) else (ok, s1)
  }

  /** One Disconnect by an initiator of its own: whether its stash can be read, whether the host sees the
      device go, the agent's answers, and whether the stash is dropped. */
  datatype Unstage = Unstage(readable: bool, gone: bool, answers: S.DisconnectAnswers, cleaned: bool)

  /** What outlives an initiator. */
  datatype Left = Left(devices: set<string>, attached: set<S.Attachment>, files: map<string, Context>)

  /** Over NVMe/TCP the host disconnects before the agent is asked, over NVMe the host is looked at after
      it, and nothing happens without a device path. The stash is dropped in any case. */
  function Disconnected(tr: Transport, parent: string, s: S.State, path: string, files: map<string, Context>,
                        u: Unstage)
    : (r: (bool, Left))
  {
    var files' := if u.cleaned then files - {parent} else files;
    if (if tr.NvmfTcp? then !u.gone else path == "") then (false, Left(s.devices, s.attached, files'))
    else
      var (ok, s') := S.AfterDisconnect(s, u.answers);
      (ok && u.gone, Left(s'.devices, s'.attached, files'))
  }

  function Do(tr: Transport, uuid: string, parent: string, w: Left, u: Unstage): (r: (bool, Left)) {
    var f := Restore(SmaKind, Stored(w.files, parent, u.readable));
    Disconnected(tr, parent, S.State(w.devices, w.attached, f.backend.deviceHandle, uuid), f.devicePath, w.files, u)
  }

  function After(tr: Transport, uuid: string, parent: string, w: Left, us: seq<Unstage>): Left {
    if us == [] then w else Do(tr, uuid, parent, After(tr, uuid, parent, w, us[..|us| - 1]), us[|us| - 1]).1
  }

  /******* Connecting is all or nothing *******/

  /** A Connect of a new device that fails leaves the agent as it was, exactly when nothing was created or
      what was created was taken back: by the backend after a failed attach, by the initiator when no device
      appeared. */
  lemma FailedConnect(s: S.State, appears: string, a: S.ConnectAnswers, undo: S.DisconnectAnswers)
    requires s.volume != "" && a.handle !in s.devices && S.Attachment(a.handle, s.volume) !in s.attached
    requires !Attempted(s, appears, a, undo).0
    ensures var t := Attempted(s, appears, a, undo).1;
            (t.devices == s.devices && t.attached == s.attached) <==>
            || !a.create || a.handle == ""
            || (if a.attach then undo.detach && undo.delete else a.rollback)
  {
    var t := Attempted(s, appears, a, undo).1;
    var attachment := S.Attachment(a.handle, s.volume);
    assert (s.devices + {a.handle}) - {a.handle} == s.devices;
    assert (s.attached + {attachment}) - {attachment} == s.attached;
    assert a.create && a.handle != "" && a.attach && !undo.detach ==> attachment in t.attached;
  }

  /******* Repeated disconnects *******/

  predicate Dropped(us: seq<Unstage>, n: nat)
    requires n <= |us|
  {
    exists i :: 0 <= i < n && us[i].cleaned
  }

  /** The j-th call knows the device and asks the agent about it. */
  predicate Reaches(tr: Transport, us: seq<Unstage>, j: nat)
    requires j < |us|
  {
    !Dropped(us, j) && us[j].readable && (tr.NvmfTcp? ==> us[j].gone)
  }

  predicate Detaches(tr: Transport, us: seq<Unstage>) {
    exists j :: 0 <= j < |us| && Reaches(tr, us, j) && us[j].answers.detach
  }

  predicate Removes(tr: Transport, us: seq<Unstage>) {
    exists j :: 0 <= j < |us| && Reaches(tr, us, j) && us[j].answers.detach && us[j].answers.delete
  }

  /** A device is connected, and so stashed. */
  predicate Staged(tr: Transport, parent: string, w: Left, f: Fields) {
    && f.backend.Sma? && f.backend.deviceHandle != "" && f.backend.deviceHandle in w.devices
    && (tr.NvmePci? ==> f.devicePath != "")
    && parent in w.files && w.files[parent] == Save(f)
  }

  /** What one more call adds. */
  lemma OneMore(tr: Transport, us: seq<Unstage>)
    requires us != []
    ensures var n := |us| - 1;
            && (Dropped(us, |us|) <==> Dropped(us[..n], n) || us[n].cleaned)
            && (Reaches(tr, us, n) <==> !Dropped(us[..n], n) && us[n].readable && (tr.NvmfTcp? ==> us[n].gone))
            && (Detaches(tr, us) <==> Detaches(tr, us[..n]) || (Reaches(tr, us, n) && us[n].answers.detach))
            && (Removes(tr, us) <==>
                Removes(tr, us[..n]) || (Reaches(tr, us, n) && us[n].answers.detach && us[n].answers.delete))
  {
    var n := |us| - 1;
    forall j: nat | j <= n ensures Dropped(us, j) <==> Dropped(us[..n], j) {
    }
    forall j: nat | j < n ensures us[..n][j] == us[j] && (Reaches(tr, us, j) <==> Reaches(tr, us[..n], j)) {
    }
  }

  /** A call that knows of the device. */
  lemma DoStashed(tr: Transport, uuid: string, parent: string, w: Left, f: Fields, u: Unstage)
    requires uuid != "" && f.backend.Sma? && f.backend.deviceHandle != "" && (tr.NvmePci? ==> f.devicePath != "")
    requires parent in w.files && w.files[parent] == Save(f) && u.readable
    ensures var (ok, t), handle := Do(tr, uuid, parent, w, u), f.backend.deviceHandle;
            var asked := tr.NvmfTcp? ==> u.gone;
            && (ok <==> u.gone && u.answers.detach && u.answers.delete)
            && t.files == (if u.cleaned then w.files - {parent} else w.files)
            && t.devices == (if asked && u.answers.detach && u.answers.delete then w.devices - {handle} else w.devices)
            && t.attached == (if asked && u.answers.detach
                              then w.attached - {S.Attachment(handle, uuid)} else w.attached)
  {
    RestoreSaved(f);
  }

  /** A call that does not: over NVMe it fails, over NVMe/TCP the backend has nothing to do. */
  lemma DoWithoutStash(tr: Transport, uuid: string, parent: string, w: Left, u: Unstage)
    requires parent !in w.files || !u.readable
    ensures var files := if u.cleaned then w.files - {parent} else w.files;
            Do(tr, uuid, parent, w, u) == (tr.NvmfTcp? && u.gone, w.(files := files))
  {
    assert Stored(w.files, parent, u.readable) == map[];
  }

  /** However often a staged volume is disconnected, each time by an initiator built anew: the device goes
      exactly when some call, while the stash is there and readable, has its detach and its delete answered,
      over NVMe/TCP after the host's own disconnect; the attachment exactly when one has its detach answered.
      After the stash nothing goes any more. */
  lemma {:induction false} RepeatedUnstage(tr: Transport, uuid: string, parent: string, w: Left, f: Fields,
                                           us: seq<Unstage>)
    requires uuid != "" && Staged(tr, parent, w, f)
    ensures var t, handle := After(tr, uuid, parent, w, us), f.backend.deviceHandle;
            && t.files == (if Dropped(us, |us|) then w.files - {parent} else w.files)
            && t.devices == (if Removes(tr, us) then w.devices - {handle} else w.devices)
            && t.attached == (if Detaches(tr, us) then w.attached - {S.Attachment(handle, uuid)} else w.attached)
  {
    if us != [] {
      var before, u := After(tr, uuid, parent, w, us[..|us| - 1]), us[|us| - 1];
      RepeatedUnstage(tr, uuid, parent, w, f, us[..|us| - 1]);
      OneMore(tr, us);
      if parent in before.files && u.readable {
        DoStashed(tr, uuid, parent, before, f, u);
      } else {
        DoWithoutStash(tr, uuid, parent, before, u);
      }
    }
  }

  /** What a call that reports success is worth, after any others: over NVMe the device is gone; over NVMe/TCP
      it may still be there, exactly when no call so far has removed it and this one had no stash to tell it
      of a device. */
  lemma ReportedSuccess(tr: Transport, uuid: string, parent: string, w: Left, f: Fields, us: seq<Unstage>, u: Unstage)
    requires uuid != "" && Staged(tr, parent, w, f)
    ensures var (ok, t) := Do(tr, uuid, parent, After(tr, uuid, parent, w, us), u);
            ok && f.backend.deviceHandle in t.devices <==>
            tr.NvmfTcp? && u.gone && (Dropped(us, |us|) || !u.readable) && !Removes(tr, us)
  {
    RepeatedUnstage(tr, uuid, parent, w, f, us);
    var before := After(tr, uuid, parent, w, us);
    if parent in before.files && u.readable {
      DoStashed(tr, uuid, parent, before, f, u);
    } else {
      DoWithoutStash(tr, uuid, parent, before, u);
    }
  }

  /******* The initiator *******/

  class Xpu {
    const transport: Transport
    const backend: S.Sma
    const stash: Stash
    const parent: string
    var devicePath: string
    var pfID: uint32
    var vfID: uint32
    var pfBdf: string
    var vfBdf: string

    /** Reads the stash, if there is one and it can be read; the volume ID comes from the volume's UUID. */
    constructor (transport: Transport, agent: S.Agent, stash: Stash, uuid: string, parent: string, readable: bool)
      requires uuid != ""
      ensures fresh(backend) && backend.agent == agent && backend.volumeID == uuid
      ensures this.transport == transport && this.stash == stash && this.parent == parent
      ensures Remembered() == Restore(SmaKind, Stored(stash.files, parent, readable))
    {
      var stored := Stored(stash.files, parent, readable);
      this.transport := transport;
      this.stash := stash;
      this.parent := parent;
      devicePath := Get(stored, "devicePath");
      pfBdf := Get(stored, "pfBdf");
      vfBdf := Get(stored, "vfBdf");
      pfID := ParseUint32(Get(stored, "pfID"));
      vfID := ParseUint32(Get(stored, "vfID"));
      backend := new S.Sma(agent, uuid, Get(stored, "deviceHandle"));
    }

    ghost function Remembered(): Fields
      reads this, backend
    {
      Fields(Sma(backend.deviceHandle), devicePath, pfID, vfID, pfBdf, vfBdf)
    }

    ghost function Now(): S.State
      reads backend, backend.agent
    {
      backend.Now()
    }

    ghost function Function(): Functions
      reads this
    {
      Free(pfID, vfID, pfBdf, vfBdf)
    }

    ghost function Leaves(): Left
      reads backend.agent, stash
    {
      Left(backend.agent.devices, backend.agent.attached, stash.files)
    }

    method SaveXpuContext(answered: bool) returns (ok: bool)
      modifies stash
      ensures ok == answered
      ensures stash.files == if ok then old(stash.files)[parent := Save(Remembered())] else old(stash.files)
    {
      var context := backend.GetParam();
      context := context["devicePath" := devicePath]["pfID" := Decimal(pfID as nat)]["vfID" := Decimal(vfID as nat)];
      context := context["pfBdf" := pfBdf]["vfBdf" := vfBdf];
      ok := answered;
      if ok {
        stash.files := stash.files[parent := context];
      }
    }

    /** Only ConnectNvme looks for a device that exists already. */
    predicate Finds(h: Host) {
      transport.NvmePci? && h.existing != ""
    }

    /** What a Connect that finds no device amounts to. */
    twostate predicate Connected(h: Host, a: S.ConnectAnswers, undo: S.DisconnectAnswers, ok: bool)
      reads this, backend, backend.agent
    {
      if transport.NvmePci? && h.functions.NoneFree?
      then !ok && Now() == old(Now()) && Remembered() == old(Remembered())
      else
        && (ok, Now()) == Attempted(old(Now()), h.appears, a, undo)
        && devicePath == (if ok then h.appears else old(devicePath))
        && Function() == if transport.NvmePci? then h.functions else old(Function())
    }

    method ConnectNvmfTCP(h: Host, a: S.ConnectAnswers, undo: S.DisconnectAnswers) returns (ok: bool, path: string)
      requires transport.NvmfTcp?
      modifies this, backend, backend.agent
      ensures Connected(h, a, undo, ok) && (ok ==> path == h.appears)
    {
      ok := backend.Connect(a);
      if !ok {
        return false, "";
      }
      if h.appears == "" {
        var _ := backend.Disconnect(undo);
        return false, "";
      }
      devicePath := h.appears;
      return true, h.appears;
    }

    method ConnectNvme(h: Host, a: S.ConnectAnswers, undo: S.DisconnectAnswers) returns (ok: bool, path: string)
      requires transport.NvmePci?
      modifies this, backend, backend.agent
      ensures ok ==> path == if Finds(h) then h.existing else h.appears
      ensures Finds(h) ==> ok && Remembered() == old(Remembered()) && Now() == old(Now())
      ensures !Finds(h) ==> Connected(h, a, undo, ok)
    {
      if h.existing != "" {
        return true, h.existing;
      }
      if h.functions.NoneFree? {
        return false, "";
      }
      pfID, vfID, pfBdf, vfBdf := h.functions.pfID, h.functions.vfID, h.functions.pfBdf, h.functions.vfBdf;
      ok := backend.Connect(a);
      if !ok {
        return false, "";
      }
      if h.appears == "" {
        var _ := backend.Disconnect(undo);
        return false, "";
      }
      devicePath := h.appears;
      return true, h.appears;
    }

    /** What is stashed on success is what the initiator remembers. A stash that cannot be written makes
        Connect fail, and undoes nothing. */
    method Connect(h: Host, a: S.ConnectAnswers, undo: S.DisconnectAnswers) returns (ok: bool, path: string)
      modifies this, backend, backend.agent, stash
      ensures stash.files == if ok then old(stash.files)[parent := Save(Remembered())] else old(stash.files)
      ensures ok ==> h.saved && path == if Finds(h) then h.existing else h.appears
      ensures Finds(h) ==> (ok <==> h.saved) && Remembered() == old(Remembered()) && Now() == old(Now())
      ensures !Finds(h) ==> exists connected :: Connected(h, a, undo, connected) && (ok <==> connected && h.saved)
    {
      if transport == NvmfTcp {
        ok, path := ConnectNvmfTCP(h, a, undo);
      } else {
        ok, path := ConnectNvme(h, a, undo);
      }
      ghost var connected := ok;
      if ok {
        ok := SaveXpuContext(h.saved);
      }
      if !ok {
        path := "";
      }
      assert !Finds(h) ==> Connected(h, a, undo, connected);
    }

    method Disconnect(u: Unstage) returns (ok: bool)
      modifies backend, backend.agent, stash
      ensures (ok, Leaves()) == Disconnected(transport, parent, old(Now()), devicePath, old(stash.files), u)
    {
      if transport == NvmfTcp {
        ok := DisconnectNvmfTCP(u);
      } else {
        ok := DisconnectNvme(u);
      }
      if u.cleaned {
        stash.files := stash.files - {parent};
      }
    }

    method DisconnectNvmfTCP(u: Unstage) returns (ok: bool)
      modifies backend, backend.agent
      ensures !u.gone ==> !ok && Now() == old(Now())
      ensures u.gone ==> (ok, Now()) == S.AfterDisconnect(old(Now()), u.answers)
    {
      if !u.gone {
        return false;
      }
      ok := backend.Disconnect(u.answers);
    }

    method DisconnectNvme(u: Unstage) returns (ok: bool)
      modifies backend, backend.agent
      ensures devicePath == "" ==> !ok && Now() == old(Now())
      ensures devicePath != "" ==> Now() == S.AfterDisconnect(old(Now()), u.answers).1
      ensures ok <==> devicePath != "" && u.gone && S.AfterDisconnect(old(Now()), u.answers).0
    {
      if devicePath == "" {
        return false;
      }
      ok := backend.Disconnect(u.answers);
      if !ok {
        return;
      }
      ok := u.gone;
    }
  }

  /** Across a restart nothing is lost: an initiator rebuilt from the stashed handle and the
      volume's UUID is in the state of the old one, and takes down what that one had made. */
  lemma SmaSurvivesRestart(s: S.State, a: S.ConnectAnswers, f: Fields)
    requires S.AfterConnect(s, a).0 && s.volume != "" && f.backend == Sma(S.AfterConnect(s, a).1.handle)
    ensures var t := S.AfterConnect(s, a).1;
            var rebuilt := S.State(t.devices, t.attached, Restore(SmaKind, Save(f)).backend.deviceHandle, s.volume);
            && rebuilt == t
            && S.AfterDisconnect(rebuilt, S.DisconnectAnswers(true, true)) ==
               (true, S.State(s.devices - {a.handle}, s.attached - {S.Attachment(a.handle, s.volume)}, "", ""))
  {
    RestoreSaved(f);
    var t := S.AfterConnect(s, a).1;
    assert t.devices - {a.handle} == s.devices - {a.handle};
    assert t.attached - {S.Attachment(a.handle, s.volume)} == s.attached - {S.Attachment(a.handle, s.volume)};
  }

  /** A call that builds its initiator and disconnects it. */
  method UnstageOnce(transport: Transport, agent: S.Agent, stash: Stash, uuid: string, parent: string, u: Unstage)
    returns (ok: bool)
    requires uuid != ""
    modifies agent, stash
    ensures (ok, Left(agent.devices, agent.attached, stash.files)) ==
            Do(transport, uuid, parent, old(Left(agent.devices, agent.attached, stash.files)), u)
  {
    var y := new Xpu(transport, agent, stash, uuid, parent, u.readable);
    ok := y.Disconnect(u);
  }

  /** A volume that was connected and stashed, over NVMe/TCP or NVMe, and then disconnected any number of
      times, by initiators built from the stash alone. The device goes as `RepeatedUnstage` says, and with it
      the agent is back where it was. */
  method ConnectThenUnstage(x: Xpu, h: Host, a: S.ConnectAnswers, undo: S.DisconnectAnswers, us: seq<Unstage>)
    returns (connected: bool)
    requires x.backend.volumeID != "" && !x.Finds(h)
    requires a.handle !in x.backend.agent.devices
    requires S.Attachment(a.handle, x.backend.volumeID) !in x.backend.agent.attached
    modifies x, x.backend, x.backend.agent, x.stash
    ensures connected <==> h.saved && !(x.transport.NvmePci? && h.functions.NoneFree?) && h.appears != "" &&
                           a.create && a.handle != "" && a.attach
    ensures connected ==>
              var agent := x.backend.agent;
              && (agent.devices == old(agent.devices) <==> Removes(x.transport, us))
              && (agent.attached == old(agent.attached) <==> Detaches(x.transport, us))
              && (x.parent in x.stash.files <==> !Dropped(us, |us|))
  {
    var uuid := x.backend.volumeID;
    var agent := x.backend.agent;
    ghost var s := x.Now();
    var path;
    connected, path := x.Connect(h, a, undo);
    if !connected {
      return;
    }
    ghost var f, w := x.Remembered(), x.Leaves();
    assert x.Now() == S.AfterConnect(s, a).1;
    for i := 0 to |us|
      invariant Left(agent.devices, agent.attached, x.stash.files) == After(x.transport, uuid, x.parent, w, us[..i])
    {
      var _ := UnstageOnce(x.transport, agent, x.stash, uuid, x.parent, us[i]);
      assert us[..i + 1][..i] == us[..i];
    }
    assert us[..|us|] == us;
    RepeatedUnstage(x.transport, uuid, x.parent, w, f, us);
    var attachment := S.Attachment(a.handle, uuid);
    assert w.devices == s.devices + {a.handle} && w.devices - {a.handle} == s.devices;
    assert w.attached == s.attached + {attachment} && w.attached - {attachment} == s.attached;
  }
}
