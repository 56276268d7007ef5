/**
 Concurrent connects and disconnects over the PCI functions of one xPU, on KVM. Each volume has one
 worker (calls on one volume are serialised by its own lock); workers interleave freely. Scanning,
 creating the endpoint and waiting for the device happen under `phyIDLock`; disconnecting does not.
 Devices appear and vanish in sysfs on their own: one may appear once its endpoint exists, and may
 vanish once its endpoint is gone.

 The backend is assumed to make an endpoint on whatever function it is asked for, also on one that has an
 endpoint of another volume already. The driver neither relies on that nor rules it out: it keeps volumes
 apart by choosing functions that show no device.
 */
module PhyIdRuns {
  import opened PciFunctions

  /** A function of the xPU serving a volume. */
  datatype Endpoint = Endpoint(pfID: nat, vol: nat)

  datatype Pc =
    | Idle
    | Locked                    // holds phyIDLock, about to scan
    | Reserved(pfID: nat)       // holds it, about to ask the backend
    | Made(pfID: nat)           // holds it, endpoint created, waiting for the device
    | Connected(pfID: nat)
    | Found                     // connected through a device that was there already
    | Removing                  // disconnecting, without the lock

  /** How a worker recognises its device: NVMe compares the volume's UUID, virtio-blk accepts any
      device at the function's address. */
  datatype Kind = Nvme | VirtioBlk

  datatype Config = Config(kind: Kind, bridges: nat, foreign: set<string>, leaks: bool)

  datatype State = State(endpoints: set<Endpoint>, visible: set<Endpoint>, lock: map<string, nat>, pcs: map<nat, Pc>)

  const PHY := "phyIDLock"

  /** Device names in sysfs: those of other hardware, and one for every visible endpoint. */
  function Sysfs(c: Config, s: State): set<string> {
    c.foreign + set e <- s.visible :: Bdf(e.pfID)
  }

  predicate Present(s: State, pfID: nat) {
    exists e <- s.visible :: e.pfID == pfID
  }

  predicate DeviceReady(c: Config, s: State, pfID: nat, vol: nat) {
    match c.kind
    case Nvme => Endpoint(pfID, vol) in s.visible
    case VirtioBlk => Present(s, pfID)
  }

  function Without(endpoints: set<Endpoint>, vol: nat): set<Endpoint> {
    set e <- endpoints | e.vol != vol
  }

  datatype Action =
    | Lock(vol: nat)
    | FindExisting(vol: nat)
    | Scan(vol: nat, pfID: nat)
    | ScanFails(vol: nat)
    | BackendConnect(vol: nat)
    | BackendFails(vol: nat, left: set<Endpoint>)
    | Ready(vol: nat)
    | TimesOut(vol: nat, answered: bool)
    | StartDisconnect(vol: nat)
    | FinishDisconnect(vol: nat, answered: bool)
    | Appear(e: Endpoint)
    | Vanish(e: Endpoint)

  predicate Holds(s: State, vol: nat) {
    PHY in s.lock && s.lock[PHY] == vol
  }

  function Unlock(s: State): State {
    s.(lock := s.lock - {PHY})
  }

  function Set(s: State, vol: nat, pc: Pc): State {
    s.(pcs := s.pcs[vol := pc])
  }

  ghost predicate Act(c: Config, s: State, a: Action, s': State) {
    match a
    case Appear(e) => e in s.endpoints && s' == s.(visible := s.visible + {e})
    case Vanish(e) => e !in s.endpoints && s' == s.(visible := s.visible - {e})
    case _ =>
      a.vol in s.pcs &&
      var v, pc := a.vol, s.pcs[a.vol];
      match a
      case Lock(_) => pc.Idle? && PHY !in s.lock && s' == Set(s.(lock := s.lock[PHY := v]), v, Locked)
      case FindExisting(_) =>
        pc.Idle? && c.kind.Nvme? && (exists e <- s.visible :: e.vol == v) && s' == Set(s, v, Found)
      case Scan(_, pfID) => pc.Locked? && IsLeastFree(Sysfs(c, s), c.bridges, pfID) && s' == Set(s, v, Reserved(pfID))
      case ScanFails(_) => pc.Locked? && s' == Set(Unlock(s), v, Idle)
      case BackendConnect(_) =>
        pc.Reserved? && s' == Set(s.(endpoints := s.endpoints + {Endpoint(pc.pfID, v)}), v, Made(pc.pfID))
      case BackendFails(_, left) =>
        // the backend undoes what it did, and perhaps what it had from before; a leak leaves the endpoint
        && pc.Reserved? && Without(s.endpoints, v) <= left <= s.endpoints + {Endpoint(pc.pfID, v)}
        && (!c.leaks ==> left <= s.endpoints)
        && s' == Set(Unlock(s.(endpoints := left)), v, Idle)
      case Ready(_) => pc.Made? && DeviceReady(c, s, pc.pfID, v) && s' == Set(Unlock(s), v, Connected(pc.pfID))
      case TimesOut(_, answered) =>
        && pc.Made? && (answered || c.leaks)
        && s' == Set(Unlock(if answered then s.(endpoints := Without(s.endpoints, v)) else s), v, Idle)
      case StartDisconnect(_) => (pc.Connected? || pc.Found?) && s' == Set(s, v, Removing)
      case FinishDisconnect(_, answered) =>
        pc.Removing? && s' == Set(if answered then s.(endpoints := Without(s.endpoints, v)) else s, v, Idle)
  }

  ghost predicate Next(c: Config, s: State, s': State) {
    exists a :: Act(c, s, a, s')
  }

  predicate Init(s: State) {
    s.endpoints == {} && s.visible == {} && s.lock == map[] && forall v <- s.pcs :: s.pcs[v] == Idle
  }

  ghost predicate IsRun(c: Config, run: seq<State>) {
    run != [] && Init(run[0]) && forall k :: 0 <= k < |run| - 1 ==> Next(c, run[k], run[k + 1])
  }

  predicate Critical(pc: Pc) {
    pc.Locked? || pc.Reserved? || pc.Made?
  }

  /** A connected volume holds the function it was given, and one connected through a device that was
      there already the functions of its endpoints. */
  predicate HoldsFunction(s: State, vol: nat, pfID: nat) {
    vol in s.pcs && (s.pcs[vol] == Connected(pfID) || (s.pcs[vol].Found? && Endpoint(pfID, vol) in s.endpoints))
  }

  /** No function is held by two volumes. */
  ghost predicate Distinct(s: State) {
    forall u, v, pfID :: HoldsFunction(s, u, pfID) && HoldsFunction(s, v, pfID) ==> u == v
  }

  /** The same for volumes connected through a device of their own making. */
  predicate NewlyDistinct(s: State) {
    forall u, v :: u in s.pcs && v in s.pcs && u != v && s.pcs[u].Connected? && s.pcs[v].Connected? ==>
      s.pcs[u].pfID != s.pcs[v].pfID
  }

  /** The device of an endpoint that nobody is waiting for has been seen; a reserved function carries
      no device of another volume. */
  ghost predicate NoLeaks(s: State) {
    && (forall e <- s.endpoints :: e in s.visible || (e.vol in s.pcs && s.pcs[e.vol] == Made(e.pfID)))
    && (forall v <- s.pcs, e <- s.visible ::
          (s.pcs[v].Reserved? || s.pcs[v].Made?) && e.pfID == s.pcs[v].pfID ==> e.vol == v)
  }

  /** Endpoints on one function belong to one volume. */
  predicate OneOwner(s: State) {
    forall e <- s.endpoints, f <- s.endpoints :: e.pfID == f.pfID ==> e.vol == f.vol
  }

  ghost predicate LockInv(s: State) {
    && (forall v <- s.pcs :: Critical(s.pcs[v]) ==> Holds(s, v))
    && (forall v <- s.pcs :: s.pcs[v].Made? ==> Endpoint(s.pcs[v].pfID, v) in s.endpoints)
  }

  /** A connected volume has a visible device, and its function to itself. */
  ghost predicate FunctionInv(s: State) {
    && (forall v <- s.pcs :: s.pcs[v].Connected? ==> Endpoint(s.pcs[v].pfID, v) in s.endpoints * s.visible)
    && (forall u <- s.pcs, v <- s.pcs ::
          u != v && s.pcs[u].Connected? && (s.pcs[v].Reserved? || s.pcs[v].Made? || s.pcs[v].Connected?) ==>
            s.pcs[u].pfID != s.pcs[v].pfID)
  }

  ghost predicate Inv(c: Config, s: State) {
    LockInv(s) && FunctionInv(s) && (c.leaks || (NoLeaks(s) && OneOwner(s)))
  }

  lemma VisibleIsOccupied(c: Config, s: State, e: Endpoint)
    requires e in s.visible
    ensures Occupied(Sysfs(c, s), e.pfID)
  {
    assert Bdf(e.pfID) in Sysfs(c, s);
  }

  lemma ActKeepsLocks(c: Config, s: State, a: Action, s': State)
    requires LockInv(s) && Act(c, s, a, s')
    ensures LockInv(s')
  {
  }

  lemma ScanFindsUnused(c: Config, s: State, s': State, vol: nat, pfID: nat)
    requires Act(c, s, Scan(vol, pfID), s')
    ensures forall e <- s.visible :: e.pfID != pfID
  {
    forall e <- s.visible ensures e.pfID != pfID { VisibleIsOccupied(c, s, e); }
  }

  lemma ActKeepsFunctions(c: Config, s: State, a: Action, s': State)
    requires LockInv(s) && FunctionInv(s) && Act(c, s, a, s')
    requires a.Ready? ==> Endpoint(s'.pcs[a.vol].pfID, a.vol) in s.visible
    ensures FunctionInv(s')
  {
    if a.Scan? { ScanFindsUnused(c, s, s', a.vol, a.pfID); }
  }

  lemma ActKeepsNoLeaks(c: Config, s: State, a: Action, s': State)
    requires LockInv(s) && NoLeaks(s) && Act(c, s, a, s') && !c.leaks
    ensures NoLeaks(s')
    ensures a.Ready? ==> Endpoint(s'.pcs[a.vol].pfID, a.vol) in s.visible
  {
    if a.Scan? { ScanFindsUnused(c, s, s', a.vol, a.pfID); }
  }

  lemma ActKeepsOneOwner(c: Config, s: State, a: Action, s': State)
    requires LockInv(s) && NoLeaks(s) && OneOwner(s) && Act(c, s, a, s') && !c.leaks
    ensures OneOwner(s')
  {
  }

  lemma {:induction false} RunKeepsInv(c: Config, run: seq<State>, k: nat)
    requires IsRun(c, run) && k < |run|
    requires c.kind.Nvme? || !c.leaks
    ensures Inv(c, run[k])
  {
    if k > 0 {
      RunKeepsInv(c, run, k - 1);
      assert Next(c, run[k - 1], run[k - 1 + 1]);
      var a :| Act(c, run[k - 1], a, run[k]);
      ActKeepsLocks(c, run[k - 1], a, run[k]);
      if !c.leaks {
        ActKeepsNoLeaks(c, run[k - 1], a, run[k]);
        ActKeepsOneOwner(c, run[k - 1], a, run[k]);
      }
      ActKeepsFunctions(c, run[k - 1], a, run[k]);
    }
  }

  /** Two volumes connected at the same time never hold the same physical function, in every run of
      concurrent connects, failures and disconnects in which no failed connect leaves its endpoint behind. */
  lemma FunctionsStayDistinct(c: Config, run: seq<State>, k: nat)
    requires IsRun(c, run) && k < |run| && !c.leaks
    ensures Distinct(run[k])
  {
    RunKeepsInv(c, run, k);
  }

  /** NVMe workers that wait for their own device keep out of each other's way even so. */
  lemma NvmeStaysNewlyDistinct(c: Config, run: seq<State>, k: nat)
    requires IsRun(c, run) && k < |run| && c.kind.Nvme?
    ensures NewlyDistinct(run[k])
  {
    RunKeepsInv(c, run, k);
  }

  /******* Leaks *******/

  /** Functions that no other hardware occupies. */
  predicate Usable(c: Config, pfID: nat) {
    pfID < SLOTS * c.bridges && !Occupied(c.foreign, pfID)
  }

  /** A slot is occupied exactly when other hardware or a visible endpoint is on it. */
  lemma OccupiedByVisible(c: Config, s: State, pfID: nat)
    ensures Occupied(Sysfs(c, s), pfID) <==> Occupied(c.foreign, pfID) || Present(s, pfID)
  {
    if e :| e in s.visible && e.pfID == pfID {
      VisibleIsOccupied(c, s, e);
    }
    if d :| d in Sysfs(c, s) && SlotPrefix(pfID / SLOTS + 1, pfID % SLOTS) <= d {
      if d !in c.foreign {
        var e :| e in s.visible && d == Bdf(e.pfID);
        OneFunctionPerDevice(e.pfID, pfID, d);
      }
    }
  }

  /** The scan returns `pfID` when no other usable function below it is free of devices. */
  lemma ScanReturns(c: Config, s: State, pfID: nat)
    requires Usable(c, pfID) && !Present(s, pfID)
    requires forall q: nat | q < pfID && Usable(c, q) :: Present(s, q)
    ensures IsLeastFree(Sysfs(c, s), c.bridges, pfID)
  {
    OccupiedByVisible(c, s, pfID);
    forall q: nat | q < pfID ensures Occupied(Sysfs(c, s), q) {
      OccupiedByVisible(c, s, q);
    }
  }

  lemma ScanIsUsable(c: Config, s: State, pfID: nat)
    requires IsLeastFree(Sysfs(c, s), c.bridges, pfID)
    ensures Usable(c, pfID) && !Present(s, pfID)
  {
    OccupiedByVisible(c, s, pfID);
  }

  /******* Leaks with a single function *******/

  ghost predicate AtMostOneUsable(c: Config) {
    forall p: nat, q: nat :: Usable(c, p) && Usable(c, q) ==> p == q
  }

  predicate InUse(pc: Pc) {
    pc.Connected? || pc.Found? || pc.Removing?
  }

  /** While a worker is between its scan and its answer nobody is connected, and what is visible has its
      endpoint; while one is connected it is the only one, and a device shows. */
  ghost predicate SingleInv(c: Config, s: State) {
    && LockInv(s)
    && (forall e <- s.endpoints + s.visible :: Usable(c, e.pfID))
    && (forall v <- s.pcs :: s.pcs[v].Reserved? || s.pcs[v].Made? ==>
         Usable(c, s.pcs[v].pfID) && s.visible <= s.endpoints)
    && (forall u <- s.pcs, v <- s.pcs ::
         InUse(s.pcs[u]) && (InUse(s.pcs[v]) || s.pcs[v].Reserved? || s.pcs[v].Made?) ==> u == v)
    && (forall v <- s.pcs :: InUse(s.pcs[v]) ==> s.endpoints * s.visible != {})
  }

  lemma SingleScan(c: Config, s: State, pfID: nat)
    requires SingleInv(c, s) && AtMostOneUsable(c) && IsLeastFree(Sysfs(c, s), c.bridges, pfID)
    ensures Usable(c, pfID) && s.visible == {}
  {
    ScanIsUsable(c, s, pfID);
    assert forall e <- s.visible :: e in s.endpoints + s.visible && e.pfID != pfID && Usable(c, e.pfID);
  }

  lemma EnvironmentKeepsSingle(c: Config, s: State, a: Action, s': State)
    requires SingleInv(c, s) && Act(c, s, a, s') && (a.Appear? || a.Vanish?)
    ensures SingleInv(c, s')
  {
    if a.Vanish? {
      assert s'.endpoints * s'.visible == s.endpoints * s.visible;
    }
  }

  lemma ScanKeepsSingle(c: Config, s: State, a: Action, s': State)
    requires SingleInv(c, s) && AtMostOneUsable(c) && Act(c, s, a, s') && a.Scan?
    ensures SingleInv(c, s')
  {
    SingleScan(c, s, a.pfID);
  }

  lemma ReadyKeepsSingle(c: Config, s: State, a: Action, s': State)
    requires SingleInv(c, s) && c.kind.VirtioBlk? && Act(c, s, a, s') && a.Ready?
    ensures SingleInv(c, s')
  {
    var e :| e in s.visible && e.pfID == s.pcs[a.vol].pfID;
    assert e in s'.endpoints * s'.visible;
  }

  predicate Ends(a: Action) {
    a.BackendFails? || a.TimesOut? || a.FinishDisconnect?
  }

  lemma EndKeepsSingle(c: Config, s: State, a: Action, s': State)
    requires SingleInv(c, s) && c.kind.VirtioBlk? && Act(c, s, a, s') && Ends(a)
    ensures SingleInv(c, s')
  {
  }

  lemma MakingKeepsSingle(c: Config, s: State, a: Action, s': State)
    requires SingleInv(c, s) && Act(c, s, a, s') && a.BackendConnect?
    ensures SingleInv(c, s')
  {
  }

  lemma MovingKeepsSingle(c: Config, s: State, a: Action, s': State)
    requires SingleInv(c, s) && c.kind.VirtioBlk? && Act(c, s, a, s')
    requires a.Lock? || a.FindExisting? || a.ScanFails? || a.StartDisconnect?
    ensures SingleInv(c, s')
  {
  }

  lemma {:induction false} RunKeepsSingle(c: Config, run: seq<State>, k: nat)
    requires IsRun(c, run) && k < |run| && AtMostOneUsable(c) && c.kind.VirtioBlk?
    ensures SingleInv(c, run[k])
  {
    if k > 0 {
      RunKeepsSingle(c, run, k - 1);
      assert Next(c, run[k - 1], run[k - 1 + 1]);
      var a :| Act(c, run[k - 1], a, run[k]);
      if a.Appear? || a.Vanish? { EnvironmentKeepsSingle(c, run[k - 1], a, run[k]); }
      else if a.Scan? { ScanKeepsSingle(c, run[k - 1], a, run[k]); }
      else if a.Ready? { ReadyKeepsSingle(c, run[k - 1], a, run[k]); }
      else if Ends(a) { EndKeepsSingle(c, run[k - 1], a, run[k]); }
      else if a.BackendConnect? { MakingKeepsSingle(c, run[k - 1], a, run[k]); }
      else { MovingKeepsSingle(c, run[k - 1], a, run[k]); }
    }
  }

  /** Without a usable function nobody ever gets anywhere. */
  lemma {:induction false} NothingWithoutFunctions(c: Config, run: seq<State>, k: nat)
    requires IsRun(c, run) && k < |run| && forall p: nat :: !Usable(c, p)
    ensures var s := run[k]; s.endpoints == {} && s.visible == {}
    ensures forall v <- run[k].pcs :: run[k].pcs[v].Idle? || run[k].pcs[v].Locked?
  {
    if k > 0 {
      NothingWithoutFunctions(c, run, k - 1);
      assert Next(c, run[k - 1], run[k - 1 + 1]);
      var a :| Act(c, run[k - 1], a, run[k]);
      if a.Scan? {
        ScanIsUsable(c, run[k - 1], a.pfID);
      }
    }
  }

  /******* Leaks with room for them *******/

  function TwoVolumes(endpoints: set<Endpoint>, visible: set<Endpoint>, lock: map<string, nat>, pc1: Pc, pc2: Pc)
    : State
  {
    State(endpoints, visible, lock, map[1 := pc1, 2 := pc2])
  }

  const HELD1: map<string, nat> := map[PHY := 1]
  const HELD2: map<string, nat> := map[PHY := 2]

  /** A failed connect of volume 1 whose rollback is not answered leaves its endpoint on function `p`, and
      volume 2, which sees no device there yet, asks for the same. */
  function Leaking(p: nat, k: nat): State {
    var e1, e2 := Endpoint(p, 1), Endpoint(p, 2);
    match k
    case 0 => TwoVolumes({}, {}, map[], Idle, Idle)
    case 1 => TwoVolumes({}, {}, HELD1, Locked, Idle)
    case 2 => TwoVolumes({}, {}, HELD1, Reserved(p), Idle)
    case 3 => TwoVolumes({e1}, {}, HELD1, Made(p), Idle)
    case 4 => TwoVolumes({e1}, {}, map[], Idle, Idle)
    case 5 => TwoVolumes({e1}, {}, HELD2, Idle, Locked)
    case 6 => TwoVolumes({e1}, {}, HELD2, Idle, Reserved(p))
    case _ => TwoVolumes({e1, e2}, {}, HELD2, Idle, Made(p))
  }

  /** NVMe: each waits for its own device, but volume 1 finds its device when it looks again. */
  function LeakingNvme(p: nat, k: nat): State {
    var e1, e2 := Endpoint(p, 1), Endpoint(p, 2);
    match k
    case 0 => Leaking(p, 7)
    case 1 => TwoVolumes({e1, e2}, {e2}, HELD2, Idle, Made(p))
    case 2 => TwoVolumes({e1, e2}, {e2}, map[], Idle, Connected(p))
    case 3 => TwoVolumes({e1, e2}, {e1, e2}, map[], Idle, Connected(p))
    case _ => TwoVolumes({e1, e2}, {e1, e2}, map[], Found, Connected(p))
  }

  /** Virtio-blk: volume 2 takes the leaked device for its own; a second connect of volume 1, on the next
      function `q`, times out and its disconnect removes the leak; the third finds `p` free again. */
  function LeakingVirtio(p: nat, q: nat, k: nat): State {
    var e1, e2 := Endpoint(p, 1), Endpoint(p, 2);
    match k
    case 0 => Leaking(p, 7)
    case 1 => TwoVolumes({e1, e2}, {e1}, HELD2, Idle, Made(p))
    case 2 => TwoVolumes({e1, e2}, {e1}, map[], Idle, Connected(p))
    case 3 => TwoVolumes({e1, e2}, {e1}, HELD1, Locked, Connected(p))
    case 4 => TwoVolumes({e1, e2}, {e1}, HELD1, Reserved(q), Connected(p))
    case 5 => TwoVolumes({e1, e2, Endpoint(q, 1)}, {e1}, HELD1, Made(q), Connected(p))
    case 6 => TwoVolumes({e2}, {e1}, map[], Idle, Connected(p))
    case 7 => TwoVolumes({e2}, {}, map[], Idle, Connected(p))
    case 8 => TwoVolumes({e2}, {}, HELD1, Locked, Connected(p))
    case 9 => TwoVolumes({e2}, {}, HELD1, Reserved(p), Connected(p))
    case 10 => TwoVolumes({e1, e2}, {}, HELD1, Made(p), Connected(p))
    case 11 => TwoVolumes({e1, e2}, {e1}, HELD1, Made(p), Connected(p))
    case _ => TwoVolumes({e1, e2}, {e1}, map[], Connected(p), Connected(p))
  }

  /** `p` is the first usable function. */
  predicate IsFirst(c: Config, p: nat) {
    Usable(c, p) && forall r: nat | r < p :: !Usable(c, r)
  }

  /** And `q` is the next. */
  predicate IsSecond(c: Config, p: nat, q: nat) {
    p < q && Usable(c, q) && forall r: nat | p < r < q :: !Usable(c, r)
  }

  lemma Least(good: nat -> bool, from: nat, p: nat) returns (q: nat)
    requires from <= p && good(p)
    ensures from <= q <= p && good(q) && forall r: nat | from <= r < q :: !good(r)
    decreases p - from
  {
    if good(from) {
      q := from;
    } else {
      q := Least(good, from + 1, p);
    }
  }

  lemma FirstUsable(c: Config, from: nat, p: nat) returns (q: nat)
    requires from <= p && Usable(c, p)
    ensures from <= q <= p && Usable(c, q) && forall r: nat | from <= r < q :: !Usable(c, r)
  {
    var good := (r: nat) => Usable(c, r);
    q := Least(good, from, p);
    forall r: nat | from <= r < q ensures !Usable(c, r) {
      assert !good(r);
    }
  }

  lemma LeakingSteps1(c: Config, p: nat, k: nat)
    requires c.leaks && IsFirst(c, p) && k < 4
    ensures Next(c, Leaking(p, k), Leaking(p, k + 1))
  {
    var s, s' := Leaking(p, k), Leaking(p, k + 1);
    match k
    case 0 => assert Act(c, s, Lock(1), s');
    case 1 => ScanReturns(c, s, p); assert Act(c, s, Scan(1, p), s');
    case 2 => assert Act(c, s, BackendConnect(1), s');
    case 3 => assert Act(c, s, TimesOut(1, false), s');
  }

  lemma LeakingSteps2(c: Config, p: nat, k: nat)
    requires c.leaks && IsFirst(c, p) && 4 <= k < 7
    ensures Next(c, Leaking(p, k), Leaking(p, k + 1))
  {
    var s, s' := Leaking(p, k), Leaking(p, k + 1);
    match k
    case 4 => assert Act(c, s, Lock(2), s');
    case 5 => ScanReturns(c, s, p); assert Act(c, s, Scan(2, p), s');
    case 6 => assert Act(c, s, BackendConnect(2), s');
  }

  lemma NvmeSteps(c: Config, p: nat, k: nat)
    requires c.kind.Nvme? && k < 4
    ensures Next(c, LeakingNvme(p, k), LeakingNvme(p, k + 1))
  {
    var s, s' := LeakingNvme(p, k), LeakingNvme(p, k + 1);
    match k
    case 0 => assert Act(c, s, Appear(Endpoint(p, 2)), s');
    case 1 => assert Act(c, s, Ready(2), s');
    case 2 => assert Act(c, s, Appear(Endpoint(p, 1)), s');
    case 3 => assert Endpoint(p, 1) in s.visible; assert Act(c, s, FindExisting(1), s');
  }

  lemma VirtioSteps1(c: Config, p: nat, q: nat, k: nat)
    requires c.kind.VirtioBlk? && c.leaks && IsFirst(c, p) && IsSecond(c, p, q) && k < 3
    ensures Next(c, LeakingVirtio(p, q, k), LeakingVirtio(p, q, k + 1))
  {
    var s, s' := LeakingVirtio(p, q, k), LeakingVirtio(p, q, k + 1);
    match k
    case 0 => assert Act(c, s, Appear(Endpoint(p, 1)), s');
    case 1 => assert Endpoint(p, 1) in s.visible; assert Act(c, s, Ready(2), s');
    case 2 => assert Act(c, s, Lock(1), s');
  }

  lemma VirtioSteps2(c: Config, p: nat, q: nat, k: nat)
    requires c.kind.VirtioBlk? && c.leaks && IsFirst(c, p) && IsSecond(c, p, q) && 3 <= k < 6
    ensures Next(c, LeakingVirtio(p, q, k), LeakingVirtio(p, q, k + 1))
  {
    var s, s' := LeakingVirtio(p, q, k), LeakingVirtio(p, q, k + 1);
    match k
    case 3 => assert Endpoint(p, 1) in s.visible; ScanReturns(c, s, q); assert Act(c, s, Scan(1, q), s');
    case 4 => assert Act(c, s, BackendConnect(1), s');
    case 5 => VirtioGivesUp(p, q); assert Act(c, s, TimesOut(1, true), s');
  }

  lemma VirtioGivesUp(p: nat, q: nat)
    requires p != q
    ensures Without(LeakingVirtio(p, q, 5).endpoints, 1) == LeakingVirtio(p, q, 6).endpoints
  {
    assert Endpoint(p, 1).vol == 1 && Endpoint(q, 1).vol == 1 && Endpoint(p, 2).vol == 2;
  }

  lemma VirtioSteps3(c: Config, p: nat, q: nat, k: nat)
    requires c.kind.VirtioBlk? && c.leaks && IsFirst(c, p) && IsSecond(c, p, q) && 6 <= k < 9
    ensures Next(c, LeakingVirtio(p, q, k), LeakingVirtio(p, q, k + 1))
  {
    var s, s' := LeakingVirtio(p, q, k), LeakingVirtio(p, q, k + 1);
    match k
    case 6 => assert Act(c, s, Vanish(Endpoint(p, 1)), s');
    case 7 => assert Act(c, s, Lock(1), s');
    case 8 => ScanReturns(c, s, p); assert Act(c, s, Scan(1, p), s');
  }

  lemma VirtioSteps4(c: Config, p: nat, q: nat, k: nat)
    requires c.kind.VirtioBlk? && c.leaks && IsFirst(c, p) && IsSecond(c, p, q) && 9 <= k < 12
    ensures Next(c, LeakingVirtio(p, q, k), LeakingVirtio(p, q, k + 1))
  {
    var s, s' := LeakingVirtio(p, q, k), LeakingVirtio(p, q, k + 1);
    match k
    case 9 => assert Act(c, s, BackendConnect(1), s');
    case 10 => assert Act(c, s, Appear(Endpoint(p, 1)), s');
    case 11 => assert Endpoint(p, 1) in s.visible; assert Act(c, s, Ready(1), s');
  }

  lemma LeakedNvmeIsShared(c: Config, p: nat) returns (run: seq<State>)
    requires c.kind.Nvme? && c.leaks && IsFirst(c, p)
    ensures IsRun(c, run) && !Distinct(run[|run| - 1])
  {
    run := seq(12, k requires k >= 0 => if k < 7 then Leaking(p, k) else LeakingNvme(p, k - 7));
    forall k | 0 <= k < |run| - 1 ensures Next(c, run[k], run[k + 1]) {
      if k < 4 { LeakingSteps1(c, p, k); } else if k < 7 { LeakingSteps2(c, p, k); } else { NvmeSteps(c, p, k - 7); }
    }
    assert run[11] == LeakingNvme(p, 4) && 1 in run[11].pcs && 2 in run[11].pcs;
    assert HoldsFunction(run[11], 1, p) && HoldsFunction(run[11], 2, p);
  }

  lemma LeakedVirtioIsShared(c: Config, p: nat, q: nat) returns (run: seq<State>)
    requires c.kind.VirtioBlk? && c.leaks && IsFirst(c, p) && IsSecond(c, p, q)
    ensures IsRun(c, run) && !Distinct(run[|run| - 1])
  {
    run := seq(20, k requires k >= 0 => if k < 7 then Leaking(p, k) else LeakingVirtio(p, q, k - 7));
    forall k | 0 <= k < |run| - 1 ensures Next(c, run[k], run[k + 1]) {
      if k < 4 { LeakingSteps1(c, p, k); } else if k < 7 { LeakingSteps2(c, p, k); }
      else if k < 10 { VirtioSteps1(c, p, q, k - 7); } else if k < 13 { VirtioSteps2(c, p, q, k - 7); }
      else if k < 16 { VirtioSteps3(c, p, q, k - 7); } else { VirtioSteps4(c, p, q, k - 7); }
    }
    assert run[19] == LeakingVirtio(p, q, 12) && 1 in run[19].pcs && 2 in run[19].pcs;
    assert HoldsFunction(run[19], 1, p) && HoldsFunction(run[19], 2, p);
  }

  /******* The lock and the functions come free again *******/

  /** Whoever has the lock is scanning, creating or waiting. */
  predicate HolderInv(s: State) {
    PHY in s.lock ==> s.lock[PHY] in s.pcs && Critical(s.pcs[s.lock[PHY]])
  }

  lemma {:induction false} RunKeepsHolder(c: Config, run: seq<State>, k: nat)
    requires IsRun(c, run) && k < |run|
    ensures LockInv(run[k]) && HolderInv(run[k])
  {
    if k > 0 {
      RunKeepsHolder(c, run, k - 1);
      assert Next(c, run[k - 1], run[k - 1 + 1]);
      var a :| Act(c, run[k - 1], a, run[k]);
      ActKeepsLocks(c, run[k - 1], a, run[k]);
      ActKeepsHolder(c, run[k - 1], a, run[k]);
    }
  }

  lemma ActKeepsHolder(c: Config, s: State, a: Action, s': State)
    requires LockInv(s) && HolderInv(s) && Act(c, s, a, s')
    ensures HolderInv(s')
  {
  }

  /** At no point of a run does phyIDLock depend on anyone but its holder, who can give it up in one step,
      leaks or not: there is always an answer that ends what it is doing. */
  lemma LockIsReleased(c: Config, run: seq<State>, k: nat) returns (a: Action, s': State)
    requires IsRun(c, run) && k < |run| && PHY in run[k].lock
    ensures Act(c, run[k], a, s') && PHY !in s'.lock && s'.endpoints <= run[k].endpoints
  {
    RunKeepsHolder(c, run, k);
    var s := run[k];
    var v := s.lock[PHY];
    match s.pcs[v]
    case Locked =>
      a, s' := ScanFails(v), Set(Unlock(s), v, Idle);
    case Reserved(pfID) =>
      a, s' := BackendFails(v, s.endpoints), Set(Unlock(s.(endpoints := s.endpoints)), v, Idle);
    case Made(pfID) =>
      a, s' := TimesOut(v, true), Set(Unlock(s.(endpoints := Without(s.endpoints, v))), v, Idle);
  }

  /** What may go wrong: the backend's connect may fail, leaving its endpoint if there are leaks; so may the
      disconnect of a device that does not show up; and a disconnect that fails keeps the endpoint. */
  lemma FailuresHappen(c: Config, s: State, v: nat)
    requires v in s.pcs
    ensures s.pcs[v].Reserved? ==> Next(c, s, Set(Unlock(s), v, Idle))
    ensures s.pcs[v].Reserved? && c.leaks ==>
              Next(c, s, Set(Unlock(s.(endpoints := s.endpoints + {Endpoint(s.pcs[v].pfID, v)})), v, Idle))
    ensures s.pcs[v].Made? && c.leaks ==> Next(c, s, Set(Unlock(s), v, Idle))
    ensures s.pcs[v].Removing? ==> Next(c, s, Set(s, v, Idle))
  {
    if s.pcs[v].Reserved? {
      assert s.(endpoints := s.endpoints) == s;
      assert Act(c, s, BackendFails(v, s.endpoints), Set(Unlock(s), v, Idle));
      if c.leaks {
        var left := s.endpoints + {Endpoint(s.pcs[v].pfID, v)};
        assert Act(c, s, BackendFails(v, left), Set(Unlock(s.(endpoints := left)), v, Idle));
      }
    } else if s.pcs[v].Made? && c.leaks {
      assert Act(c, s, TimesOut(v, false), Set(Unlock(s), v, Idle));
    } else if s.pcs[v].Removing? {
      assert Act(c, s, FinishDisconnect(v, false), Set(s, v, Idle));
    }
  }

  predicate SeesItsDevice(c: Config, s: State, v: nat) {
    v in s.pcs && s.pcs[v].Idle? && c.kind.Nvme? && exists e <- s.visible :: e.vol == v
  }

  /** A volume counts as connected without a connect only where its own NVMe device was to be seen. */
  lemma {:induction false} FoundWasItsOwn(c: Config, run: seq<State>, k: nat, v: nat)
    requires IsRun(c, run) && k < |run| && v in run[k].pcs && run[k].pcs[v].Found?
    ensures exists j: nat :: j < k && SeesItsDevice(c, run[j], v)
  {
    if k > 0 {
      assert Next(c, run[k - 1], run[k - 1 + 1]);
      var a :| Act(c, run[k - 1], a, run[k]);
      if run[k - 1].pcs[v].Found? {
        FoundWasItsOwn(c, run, k - 1, v);
      } else {
        assert SeesItsDevice(c, run[k - 1], v);
      }
    }
  }

  function OneVolume(endpoints: set<Endpoint>, visible: set<Endpoint>, lock: map<string, nat>, pc: Pc): State {
    State(endpoints, visible, lock, map[1 := pc])
  }

  function ThereAndBack(p: nat, k: nat): State {
    var e := Endpoint(p, 1);
    match k
    case 0 => OneVolume({}, {}, map[], Idle)
    case 1 => OneVolume({}, {}, HELD1, Locked)
    case 2 => OneVolume({}, {}, HELD1, Reserved(p))
    case 3 => OneVolume({e}, {}, HELD1, Made(p))
    case 4 => OneVolume({e}, {e}, HELD1, Made(p))
    case 5 => OneVolume({e}, {e}, map[], Connected(p))
    case 6 => OneVolume({e}, {e}, map[], Removing)
    case 7 => OneVolume({}, {e}, map[], Idle)
    case _ => OneVolume({}, {}, map[], Idle)
  }

  /** Without failures a volume is connected on the first usable function, and disconnecting it leads back
      to where it began: the function is free again. */
  lemma ConnectsAndDisconnects(c: Config, p: nat) returns (run: seq<State>)
    requires IsFirst(c, p)
    ensures IsRun(c, run) && |run| == 9 && run[8] == run[0]
    ensures 1 in run[5].pcs && run[5].pcs[1] == Connected(p) && HoldsFunction(run[5], 1, p)
  {
    run := seq(9, k requires k >= 0 => ThereAndBack(p, k));
    forall k | 0 <= k < |run| - 1 ensures Next(c, run[k], run[k + 1]) {
      if k < 4 { ThereSteps(c, p, k); } else { BackSteps(c, p, k); }
    }
  }

  lemma ThereSteps(c: Config, p: nat, k: nat)
    requires IsFirst(c, p) && k < 4
    ensures Next(c, ThereAndBack(p, k), ThereAndBack(p, k + 1))
  {
    var s, s' := ThereAndBack(p, k), ThereAndBack(p, k + 1);
    match k
    case 0 => assert Act(c, s, Lock(1), s');
    case 1 => ScanReturns(c, s, p); assert Act(c, s, Scan(1, p), s');
    case 2 => assert Act(c, s, BackendConnect(1), s');
    case 3 => assert Act(c, s, Appear(Endpoint(p, 1)), s');
  }

  lemma BackSteps(c: Config, p: nat, k: nat)
    requires 4 <= k < 8
    ensures Next(c, ThereAndBack(p, k), ThereAndBack(p, k + 1))
  {
    var s, s' := ThereAndBack(p, k), ThereAndBack(p, k + 1);
    match k
    case 4 => assert Endpoint(p, 1) in s.visible; assert Act(c, s, Ready(1), s');
    case 5 => assert Act(c, s, StartDisconnect(1), s');
    case 6 => assert Without(s.endpoints, 1) == {}; assert Act(c, s, FinishDisconnect(1, true), s');
    case 7 => assert Act(c, s, Vanish(Endpoint(p, 1)), s');
  }

  /******* Exactly when *******/

  ghost predicate AlwaysDistinct(c: Config) {
    forall run: seq<State>, k: nat :: IsRun(c, run) && k < |run| ==> Distinct(run[k])
  }

  /** Room for a leak to do harm: one usable function for NVMe, two for virtio-blk. */
  ghost predicate HasRoom(c: Config) {
    match c.kind
    case Nvme => exists p: nat :: Usable(c, p)
    case VirtioBlk => exists p: nat, q: nat :: Usable(c, p) && Usable(c, q) && p < q
  }

  /** In all runs no two volumes hold one function, exactly when no failed connect can leave an endpoint
      behind or there is no room for one. */
  lemma DistinctExactlyWithoutLeaks(c: Config)
    ensures AlwaysDistinct(c) <==> !c.leaks || !HasRoom(c)
  {
    if !c.leaks || !HasRoom(c) {
      forall run: seq<State>, k: nat | IsRun(c, run) && k < |run| ensures Distinct(run[k]) {
        NoRoomIsDistinct(c, run, k);
      }
    } else {
      RoomIsShared(c);
    }
  }

  lemma NoRoomIsDistinct(c: Config, run: seq<State>, k: nat)
    requires IsRun(c, run) && k < |run| && (!c.leaks || !HasRoom(c))
    ensures Distinct(run[k])
  {
    if !c.leaks {
      FunctionsStayDistinct(c, run, k);
    } else if c.kind.Nvme? {
      NothingWithoutFunctions(c, run, k);
    } else {
      RunKeepsSingle(c, run, k);
    }
  }

  lemma RoomIsShared(c: Config)
    requires c.leaks && HasRoom(c)
    ensures !AlwaysDistinct(c)
  {
    var any: nat :| Usable(c, any);
    var p := FirstUsable(c, 0, any);
    var run;
    if c.kind.Nvme? {
      run := LeakedNvmeIsShared(c, p);
    } else {
      var a: nat, b: nat :| Usable(c, a) && Usable(c, b) && a < b;
      var q := FirstUsable(c, p + 1, b);
      run := LeakedVirtioIsShared(c, p, q);
    }
    assert !Distinct(run[|run| - 1]);
  }

  /** In particular, on a machine without other hardware leaks do harm exactly if there is a bridge. */
  lemma LeaksAloneDoHarm(c: Config)
    requires c.foreign == {}
    ensures AlwaysDistinct(c) <==> !c.leaks || c.bridges == 0
  {
    DistinctExactlyWithoutLeaks(c);
    if c.bridges > 0 {
      assert Usable(c, 0) && Usable(c, 1);
    }
  }
}
