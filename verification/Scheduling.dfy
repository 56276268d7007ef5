/**
 How much space a volume asks for and which lvstore gets it, in 64-bit arithmetic that wraps around and
 division that truncates towards zero.
 */
module Scheduling {
  const MI := 1024 * 1024
  const MAX64 := 0x7FFF_FFFF_FFFF_FFFF

  predicate IsInt64(x: int) {
    -MAX64 - 1 <= x <= MAX64
  }

  function Wrap64(x: int): (r: int)
    ensures IsInt64(r) && (r - x) % (MAX64 + MAX64 + 2) == 0 && (IsInt64(x) ==> r == x)
  {
    (x + MAX64 + 1) % (MAX64 + MAX64 + 2) - MAX64 - 1
  }

  function TruncDiv(a: int, b: int): int
    requires b > 0
  {
    if a >= 0 then a / b else -(-a / b)
  }

  /** Round up bytes to mebibytes. */
  function ToMiB(bytes: int): int {
    TruncDiv(Wrap64(bytes + MI - 1), MI)
  }

  const DEFAULT_SIZE := 1024 * MI

  /** The size that CreateVolume works with, for the requested one. */
  function VolumeSize(required: int): int {
    if required == 0 then DEFAULT_SIZE else required
  }

  /** CapacityBytes of the answer. */
  function Capacity(required: int): int {
    Wrap64(ToMiB(VolumeSize(required)) * MI)
  }

  /** A volume has at least the requested capacity, and less than a mebibyte more, exactly as long as
      rounding up does not overflow. A request for nothing in particular gets 1 GiB. */
  lemma CapacityCoversRequest(required: int)
    requires 0 <= required <= MAX64
    ensures required > 0 ==> (required <= Capacity(required) < required + MI <==> required <= MAX64 - MI + 1)
    ensures required == 0 ==> Capacity(required) == 1_073_741_824
    ensures VolumeSize(required) <= Capacity(required) < VolumeSize(required) + MI <==> required <= MAX64 - MI + 1
  {
    var size := VolumeSize(required);
    if size + MI - 1 <= MAX64 {
      assert Wrap64(size + MI - 1) == size + MI - 1;
      var m := ToMiB(size);
      assert m == (size + MI - 1) / MI;
      RoundUp(size, m);
    } else {
      var w := Wrap64(size + MI - 1);
      assert w == size + MI - 1 - (MAX64 + MAX64 + 2) by {
        WrapOnce(size + MI - 1);
      }
      assert w < 0;
      assert ToMiB(size) <= 0 by {
        NotNegative(-w);
      }
      assert ToMiB(size) * MI >= w;
    }
  }

  lemma RoundUp(size: int, m: int)
    requires 0 <= size && m == (size + MI - 1) / MI
    ensures size <= m * MI < size + MI
  {
  }

  lemma WrapOnce(x: int)
    requires MAX64 < x <= MAX64 + MAX64
    ensures Wrap64(x) == x - (MAX64 + MAX64 + 2)
  {
  }

  lemma NotNegative(x: int)
    requires x >= 0
    ensures x / MI >= 0 && x / MI * MI <= x
  {
  }

  /******* Lvstores *******/

  /** An lvstore as the storage node reports it. */
  datatype Report = Report(name: string, freeClusters: int, clusterSize: int, totalClusters: int)

  datatype LvStore = LvStore(name: string, totalSizeMiB: int, freeSizeMiB: int)

  function SizeMiB(clusters: int, clusterSize: int): int {
    TruncDiv(TruncDiv(Wrap64(clusters * clusterSize), 1024), 1024)
  }

  predicate Sane(r: Report) {
    0 <= r.freeClusters && 0 <= r.clusterSize && r.freeClusters * r.clusterSize <= MAX64
  }

  /** Rounding a request up and free space down fit together: an lvstore with more free mebibytes than
      asked for has more free bytes than requested. One with just as many may not. */
  lemma MoreMiBMeansMoreBytes(r: Report, required: int)
    requires Sane(r) && 0 <= required <= MAX64 - MI + 1
    ensures var free := SizeMiB(r.freeClusters, r.clusterSize);
            && (free > ToMiB(VolumeSize(required)) <==> r.freeClusters * r.clusterSize >= Capacity(required) + MI)
            && (free > ToMiB(VolumeSize(required)) ==> r.freeClusters * r.clusterSize > VolumeSize(required))
  {
    var b := r.freeClusters * r.clusterSize;
    assert Wrap64(b) == b;
    TwoDivisions(b);
    CapacityCoversRequest(required);
    var size := VolumeSize(required);
    var m := ToMiB(size);
    assert m == (size + MI - 1) / MI;
    RoundUp(size, m);
    assert Capacity(required) == m * MI by {
      assert IsInt64(m * MI);
    }
    Floor(b, m);
  }

  lemma TwoDivisions(b: int)
    requires b >= 0
    ensures b / 1024 / 1024 == b / MI
  {
  }

  lemma Floor(b: int, m: int)
    requires b >= 0
    ensures b / MI > m <==> b >= m * MI + MI
  {
  }

  /** Fills a slice of the reports' length, one element at a time. */
  method LvStores(reports: seq<Report>) returns (lvs: array<LvStore>)
    ensures fresh(lvs) && lvs.Length == |reports|
    ensures forall i :: 0 <= i < |reports| ==>
              lvs[i] == LvStore(reports[i].name, SizeMiB(reports[i].totalClusters, reports[i].clusterSize),
                                SizeMiB(reports[i].freeClusters, reports[i].clusterSize))
  {
    lvs := new LvStore[|reports|](_ => LvStore("", 0, 0));
    var i := 0;
    while i < |reports|
      invariant 0 <= i <= |reports|
      invariant forall k :: 0 <= k < i ==>
                  lvs[k] == LvStore(reports[k].name, SizeMiB(reports[k].totalClusters, reports[k].clusterSize),
                                    SizeMiB(reports[k].freeClusters, reports[k].clusterSize))
    {
      var r := reports[i];
      lvs[i] := LvStore(r.name, SizeMiB(r.totalClusters, r.clusterSize), SizeMiB(r.freeClusters, r.clusterSize));
      i := i + 1;
    }
  }

  /******* The scheduler *******/

  predicate Fits(r: Report, sizeMiB: int) {
    SizeMiB(r.freeClusters, r.clusterSize) > sizeMiB
  }

  predicate HasRoom(reports: seq<Report>, sizeMiB: int) {
    exists i :: 0 <= i < |reports| && Fits(reports[i], sizeMiB)
  }

  /** The requested size and the reports are such that no arithmetic overflows. */
  predicate Sensible(nodes: map<string, seq<Report>>, required: int) {
    0 <= required <= MAX64 - MI + 1 && forall n <- nodes, r <- nodes[n] :: Sane(r)
  }

  predicate SomeRoom(nodes: map<string, seq<Report>>, answers: string -> bool, required: int) {
    exists n <- nodes :: answers(n) && HasRoom(nodes[n], ToMiB(VolumeSize(required)))
  }

  /** There is room exactly if an lvstore of an answering node has a mebibyte more than the capacity. */
  lemma RoomInBytes(nodes: map<string, seq<Report>>, answers: string -> bool, required: int)
    requires Sensible(nodes, required)
    ensures SomeRoom(nodes, answers, required) <==>
            exists n <- nodes, r <- nodes[n] :: answers(n) && r.freeClusters * r.clusterSize >= Capacity(required) + MI
  {
    var sizeMiB := ToMiB(VolumeSize(required));
    forall n <- nodes, r <- nodes[n]
      ensures Fits(r, sizeMiB) <==> r.freeClusters * r.clusterSize >= Capacity(required) + MI
    {
      MoreMiBMeansMoreBytes(r, required);
    }
    if n, r :| n in nodes && r in nodes[n] && answers(n) && r.freeClusters * r.clusterSize >= Capacity(required) + MI {
      var i :| 0 <= i < |nodes[n]| && nodes[n][i] == r;
      assert HasRoom(nodes[n], sizeMiB);
    } else if n :| n in nodes && answers(n) && HasRoom(nodes[n], sizeMiB) {
      var i :| 0 <= i < |nodes[n]| && Fits(nodes[n][i], sizeMiB);
      assert nodes[n][i] in nodes[n];
    }
  }

  /** `store` is the first lvstore of a node that fits. */
  predicate IsFirstFit(reports: seq<Report>, sizeMiB: int, store: string) {
    exists i :: && 0 <= i < |reports| && Fits(reports[i], sizeMiB) && reports[i].name == store
                && forall j :: 0 <= j < i ==> !Fits(reports[j], sizeMiB)
  }

  /** The simplest scheduler: the first lvstore with enough free space of the first node that has one.
      The nodes come in any order; those that do not answer are passed over. It fails exactly when no
      answering node has an lvstore with more free mebibytes than asked for. */
  method Schedule(nodes: map<string, seq<Report>>, answers: string -> bool, sizeMiB: int)
    returns (ok: bool, nodeName: string, lvstore: string)
    ensures ok ==> nodeName in nodes && answers(nodeName) && IsFirstFit(nodes[nodeName], sizeMiB, lvstore)
    ensures ok <==> exists n <- nodes :: answers(n) && HasRoom(nodes[n], sizeMiB)
  {
    var left := nodes.Keys;
    while left != {}
      invariant left <= nodes.Keys
      invariant forall n <- nodes :: n !in left && answers(n) ==> !HasRoom(nodes[n], sizeMiB)
      decreases |left|
    {
      var name :| name in left;
      left := left - {name};
      if !answers(name) {
        continue;
      }
      var lvstores := LvStores(nodes[name]);
      var i := 0;
      while i < lvstores.Length
        invariant 0 <= i <= lvstores.Length
        invariant forall j :: 0 <= j < i ==> !Fits(nodes[name][j], sizeMiB)
      {
        if lvstores[i].freeSizeMiB > sizeMiB {
          return true, name, lvstores[i].name;
        }
        i := i + 1;
      }
    }
    return false, "", "";
  }

  /** The first fit has a mebibyte more than the capacity. */
  lemma FirstFitInBytes(nodes: map<string, seq<Report>>, required: int, n: string, store: string)
    requires Sensible(nodes, required) && n in nodes && IsFirstFit(nodes[n], ToMiB(VolumeSize(required)), store)
    ensures exists r <- nodes[n] :: r.name == store && r.freeClusters * r.clusterSize >= Capacity(required) + MI
  {
    var i :| 0 <= i < |nodes[n]| && Fits(nodes[n][i], ToMiB(VolumeSize(required))) && nodes[n][i].name == store;
    var r := nodes[n][i];
    assert r in nodes[n];
    MoreMiBMeansMoreBytes(r, required);
  }

  /** What is scheduled has more free bytes than were requested. */
  method ScheduleVolume(nodes: map<string, seq<Report>>, answers: string -> bool, required: int)
    returns (ok: bool, nodeName: string, lvstore: string)
    requires 0 <= required <= MAX64 - MI + 1 && forall n <- nodes, r <- nodes[n] :: Sane(r)
    ensures ok ==> nodeName in nodes && exists r <- nodes[nodeName] ::
                     r.name == lvstore && r.freeClusters * r.clusterSize > VolumeSize(required)
    ensures !ok ==> forall n <- nodes, r <- nodes[n] ::
                      answers(n) ==> r.freeClusters * r.clusterSize < Capacity(required) + MI
  {
    ok, nodeName, lvstore := Schedule(nodes, answers, ToMiB(VolumeSize(required)));
    CapacityCoversRequest(required);
    RoomInBytes(nodes, answers, required);
    if ok {
      FirstFitInBytes(nodes, required, nodeName, lvstore);
    }
  }
}
