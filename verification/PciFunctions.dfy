/**
 The PCI function allocator for KVM: slots on the PCI bridges, the names their devices have in sysfs,
 and the scan for the first slot without a device.
 */
module PciFunctions {
  import opened Text

  const SLOTS := 32

  /** What every device on slot `v` of bridge `p` begins with in /sys/bus/pci/devices. */
  function SlotPrefix(p: nat, v: nat): string {
    "0000:" + Hex2(p) + ":" + Hex2(v) + "."
  }

  function SlotBdf(p: nat, v: nat): string {
    SlotPrefix(p, v) + "0"
  }

  /** The address of the virtual function a physical function ID stands for. */
  function Bdf(pfID: nat): string {
    SlotBdf(pfID / SLOTS + 1, pfID % SLOTS)
  }

  /** The glob for the slot's devices matches something. */
  predicate SlotOccupied(devices: set<string>, p: nat, v: nat) {
    exists d <- devices :: SlotPrefix(p, v) <= d
  }

  predicate Occupied(devices: set<string>, pfID: nat) {
    SlotOccupied(devices, pfID / SLOTS + 1, pfID % SLOTS)
  }

  predicate IsLeastFree(devices: set<string>, bridges: nat, pfID: nat) {
    && pfID < SLOTS * bridges && !Occupied(devices, pfID)
    && forall q: nat | q < pfID :: Occupied(devices, q)
  }

  /** A device sits on one slot only. */
  lemma OneSlotPerDevice(p: nat, v: nat, p': nat, v': nat, d: string)
    requires SlotPrefix(p, v) <= d && SlotPrefix(p', v') <= d
    ensures p == p' && v == v'
  {
    SameBus(p, v, p', v', d);
    var tail := d[5 + |Hex2(p)| + 1..];
    SlotTail(p, v, d);
    SlotTail(p, v', d);
    WordIsDetermined(Hex2(v), Hex2(v'), tail, '.');
    Hex2IsInjective(v, v');
  }

  lemma SameBus(p: nat, v: nat, p': nat, v': nat, d: string)
    requires SlotPrefix(p, v) <= d && SlotPrefix(p', v') <= d
    ensures p == p'
  {
    SlotHead(p, v, d);
    SlotHead(p', v', d);
    WordIsDetermined(Hex2(p), Hex2(p'), d[5..], ':');
    Hex2IsInjective(p, p');
  }

  lemma SlotHead(p: nat, v: nat, d: string)
    requires SlotPrefix(p, v) <= d
    ensures |d| >= 5 && Hex2(p) + [':'] <= d[5..]
  {
  }

  lemma SlotTail(p: nat, v: nat, d: string)
    requires SlotPrefix(p, v) <= d
    ensures |d| >= 5 + |Hex2(p)| + 1 && Hex2(v) + ['.'] <= d[5 + |Hex2(p)| + 1..]
  {
  }

  /** A device sits on the slot of one physical function only; in particular its address determines
      the physical function ID. */
  lemma OneFunctionPerDevice(a: nat, b: nat, d: string)
    requires SlotPrefix(a / SLOTS + 1, a % SLOTS) <= d && SlotPrefix(b / SLOTS + 1, b % SLOTS) <= d
    ensures a == b
  {
    OneSlotPerDevice(a / SLOTS + 1, a % SLOTS, b / SLOTS + 1, b % SLOTS, d);
  }

  /******* Addresses by their value *******/

  /** Where a PCI device is. */
  datatype PciAddress = PciAddress(domain: int, bus: int, slot: int, fn: int)

  /** What a name in /sys/bus/pci/devices means: a domain of four hexadecimal digits, a bus and a slot of
      two, and a function from 0 to 7. Linux writes the digits in lower case. */
  function ParseAddress(d: string): Option<PciAddress> {
    if |d| != 12 || d[4] != ':' || d[7] != ':' || d[10] != '.' then None
    else
      var a := PciAddress(ParseHex(d[..4]), ParseHex(d[5..7]), ParseHex(d[8..10]), HexValue(d[11]));
      if a.domain < 0 || a.bus < 0 || a.slot < 0 || !(0 <= a.fn < 8) then None else Some(a)
  }

  /** A device with a given address. */
  predicate Taken(devices: set<string>, bus: nat, slot: nat) {
    exists d <- devices :: ParseAddress(d).Some? &&
      var a := ParseAddress(d).value;
      a.domain == 0 && a.bus == bus && a.slot == slot
  }

  /** The slot of a physical function, 32 on each bus from bus 1 on. */
  predicate FunctionTaken(devices: set<string>, pfID: nat) {
    Taken(devices, pfID / 32 + 1, pfID % 32)
  }

  /** It is the first without a device. */
  predicate IsFirstUntaken(devices: set<string>, pfID: nat) {
    !FunctionTaken(devices, pfID) && forall q: nat | q < pfID :: FunctionTaken(devices, q)
  }

  /** A slot's address means that slot. */
  lemma SlotAddress(p: nat, v: nat)
    requires p < 256 && v < 256
    ensures ParseAddress(SlotBdf(p, v)) == Some(PciAddress(0, p, v, 0))
  {
    var d := SlotBdf(p, v);
    TwoHexDigits(p);
    TwoHexDigits(v);
    assert d[..4] == "0000" && d[5..7] == Hex2(p) && d[8..10] == Hex2(v);
    ParseHex2(p, Hex2(p));
    ParseHex2(v, Hex2(v));
    Domain0("0000");
  }

  lemma Domain0(s: string)
    requires |s| == 4
    ensures ParseHex(s) == 0 <==> s == "0000"
  {
    ParseZeros(s);
  }

  /** A device occupies the slot that its address says, and no other. */
  lemma OccupiedByAddress(d: string, p: nat, v: nat)
    requires p < 256 && v < 256 && ParseAddress(d).Some?
    ensures SlotPrefix(p, v) <= d <==>
            var a := ParseAddress(d).value; a.domain == 0 && a.bus == p && a.slot == v
  {
    TwoHexDigits(p);
    TwoHexDigits(v);
    Domain0(d[..4]);
    ParseHex2(p, d[5..7]);
    ParseHex2(v, d[8..10]);
    var prefix := SlotPrefix(p, v);
    assert d[..11] == d[..4] + ":" + d[5..7] + ":" + d[8..10] + ".";
    assert prefix == "0000" + ":" + Hex2(p) + ":" + Hex2(v) + ".";
    if prefix <= d {
      assert d[..11] == prefix;
      assert d[..4] == prefix[..4] && d[5..7] == prefix[5..7] && d[8..10] == prefix[8..10];
    }
  }

  /** So among devices that have addresses the glob finds those on the slot. */
  lemma OccupiedMeansTaken(devices: set<string>, p: nat, v: nat)
    requires p < 256 && v < 256 && forall d <- devices :: ParseAddress(d).Some?
    ensures SlotOccupied(devices, p, v) <==> Taken(devices, p, v)
  {
    forall d <- devices ensures SlotPrefix(p, v) <= d <==>
                                var a := ParseAddress(d).value; a.domain == 0 && a.bus == p && a.slot == v
    {
      OccupiedByAddress(d, p, v);
    }
  }

  /** The function that is allocated, by its address: its slot is the first, counted over bridges 1 to 255
      with 32 slots each, on which there is no device. */
  lemma LeastFreeByAddress(devices: set<string>, bridges: nat, pfID: nat)
    requires bridges < 256 && forall d <- devices :: ParseAddress(d).Some?
    ensures IsLeastFree(devices, bridges, pfID) <==>
            pfID < 32 * bridges && IsFirstUntaken(devices, pfID)
    ensures pfID < 32 * bridges ==> ParseAddress(Bdf(pfID)) == Some(PciAddress(0, pfID / 32 + 1, pfID % 32, 0))
  {
    if pfID < 32 * bridges {
      forall q: nat | q <= pfID ensures Occupied(devices, q) <==> FunctionTaken(devices, q) {
        assert q / 32 + 1 <= pfID / 32 + 1 <= bridges;
        OccupiedMeansTaken(devices, q / 32 + 1, q % 32);
      }
      SlotAddress(pfID / 32 + 1, pfID % 32);
    }
  }

  lemma AddressOfLeastFree(devices: set<string>, bridges: nat, pfID: nat)
    requires IsLeastFree(devices, bridges, pfID)
    ensures bridges < 256 && (forall d <- devices :: ParseAddress(d).Some?) ==>
              && ParseAddress(Bdf(pfID)) == Some(PciAddress(0, pfID / 32 + 1, pfID % 32, 0))
              && IsFirstUntaken(devices, pfID)
  {
    if bridges < 256 && forall d <- devices :: ParseAddress(d).Some? {
      LeastFreeByAddress(devices, bridges, pfID);
    }
  }

  lemma SlotOfFunction(p: nat, v: nat)
    requires p >= 1 && v < SLOTS
    ensures var pfID := (p - 1) * 32 + v; pfID / SLOTS + 1 == p && pfID % SLOTS == v
  {
  }

  datatype Allocation =
    | Free(pfID: uint32, vfBdf: string)
    | NoBridges
    | NotExist

  /** getAvailableFunctionsKvm: the least free physical function, with the address its device will
      have; ErrNotExist exactly when every slot of every bridge is occupied. */
  method GetAvailableFunctionsKvm(bridges: nat, devices: set<string>) returns (r: Allocation)
    requires bridges <= 0x800_0000    // pfID is 32 bits wide
    ensures r.NoBridges? <==> bridges == 0
    ensures r.NotExist? <==> bridges > 0 && forall q: nat | q < SLOTS * bridges :: Occupied(devices, q)
    ensures r.Free? ==> IsLeastFree(devices, bridges, r.pfID as nat) && r.vfBdf == Bdf(r.pfID as nat)
    ensures r.Free? && bridges < 256 && (forall d <- devices :: ParseAddress(d).Some?) ==>
              && ParseAddress(r.vfBdf) == Some(PciAddress(0, r.pfID as int / 32 + 1, r.pfID as int % 32, 0))
              && IsFirstUntaken(devices, r.pfID as nat)
  {
    if bridges == 0 {
      return NoBridges;
    }
    var p := 1;
    while p <= bridges
      invariant 1 <= p <= bridges + 1
      invariant forall q: nat | q < SLOTS * (p - 1) :: Occupied(devices, q)
    {
      var v := 0;
      while v < 32
        invariant 0 <= v <= 32
        invariant forall q: nat | q < SLOTS * (p - 1) + v :: Occupied(devices, q)
      {
        var pfID := (p - 1) * 32 + v;
        SlotOfFunction(p, v);
        if !SlotOccupied(devices, p, v) {
          assert IsLeastFree(devices, bridges, pfID);
          AddressOfLeastFree(devices, bridges, pfID);
          return Free(pfID as uint32, SlotBdf(p, v));
        }
        v := v + 1;
      }
      p := p + 1;
    }
    return NotExist;
  }
}
