/**
 What an xPU initiator stashes when it has connected, and what one built after a driver restart reads
 back: string maps, stored one per staging directory, with numbers in decimal.
 */
module XpuContext {
  import opened Text

  type Context = map<string, string>

  /** A missing key reads as the empty string. */
  function Get(c: Context, key: string): string {
    if key in c then c[key] else ""
  }

  /** What a backend has to remember. The rest of an SMA backend follows from the volume. */
  datatype Backend =
    | OpiNvme(remoteController: string, path: string, subsystem: string, namespace: string, controller: string)
    | OpiVirtioBlk(remoteController: string, path: string, virtioBlk: string)
    | Sma(deviceHandle: string)

  datatype BackendKind = OpiNvmeKind | OpiVirtioBlkKind | SmaKind

  function KindOf(b: Backend): BackendKind {
    match b
    case OpiNvme(_, _, _, _, _) => OpiNvmeKind
    case OpiVirtioBlk(_, _, _) => OpiVirtioBlkKind
    case Sma(_) => SmaKind
  }

  /** GetParam */
  function Params(b: Backend): Context {
    match b
    case OpiNvme(r, p, s, n, c) =>
      map["nvmfRemoteControllerName" := r, "nvmfPathName" := p, "subsystemName" := s, "namespaceName" := n,
          "nvmeControllerName" := c]
    case OpiVirtioBlk(r, p, v) =>
      map["nvmfRemoteControllerName" := r, "nvmfPathName" := p, "virtioBlkName" := v]
    case Sma(h) => map["deviceHandle" := h]
  }

  /** The backend's constructor, given a stored context (an empty one if there is none). */
  function RestoreBackend(kind: BackendKind, c: Context): Backend {
    match kind
    case OpiNvmeKind =>
      OpiNvme(Get(c, "nvmfRemoteControllerName"), Get(c, "nvmfPathName"), Get(c, "subsystemName"),
              Get(c, "namespaceName"),
              Get(c, "nvmeControllerName"))
    case OpiVirtioBlkKind =>
      OpiVirtioBlk(Get(c, "nvmfRemoteControllerName"), Get(c, "nvmfPathName"), Get(c, "virtioBlkName"))
    case SmaKind => Sma(Get(c, "deviceHandle"))
  }

  /** The fields of an initiator that outlive it. */
  datatype Fields = Fields(backend: Backend, devicePath: string, pfID: uint32, vfID: uint32,
                           pfBdf: string, vfBdf: string)

  function Save(f: Fields): Context {
    Params(f.backend)["devicePath" := f.devicePath]["pfID" := Decimal(f.pfID as nat)]["vfID" := Decimal(f.vfID as nat)]
      ["pfBdf" := f.pfBdf]["vfBdf" := f.vfBdf]
  }

  /** ParseUint to 64 bits with the error ignored, cut to 32 bits: 0 for what is no numeral, the largest
      value for a numeral out of range. */
  function ParseUint32(s: string): uint32 {
    match ParseDecimal(s)
    case SyntaxError => 0
    case Value(n) => if n >= 0x1_0000_0000_0000_0000 then 0xFFFF_FFFF else (n % 0x1_0000_0000) as uint32
  }

  /** A printed number comes back as Go converts it: cut to 32 bits, or all ones if it needs more than 64;
      what is not a number, such as the missing entry of a new initiator, is 0. */
  lemma ParseUint32Printed(n: nat)
    ensures ParseUint32(Decimal(n)) as nat ==
            if n < 0x1_0000_0000_0000_0000 then n % 0x1_0000_0000 else 0xFFFF_FFFF
    ensures ParseUint32("") == 0
  {
    ParsePrinted(n);
  }

  function Restore(kind: BackendKind, c: Context): Fields {
    Fields(RestoreBackend(kind, c), Get(c, "devicePath"), ParseUint32(Get(c, "pfID")), ParseUint32(Get(c, "vfID")),
           Get(c, "pfBdf"), Get(c, "vfBdf"))
  }

  lemma BackendSurvives(b: Backend, c: Context)
    requires forall key <- Params(b) :: key in c && c[key] == Params(b)[key]
    ensures RestoreBackend(KindOf(b), c) == b
  {
    var p := Params(b);
    match b
    case OpiNvme(_, _, _, _, _) =>
      assert "nvmfRemoteControllerName" in p && "nvmfPathName" in p && "subsystemName" in p && "namespaceName" in p;
      assert "nvmeControllerName" in p;
    case OpiVirtioBlk(_, _, _) =>
      assert "nvmfRemoteControllerName" in p && "nvmfPathName" in p && "virtioBlkName" in p;
    case Sma(_) =>
      assert "deviceHandle" in p;
  }

  /** The backends' keys are longer than the initiator's own, so saving overwrites none of them. */
  lemma KeysAreDisjoint(f: Fields)
    ensures forall key <- Params(f.backend) :: key in Save(f) && Save(f)[key] == Params(f.backend)[key]
  {
  }

  lemma OwnFieldsSurvive(f: Fields)
    ensures var c := Save(f);
            && Get(c, "devicePath") == f.devicePath && Get(c, "pfBdf") == f.pfBdf && Get(c, "vfBdf") == f.vfBdf
            && Get(c, "pfID") == Decimal(f.pfID as nat) && Get(c, "vfID") == Decimal(f.vfID as nat)
  {
  }

  /** A restart loses nothing: names, device path, function IDs and addresses all come back. */
  lemma RestoreSaved(f: Fields)
    ensures Restore(KindOf(f.backend), Save(f)) == f
  {
    var c := Save(f);
    ParsePrinted(f.pfID as nat);
    ParsePrinted(f.vfID as nat);
    KeysAreDisjoint(f);
    OwnFieldsSurvive(f);
    BackendSurvives(f.backend, c);
  }
}
