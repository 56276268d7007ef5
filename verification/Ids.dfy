/**
 Composite identifiers: the CSI volume ID "node:lvol" and the xPU target type "xpu-backend-transport".
 */
module Ids {
  import opened Text

  datatype SpdkVolume = SpdkVolume(nodeName: string, lvolID: string)

  function FormatVolume(nodeName: string, lvolID: string): string {
    nodeName + ":" + lvolID
  }

  function GetSpdkVol(csiVolumeID: string): Option<SpdkVolume> {
    var ids := Split(csiVolumeID, ':');
    if |ids| == 2 then Some(SpdkVolume(ids[0], ids[1])) else None
  }

  predicate NodeComesFirst(csiVolumeID: string, nodeName: string, lvolID: string) {
    nodeName + ":" <= csiVolumeID && csiVolumeID[|nodeName| + 1..] == lvolID
  }

  /** Parsing succeeds exactly on strings with one colon, and formatting undoes it. */
  lemma ParsedVolume(csiVolumeID: string)
    ensures var v := GetSpdkVol(csiVolumeID);
            && (v.Some? <==> Count(csiVolumeID, ':') == 1)
            && (v.Some? ==> FormatVolume(v.value.nodeName, v.value.lvolID) == csiVolumeID)
            && (v.Some? ==> NodeComesFirst(csiVolumeID, v.value.nodeName, v.value.lvolID))
  {
    JoinSplit(csiVolumeID, ':');
    var ids := Split(csiVolumeID, ':');
    if |ids| == 2 {
      assert Join(ids, ':') == ids[0] + [':'] + Join(ids[1..], ':');
    }
  }

  /** A formatted ID parses to its parts exactly when neither part has a colon: a volume made on a node
      whose name has one can be neither published nor deleted by its ID. */
  lemma FormattedVolume(nodeName: string, lvolID: string)
    ensures GetSpdkVol(FormatVolume(nodeName, lvolID)) == Some(SpdkVolume(nodeName, lvolID)) <==>
            ':' !in nodeName && ':' !in lvolID
    ensures GetSpdkVol(FormatVolume(nodeName, lvolID)).Some? <==> ':' !in nodeName && ':' !in lvolID
    ensures NodeComesFirst(FormatVolume(nodeName, lvolID), nodeName, lvolID)
  {
    var s := FormatVolume(nodeName, lvolID);
    JoinSplit(s, ':');
    if ':' !in nodeName && ':' !in lvolID {
      var parts := [nodeName, lvolID];
      assert Join(parts, ':') == s;
      SplitJoin(parts, ':');
    } else {
      CountConcat(nodeName + ":", lvolID, ':');
      CountConcat(nodeName, ":", ':');
      CountIn(nodeName, ':');
      CountIn(lvolID, ':');
    }
  }

  lemma {:induction false} CountConcat(a: string, b: string, c: char)
    ensures Count(a + b, c) == Count(a, c) + Count(b, c)
  {
    if a == "" {
      assert a + b == b;
    } else {
      assert (a + b)[1..] == a[1..] + b;
      CountConcat(a[1..], b, c);
    }
  }

  lemma {:induction false} CountIn(s: string, c: char)
    ensures Count(s, c) > 0 <==> c in s
  {
    if s != "" {
      CountIn(s[1..], c);
      assert s == [s[0]] + s[1..];
    }
  }

  datatype XpuTargetType = XpuTargetType(backend: string, trType: string)

  function ParseSpdkXpuTargetType(xpuTargetType: string): Option<XpuTargetType> {
    var parts := Split(xpuTargetType, '-');
    if parts[0] != "xpu" || |parts| != 3 then None else Some(XpuTargetType(parts[1], parts[2]))
  }

  /** The target types that parse are exactly "xpu-b-t" with no dash in b and t, and they parse to b and t. */
  lemma ParsedTargetType(s: string, b: string, t: string)
    ensures ParseSpdkXpuTargetType(s) == Some(XpuTargetType(b, t)) <==>
            s == "xpu-" + b + "-" + t && '-' !in b && '-' !in t
  {
    JoinSplit(s, '-');
    var parts := Split(s, '-');
    if |parts| == 3 {
      assert Join(parts, '-') == parts[0] + ['-'] + Join(parts[1..], '-');
      assert Join(parts[1..], '-') == parts[1] + ['-'] + Join(parts[1..][1..], '-');
      if parts[0] == "xpu" {
        assert s == "xpu-" + parts[1] + "-" + parts[2];
      }
    }
    if s == "xpu-" + b + "-" + t && '-' !in b && '-' !in t {
      var three := ["xpu", b, t];
      assert three[1..] == [b, t] && [b, t][1..] == [t];
      assert Join([b, t], '-') == b + "-" + t;
      assert Join(three, '-') == "xpu" + "-" + (b + "-" + t) == s;
      SplitJoin(three, '-');
    }
  }
}
