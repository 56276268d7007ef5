/**
 `nodeISCSI`: exporting volumes through iSCSI target nodes, which all hang off one portal group and one
 initiator group, made on demand. As in `SpdkTarget`, handlers are small-step programs, one step for an
 RPC, and an RPC that is not answered has no effect.
 */
module NodeIscsi {
  import S = SpdkTarget

  type Target = S.Target       // lvols, groups and target nodes are what matters here

  const TAG := S.TAG

  datatype Pc =
    | CheckVolume
    | CheckNode
    | GetPortal
    | MakePortal
    | GetPortalAgain
    | GetInitiator
    | MakeInitiator
    | GetInitiatorAgain
    | MakeNode
    | Published
    | PublishFailed

  function Rank(pc: Pc): nat {
    match pc
    case CheckVolume => 9
    case CheckNode => 8
    case GetPortal => 7
    case MakePortal => 6
    case GetPortalAgain => 5
    case GetInitiator => 4
    case MakeInitiator => 3
    case GetInitiatorAgain => 2
    case MakeNode => 1
    case Published => 0
    case PublishFailed => 0
  }

  /** The target rejects a second group with the same tag. */
  predicate CanMake(groups: multiset<int>, answered: bool) {
    answered && TAG !in groups
  }

  function PublishStep(pc: Pc, t: Target, id: string, answered: bool): (r: (Pc, Target))
    ensures Rank(pc) > 0 ==> Rank(r.0) < Rank(pc)
  {
    match pc
    case CheckVolume => (if id in t.lvols then CheckNode else PublishFailed, t)
    case CheckNode => (if !answered then PublishFailed else if id in t.nodes then Published else GetPortal, t)
    case GetPortal => (if answered && TAG in t.portalGroups then GetInitiator else MakePortal, t)
    case MakePortal =>
      if CanMake(t.portalGroups, answered) then (GetInitiator, t.(portalGroups := t.portalGroups + multiset{TAG}))
      else (GetPortalAgain, t)
    case GetPortalAgain => (if answered && TAG in t.portalGroups then GetInitiator else PublishFailed, t)
    case GetInitiator => (if answered && TAG in t.initiatorGroups then MakeNode else MakeInitiator, t)
    case MakeInitiator =>
      if CanMake(t.initiatorGroups, answered) then (MakeNode, t.(initiatorGroups := t.initiatorGroups + multiset{TAG}))
      else (GetInitiatorAgain, t)
    case GetInitiatorAgain => (if answered && TAG in t.initiatorGroups then MakeNode else PublishFailed, t)
    case MakeNode =>
      if answered && id in t.lvols && id !in t.nodes && TAG in t.portalGroups && TAG in t.initiatorGroups
      then (Published, t.(nodes := t.nodes + {id}))
      else (PublishFailed, t)
    case Published => (pc, t)
    case PublishFailed => (pc, t)
  }

  function Publish(pc: Pc, t: Target, id: string, o: Pc -> bool): (r: (bool, Target))
    decreases Rank(pc)
  {
    if Rank(pc) == 0 then (pc.Published?, t)
    else
      var (pc', t') := PublishStep(pc, t, id, o(pc));
      Publish(pc', t', id, o)
  }

  /** A get-create-get round over one kind of groups ends with the group there or in failure, and the
      latter only if the target left the last question, or both the first question and the creation
      unanswered. */
  function Ensured(groups: multiset<int>, get: bool, make: bool, again: bool): (r: (bool, multiset<int>)) {
    if get && TAG in groups then (true, groups)
    else if CanMake(groups, make) then (true, groups + multiset{TAG})
    else (again && TAG in groups, groups)
  }

  lemma EnsuredOutcome(groups: multiset<int>, get: bool, make: bool, again: bool)
    ensures var (ok, groups') := Ensured(groups, get, make, again);
            && (ok ==> TAG in groups')
            && (ok <==> if TAG in groups then get || again else make)
            && groups'[TAG] == (if TAG !in groups && make then 1 else groups[TAG])
            && (forall tag: int :: tag != TAG ==> groups'[tag] == groups[tag])
  {
  }

  lemma PortalRound(t: Target, id: string, o: Pc -> bool)
    ensures var (ok, gs) := Ensured(t.portalGroups, o(GetPortal), o(MakePortal), o(GetPortalAgain));
            Publish(GetPortal, t, id, o) ==
              if ok then Publish(GetInitiator, t.(portalGroups := gs), id, o) else (false, t)
  {
  }

  lemma InitiatorRound(t: Target, id: string, o: Pc -> bool)
    ensures var (ok, gs) := Ensured(t.initiatorGroups, o(GetInitiator), o(MakeInitiator), o(GetInitiatorAgain));
            Publish(GetInitiator, t, id, o) ==
              if ok then Publish(MakeNode, t.(initiatorGroups := gs), id, o) else (false, t)
  {
  }

  lemma PublishTail(t: Target, id: string, o: Pc -> bool)
    requires id in t.lvols && id !in t.nodes
    ensures var (ok, t') := Publish(GetPortal, t, id, o);
            && t'.lvols == t.lvols
            && t'.nodes == (if ok then t.nodes + {id} else t.nodes)
            && (ok ==> TAG in t'.portalGroups && TAG in t'.initiatorGroups)
            && S.OneMore(t.portalGroups, t'.portalGroups) && S.OneMore(t.initiatorGroups, t'.initiatorGroups)
            && ((forall pc :: o(pc)) ==> ok)
  {
    PortalRound(t, id, o);
    var (ok, gs) := Ensured(t.portalGroups, o(GetPortal), o(MakePortal), o(GetPortalAgain));
    if ok {
      InitiatorRound(t.(portalGroups := gs), id, o);
    }
  }

  /** PublishVolume is all or nothing without any undoing: a failure leaves the target nodes as they were,
      and groups at most added. */
  lemma PublishOutcome(t: Target, id: string, o: Pc -> bool)
    ensures var (ok, t') := Publish(CheckVolume, t, id, o);
            && t'.lvols == t.lvols
            && t'.nodes == (if ok then t.nodes + {id} else t.nodes)
            && (ok ==> id in t.lvols)
            && (ok && id !in t.nodes ==> TAG in t'.portalGroups && TAG in t'.initiatorGroups)
            && (id in t.nodes ==> t' == t)
            && S.OneMore(t.portalGroups, t'.portalGroups) && S.OneMore(t.initiatorGroups, t'.initiatorGroups)
            && ((forall pc :: o(pc)) ==> (ok <==> id in t.lvols))
  {
    if id in t.lvols && o(CheckNode) {
      assert Publish(CheckNode, t, id, o) == Publish(CheckVolume, t, id, o);
      if id in t.nodes {
        assert t.nodes + {id} == t.nodes;
      } else {
        assert Publish(GetPortal, t, id, o) == Publish(CheckNode, t, id, o);
        PublishTail(t, id, o);
      }
    }
  }

  /** Exactly what PublishVolume does under all answers, in closed form: it succeeds exactly for an existing
      volume if the query for its target node is answered and there is one, or both groups are there or can
      be made and the target node is created; whatever becomes of the call, groups once made stay. */
  lemma PublishExactly(t: Target, id: string, o: Pc -> bool)
    ensures var (ok, t') := Publish(CheckVolume, t, id, o);
            var looked := id in t.lvols && o(CheckNode);
            var first := looked && id !in t.nodes;
            var portal := if TAG in t.portalGroups then o(GetPortal) || o(GetPortalAgain) else o(MakePortal);
            var initiator := if TAG in t.initiatorGroups then o(GetInitiator) || o(GetInitiatorAgain)
                             else o(MakeInitiator);
            && (ok <==> looked && (id in t.nodes || (portal && initiator && o(MakeNode))))
            && t' == t.(portalGroups := t'.portalGroups, initiatorGroups := t'.initiatorGroups, nodes := t'.nodes)
            && t'.nodes == (if ok then t.nodes + {id} else t.nodes)
            && t'.portalGroups ==
               (if first && TAG !in t.portalGroups && portal then t.portalGroups + multiset{TAG} else t.portalGroups)
            && t'.initiatorGroups ==
               (if first && portal && TAG !in t.initiatorGroups && initiator then t.initiatorGroups + multiset{TAG}
                else t.initiatorGroups)
  {
    if id in t.lvols && o(CheckNode) {
      assert Publish(CheckNode, t, id, o) == Publish(CheckVolume, t, id, o);
      if id in t.nodes {
        assert t.nodes + {id} == t.nodes;
      } else {
        assert Publish(GetPortal, t, id, o) == Publish(CheckNode, t, id, o);
        TailExactly(t, id, o);
      }
    }
  }

  lemma TailExactly(t: Target, id: string, o: Pc -> bool)
    requires id in t.lvols && id !in t.nodes
    ensures var (p, ps) := Ensured(t.portalGroups, o(GetPortal), o(MakePortal), o(GetPortalAgain));
            var (q, qs) := Ensured(t.initiatorGroups, o(GetInitiator), o(MakeInitiator), o(GetInitiatorAgain));
            Publish(GetPortal, t, id, o) ==
            if !p then (false, t)
            else if !q || !o(MakeNode) then (false, t.(portalGroups := ps, initiatorGroups := qs))
            else (true, t.(portalGroups := ps, initiatorGroups := qs, nodes := t.nodes + {id}))
  {
    PortalRound(t, id, o);
    var (p, ps) := Ensured(t.portalGroups, o(GetPortal), o(MakePortal), o(GetPortalAgain));
    if p {
      InitiatorRound(t.(portalGroups := ps), id, o);
    }
  }

  lemma PublishTouches(t: Target, id: string, o: Pc -> bool)
    ensures var t' := Publish(CheckVolume, t, id, o).1;
            t'.transports == t.transports && t'.subsystems == t.subsystems && t'.nodes - {id} == t.nodes - {id}
  {
    PublishOutcome(t, id, o);
    PublishKeepsNvmf(CheckVolume, t, id, o);
  }

  lemma {:induction false} PublishKeepsNvmf(pc: Pc, t: Target, id: string, o: Pc -> bool)
    ensures var t' := Publish(pc, t, id, o).1; t'.transports == t.transports && t'.subsystems == t.subsystems
    decreases Rank(pc)
  {
    if Rank(pc) > 0 {
      var (pc', t') := PublishStep(pc, t, id, o(pc));
      PublishKeepsNvmf(pc', t', id, o);
    }
  }

  datatype UnpublishPc =
    | FindVolume
    | FindNode
    | DeleteNode
    | Unpublished
    | VolumeGone        // ErrVolumeDeleted
    | UnpublishFailed

  function UnpublishRank(pc: UnpublishPc): nat {
    match pc
    case FindVolume => 3
    case FindNode => 2
    case DeleteNode => 1
    case Unpublished => 0
    case VolumeGone => 0
    case UnpublishFailed => 0
  }

  function UnpublishStep(pc: UnpublishPc, t: Target, id: string, answered: bool): (r: (UnpublishPc, Target))
    ensures UnpublishRank(pc) > 0 ==> UnpublishRank(r.0) < UnpublishRank(pc)
  {
    match pc
    case FindVolume => (if id in t.lvols then FindNode else VolumeGone, t)
    case FindNode => (if !answered then UnpublishFailed else if id in t.nodes then DeleteNode else Unpublished, t)
    case DeleteNode =>
      if !answered || id !in t.nodes then (UnpublishFailed, t) else (Unpublished, t.(nodes := t.nodes - {id}))
    case Unpublished => (pc, t)
    case VolumeGone => (pc, t)
    case UnpublishFailed => (pc, t)
  }

  function Unpublish(pc: UnpublishPc, t: Target, id: string, o: UnpublishPc -> bool): (r: (UnpublishPc, Target))
    ensures UnpublishRank(r.0) == 0
    decreases UnpublishRank(pc)
  {
    if UnpublishRank(pc) == 0 then (pc, t)
    else
      var (pc', t') := UnpublishStep(pc, t, id, o(pc));
      Unpublish(pc', t', id, o)
  }

  /** UnpublishVolume reports a deleted volume exactly when there is none, succeeds exactly when its query
      and, if there is a target node, the delete are answered, and then the volume has no target node. */
  lemma UnpublishOutcome(t: Target, id: string, o: UnpublishPc -> bool)
    ensures var (r, t') := Unpublish(FindVolume, t, id, o);
            && (r.VolumeGone? <==> id !in t.lvols)
            && (r.Unpublished? <==> id in t.lvols && o(FindNode) && (id in t.nodes ==> o(DeleteNode)))
            && t' == if r.Unpublished? then t.(nodes := t.nodes - {id}) else t
  {
    assert Unpublish(FindNode, t, id, o) == Unpublish(FindVolume, t, id, o) || id !in t.lvols;
    assert id !in t.nodes ==> t.nodes - {id} == t.nodes;
  }

  lemma RepeatedPublish(t: Target, id: string, o: Pc -> bool)
    requires id in t.lvols && id in t.nodes && o(CheckNode)
    ensures Publish(CheckVolume, t, id, o) == (true, t)
  {
    assert Publish(CheckNode, t, id, o) == Publish(CheckVolume, t, id, o);
  }

  /** Publishing and then unpublishing restores the target nodes, and repeating either changes nothing. */
  lemma PublishThenUnpublish(t: Target, id: string, o: Pc -> bool, o': Pc -> bool,
                             u: UnpublishPc -> bool, u': UnpublishPc -> bool)
    requires id !in t.nodes && Publish(CheckVolume, t, id, o).0 && o'(CheckNode) && u'(FindNode)
    ensures var t1 := Publish(CheckVolume, t, id, o).1;
            var (r, t2) := Unpublish(FindVolume, t1, id, u);
            && Publish(CheckVolume, t1, id, o') == (true, t1)
            && (r == Unpublished <==> u(FindNode) && u(DeleteNode))
            && (r == Unpublished ==> t2.nodes == t.nodes && Unpublish(FindVolume, t2, id, u') == (Unpublished, t2))
  {
    PublishOutcome(t, id, o);
    var t1 := Publish(CheckVolume, t, id, o).1;
    RepeatedPublish(t1, id, o');
    assert t.nodes + {id} - {id} == t.nodes;
    UnpublishOutcome(t1, id, u);
    var t2 := Unpublish(FindVolume, t1, id, u).1;
    UnpublishOutcome(t2, id, u');
    assert t2.nodes - {id} - {id} == t2.nodes - {id};
  }

  /** Two oracles that agree lead to the same end. */
  lemma {:induction false} PublishByAnswers(pc: Pc, t: Target, id: string, o: Pc -> bool, o': Pc -> bool)
    requires forall q :: o(q) == o'(q)
    ensures Publish(pc, t, id, o) == Publish(pc, t, id, o')
    decreases Rank(pc)
  {
    if Rank(pc) > 0 {
      var (pc', t') := PublishStep(pc, t, id, o(pc));
      PublishByAnswers(pc', t', id, o, o');
    }
  }

  lemma {:induction false} UnpublishByAnswers(pc: UnpublishPc, t: Target, id: string,
                                              o: UnpublishPc -> bool, o': UnpublishPc -> bool)
    requires forall q :: o(q) == o'(q)
    ensures Unpublish(pc, t, id, o) == Unpublish(pc, t, id, o')
    decreases UnpublishRank(pc)
  {
    if UnpublishRank(pc) > 0 {
      var (pc', t') := UnpublishStep(pc, t, id, o(pc));
      UnpublishByAnswers(pc', t', id, o, o');
    }
  }

  lemma SomeElement(groups: multiset<int>)
    ensures groups == multiset{} || exists tag :: tag in groups
  {
    if forall tag :: tag !in groups {
      assert groups == multiset{};
    }
  }

  class Node {
    const spdk: S.Spdk

    constructor (spdk: S.Spdk)
      ensures this.spdk == spdk
    {
      this.spdk := spdk;
    }

    /** Scans the reported groups, which come in any order, for the tag. */
    method GetGroups(groups: multiset<int>, answered: bool) returns (ok: bool)
      ensures ok <==> answered && TAG in groups
    {
      if !answered {
        return false;
      }
      var results := groups;
      while results != multiset{}
        invariant TAG in groups ==> TAG in results
        invariant results <= groups
        decreases |results|
      {
        SomeElement(results);
        var value :| value in results;
        if value == TAG {
          return true;
        }
        results := results - multiset{value};
      }
      return false;
    }

    method CreatePortalGroup(get: bool, make: bool, again: bool) returns (ok: bool)
      modifies spdk
      ensures var (p, ps) := Ensured(old(spdk.t).portalGroups, get, make, again);
              ok == p && spdk.t == old(spdk.t).(portalGroups := ps)
    {
      ok := GetGroups(spdk.t.portalGroups, get);
      if ok {
        return;
      }
      ok := CanMake(spdk.t.portalGroups, make);
      if ok {
        spdk.t := spdk.t.(portalGroups := spdk.t.portalGroups + multiset{TAG});
        return;
      }
      ok := GetGroups(spdk.t.portalGroups, again);
    }

    method CreateInitiatorGroup(get: bool, make: bool, again: bool) returns (ok: bool)
      modifies spdk
      ensures var (p, ps) := Ensured(old(spdk.t).initiatorGroups, get, make, again);
              ok == p && spdk.t == old(spdk.t).(initiatorGroups := ps)
    {
      ok := GetGroups(spdk.t.initiatorGroups, get);
      if ok {
        return;
      }
      ok := CanMake(spdk.t.initiatorGroups, make);
      if ok {
        spdk.t := spdk.t.(initiatorGroups := spdk.t.initiatorGroups + multiset{TAG});
        return;
      }
      ok := GetGroups(spdk.t.initiatorGroups, again);
    }

    method CreateTargetNode(id: string, answered: bool) returns (ok: bool)
      modifies spdk
      ensures var (pc, t) := PublishStep(MakeNode, old(spdk.t), id, answered); ok == pc.Published? && spdk.t == t
    {
      var t := spdk.t;
      ok := answered && id in t.lvols && id !in t.nodes && TAG in t.portalGroups && TAG in t.initiatorGroups;
      if ok {
        spdk.t := t.(nodes := t.nodes + {id});
      }
    }

    method PublishVolume(id: string, o: Pc -> bool) returns (ok: bool)
      modifies spdk
      ensures (ok, spdk.t) == Publish(CheckVolume, old(spdk.t), id, o)
    {
      if id !in spdk.t.lvols {
        return false;
      }
      assert Publish(CheckNode, spdk.t, id, o) == Publish(CheckVolume, spdk.t, id, o);
      if !o(CheckNode) {
        return false;
      }
      if id in spdk.t.nodes {
        return true;
      }
      PortalRound(spdk.t, id, o);
      ok := CreatePortalGroup(o(GetPortal), o(MakePortal), o(GetPortalAgain));
      if !ok {
        return;
      }
      InitiatorRound(spdk.t, id, o);
      ok := CreateInitiatorGroup(o(GetInitiator), o(MakeInitiator), o(GetInitiatorAgain));
      if !ok {
        return;
      }
      ok := CreateTargetNode(id, o(MakeNode));
    }

    method UnpublishVolume(id: string, o: UnpublishPc -> bool) returns (r: UnpublishPc)
      modifies spdk
      ensures (r, spdk.t) == Unpublish(FindVolume, old(spdk.t), id, o)
    {
      UnpublishOutcome(spdk.t, id, o);
      if id !in spdk.t.lvols {
        return VolumeGone;
      }
      if !o(FindNode) {
        return UnpublishFailed;
      }
      if id !in spdk.t.nodes {
        assert spdk.t.nodes - {id} == spdk.t.nodes;
        return Unpublished;
      }
      if !o(DeleteNode) {
        return UnpublishFailed;
      }
      spdk.t := spdk.t.(nodes := spdk.t.nodes - {id});
      return Unpublished;
    }
  }
}
