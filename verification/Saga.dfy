/**
 Building something out of remote resources in a fixed order, and taking it down in another: the
 sequences behind Connect, cleanup and Disconnect of the OPI initiators. An initiator remembers a
 resource by a non-empty name field; `tracked` are the kinds it remembers, `existing` those there are.
 The two can differ, since every call of the node server builds an initiator from what was stashed.
 */
module Saga {
  datatype Kind = Subsystem | Controller | RemoteController | Path | Namespace | VirtioBlk

  /** The kinds a resource refers to when it is created. */
  function Needs(k: Kind): set<Kind> {
    match k
    case Controller => {Subsystem}
    case Namespace => {Subsystem}
    case Path => {RemoteController}
    case _ => {}
  }

  datatype View = View(tracked: set<Kind>, existing: set<Kind>)

  /** The orders of an initiator's creations and deletions. */
  datatype Plan = Plan(create: seq<Kind>, delete: seq<Kind>)

  const NVME := Plan([Subsystem, Controller, RemoteController, Path, Namespace],
                     [Namespace, Path, RemoteController, Controller, Subsystem])

  const VIRTIO_BLK := Plan([RemoteController, Path, VirtioBlk], [VirtioBlk, Path, RemoteController])

  /******* Sequences of RPCs *******/

  /** One creation: fails if it is not answered, or if the names of what it refers to are not remembered or
      lead to nothing. */
  function CreateOne(k: Kind, v: View, answered: bool): (r: (bool, View)) {
    if answered && Needs(k) <= v.tracked * v.existing then (true, View(v.tracked + {k}, v.existing + {k}))
    else (false, v)
  }

  /** One deletion: passes over what is not tracked. */
  function DeleteOne(k: Kind, v: View, answered: bool): (r: (bool, View)) {
    if k !in v.tracked then (true, v)
    else if answered then (true, View(v.tracked - {k}, v.existing - {k}))
    else (false, v)
  }

  /** Creations `i` up to `n`, stopping at the first that fails. */
  function Create(plan: Plan, i: nat, n: nat, v: View, o: Kind -> bool): (r: (bool, View))
    requires i <= n <= |plan.create|
    decreases n - i
  {
    if i == n then (true, v)
    else
      var (ok, v') := CreateOne(plan.create[i], v, o(plan.create[i]));
      if ok then Create(plan, i + 1, n, v', o) else (false, v)
  }

  /** Deletions `i` up to `n`, stopping at the first that fails. */
  function Delete(plan: Plan, i: nat, n: nat, v: View, d: Kind -> bool): (r: (bool, View))
    requires i <= n <= |plan.delete|
    decreases n - i
  {
    if i == n then (true, v)
    else
      var (ok, v') := DeleteOne(plan.delete[i], v, d(plan.delete[i]));
      if ok then Delete(plan, i + 1, n, v', d) else (false, v)
  }

  /** One creation, or one deletion, seen from the whole sequence. */
  lemma CreateStep(plan: Plan, i: nat, v: View, o: Kind -> bool, ok: bool, v': View)
    requires i < |plan.create| && (ok, v') == CreateOne(plan.create[i], v, o(plan.create[i]))
    ensures Create(plan, i, |plan.create|, v, o) ==
            if ok then Create(plan, i + 1, |plan.create|, v', o) else (false, v')
  {
  }

  lemma DeleteStep(plan: Plan, i: nat, v: View, d: Kind -> bool, ok: bool, v': View)
    requires i < |plan.delete| && (ok, v') == DeleteOne(plan.delete[i], v, d(plan.delete[i]))
    ensures Delete(plan, i, |plan.delete|, v, d) ==
            if ok then Delete(plan, i + 1, |plan.delete|, v', d) else (false, v')
  {
  }

  function Disconnect(plan: Plan, v: View, d: Kind -> bool): (r: (bool, View)) {
    Delete(plan, 0, |plan.delete|, v, d)
  }

  /** Connect: a failing first creation changes nothing; any later failure is followed by the cleanup. */
  function Connect(plan: Plan, v: View, o: Kind -> bool, d: Kind -> bool): (r: (bool, View)) {
    var (ok, v') := Create(plan, 0, |plan.create|, v, o);
    if ok || FailsAtOnce(plan, v, o) then (ok, v') else (false, Disconnect(plan, v', d).1)
  }

  predicate FailsAtOnce(plan: Plan, v: View, o: Kind -> bool) {
    plan.create != [] && !CreateOne(plan.create[0], v, o(plan.create[0])).0
  }

  /******* What makes a plan good *******/

  predicate Before(order: seq<Kind>, i: nat, k: Kind)
    requires i <= |order|
  {
    k in order[..i]
  }

  predicate Distinct(order: seq<Kind>) {
    forall i, j :: 0 <= i < j < |order| ==> order[i] != order[j]
  }

  /** Both orders run over the same kinds, once each; what a resource needs is created before it, and
      everything that needs a resource is deleted before it. */
  ghost predicate Good(plan: Plan) {
    && plan.create != [] && Distinct(plan.create) && Distinct(plan.delete)
    && (forall k :: k in plan.create <==> k in plan.delete)
    && (forall i, k :: 0 <= i < |plan.create| && k in Needs(plan.create[i]) ==> Before(plan.create, i, k))
    && (forall i, k :: 0 <= i < |plan.delete| && plan.delete[i] in Needs(k) && k in plan.delete ==>
        Before(plan.delete, i, k))
  }

  lemma NvmeIsGood()
    ensures Good(NVME)
  {
    var c, d := NVME.create, NVME.delete;
    forall i, k | 0 <= i < |c| && k in Needs(c[i]) ensures Before(c, i, k) {
      assert i > 0 ==> c[..i][0] == Subsystem;
      assert i > 2 ==> c[..i][2] == RemoteController;
    }
    forall i, k | 0 <= i < |d| && d[i] in Needs(k) && k in d ensures Before(d, i, k) {
      assert i > 0 ==> d[..i][0] == Namespace;
      assert i > 1 ==> d[..i][1] == Path;
      assert i > 3 ==> d[..i][3] == Controller;
    }
  }

  lemma VirtioBlkIsGood()
    ensures Good(VIRTIO_BLK)
  {
    var c, d := VIRTIO_BLK.create, VIRTIO_BLK.delete;
    forall i, k | 0 <= i < |c| && k in Needs(c[i]) ensures Before(c, i, k) {
      assert i > 0 ==> c[..i][0] == RemoteController;
    }
    forall i, k | 0 <= i < |d| && d[i] in Needs(k) && k in d ensures Before(d, i, k) {
      assert i > 1 ==> d[..i][1] == Path;
    }
  }

  ghost predicate InPlan(plan: Plan, v: View) {
    forall k <- v.tracked + v.existing :: k in plan.create
  }

  /******* What the calls do *******/

  /** The kinds that creations `i` up to `n` create before one is not answered. */
  function Made(plan: Plan, i: nat, n: nat, o: Kind -> bool): set<Kind>
    requires i <= n <= |plan.create|
    decreases n - i
  {
    if i == n || !o(plan.create[i]) then {} else {plan.create[i]} + Made(plan, i + 1, n, o)
  }

  /** Nothing but an unanswered request stops the creations. */
  lemma {:induction false} CreatesOutcome(plan: Plan, i: nat, n: nat, v: View, o: Kind -> bool)
    requires Good(plan) && i <= n <= |plan.create| && forall k <- plan.create[..i] :: k in v.tracked * v.existing
    ensures var (ok, v') := Create(plan, i, n, v, o);
            && v' == View(v.tracked + Made(plan, i, n, o), v.existing + Made(plan, i, n, o))
            && (ok <==> forall j :: i <= j < n ==> o(plan.create[j]))
    decreases n - i
  {
    if i < n && o(plan.create[i]) {
      var k := plan.create[i];
      assert forall x <- Needs(k) :: Before(plan.create, i, x);
      assert plan.create[..i + 1] == plan.create[..i] + [k];
      CreatesOutcome(plan, i + 1, n, View(v.tracked + {k}, v.existing + {k}), o);
    }
  }

  lemma {:induction false} MadeAll(plan: Plan, i: nat, o: Kind -> bool, k: Kind)
    requires i <= |plan.create| && k in plan.create[i..] && forall x <- plan.create[i..] :: o(x)
    ensures k in Made(plan, i, |plan.create|, o)
    decreases |plan.create| - i
  {
    if k != plan.create[i] {
      MadeAll(plan, i + 1, o, k);
    }
  }

  lemma {:induction false} MadeInPlan(plan: Plan, i: nat, n: nat, o: Kind -> bool)
    requires i <= n <= |plan.create|
    ensures forall k <- Made(plan, i, n, o) :: k in plan.create[i..n] && o(k)
    decreases n - i
  {
    if i < n && o(plan.create[i]) {
      MadeInPlan(plan, i + 1, n, o);
    }
  }

  /** The deletions take away exactly what they make the initiator forget. All of them succeed exactly when
      nothing is remembered any more. */
  lemma {:induction false} DeletesOutcome(plan: Plan, i: nat, n: nat, v: View, d: Kind -> bool)
    requires i <= n <= |plan.delete| && forall k <- v.tracked :: k in plan.delete[i..]
    ensures var (ok, v') := Delete(plan, i, n, v, d);
            && v'.tracked <= v.tracked && v'.existing == v.existing - (v.tracked - v'.tracked)
            && (n == |plan.delete| ==> (ok <==> v'.tracked == {}))
            && (!ok ==> exists k <- v'.tracked :: !d(k))
    decreases n - i
  {
    if i < n {
      var k := plan.delete[i];
      assert plan.delete[i..] == [k] + plan.delete[i + 1..];
      if k !in v.tracked {
        DeletesOutcome(plan, i + 1, n, v, d);
      } else if d(k) {
        DeletesOutcome(plan, i + 1, n, View(v.tracked - {k}, v.existing - {k}), d);
      }
    }
  }

  /** Disconnect succeeds exactly when it has forgotten everything, and has then deleted what it knew of. */
  lemma DisconnectOutcome(plan: Plan, v: View, d: Kind -> bool)
    requires Good(plan) && InPlan(plan, v)
    ensures var (ok, v') := Disconnect(plan, v, d);
            && v'.tracked <= v.tracked && v'.existing == v.existing - (v.tracked - v'.tracked)
            && (ok <==> v'.tracked == {})
            && ((forall k <- v.tracked :: d(k)) ==> ok)
  {
    assert plan.delete[0..] == plan.delete;
    DeletesOutcome(plan, 0, |plan.delete|, v, d);
  }

  /** Connect, whatever is remembered and whatever exists, succeeds exactly when every creation is answered,
      and then remembers all of the plan's resources, which exist. It changes nothing if the first creation
      fails. After a later failure it takes down everything it knows of, as far as the deletes are
      answered; so an initiator that began with no names leaves things as they were exactly when nothing of
      what it created had been there before. */
  lemma ConnectOutcome(plan: Plan, v: View, o: Kind -> bool, d: Kind -> bool)
    requires Good(plan) && InPlan(plan, v)
    ensures var (ok, v') := Connect(plan, v, o, d);
            var made := Made(plan, 0, |plan.create|, o);
            && (ok <==> forall k <- plan.create :: o(k))
            && (ok ==> v' == View(v.tracked + made, v.existing + made) &&
                       forall k <- plan.create :: k in v'.tracked * v'.existing)
            && (!o(plan.create[0]) ==> v' == v)
            && (!ok && o(plan.create[0]) && (forall k :: d(k)) ==> v' == View({}, v.existing - v.tracked - made))
            && (!ok && (forall k :: d(k)) && v.tracked == {} ==> (v' == v <==> made !! v.existing))
    ensures InPlan(plan, Connect(plan, v, o, d).1)
  {
    var made := Made(plan, 0, |plan.create|, o);
    var v1 := Create(plan, 0, |plan.create|, v, o).1;
    CreatesOutcome(plan, 0, |plan.create|, v, o);
    MadeInPlan(plan, 0, |plan.create|, o);
    assert plan.create[0..] == plan.create && plan.create[0..|plan.create|] == plan.create;
    assert Needs(plan.create[0]) == {} by {
      assert forall k <- Needs(plan.create[0]) :: Before(plan.create, 0, k);
    }
    if forall k <- plan.create :: o(k) {
      forall k <- plan.create ensures k in made { MadeAll(plan, 0, o, k); }
    } else {
      DisconnectOutcome(plan, v1, d);
      assert v1.existing - v1.tracked == v.existing - v.tracked - made;
    }
  }

  lemma {:induction false} NothingDeleted(plan: Plan, i: nat, n: nat, v: View)
    requires i <= n <= |plan.delete|
    ensures Delete(plan, i, n, v, _ => false).1 == v
    decreases n - i
  {
    if i < n && plan.delete[i] !in v.tracked {
      NothingDeleted(plan, i + 1, n, v);
    }
  }

  function Known(kinds: set<Kind>): View {
    View(kinds, kinds)
  }

  lemma CreatesNext(plan: Plan, i: nat, kinds: set<Kind>, kinds': set<Kind>, o: Kind -> bool)
    requires i < |plan.create| && kinds' == kinds + {plan.create[i]} && Needs(plan.create[i]) <= kinds
    ensures Create(plan, i, |plan.create|, Known(kinds), o) ==
            if o(plan.create[i]) then Create(plan, i + 1, |plan.create|, Known(kinds'), o) else (false, Known(kinds))
  {
    assert kinds * kinds == kinds;
  }

  lemma DeletesNext(plan: Plan, i: nat, kinds: set<Kind>, kinds': set<Kind>, d: Kind -> bool)
    requires i < |plan.delete| && plan.delete[i] in kinds && kinds' == kinds - {plan.delete[i]}
    ensures Delete(plan, i, |plan.delete|, Known(kinds), d) ==
            if d(plan.delete[i]) then Delete(plan, i + 1, |plan.delete|, Known(kinds'), d) else (false, Known(kinds))
  {
  }

  lemma NvmeCreates(o: Kind -> bool)
    ensures Create(NVME, 0, 5, Known({}), o).1 ==
            if !o(Subsystem) then Known({})
            else if !o(Controller) then Known({Subsystem})
            else if !o(RemoteController) then Known({Subsystem, Controller})
            else if !o(Path) then Known({Subsystem, Controller, RemoteController})
            else if !o(Namespace) then Known({Subsystem, Controller, RemoteController, Path})
            else Known({Subsystem, Controller, RemoteController, Path, Namespace})
  {
    CreatesNext(NVME, 0, {}, {Subsystem}, o);
    CreatesNext(NVME, 1, {Subsystem}, {Subsystem, Controller}, o);
    CreatesNext(NVME, 2, {Subsystem, Controller}, {Subsystem, Controller, RemoteController}, o);
    CreatesNext(NVME, 3, {Subsystem, Controller, RemoteController}, {Subsystem, Controller, RemoteController, Path}, o);
    CreatesNext(NVME, 4, {Subsystem, Controller, RemoteController, Path},
                {Subsystem, Controller, RemoteController, Path, Namespace}, o);
  }

  lemma NvmeDeletes(d: Kind -> bool)
    ensures Delete(NVME, 0, 5, Known({Subsystem, Controller, RemoteController, Path, Namespace}), d).1 ==
            if !d(Namespace) then Known({Subsystem, Controller, RemoteController, Path, Namespace})
            else if !d(Path) then Known({Subsystem, Controller, RemoteController, Path})
            else if !d(RemoteController) then Known({Subsystem, Controller, RemoteController})
            else if !d(Controller) then Known({Subsystem, Controller})
            else if !d(Subsystem) then Known({Subsystem})
            else Known({})
  {
    DeletesNext(NVME, 0, {Subsystem, Controller, RemoteController, Path, Namespace},
                {Subsystem, Controller, RemoteController, Path}, d);
    DeletesNext(NVME, 1, {Subsystem, Controller, RemoteController, Path}, {Subsystem, Controller, RemoteController}, d);
    DeletesNext(NVME, 2, {Subsystem, Controller, RemoteController}, {Subsystem, Controller}, d);
    DeletesNext(NVME, 3, {Subsystem, Controller}, {Subsystem}, d);
    DeletesNext(NVME, 4, {Subsystem}, {}, d);
  }

  /** Exactly what an NVMe Connect from nothing leaves behind if its cleanup does not get through at all, and
      what a Disconnect leaves of everything: the namespace, through which the volume is seen, comes last and
      goes first. */
  lemma NvmeLeftovers(o: Kind -> bool, d: Kind -> bool)
    ensures Connect(NVME, Known({}), o, _ => false).1 ==
            if !o(Subsystem) then Known({})
            else if !o(Controller) then Known({Subsystem})
            else if !o(RemoteController) then Known({Subsystem, Controller})
            else if !o(Path) then Known({Subsystem, Controller, RemoteController})
            else if !o(Namespace) then Known({Subsystem, Controller, RemoteController, Path})
            else Known({Subsystem, Controller, RemoteController, Path, Namespace})
    ensures Disconnect(NVME, Known({Subsystem, Controller, RemoteController, Path, Namespace}), d).1 ==
            if !d(Namespace) then Known({Subsystem, Controller, RemoteController, Path, Namespace})
            else if !d(Path) then Known({Subsystem, Controller, RemoteController, Path})
            else if !d(RemoteController) then Known({Subsystem, Controller, RemoteController})
            else if !d(Controller) then Known({Subsystem, Controller})
            else if !d(Subsystem) then Known({Subsystem})
            else Known({})
  {
    NvmeCreates(o);
    NvmeDeletes(d);
    NothingDeleted(NVME, 0, 5, Create(NVME, 0, 5, Known({}), o).1);
  }

  /** The same for virtio-blk, where the device itself comes last and goes first. */
  lemma VirtioBlkLeftovers(o: Kind -> bool, d: Kind -> bool)
    ensures Connect(VIRTIO_BLK, Known({}), o, _ => false).1 ==
            if !o(RemoteController) then Known({})
            else if !o(Path) then Known({RemoteController})
            else if !o(VirtioBlk) then Known({RemoteController, Path})
            else Known({RemoteController, Path, VirtioBlk})
    ensures Disconnect(VIRTIO_BLK, Known({RemoteController, Path, VirtioBlk}), d).1 ==
            if !d(VirtioBlk) then Known({RemoteController, Path, VirtioBlk})
            else if !d(Path) then Known({RemoteController, Path})
            else if !d(RemoteController) then Known({RemoteController})
            else Known({})
  {
    CreatesNext(VIRTIO_BLK, 0, {}, {RemoteController}, o);
    CreatesNext(VIRTIO_BLK, 1, {RemoteController}, {RemoteController, Path}, o);
    CreatesNext(VIRTIO_BLK, 2, {RemoteController, Path}, {RemoteController, Path, VirtioBlk}, o);
    NothingDeleted(VIRTIO_BLK, 0, 3, Create(VIRTIO_BLK, 0, 3, Known({}), o).1);
    DeletesNext(VIRTIO_BLK, 0, {RemoteController, Path, VirtioBlk}, {RemoteController, Path}, d);
    DeletesNext(VIRTIO_BLK, 1, {RemoteController, Path}, {RemoteController}, d);
    DeletesNext(VIRTIO_BLK, 2, {RemoteController}, {}, d);
  }

  /******* References *******/

  /** No resource refers to something that does not exist. */
  predicate Whole(v: View) {
    forall k <- v.existing :: Needs(k) <= v.existing
  }

  /** Controllers and namespaces refer to a subsystem, paths to a remote controller, and nothing else does. */
  lemma WholeMeans(v: View)
    ensures Whole(v) <==>
            && (Controller in v.existing || Namespace in v.existing ==> Subsystem in v.existing)
            && (Path in v.existing ==> RemoteController in v.existing)
  {
    assert Needs(Controller) == Needs(Namespace) == {Subsystem} && Needs(Path) == {RemoteController};
  }

  /** What exists without being remembered. */
  function Forgotten(v: View): set<Kind> {
    v.existing - v.tracked
  }

  /** Nothing forgotten refers to anything. */
  predicate Harmless(v: View) {
    forall k <- Forgotten(v) :: Needs(k) == {}
  }

  /** Nothing forgotten refers to anything that is remembered. */
  predicate Apart(v: View) {
    forall k <- Forgotten(v) :: Needs(k) !! v.tracked
  }

  lemma {:induction false} CreatesKeepWhole(plan: Plan, i: nat, n: nat, v: View, o: Kind -> bool)
    requires i <= n <= |plan.create| && Whole(v) && Harmless(v) && InPlan(plan, v)
    ensures var v' := Create(plan, i, n, v, o).1; Whole(v') && Harmless(v') && InPlan(plan, v')
    decreases n - i
  {
    if i < n {
      var (ok, v') := CreateOne(plan.create[i], v, o(plan.create[i]));
      if ok {
        CreatesKeepWhole(plan, i + 1, n, v', o);
      }
    }
  }

  /** What is deleted later does not need what is deleted now. */
  lemma LaterNeedsNothing(plan: Plan, i: nat, other: Kind)
    requires Good(plan) && i < |plan.delete| && other in plan.delete[i..]
    ensures plan.delete[i] !in Needs(other)
  {
    var j :| i <= j < |plan.delete| && plan.delete[j] == other;
    forall a | 0 <= a < i ensures plan.delete[a] != other {
      assert plan.delete[a] != plan.delete[j];
    }
    assert !Before(plan.delete, i, other);
  }

  /** References are whole in every state on the way through the deletions. */
  lemma {:induction false} DeletesKeepWhole(plan: Plan, i: nat, n: nat, v: View, d: Kind -> bool)
    requires Good(plan) && i <= n <= |plan.delete| && Whole(v) && Apart(v)
    requires forall k <- v.tracked :: k in plan.delete[i..]
    ensures var v' := Delete(plan, i, n, v, d).1; Whole(v') && Apart(v') && Forgotten(v') <= Forgotten(v)
    decreases n - i
  {
    if i < n {
      var k := plan.delete[i];
      assert plan.delete[i..] == [k] + plan.delete[i + 1..];
      if k !in v.tracked {
        DeletesKeepWhole(plan, i + 1, n, v, d);
      } else if d(k) {
        var v1 := View(v.tracked - {k}, v.existing - {k});
        forall other <- v1.existing ensures Needs(other) <= v1.existing {
          if other in v.tracked {
            LaterNeedsNothing(plan, i, other);
          }
        }
        DeletesKeepWhole(plan, i + 1, n, v1, d);
      }
    }
  }

  ghost predicate DisconnectSafe(plan: Plan, v: View) {
    forall d: Kind -> bool :: Whole(Disconnect(plan, v, d).1)
  }

  /** Disconnect keeps references whole under all answers exactly when nothing forgotten refers to anything
      remembered. */
  lemma DisconnectIsSafe(plan: Plan, v: View)
    requires Good(plan) && InPlan(plan, v) && Whole(v)
    ensures DisconnectSafe(plan, v) <==> Apart(v)
  {
    assert plan.delete[0..] == plan.delete;
    if Apart(v) {
      forall d: Kind -> bool ensures Whole(Disconnect(plan, v, d).1) {
        DeletesKeepWhole(plan, 0, |plan.delete|, v, d);
      }
    } else {
      var all := (k: Kind) => true;
      DisconnectOutcome(plan, v, all);
      var k, n :| k in Forgotten(v) && n in Needs(k) && n in v.tracked;
      assert !Whole(Disconnect(plan, v, all).1);
    }
  }

  ghost predicate ConnectSafe(plan: Plan, v: View) {
    forall o: Kind -> bool, d: Kind -> bool :: Whole(Connect(plan, v, o, d).1)
  }

  /** Connect keeps references whole under all answers exactly when nothing forgotten refers to anything: or
      else a Connect that fails at creating the forgotten resource takes away what that refers to. */
  lemma ConnectIsSafe(plan: Plan, v: View)
    requires Good(plan) && InPlan(plan, v) && Whole(v)
    ensures ConnectSafe(plan, v) <==> Harmless(v)
  {
    if Harmless(v) {
      forall o: Kind -> bool, d: Kind -> bool ensures Whole(Connect(plan, v, o, d).1) {
        ConnectKeepsWhole(plan, v, o, d);
      }
    } else {
      var k :| k in Forgotten(v) && Needs(k) != {};
      ForgottenDangles(plan, v, k, x => x != k, x => true);
    }
  }

  lemma ConnectKeepsWhole(plan: Plan, v: View, o: Kind -> bool, d: Kind -> bool)
    requires Good(plan) && InPlan(plan, v) && Whole(v) && Harmless(v)
    ensures var v' := Connect(plan, v, o, d).1; Whole(v') && Harmless(v')
  {
    assert plan.delete[0..] == plan.delete;
    CreatesKeepWhole(plan, 0, |plan.create|, v, o);
    DeletesKeepWhole(plan, 0, |plan.delete|, Create(plan, 0, |plan.create|, v, o).1, d);
  }

  lemma ForgottenDangles(plan: Plan, v: View, k: Kind, o: Kind -> bool, d: Kind -> bool)
    requires Good(plan) && InPlan(plan, v) && k in Forgotten(v) && Needs(k) != {}
    requires forall x :: (o(x) <==> x != k) && d(x)
    ensures !Whole(Connect(plan, v, o, d).1)
  {
    assert k in v.tracked + v.existing;
    var i :| 0 <= i < |plan.create| && plan.create[i] == k;
    var n :| n in Needs(k);
    assert Before(plan.create, i, n);
    forall x <- plan.create[0..i] ensures o(x) {
      var j :| 0 <= j < i && plan.create[j] == x;
    }
    MadeUpTo(plan, 0, i, o, n);
    MadeInPlan(plan, 0, |plan.create|, o);
    ConnectOutcome(plan, v, o, d);
  }

  lemma {:induction false} MadeUpTo(plan: Plan, i: nat, m: nat, o: Kind -> bool, k: Kind)
    requires i <= m <= |plan.create| && k in plan.create[i..m] && forall x <- plan.create[i..m] :: o(x)
    ensures k in Made(plan, i, |plan.create|, o)
    decreases m - i
  {
    assert plan.create[i] in plan.create[i..m];
    if k != plan.create[i] {
      MadeUpTo(plan, i + 1, m, o, k);
    }
  }

  /******* Whole histories of one volume *******/

  /** A call, or a new initiator for the same volume that starts with some names: those that were stashed. */
  datatype Op =
    | ConnectOp(o: Kind -> bool, d: Kind -> bool)
    | DisconnectOp(d: Kind -> bool)
    | RebuildOp(names: set<Kind>)

  function Do(plan: Plan, v: View, op: Op): View {
    match op
    case ConnectOp(o, d) => Connect(plan, v, o, d).1
    case DisconnectOp(d) => Disconnect(plan, v, d).1
    case RebuildOp(names) => View(names, v.existing)
  }

  function After(plan: Plan, v: View, ops: seq<Op>): View {
    if ops == [] then v else Do(plan, After(plan, v, ops[..|ops| - 1]), ops[|ops| - 1])
  }

  /** Whenever an initiator is rebuilt, nothing refers to anything that it does not remember. */
  ghost predicate Careful(plan: Plan, v: View, ops: seq<Op>) {
    forall i :: 0 <= i < |ops| && ops[i].RebuildOp? ==>
      (forall k <- ops[i].names :: k in plan.create) && Harmless(After(plan, v, ops[..i + 1]))
  }

  ghost predicate Sound(plan: Plan, v: View) {
    Whole(v) && Harmless(v) && InPlan(plan, v)
  }

  lemma DoIsSound(plan: Plan, v: View, op: Op)
    requires Good(plan) && Sound(plan, v) && !op.RebuildOp?
    ensures Sound(plan, Do(plan, v, op))
    ensures v.tracked == v.existing ==> Do(plan, v, op).tracked == Do(plan, v, op).existing
  {
    assert plan.delete[0..] == plan.delete;
    match op
    case ConnectOp(o, d) =>
      ConnectKeepsWhole(plan, v, o, d);
      ConnectOutcome(plan, v, o, d);
      CreatesOutcome(plan, 0, |plan.create|, v, o);
      CreatesKeepWhole(plan, 0, |plan.create|, v, o);
      DisconnectOutcome(plan, Create(plan, 0, |plan.create|, v, o).1, d);
    case DisconnectOp(d) =>
      DeletesKeepWhole(plan, 0, |plan.delete|, v, d);
      DisconnectOutcome(plan, v, d);
  }

  /** Whatever the sequence of connects and disconnects, by one initiator or by several that are rebuilt
      with care, and whatever is answered: no reference dangles, after every call and, in the call that comes
      next, after every single RPC of it. The names of an initiator that is never rebuilt say exactly what
      exists. */
  lemma {:induction false} NeverDangling(plan: Plan, ops: seq<Op>, o: Kind -> bool, d: Kind -> bool, m: nat, n: nat)
    requires Good(plan) && Careful(plan, View({}, {}), ops) && m <= |plan.create| && n <= |plan.delete|
    ensures var v := After(plan, View({}, {}), ops);
            var v1 := Create(plan, 0, m, v, o).1;
            && Sound(plan, v) && Whole(v1)
            && Whole(Delete(plan, 0, n, v, d).1)     // Disconnect, after n deletions
            && Whole(Delete(plan, 0, n, v1, d).1)    // Connect that failed after m creations, after n deletions
            && ((forall op <- ops :: !op.RebuildOp?) ==> v.tracked == v.existing)
  {
    assert plan.delete[0..] == plan.delete;
    HistoryIsSound(plan, ops);
    var v := After(plan, View({}, {}), ops);
    CreatesKeepWhole(plan, 0, m, v, o);
    DeletesKeepWhole(plan, 0, n, v, d);
    DeletesKeepWhole(plan, 0, n, Create(plan, 0, m, v, o).1, d);
  }

  lemma {:induction false} HistoryIsSound(plan: Plan, ops: seq<Op>)
    requires Good(plan) && Careful(plan, View({}, {}), ops)
    ensures var v := After(plan, View({}, {}), ops);
            Sound(plan, v) && ((forall op <- ops :: !op.RebuildOp?) ==> v.tracked == v.existing)
  {
    if ops != [] {
      var before, last := ops[..|ops| - 1], ops[|ops| - 1];
      forall i | 0 <= i < |before| && before[i].RebuildOp?
        ensures (forall k <- before[i].names :: k in plan.create) &&
                Harmless(After(plan, View({}, {}), before[..i + 1]))
      {
        assert before[i] == ops[i] && before[..i + 1] == ops[..i + 1];
      }
      HistoryIsSound(plan, before);
      if last.RebuildOp? {
        assert ops[..|ops| - 1 + 1] == ops;
      } else {
        DoIsSound(plan, After(plan, View({}, {}), before), last);
      }
    }
  }

  /** Careless rebuilding: a Disconnect fails at the controller, the names are lost, and the next Connect,
      failing at the controller too, deletes the subsystem under it with every delete answered. */
  lemma LostNamesDangle(all: Kind -> bool, but: Kind -> bool)
    requires forall k :: all(k) && (but(k) <==> k != Controller)
    ensures var v := After(NVME, View({}, {}),
                           [ConnectOp(all, all), DisconnectOp(but), RebuildOp({}), ConnectOp(but, all)]);
            v == View({}, {Controller}) && !Whole(v)
  {
    var v0, full := View({}, {}), {Subsystem, Controller, RemoteController, Path, Namespace};
    AfterFour(NVME, v0, ConnectOp(all, all), DisconnectOp(but), RebuildOp({}), ConnectOp(but, all));
    NvmeIsGood();
    ConnectsFully(NVME, all, full);
    FailsAtController(but);
    StopsAtController(but, all);
  }

  lemma StopsAtController(o: Kind -> bool, all: Kind -> bool)
    requires forall k :: all(k) && (o(k) <==> k != Controller)
    ensures Connect(NVME, View({}, {Controller, Subsystem}), o, all).1 == View({}, {Controller})
  {
    var v := View({}, {Controller, Subsystem});
    NvmeIsGood();
    ConnectOutcome(NVME, v, o, all);
    assert Made(NVME, 0, 5, o) == {Subsystem};
    assert v.existing - v.tracked - {Subsystem} == {Controller};
  }

  lemma AfterFour(plan: Plan, v: View, a: Op, b: Op, c: Op, d: Op)
    ensures After(plan, v, [a, b, c, d]) == Do(plan, Do(plan, Do(plan, Do(plan, v, a), b), c), d)
  {
    assert [a, b, c, d][..3] == [a, b, c] && [a, b, c][..2] == [a, b] && [a, b][..1] == [a] && [a][..0] == [];
    assert After(plan, v, [a]) == Do(plan, v, a);
    assert After(plan, v, [a, b]) == Do(plan, Do(plan, v, a), b);
    assert After(plan, v, [a, b, c]) == Do(plan, Do(plan, Do(plan, v, a), b), c);
  }

  /** With every creation answered an initiator comes to hold all of the plan. */
  lemma ConnectsFully(plan: Plan, all: Kind -> bool, full: set<Kind>)
    requires Good(plan) && (forall k :: all(k)) && forall k :: k in full <==> k in plan.create
    ensures Connect(plan, View({}, {}), all, all).1 == View(full, full)
  {
    var made := Made(plan, 0, |plan.create|, all);
    ConnectOutcome(plan, View({}, {}), all, all);
    MadeInPlan(plan, 0, |plan.create|, all);
    assert plan.create[0..] == plan.create;
    forall k <- full ensures k in made { MadeAll(plan, 0, all, k); }
    assert made == full;
  }

  lemma FailsAtController(d: Kind -> bool)
    requires d(Namespace) && d(Path) && d(RemoteController) && !d(Controller)
    ensures var full := {Subsystem, Controller, RemoteController, Path, Namespace};
            Disconnect(NVME, View(full, full), d) == (false, View({Controller, Subsystem}, {Controller, Subsystem}))
  {
    var full := {Subsystem, Controller, RemoteController, Path, Namespace};
    var v := View(full, full);
    var v1 := View(full - {Namespace}, full - {Namespace});
    DeleteStep(NVME, 0, v, d, true, v1);
    var v2 := View(v1.tracked - {Path}, v1.existing - {Path});
    DeleteStep(NVME, 1, v1, d, true, v2);
    var v3 := View(v2.tracked - {RemoteController}, v2.existing - {RemoteController});
    DeleteStep(NVME, 2, v2, d, true, v3);
    DeleteStep(NVME, 3, v3, d, false, v3);
    assert v3.tracked == {Controller, Subsystem};
  }

  /******* Retrying Disconnect *******/

  /** The first delete that a Disconnect issues, if it issues any, is answered. */
  predicate FirstAnswered(plan: Plan, i: nat, v: View, d: Kind -> bool)
    requires i <= |plan.delete|
    decreases |plan.delete| - i
  {
    i == |plan.delete| ||
    if plan.delete[i] in v.tracked then d(plan.delete[i]) else FirstAnswered(plan, i + 1, v, d)
  }

  lemma {:induction false} DeletesMakeProgress(plan: Plan, i: nat, v: View, d: Kind -> bool)
    requires i <= |plan.delete|
    ensures var v' := Delete(plan, i, |plan.delete|, v, d).1;
            && v'.tracked <= v.tracked
            && (FirstAnswered(plan, i, v, d) && (exists k <- v.tracked :: k in plan.delete[i..]) ==>
                v'.tracked < v.tracked)
    decreases |plan.delete| - i
  {
    if i < |plan.delete| {
      var k := plan.delete[i];
      assert plan.delete[i..] == [k] + plan.delete[i + 1..];
      if k !in v.tracked {
        DeletesMakeProgress(plan, i + 1, v, d);
      } else if d(k) {
        DeletesMakeProgress(plan, i + 1, View(v.tracked - {k}, v.existing - {k}), d);
      }
    }
  }

  function Retry(plan: Plan, v: View, ds: seq<Kind -> bool>): View
    decreases |ds|
  {
    if ds == [] then v else Retry(plan, Disconnect(plan, v, ds[0]).1, ds[1..])
  }

  predicate EachAnswered(plan: Plan, v: View, ds: seq<Kind -> bool>)
    decreases |ds|
  {
    ds == [] || (FirstAnswered(plan, 0, v, ds[0]) && EachAnswered(plan, Disconnect(plan, v, ds[0]).1, ds[1..]))
  }

  /** Repeated Disconnects delete everything that was remembered, however each is cut short, after at most
      as many calls as there were names, as long as each call gets its first delete answered. */
  lemma {:induction false} RetriesConverge(plan: Plan, v: View, ds: seq<Kind -> bool>)
    requires Good(plan) && InPlan(plan, v) && EachAnswered(plan, v, ds) && |ds| >= |v.tracked|
    ensures Retry(plan, v, ds) == View({}, v.existing - v.tracked)
    decreases |ds|
  {
    if ds != [] {
      var v1 := Disconnect(plan, v, ds[0]).1;
      DisconnectOutcome(plan, v, ds[0]);
      DeletesMakeProgress(plan, 0, v, ds[0]);
      if v.tracked == {} {
        SmallerSet(v1.tracked, v.tracked);
      } else {
        var k :| k in v.tracked;
        assert k in plan.delete[0..];
        SmallerSet(v1.tracked, v.tracked);
      }
      RetriesConverge(plan, v1, ds[1..]);
    }
  }

  lemma SmallerSet(a: set<Kind>, b: set<Kind>)
    requires a <= b
    ensures |a| <= |b| && (a != b ==> |a| < |b|)
  {
    assert b == a + (b - a) && a !! b - a;
  }
}
