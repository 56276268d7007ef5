/**
 What concurrent publishes share on one storage node: the iSCSI groups, made by get-create-get, and the
 NVMe-oF transport, made by whoever comes first. Any number of calls about different volumes run
 interleaved, RPC by RPC.
 */
module SharedSetup {
  import opened NodeIscsi

  /******* iSCSI groups *******/

  datatype Thread = Thread(id: string, pc: Pc)

  datatype State = State(t: Target, threads: map<nat, Thread>)

  /** Thread `i` makes its next RPC. */
  predicate Step(s: State, i: nat, answered: bool, s': State) {
    i in s.threads && Rank(s.threads[i].pc) > 0 &&
    var (pc', t') := PublishStep(s.threads[i].pc, s.t, s.threads[i].id, answered);
    s' == State(t', s.threads[i := s.threads[i].(pc := pc')])
  }

  /** With `faults`, an RPC may go unanswered. */
  ghost predicate Next(faults: bool, s: State, s': State) {
    exists i, answered :: (answered || faults) && Step(s, i, answered, s')
  }

  ghost predicate Init(s: State) {
    && s.t.portalGroups[TAG] <= 1 && s.t.initiatorGroups[TAG] <= 1
    && (forall i <- s.threads :: s.threads[i].pc == CheckVolume)
    && (forall i <- s.threads, j <- s.threads :: i != j ==> s.threads[i].id != s.threads[j].id)
  }

  ghost predicate IsRun(faults: bool, run: seq<State>) {
    run != [] && Init(run[0]) && forall k :: 0 <= k < |run| - 1 ==> Next(faults, run[k], run[k + 1])
  }

  /** What a caller knows at each point: a creation that was answered and still rejected means that the
      group is there. */
  predicate Knows(faults: bool, t: Target, th: Thread) {
    var portal, initiator := TAG in t.portalGroups, TAG in t.initiatorGroups;
    match th.pc
    case CheckVolume => true
    case CheckNode => th.id in t.lvols
    case GetPortal => th.id in t.lvols && th.id !in t.nodes
    case MakePortal => th.id in t.lvols && th.id !in t.nodes
    case GetPortalAgain => th.id in t.lvols && th.id !in t.nodes && (faults || portal)
    case GetInitiator => th.id in t.lvols && th.id !in t.nodes && portal
    case MakeInitiator => th.id in t.lvols && th.id !in t.nodes && portal
    case GetInitiatorAgain => th.id in t.lvols && th.id !in t.nodes && portal && (faults || initiator)
    case MakeNode => th.id in t.lvols && th.id !in t.nodes && portal && initiator
    case Published => th.id in t.lvols && th.id in t.nodes
    case PublishFailed => faults || th.id !in t.lvols
  }

  ghost predicate Inv(faults: bool, s: State) {
    && s.t.portalGroups[TAG] <= 1 && s.t.initiatorGroups[TAG] <= 1
    && (forall i <- s.threads :: Knows(faults, s.t, s.threads[i]))
    && (forall i <- s.threads, j <- s.threads :: i != j ==> s.threads[i].id != s.threads[j].id)
  }

  lemma OthersStillKnow(faults: bool, pc: Pc, t: Target, id: string, answered: bool, th: Thread)
    requires Knows(faults, t, th) && th.id != id
    ensures Knows(faults, PublishStep(pc, t, id, answered).1, th)
  {
  }

  lemma StepKeepsInv(faults: bool, s: State, i: nat, answered: bool, s': State)
    requires Inv(faults, s) && Step(s, i, answered, s') && (answered || faults)
    ensures Inv(faults, s')
    ensures s'.t.lvols == s.t.lvols
    ensures forall tag: int :: tag != TAG ==>
              s'.t.portalGroups[tag] == s.t.portalGroups[tag] && s'.t.initiatorGroups[tag] == s.t.initiatorGroups[tag]
  {
    var th := s.threads[i];
    forall j <- s.threads | j != i ensures Knows(faults, s'.t, s.threads[j]) {
      OthersStillKnow(faults, th.pc, s.t, th.id, answered, s.threads[j]);
    }
  }

  lemma {:induction false} RunKeepsInv(faults: bool, run: seq<State>, k: nat)
    requires IsRun(faults, run) && k < |run|
    ensures Inv(faults, run[k]) && run[k].t.lvols == run[0].t.lvols
    ensures forall tag: int :: tag != TAG ==>
              && run[k].t.portalGroups[tag] == run[0].t.portalGroups[tag]
              && run[k].t.initiatorGroups[tag] == run[0].t.initiatorGroups[tag]
  {
    if k > 0 {
      RunKeepsInv(faults, run, k - 1);
      assert Next(faults, run[k - 1], run[k - 1 + 1]);
      var i, answered :| (answered || faults) && Step(run[k - 1], i, answered, run[k]);
      StepKeepsInv(faults, run[k - 1], i, answered, run[k]);
    }
  }

  /** No publish waits for another, and each comes to its end, whatever is answered. */
  lemma PublishesReturn(s: State, i: nat, answered: bool) returns (s': State)
    requires i in s.threads && !s.threads[i].pc.Published? && !s.threads[i].pc.PublishFailed?
    ensures Step(s, i, answered, s') && s'.threads.Keys == s.threads.Keys
    ensures Rank(s'.threads[i].pc) < Rank(s.threads[i].pc)
    ensures forall j <- s.threads :: j != i ==> s'.threads[j] == s.threads[j]
  {
    var (pc', t') := PublishStep(s.threads[i].pc, s.t, s.threads[i].id, answered);
    s' := State(t', s.threads[i := s.threads[i].(pc := pc')]);
  }

  /** However the calls interleave, no group is made twice and no other group is touched. If the target
      answers, nobody's publish fails that has a volume; and under any faults whoever got as far as the
      target node found exactly one group of each kind. */
  lemma GroupsAreMadeOnce(faults: bool, run: seq<State>, k: nat, i: nat)
    requires IsRun(faults, run) && k < |run| && i in run[k].threads
    ensures var t, th := run[k].t, run[k].threads[i];
            && t.portalGroups[TAG] <= 1 && t.initiatorGroups[TAG] <= 1
            && (forall tag: int :: tag != TAG ==> t.portalGroups[tag] == run[0].t.portalGroups[tag])
            && (forall tag: int :: tag != TAG ==> t.initiatorGroups[tag] == run[0].t.initiatorGroups[tag])
            && (th.pc.PublishFailed? ==> faults || th.id !in run[0].t.lvols)
            && (th.pc.Published? ==> th.id in t.nodes)
            && (th.pc.MakeNode? ==> t.portalGroups[TAG] == 1 && t.initiatorGroups[TAG] == 1)
  {
    RunKeepsInv(faults, run, k);
  }

  /******* The NVMe-oF transport *******/

  /** createTransport: look at the handle's flag, issue the RPC, set the flag. */
  datatype TransportPc = Load | Call | Store | Returned(ok: bool)

  datatype Caller = Caller(handle: nat, trtype: string, pc: TransportPc)

  datatype Transports = Transports(existing: set<string>, flags: map<nat, bool>, callers: map<nat, Caller>)

  /** A transport that exists already is as good as one created. */
  predicate CreateStep(s: Transports, i: nat, answered: bool, s': Transports) {
    i in s.callers && s.callers[i].handle in s.flags &&
    var c := s.callers[i];
    match c.pc
    case Load =>
      s' == s.(callers := s.callers[i := c.(pc := if s.flags[c.handle] then Returned(true) else Call)])
    case Call =>
      if answered
      then s' == s.(existing := s.existing + {c.trtype}, callers := s.callers[i := c.(pc := Store)])
      else s' == s.(callers := s.callers[i := c.(pc := Returned(false))])
    case Store =>
      s' == s.(flags := s.flags[c.handle := true], callers := s.callers[i := c.(pc := Returned(true))])
    case Returned(_) => false
  }

  ghost predicate CreateNext(faults: bool, s: Transports, s': Transports) {
    exists i, answered :: (answered || faults) && CreateStep(s, i, answered, s')
  }

  /** Callers that share a handle want its transport. */
  predicate OneTypeEach(s: Transports) {
    forall i <- s.callers, j <- s.callers :: s.callers[i].handle == s.callers[j].handle ==>
      s.callers[i].trtype == s.callers[j].trtype
  }

  ghost predicate IsCreateRun(faults: bool, run: seq<Transports>) {
    && run != [] && OneTypeEach(run[0])
    && (forall i <- run[0].callers :: run[0].callers[i].pc == Load)
    && (forall h <- run[0].flags :: !run[0].flags[h])
    && forall k :: 0 <= k < |run| - 1 ==> CreateNext(faults, run[k], run[k + 1])
  }

  ghost predicate TransportInv(faults: bool, s: Transports) {
    && OneTypeEach(s)
    && (forall i <- s.callers ::
          var c := s.callers[i];
          && (c.handle in s.flags && s.flags[c.handle] ==> c.trtype in s.existing)
          && (c.pc.Store? || c.pc == Returned(true) ==> c.trtype in s.existing)
          && (c.pc == Returned(true) && c.handle in s.flags ==> s.flags[c.handle])
          && (c.pc == Returned(false) ==> faults))
  }

  lemma CreateKeepsInv(faults: bool, s: Transports, i: nat, answered: bool, s': Transports)
    requires TransportInv(faults, s) && CreateStep(s, i, answered, s') && (answered || faults)
    ensures TransportInv(faults, s')
  {
  }

  /** Once a handle's flag is set, whoever has not begun yet returns with success and without an RPC. */
  lemma {:induction false} NoSecondCall(faults: bool, run: seq<Transports>, j: nat, k: nat, i: nat)
    requires IsCreateRun(faults, run) && j <= k < |run| && i in run[j].callers && run[j].callers[i].pc.Load?
    requires var h := run[j].callers[i].handle; h in run[j].flags && run[j].flags[h]
    ensures i in run[k].callers && run[k].callers[i].handle == run[j].callers[i].handle
    ensures var c := run[k].callers[i];
            (c.pc.Load? || c.pc == Returned(true)) && c.handle in run[k].flags && run[k].flags[c.handle]
  {
    if j < k {
      NoSecondCall(faults, run, j, k - 1, i);
      assert CreateNext(faults, run[k - 1], run[k - 1 + 1]);
    }
  }

  function TransportLeft(pc: TransportPc): nat {
    match pc
    case Load => 3
    case Call => 2
    case Store => 1
    case Returned(_) => 0
  }

  /** No call waits for another, and each comes to its end: in at most three steps of its own, and with
      success if the RPC is answered. */
  lemma CallsReturn(s: Transports, i: nat, answered: bool) returns (s': Transports)
    requires i in s.callers && s.callers[i].handle in s.flags && !s.callers[i].pc.Returned?
    ensures CreateStep(s, i, answered, s') && s'.callers.Keys == s.callers.Keys
    ensures TransportLeft(s'.callers[i].pc) < TransportLeft(s.callers[i].pc)
    ensures answered ==> s'.callers[i].pc != Returned(false)
    ensures forall s'' :: CreateStep(s, i, answered, s'') ==> s'' == s'
  {
    var c := s.callers[i];
    match c.pc
    case Load => s' := s.(callers := s.callers[i := c.(pc := if s.flags[c.handle] then Returned(true) else Call)]);
    case Call =>
      s' := if answered then s.(existing := s.existing + {c.trtype}, callers := s.callers[i := c.(pc := Store)])
            else s.(callers := s.callers[i := c.(pc := Returned(false))]);
    case Store =>
      s' := s.(flags := s.flags[c.handle := true], callers := s.callers[i := c.(pc := Returned(true))]);
  }

  /** However the calls interleave: a handle's flag is only ever set when the transport exists, success
      means that it exists and that the flag is set, and nobody fails unless an RPC goes unanswered. */
  lemma {:induction false} TransportIsThere(faults: bool, run: seq<Transports>, k: nat)
    requires IsCreateRun(faults, run) && k < |run|
    ensures TransportInv(faults, run[k])
  {
    if k > 0 {
      TransportIsThere(faults, run, k - 1);
      assert CreateNext(faults, run[k - 1], run[k - 1 + 1]);
      var i, answered :| (answered || faults) && CreateStep(run[k - 1], i, answered, run[k]);
      CreateKeepsInv(faults, run[k - 1], i, answered, run[k]);
    }
  }
}
