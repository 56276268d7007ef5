/**
 Any number of node-server calls about any number of volumes, interleaved operation by operation under
 the per-volume locks, with every operation on the host free to fail except the stashing of a context.
 */
module StagingRuns {
  import opened NodeStaging

  datatype Thread = Thread(r: Request, pc: Pc, inside: bool)

  datatype State = State(host: Host, locks: map<string, nat>, threads: map<nat, Thread>)

  predicate IsStart(pc: Pc) {
    pc in {StageCheck, UnstageCheck, MakeTarget, FindTarget}
  }

  /** A volume keeps to one staging parent of its own, and nobody publishes at a staging path. */
  ghost predicate Separate(threads: map<nat, Thread>) {
    && (forall i <- threads :: '/' !in threads[i].r.vol)
    && (forall i <- threads, j <- threads ::
         (threads[i].r.vol == threads[j].r.vol) == (threads[i].r.parent == threads[j].r.parent))
    && (forall i <- threads, j <- threads :: threads[i].r.target != StagingPath(threads[j].r))
  }

  datatype Action = Enter(i: nat) | Move(i: nat, a: Answer) | Leave(i: nat)

  predicate Act(s: State, act: Action, s': State) {
    act.i in s.threads &&
    var i, t := act.i, s.threads[act.i];
    match act
    case Enter(_) =>
      && !t.inside && IsStart(t.pc) && t.r.vol !in s.locks
      && s' == s.(locks := s.locks[t.r.vol := i], threads := s.threads[i := t.(inside := true)])
    case Move(_, a) =>
      && t.inside && !t.pc.Done? && (t.pc.Stash? ==> a == Ok)
      && var (pc', h') := Step(t.pc, s.host, t.r, a);
         s' == s.(host := h', threads := s.threads[i := t.(pc := pc')])
    case Leave(_) =>
      t.inside && t.pc.Done? && s' == s.(locks := s.locks - {t.r.vol}, threads := s.threads[i := t.(inside := false)])
  }

  ghost predicate Next(s: State, s': State) {
    exists act :: Act(s, act, s')
  }

  ghost predicate Init(s: State) {
    && s.locks == map[] && Separate(s.threads)
    && forall i <- s.threads ::
         var t := s.threads[i];
         !t.inside && IsStart(t.pc) && Good(s.host, t.r) && OwnStash(s.host, t.r) && Rooted(s.host, StagingPath(t.r))
  }

  ghost predicate IsRun(run: seq<State>) {
    run != [] && Init(run[0]) && forall k :: 0 <= k < |run| - 1 ==> Next(run[k], run[k + 1])
  }

  /** What a handler that holds its volume's lock can rely on. */
  predicate Relies(pc: Pc, h: Host, r: Request) {
    && OwnStash(h, r) && Rooted(h, StagingPath(r))
    && match pc
       case Connect => !Mounted(h, r)
       case MakeMountPoint => !Mounted(h, r) && r.vol in h.connected
       case Mount => !Mounted(h, r) && r.vol in h.connected && StagingPath(r) in h.dirs
       case Stash => r.vol in h.connected
       case Undo => !Mounted(h, r)
       case RemoveMountPoint => !Mounted(h, r)
       case Lookup => !Mounted(h, r)
       case Disconnect(vol) => !Mounted(h, r) && vol == r.vol
       case CleanUp => !Mounted(h, r)
       case _ => Good(h, r)
  }

  lemma StepKeepsReliance(pc: Pc, h: Host, r: Request, a: Answer)
    requires Relies(pc, h, r) && r.target != StagingPath(r) && (pc.Stash? ==> a == Ok)
    ensures var (pc', h') := Step(pc, h, r, a); Relies(pc', h', r)
  {
  }

  /** A handler for one volume leaves alone what handlers for other volumes rely on. */
  lemma StepLeavesOthers(pc: Pc, h: Host, r: Request, a: Answer, pc2: Pc, r2: Request)
    requires Relies(pc, h, r) && Relies(pc2, h, r2)
    requires '/' !in r.vol && '/' !in r2.vol && r.vol != r2.vol && r.parent != r2.parent && r.target != StagingPath(r2)
    ensures Relies(pc2, Step(pc, h, r, a).1, r2)
  {
    if StagingPath(r) == StagingPath(r2) {
      StagingPathsDiffer(r, r2);
    }
  }

  /** Threads inside hold their volume's lock. */
  predicate Locked(s: State) {
    forall i <- s.threads :: s.threads[i].inside ==> s.threads[i].r.vol in s.locks && s.locks[s.threads[i].r.vol] == i
  }

  predicate Reliable(s: State) {
    && (forall i <- s.threads :: s.threads[i].inside ==> Relies(s.threads[i].pc, s.host, s.threads[i].r))
    && (forall i <- s.threads :: s.threads[i].r.vol !in s.locks ==> Relies(Done(false), s.host, s.threads[i].r))
  }

  ghost predicate Inv(s: State) {
    Separate(s.threads) && Locked(s) && Reliable(s)
  }

  predicate SameRequests(threads: map<nat, Thread>, threads': map<nat, Thread>) {
    threads'.Keys == threads.Keys && forall i <- threads :: threads'[i].r == threads[i].r
  }

  lemma ActKeepsRequests(s: State, act: Action, s': State)
    requires Act(s, act, s')
    ensures SameRequests(s.threads, s'.threads)
  {
  }

  lemma SameRequestsAreSeparate(threads: map<nat, Thread>, threads': map<nat, Thread>)
    requires Separate(threads) && SameRequests(threads, threads')
    ensures Separate(threads')
  {
  }

  lemma ActKeepsLocks(s: State, act: Action, s': State)
    requires Locked(s) && Act(s, act, s') && SameRequests(s.threads, s'.threads)
    ensures Locked(s')
  {
  }

  lemma LocksKeepReliance(s: State, act: Action, s': State)
    requires Inv(s) && Act(s, act, s') && !act.Move?
    ensures Reliable(s')
  {
    var t := s.threads[act.i];
    forall j <- s'.threads
      ensures s'.threads[j].inside ==> Relies(s'.threads[j].pc, s'.host, s'.threads[j].r)
      ensures s'.threads[j].r.vol !in s'.locks ==> Relies(Done(false), s'.host, s'.threads[j].r)
    {
      assert s'.threads[j].r == s.threads[j].r;
      if act.Leave? && s.threads[j].r.vol == t.r.vol {
        assert s.threads[j].r.parent == t.r.parent;
      }
    }
  }

  lemma MoveKeepsReliance(s: State, act: Action, s': State)
    requires Inv(s) && Act(s, act, s') && act.Move?
    ensures Reliable(s')
  {
    var t := s.threads[act.i];
    StepKeepsReliance(t.pc, s.host, t.r, act.a);
    forall j <- s'.threads
      ensures s'.threads[j].inside ==> Relies(s'.threads[j].pc, s'.host, s'.threads[j].r)
      ensures s'.threads[j].r.vol !in s'.locks ==> Relies(Done(false), s'.host, s'.threads[j].r)
    {
      var u := s.threads[j];
      if j != act.i && u.r.vol != t.r.vol {
        if u.inside {
          StepLeavesOthers(t.pc, s.host, t.r, act.a, u.pc, u.r);
        }
        if u.r.vol !in s.locks {
          StepLeavesOthers(t.pc, s.host, t.r, act.a, Done(false), u.r);
        }
      }
    }
  }

  lemma {:induction false} RunKeepsInv(run: seq<State>, k: nat)
    requires IsRun(run) && k < |run|
    ensures Inv(run[k])
  {
    if k > 0 {
      RunKeepsInv(run, k - 1);
      assert Next(run[k - 1], run[k - 1 + 1]);
      var act :| Act(run[k - 1], act, run[k]);
      ActKeepsRequests(run[k - 1], act, run[k]);
      SameRequestsAreSeparate(run[k - 1].threads, run[k].threads);
      ActKeepsLocks(run[k - 1], act, run[k]);
      if act.Move? {
        MoveKeepsReliance(run[k - 1], act, run[k]);
      } else {
        LocksKeepReliance(run[k - 1], act, run[k]);
      }
    }
  }

  /******* Runs get somewhere *******/

  predicate Finished(t: Thread) {
    !t.inside && t.pc.Done?
  }

  /** A bound on a thread's remaining actions. */
  function ActionsLeft(t: Thread): nat {
    if t.inside then Rank(t.pc) + 1 else if t.pc.Done? then 0 else Rank(t.pc) + 2
  }

  lemma ActionsAreUsedUp(s: State, act: Action, s': State)
    requires Act(s, act, s')
    ensures s'.threads.Keys == s.threads.Keys && ActionsLeft(s'.threads[act.i]) < ActionsLeft(s.threads[act.i])
    ensures forall j <- s.threads :: j != act.i ==> s'.threads[j] == s.threads[j]
  {
  }

  /** A lock is held by a thread inside, and a thread outside has not begun or has finished. */
  predicate Held(s: State) {
    && (forall vol <- s.locks ::
          var i := s.locks[vol]; i in s.threads && s.threads[i].inside && s.threads[i].r.vol == vol)
    && (forall i <- s.threads :: s.threads[i].inside || s.threads[i].pc.Done? || IsStart(s.threads[i].pc))
  }

  lemma ActKeepsHeld(s: State, act: Action, s': State)
    requires Held(s) && Locked(s) && Act(s, act, s')
    ensures Held(s')
  {
  }

  lemma {:induction false} RunKeepsHeld(run: seq<State>, k: nat)
    requires IsRun(run) && k < |run|
    ensures Held(run[k]) && Locked(run[k])
  {
    if k > 0 {
      RunKeepsHeld(run, k - 1);
      assert Next(run[k - 1], run[k - 1 + 1]);
      var act :| Act(run[k - 1], act, run[k]);
      ActKeepsHeld(run[k - 1], act, run[k]);
      ActKeepsRequests(run[k - 1], act, run[k]);
      ActKeepsLocks(run[k - 1], act, run[k]);
    }
  }

  /** Deadlock freedom: as long as some call has not finished, a thread that is inside can take its next
      step, whatever is answered, or leave, or that call can enter. */
  lemma NobodyIsStuck(run: seq<State>, k: nat, i: nat, a: Answer) returns (act: Action, s': State)
    requires IsRun(run) && k < |run| && i in run[k].threads && !Finished(run[k].threads[i])
    ensures Act(run[k], act, s')
    ensures act.Move? ==> act.a == if run[k].threads[act.i].pc.Stash? then Ok else a
  {
    RunKeepsHeld(run, k);
    var s := run[k];
    var vol := s.threads[i].r.vol;
    var j := if !s.threads[i].inside && vol in s.locks then s.locks[vol] else i;
    var t := s.threads[j];
    if !t.inside {
      act := Enter(j);
      s' := s.(locks := s.locks[t.r.vol := j], threads := s.threads[j := t.(inside := true)]);
    } else if t.pc.Done? {
      act := Leave(j);
      s' := s.(locks := s.locks - {t.r.vol}, threads := s.threads[j := t.(inside := false)]);
    } else {
      act := Move(j, if t.pc.Stash? then Ok else a);
      var (pc', h') := Step(t.pc, s.host, t.r, act.a);
      s' := s.(host := h', threads := s.threads[j := t.(pc := pc')]);
    }
  }

  /** Whenever nobody holds a volume's lock: if the volume is mounted at its staging path then its device
      is connected and its context stashed. */
  lemma MountedMeansUsable(run: seq<State>, k: nat, i: nat)
    requires IsRun(run) && k < |run| && i in run[k].threads
    ensures var s, r := run[k], run[k].threads[i].r;
            r.vol !in s.locks && Mounted(s.host, r) ==> r.vol in s.host.connected && Stashed(s.host, r)
  {
    RunKeepsInv(run, k);
  }
}
