/**
 The driver's locks under any number of threads: `VolumeLocks.Lock` looks its mutex up in a shared
 table, storing a new one if there is none, and then acquires it, in two separate steps; a handler
 that connects a PCI device takes the process-wide `phyIDLock` inside.
 */
module VolumeLocks {
  type Mutex = nat

  datatype Pc =
    | Start
    | LookedUp(m: Mutex)
    | Inside(m: Mutex)      // in the handler, before phyIDLock if it takes it
    | InPhy(m: Mutex)
    | Leaving(m: Mutex)
    | Done

  datatype Thread = Thread(id: string, takesPhy: bool, pc: Pc)

  /** `next` is a mutex not yet in the table. A mutex absent from `owner` is free. */
  datatype State = State(table: map<string, Mutex>, next: Mutex, owner: map<Mutex, nat>,
                         phy: set<nat>, threads: seq<Thread>)

  function SetPc(s: State, i: nat, pc: Pc): State
    requires i < |s.threads|
  {
    s.(threads := s.threads[i := s.threads[i].(pc := pc)])
  }

  predicate Enabled(s: State, i: nat) {
    i < |s.threads| &&
    match s.threads[i].pc
    case Start => true
    case LookedUp(m) => m !in s.owner
    case Inside(m) => s.threads[i].takesPhy ==> s.phy == {}
    case InPhy(m) => true
    case Leaving(m) => true
    case Done => false
  }

  /** What thread `i` does next. */
  function Advance(s: State, i: nat): State
    requires Enabled(s, i)
  {
    var th := s.threads[i];
    match th.pc
    case Start =>   // LoadOrStore
      if th.id in s.table then SetPc(s, i, LookedUp(s.table[th.id]))
      else SetPc(s.(table := s.table[th.id := s.next], next := s.next + 1), i, LookedUp(s.next))
    case LookedUp(m) => SetPc(s.(owner := s.owner[m := i]), i, Inside(m))
    case Inside(m) => if th.takesPhy then SetPc(s.(phy := {i}), i, InPhy(m)) else SetPc(s, i, Leaving(m))
    case InPhy(m) => SetPc(s.(phy := {}), i, Leaving(m))
    case Leaving(m) => SetPc(s.(owner := s.owner - {m}), i, Done)
  }

  ghost predicate Next(s: State, s': State) {
    exists i: nat :: Enabled(s, i) && s' == Advance(s, i)
  }

  /** The table may already hold mutexes of earlier calls, all of them free. */
  predicate Init(s: State) {
    && s.owner == map[] && s.phy == {} && (forall th <- s.threads :: th.pc == Start)
    && (forall id <- s.table :: s.table[id] < s.next)
    && (forall a <- s.table, b <- s.table :: s.table[a] == s.table[b] ==> a == b)
  }

  ghost predicate IsRun(run: seq<State>) {
    run != [] && Init(run[0]) && forall k :: 0 <= k < |run| - 1 ==> Next(run[k], run[k + 1])
  }

  predicate HasMutex(pc: Pc) {
    !pc.Start? && !pc.Done?
  }

  predicate InHandler(pc: Pc) {
    pc.Inside? || pc.InPhy? || pc.Leaving?
  }

  predicate TableInv(s: State) {
    && (forall id <- s.table :: s.table[id] < s.next)
    && (forall a <- s.table, b <- s.table :: s.table[a] == s.table[b] ==> a == b)
    && (forall i | 0 <= i < |s.threads| && HasMutex(s.threads[i].pc) ::
          s.threads[i].id in s.table && s.table[s.threads[i].id] == s.threads[i].pc.m)
  }

  predicate OwnerInv(s: State) {
    && (forall i | 0 <= i < |s.threads| && InHandler(s.threads[i].pc) ::
          s.threads[i].pc.m in s.owner && s.owner[s.threads[i].pc.m] == i)
    && (forall m <- s.owner :: s.owner[m] < |s.threads| &&
         InHandler(s.threads[s.owner[m]].pc) && s.threads[s.owner[m]].pc.m == m)
  }

  predicate PhyInv(s: State) {
    && (forall i | 0 <= i < |s.threads| :: s.threads[i].pc.InPhy? <==> i in s.phy)
    && (forall i <- s.phy :: i < |s.threads| && s.phy == {i})
  }

  predicate Inv(s: State) {
    TableInv(s) && OwnerInv(s) && PhyInv(s)
  }

  lemma AdvanceKeepsTable(s: State, i: nat)
    requires TableInv(s) && Enabled(s, i)
    ensures TableInv(Advance(s, i))
  {
  }

  lemma AdvanceKeepsOwner(s: State, i: nat)
    requires OwnerInv(s) && Enabled(s, i)
    ensures OwnerInv(Advance(s, i))
  {
  }

  lemma AdvanceKeepsPhy(s: State, i: nat)
    requires PhyInv(s) && Enabled(s, i)
    ensures PhyInv(Advance(s, i))
  {
  }

  lemma {:induction false} RunsKeepInv(run: seq<State>, k: nat)
    requires IsRun(run) && k < |run|
    ensures Inv(run[k]) && |run[k].threads| == |run[0].threads|
  {
    if k > 0 {
      RunsKeepInv(run, k - 1);
      assert Next(run[k - 1], run[k - 1 + 1]);
      var i: nat :| Enabled(run[k - 1], i) && run[k] == Advance(run[k - 1], i);
      AdvanceKeepsTable(run[k - 1], i);
      AdvanceKeepsOwner(run[k - 1], i);
      AdvanceKeepsPhy(run[k - 1], i);
    }
  }

  /** At most one thread is inside a handler for any volume, and at most one holds phyIDLock. */
  lemma MutualExclusion(run: seq<State>, k: nat, i: nat, j: nat)
    requires IsRun(run) && k < |run| && i < |run[k].threads| && j < |run[k].threads| && i != j
    ensures var a, b := run[k].threads[i], run[k].threads[j];
            && !(InHandler(a.pc) && InHandler(b.pc) && a.id == b.id)
            && !(a.pc.InPhy? && b.pc.InPhy?)
  {
    RunsKeepInv(run, k);
  }

  /** Nobody gets out of a handler without having been in it: a thread that leaves, or has left, was inside
      with its volume's mutex, and if it connects a device it was the one that held phyIDLock. */
  lemma {:induction false} PassesThrough(run: seq<State>, k: nat, i: nat)
    requires IsRun(run) && k < |run| && i < |run[k].threads|
    requires run[k].threads[i].pc.Leaving? || run[k].threads[i].pc.Done?
    ensures exists j: nat :: j < k && WasInside(run[j], i)
    ensures run[k].threads[i].takesPhy ==> exists j: nat :: j < k && HeldPhy(run[j], i)
  {
    if k > 0 {
      RunsKeepInv(run, k - 1);
      assert Next(run[k - 1], run[k - 1 + 1]);
      BeforeLeaving(run[k - 1], run[k], i);
      var t := run[k - 1].threads[i];
      if t.pc.Leaving? || t.pc.Done? {
        PassesThrough(run, k - 1, i);
      } else if t.pc.InPhy? {
        EntersThroughInside(run, k - 1, i);
      }
    }
  }

  lemma BeforeLeaving(s: State, s': State, i: nat)
    requires Inv(s) && Next(s, s') && i < |s'.threads| && (s'.threads[i].pc.Leaving? || s'.threads[i].pc.Done?)
    ensures i < |s.threads| && s.threads[i].takesPhy == s'.threads[i].takesPhy
    ensures var pc := s.threads[i].pc;
            || pc.Leaving? || pc.Done? || (pc.InPhy? && HeldPhy(s, i))
            || (pc.Inside? && WasInside(s, i) && !s.threads[i].takesPhy)
  {
  }

  lemma BeforePhy(s: State, s': State, i: nat)
    requires Inv(s) && Next(s, s') && i < |s'.threads| && s'.threads[i].pc.InPhy?
    ensures i < |s.threads| && (s.threads[i].pc.InPhy? || (s.threads[i].pc.Inside? && WasInside(s, i)))
  {
  }

  predicate WasInside(s: State, i: nat) {
    i < |s.threads| && s.threads[i].pc.Inside? &&
    var m := s.threads[i].pc.m;
    m in s.owner && s.owner[m] == i && s.threads[i].id in s.table && s.table[s.threads[i].id] == m
  }

  predicate HeldPhy(s: State, i: nat) {
    i < |s.threads| && s.threads[i].pc.InPhy? && s.phy == {i}
  }

  lemma {:induction false} EntersThroughInside(run: seq<State>, k: nat, i: nat)
    requires IsRun(run) && k < |run| && i < |run[k].threads| && run[k].threads[i].pc.InPhy?
    ensures exists j: nat :: j < k && WasInside(run[j], i)
  {
    if k > 0 {
      RunsKeepInv(run, k - 1);
      assert Next(run[k - 1], run[k - 1 + 1]);
      BeforePhy(run[k - 1], run[k], i);
      if run[k - 1].threads[i].pc.InPhy? {
        EntersThroughInside(run, k - 1, i);
      }
    }
  }

  /** A volume's mutex, once in the table, is its mutex for good. */
  lemma {:induction false} MutexNeverChanges(run: seq<State>, j: nat, k: nat, id: string)
    requires IsRun(run) && j <= k < |run| && id in run[j].table
    ensures id in run[k].table && run[k].table[id] == run[j].table[id]
  {
    if j < k {
      MutexNeverChanges(run, j, k - 1, id);
      assert Next(run[k - 1], run[k - 1 + 1]);
    }
  }

  /** No reachable state is deadlocked: as long as some thread has not finished, one can move. */
  lemma NoDeadlock(run: seq<State>, k: nat, i: nat)
    requires IsRun(run) && k < |run| && i < |run[k].threads| && !run[k].threads[i].pc.Done?
    ensures exists j: nat :: Enabled(run[k], j)
  {
    RunsKeepInv(run, k);
    var s := run[k];
    if j :| j in s.phy {
      assert Enabled(s, j);
    } else if InHandler(s.threads[i].pc) || s.threads[i].pc.Start? {
      assert Enabled(s, i);
    } else {
      var m := s.threads[i].pc.m;
      assert if m in s.owner then Enabled(s, s.owner[m]) else Enabled(s, i);
    }
  }

  function StepsLeft(pc: Pc): nat {
    match pc
    case Start => 5
    case LookedUp(_) => 4
    case Inside(_) => 3
    case InPhy(_) => 2
    case Leaving(_) => 1
    case Done => 0
  }

  function Work(threads: seq<Thread>): nat {
    if threads == [] then 0 else StepsLeft(threads[0].pc) + Work(threads[1..])
  }

  lemma {:induction false} WorkAfterUpdate(threads: seq<Thread>, i: nat, th: Thread)
    requires i < |threads|
    ensures Work(threads[i := th]) + StepsLeft(threads[i].pc) == Work(threads) + StepsLeft(th.pc)
  {
    var updated := threads[i := th];
    if i == 0 {
      assert updated[1..] == threads[1..];
    } else {
      WorkAfterUpdate(threads[1..], i - 1, th);
      assert updated[1..] == threads[1..][i - 1 := th];
    }
  }

  lemma {:induction false} WorkIsBounded(threads: seq<Thread>)
    ensures Work(threads) <= 5 * |threads|
  {
    if threads != [] { WorkIsBounded(threads[1..]); }
  }

  lemma AdvanceUsesUpWork(s: State, i: nat)
    requires Enabled(s, i)
    ensures Work(Advance(s, i).threads) < Work(s.threads) && |Advance(s, i).threads| == |s.threads|
  {
    WorkAfterUpdate(s.threads, i, Advance(s, i).threads[i]);
  }

  lemma {:induction false} RunsUseUpWork(run: seq<State>, k: nat)
    requires IsRun(run) && k < |run|
    ensures k + Work(run[k].threads) <= 5 * |run[0].threads|
  {
    if k == 0 {
      WorkIsBounded(run[0].threads);
    } else {
      RunsUseUpWork(run, k - 1);
      assert Next(run[k - 1], run[k - 1 + 1]);
      var i: nat :| Enabled(run[k - 1], i) && run[k] == Advance(run[k - 1], i);
      AdvanceUsesUpWork(run[k - 1], i);
    }
  }

  /** Every run comes to an end within five steps a thread, and where it can go no further every
      thread has finished and every lock is free again. */
  lemma EveryThreadFinishes(run: seq<State>)
    requires IsRun(run)
    ensures var last := run[|run| - 1];
            && |run| <= 5 * |run[0].threads| + 1
            && ((forall j: nat :: !Enabled(last, j)) ==>
                  (forall th <- last.threads :: th.pc.Done?) && last.owner == map[] && last.phy == {})
  {
    var last := run[|run| - 1];
    RunsUseUpWork(run, |run| - 1);
    RunsKeepInv(run, |run| - 1);
    if forall j: nat :: !Enabled(last, j) {
      forall i | 0 <= i < |last.threads| ensures last.threads[i].pc.Done? {
        if !last.threads[i].pc.Done? { NoDeadlock(run, |run| - 1, i); }
      }
      assert forall m :: m !in last.owner;
      assert last.phy == {};
    }
  }
}
