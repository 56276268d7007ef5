/**
 The SMA NVMe and NVMe/TCP initiators, which share their sequences: create a device and attach the volume
 to it; detach the volume and delete the device. An initiator remembers the device by its handle and
 whether there is a volume to detach by its volume ID, which is there from the start.
 */
module SmaInitiator {
  datatype Attachment = Attachment(handle: string, volume: string)

  /** The agent's devices and attachments, and the initiator's two fields ("" for no device and for no
      volume ID). */
  datatype State = State(devices: set<string>, attached: set<Attachment>, handle: string, volume: string)

  /** What is answered during a Connect, and the handle that a created device gets. */
  datatype ConnectAnswers = ConnectAnswers(handle: string, create: bool, attach: bool, rollback: bool)

  datatype DisconnectAnswers = DisconnectAnswers(detach: bool, delete: bool)

  /** A device without a handle counts as not created. */
  function AfterConnect(s: State, a: ConnectAnswers): (r: (bool, State)) {
    if !a.create || a.handle == "" then (false, s)
    else
      var s1 := s.(devices := s.devices + {a.handle}, handle := a.handle);
      if a.attach then (true, s1.(attached := s1.attached + {Attachment(a.handle, s.volume)}))
      else if a.rollback then (false, s1.(devices := s1.devices - {a.handle}, handle := ""))
      else (false, s1)
  }

  predicate Detaches(s: State) {
    s.handle != "" && s.volume != ""
  }

  function AfterDisconnect(s: State, a: DisconnectAnswers): (r: (bool, State)) {
    if s.handle == "" then (true, s)
    else if Detaches(s) && !a.detach then (false, s)
    else
      var s1 := if Detaches(s) then s.(attached := s.attached - {Attachment(s.handle, s.volume)}, volume := "") else s;
      if a.delete then (true, s1.(devices := s1.devices - {s.handle}, handle := "")) else (false, s1)
  }

  /** Connect succeeds exactly if the device is created, with a handle, and the volume is attached to it; and
      then both are there and the handle is remembered. Failing, it attaches nothing, and leaves a new device
      exactly if there is one and its rollback is not answered. */
  lemma ConnectOutcome(s: State, a: ConnectAnswers)
    ensures var (ok, t) := AfterConnect(s, a);
            var made := a.create && a.handle != "";
            && (ok <==> made && a.attach)
            && (ok ==> a.handle in t.devices && t.handle == a.handle)
            && t.attached == (if ok then s.attached + {Attachment(a.handle, s.volume)} else s.attached)
            && t.volume == s.volume
            && (!ok && a.handle !in s.devices ==>
                  (a.handle in t.devices <==> made && !a.rollback) && (a.handle in t.devices ==> t.handle == a.handle))
  {
  }

  /******* Attached volumes have devices *******/

  ghost predicate Safe(s: State) {
    forall a <- s.attached :: a.handle in s.devices
  }

  /** A Connect takes the device away under an attachment exactly when its own attaching fails, the
      rollback succeeds, and the device it was given had been attached to before. */
  lemma ConnectIsSafe(s: State, a: ConnectAnswers)
    requires Safe(s)
    ensures Safe(AfterConnect(s, a).1) <==>
            !(a.create && a.handle != "" && !a.attach && a.rollback && exists t <- s.attached :: t.handle == a.handle)
  {
  }

  /** A Disconnect does exactly when it gets as far as deleting a device that has an attachment other than
      the one it detaches. */
  lemma DisconnectIsSafe(s: State, a: DisconnectAnswers)
    requires Safe(s)
    ensures Safe(AfterDisconnect(s, a).1) <==>
            !(s.handle != "" && a.delete && (Detaches(s) ==> a.detach) &&
              exists t <- s.attached :: t.handle == s.handle && !(Detaches(s) && t.volume == s.volume))
  {
  }

  datatype Op = ConnectOp(c: ConnectAnswers) | DisconnectOp(d: DisconnectAnswers)

  function Do(s: State, op: Op): (bool, State) {
    match op
    case ConnectOp(c) => AfterConnect(s, c)
    case DisconnectOp(d) => AfterDisconnect(s, d)
  }

  function After(s: State, ops: seq<Op>): State {
    if ops == [] then s else Do(After(s, ops[..|ops| - 1]), ops[|ops| - 1]).1
  }

  /** Connect is only called on an initiator that holds no device and has not been disconnected. */
  ghost predicate Orderly(s: State, ops: seq<Op>) {
    forall i :: 0 <= i < |ops| && ops[i].ConnectOp? ==> var t := After(s, ops[..i]); t.handle == "" && t.volume != ""
  }

  /** Nothing but the remembered attachment is ever made. */
  ghost predicate Remembered(s: State) {
    && (forall a <- s.attached :: a == Attachment(s.handle, s.volume) && a.handle in s.devices)
    && (s.attached != {} ==> s.handle != "" && s.volume != "")
    && (s.handle != "" ==> s.handle in s.devices)
  }

  lemma DoRemembers(s: State, op: Op)
    requires Remembered(s) && (op.ConnectOp? ==> s.handle == "" && s.volume != "")
    ensures Remembered(Do(s, op).1)
  {
  }

  /** In every orderly sequence of calls, whatever is answered, an attached volume has its device, and the
      initiator remembers both. */
  lemma {:induction false} NeverOrphaned(s: State, ops: seq<Op>)
    requires s.attached == {} && s.handle == "" && Orderly(s, ops)
    ensures var t := After(s, ops); Safe(t) && Remembered(t)
  {
    if ops != [] {
      var before := ops[..|ops| - 1];
      forall i | 0 <= i < |before| && before[i].ConnectOp?
        ensures var t := After(s, before[..i]); t.handle == "" && t.volume != ""
      {
        assert before[..i] == ops[..i];
      }
      NeverOrphaned(s, before);
      DoRemembers(After(s, before), ops[|ops| - 1]);
    }
  }

  /** Both halves of the order are needed: connecting twice can delete an attached device, and connecting
      again after a disconnect attaches no volume in particular, which the next disconnect orphans. */
  lemma DisorderOrphans(handle: string, volume: string)
    requires handle != "" && volume != ""
    ensures var s := State({}, {}, "", volume);
            var good, bad := ConnectOp(ConnectAnswers(handle, true, true, true)),
                             ConnectOp(ConnectAnswers(handle, true, false, true));
            var off := DisconnectOp(DisconnectAnswers(true, true));
            !Safe(Do(Do(s, good).1, bad).1) && !Safe(Do(Do(Do(Do(s, good).1, off).1, good).1, off).1)
  {
  }

  /******* Rollback and retries *******/

  /** A failed attach whose rollback is answered restores everything exactly when the device was new and
      the initiator remembered none. */
  lemma FailedAttachRollsBack(s: State, a: ConnectAnswers)
    requires a.create && a.handle != "" && !a.attach && a.rollback
    ensures AfterConnect(s, a).1 == s <==> a.handle !in s.devices && s.handle == ""
  {
  }

  function Retry(s: State, answers: seq<DisconnectAnswers>): State
    decreases |answers|
  {
    if answers == [] then s else Retry(AfterDisconnect(s, answers[0]).1, answers[1..])
  }

  /** How many of the retries detach the volume with success. */
  function Detached(s: State, answers: seq<DisconnectAnswers>): nat
    decreases |answers|
  {
    if answers == [] then 0
    else (if Detaches(s) && answers[0].detach then 1 else 0) + Detached(AfterDisconnect(s, answers[0]).1, answers[1..])
  }

  /** The first RPC of every call that issues one is answered. */
  predicate EachAnswered(s: State, answers: seq<DisconnectAnswers>)
    decreases |answers|
  {
    answers == [] ||
    ((s.handle == "" || (if Detaches(s) then answers[0].detach else answers[0].delete)) &&
     EachAnswered(AfterDisconnect(s, answers[0]).1, answers[1..]))
  }

  /** However often Disconnect is repeated on one object and whatever is answered, a successful detach is
      never repeated, and a detached volume never comes back. */
  lemma {:induction false} DetachedOnce(s: State, answers: seq<DisconnectAnswers>)
    ensures Detached(s, answers) <= if Detaches(s) then 1 else 0
    ensures Retry(s, answers).attached <= s.attached
    ensures Detached(s, answers) == 1 ==> Attachment(s.handle, s.volume) !in Retry(s, answers).attached
    decreases |answers|
  {
    if answers != [] {
      DetachedOnce(AfterDisconnect(s, answers[0]).1, answers[1..]);
    }
  }

  /** Two retries that each get their first RPC through, and any more, leave neither attachment nor device. */
  lemma {:induction false} RetriesFinish(s: State, answers: seq<DisconnectAnswers>)
    requires Remembered(s) && EachAnswered(s, answers)
    requires |answers| >= (if s.handle == "" then 0 else if s.volume == "" then 1 else 2)
    ensures var t := Retry(s, answers);
            t.handle == "" && t.attached == {} && t.devices == s.devices - (if s.handle == "" then {} else {s.handle})
    decreases |answers|
  {
    if answers != [] {
      var t := AfterDisconnect(s, answers[0]).1;
      DoRemembers(s, DisconnectOp(answers[0]));
      RetriesFinish(t, answers[1..]);
    }
  }

  /** Some call has its delete answered and, if there is a volume to detach, its own or an earlier call's
      detach. */
  predicate GetThrough(volume: string, answers: seq<DisconnectAnswers>) {
    if volume == "" then exists j :: 0 <= j < |answers| && answers[j].delete
    else exists i, j :: 0 <= i <= j < |answers| && answers[i].detach && answers[j].delete
  }

  lemma {:induction false} GoneStaysGone(s: State, answers: seq<DisconnectAnswers>)
    requires s.handle == ""
    ensures Retry(s, answers) == s
    decreases |answers|
  {
    if answers != [] {
      GoneStaysGone(s, answers[1..]);
    }
  }

  /** Retries under arbitrary answers remove the device exactly when they get through, and the remembered
      attachment goes exactly when a detach is answered. */
  lemma {:induction false} RetriesRemoveDevice(s: State, answers: seq<DisconnectAnswers>)
    requires s.handle != ""
    ensures var t := Retry(s, answers);
            && (t.handle == "" <==> GetThrough(s.volume, answers))
            && t.devices == (if t.handle == "" then s.devices - {s.handle} else s.devices)
            && t.attached == (if s.volume != "" && t.volume == ""
                              then s.attached - {Attachment(s.handle, s.volume)} else s.attached)
            && (t.volume == "" <==> s.volume == "" || exists i :: 0 <= i < |answers| && answers[i].detach)
    decreases |answers|
  {
    if answers != [] {
      var a, rest := answers[0], answers[1..];
      var s1 := AfterDisconnect(s, a).1;
      Shifted(s.volume, answers);
      if s1.handle == "" {
        GoneStaysGone(s1, rest);
      } else {
        RetriesRemoveDevice(s1, rest);
      }
    }
  }

  /** What the first call gets through, and what is left for the others. */
  lemma Shifted(volume: string, answers: seq<DisconnectAnswers>)
    requires answers != []
    ensures var a, rest := answers[0], answers[1..];
            && (GetThrough("", answers) <==> a.delete || GetThrough("", rest))
            && (volume != "" ==> (GetThrough(volume, answers) <==>
                                  if a.detach then a.delete || GetThrough("", rest) else GetThrough(volume, rest)))
            && ((exists i :: 0 <= i < |answers| && answers[i].detach) <==>
                a.detach || exists i :: 0 <= i < |rest| && rest[i].detach)
  {
    var a, rest := answers[0], answers[1..];
    assert forall i :: 0 <= i < |rest| ==> answers[i + 1] == rest[i];
  }

  /** After a failed attach whose rollback failed too, Disconnect insists on detaching what was never
      attached: the device goes exactly if the agent, some time, agrees to that and then to a delete. */
  lemma RefusedDetachStrandsDevice(s: State, a: ConnectAnswers, answers: seq<DisconnectAnswers>)
    requires s.volume != "" && a.create && a.handle != "" && !a.attach && !a.rollback
    ensures var t := Retry(AfterConnect(s, a).1, answers);
            && (a.handle in t.devices <==> !GetThrough(s.volume, answers))
            && ((forall d <- answers :: !d.detach) ==> t == AfterConnect(s, a).1)
  {
    var t := AfterConnect(s, a).1;
    RetriesRemoveDevice(t, answers);
    if forall d <- answers :: !d.detach {
      NothingDetached(t, answers);
    }
  }

  lemma {:induction false} NothingDetached(s: State, answers: seq<DisconnectAnswers>)
    requires Detaches(s) && forall d <- answers :: !d.detach
    ensures Retry(s, answers) == s
    decreases |answers|
  {
    if answers != [] {
      NothingDetached(s, answers[1..]);
    }
  }

  /******* The initiator *******/

  /** The storage management agent on the xPU, as far as this volume is concerned. */
  class Agent {
    var devices: set<string>
    var attached: set<Attachment>

    constructor ()
      ensures devices == {} && attached == {}
    {
      devices, attached := {}, {};
    }
  }

  class Sma {
    const agent: Agent
    var deviceHandle: string
    var volumeID: string

    /** The volume ID must be there; the handle comes from the stash, if there is one. */
    constructor (agent: Agent, volumeID: string, storedHandle: string)
      requires volumeID != ""
      ensures this.agent == agent && Now() == State(agent.devices, agent.attached, storedHandle, volumeID)
    {
      this.agent := agent;
      this.volumeID := volumeID;
      this.deviceHandle := storedHandle;
    }

    ghost function Now(): State
      reads this, agent
    {
      State(agent.devices, agent.attached, deviceHandle, volumeID)
    }

    method GetParam() returns (c: map<string, string>)
      ensures c == map["deviceHandle" := deviceHandle]
    {
      c := map["deviceHandle" := deviceHandle];
    }

    method CreateDevice(handle: string, answered: bool) returns (ok: bool)
      modifies this`deviceHandle, agent`devices
      ensures ok <==> answered && handle != ""
      ensures Now() == if ok then old(Now()).(devices := old(agent.devices) + {handle}, handle := handle)
                       else old(Now())
    {
      ok := answered && handle != "";
      if ok {
        agent.devices := agent.devices + {handle};
        deviceHandle := handle;
      }
    }

    method AttachVolume(volume: string, handle: string, answered: bool) returns (ok: bool)
      modifies this`volumeID, agent`attached
      ensures ok == answered
      ensures Now() == if ok then old(Now()).(attached := old(agent.attached) + {Attachment(handle, volume)},
                                             volume := volume)
                       else old(Now())
    {
      ok := answered;
      if ok {
        agent.attached := agent.attached + {Attachment(handle, volume)};
        volumeID := volume;
      }
    }

    method DetachVolume(volume: string, handle: string, answered: bool) returns (ok: bool)
      modifies this`volumeID, agent`attached
      ensures ok == answered
      ensures Now() == if ok then old(Now()).(attached := old(agent.attached) - {Attachment(handle, volume)},
                                             volume := "")
                       else old(Now())
    {
      ok := answered;
      if ok {
        agent.attached := agent.attached - {Attachment(handle, volume)};
        volumeID := "";
      }
    }

    method DeleteDevice(handle: string, answered: bool) returns (ok: bool)
      modifies this`deviceHandle, agent`devices
      ensures ok == answered
      ensures Now() == if ok then old(Now()).(devices := old(agent.devices) - {handle}, handle := "") else old(Now())
    {
      ok := answered;
      if ok {
        agent.devices := agent.devices - {handle};
        deviceHandle := "";
      }
    }

    method Connect(a: ConnectAnswers) returns (ok: bool)
      modifies this, agent
      ensures (ok, Now()) == AfterConnect(old(Now()), a)
    {
      ok := CreateDevice(a.handle, a.create);
      if !ok {
        return;
      }
      ok := AttachVolume(volumeID, deviceHandle, a.attach);
      if !ok {
        var _ := DeleteDevice(deviceHandle, a.rollback);
      }
    }

    method Disconnect(a: DisconnectAnswers) returns (ok: bool)
      modifies this, agent
      ensures (ok, Now()) == AfterDisconnect(old(Now()), a)
    {
      if deviceHandle == "" {
        return true;
      }
      if volumeID != "" {
        ok := DetachVolume(volumeID, deviceHandle, a.detach);
        if !ok {
          return;
        }
      }
      ok := DeleteDevice(deviceHandle, a.delete);
    }
  }
}
