/**
 The PRM driver's globals as an object. Its methods are the code's own statements; each
 shared access is recorded as a step of the handshake machine, so a call is a run of it.
 */
module PrmDriver {
  import opened Prelude
  import opened Errno
  import opened PrmModel

  lemma {:induction false} RunSnoc(order: Order, y: System, evs: seq<Event>, ev: Event)
    requires PossibleRun(order, y, evs) && Enabled(Run(order, y, evs), ev)
    ensures PossibleRun(order, y, evs + [ev])
    ensures Run(order, y, evs + [ev]) == Next(order, Run(order, y, evs), ev)
    ensures LegalRun(order, y, evs + [ev]) <==> LegalRun(order, y, evs) && Timely(Run(order, y, evs), ev)
    decreases |evs|
  {
    if evs != [] {
      RunSnoc(order, Next(order, y, evs[0]), evs[1..], ev);
      assert (evs + [ev])[1..] == evs[1..] + [ev];
    } else {
      assert ([] + [ev])[1..] == [];
    }
  }

  class AudioPrm {
    var status: int
    var respReceived: bool
    var state: int
    var adev: bool
    var isAdspUp: bool
    var isApmReadyCheckDone: bool

    ghost const start: System
    ghost var trace: seq<Event>
    ghost var sys: System
    /** The DSP has kept to what `Timely` asks of it. */
    ghost var timely: bool

    /** The recorded steps are a run that leads to `sys`, and a legal one while the DSP was timely. */
    ghost predicate Traced()
      reads this
    {
      && AtRest(start) && PossibleRun(StatusFirst, start, trace) && sys == Run(StatusFirst, start, trace)
      && (timely <==> LegalRun(StatusFirst, start, trace))
    }

    ghost function Memory(): Shared
      reads this
    {
      Shared(status, respReceived, state, adev, isAdspUp, isApmReadyCheckDone)
    }

    ghost predicate Valid()
      reads this
    {
      Traced() && sys.m == Memory()
    }

    constructor ()
      ensures Valid() && sys.pc == Idle && sys.cb == CbIdle && sys.done == [] && timely
      ensures !adev && !isAdspUp && !isApmReadyCheckDone
    {
      status, respReceived, state := 0, false, 0;
      adev, isAdspUp, isApmReadyCheckDone := false, false, false;
      var y := System(Shared(0, false, 0, false, false, false), Idle, CbIdle, None, []);
      start, trace, sys, timely := y, [], y, true;
    }

    ghost method Record(ev: Event)
      requires Traced() && Enabled(sys, ev)
      requires Next(StatusFirst, sys, ev).m == Memory()
      modifies this`trace, this`sys, this`timely
      ensures Valid() && sys == Next(StatusFirst, old(sys), ev) && trace == old(trace) + [ev]
      ensures timely == (old(timely) && Timely(old(sys), ev))
    {
      RunSnoc(StatusFirst, start, trace, ev);
      timely := timely && Timely(sys, ev);
      sys := Next(StatusFirst, sys, ev);
      trace := trace + [ev];
    }

    // ---- The callback ----

    /** The callback's status write; a command response without error makes none. */
    method NoteStatus(msg: Reply)
      requires Valid() && sys.cb == Got(msg)
      modifies this`status, this`trace, this`sys, this`timely
      ensures Valid() && sys == old(sys).(m := sys.m, cb := Half(msg)) && timely == old(timely)
      ensures status == if msg.basic || msg.code != 0 then ToInt32(msg.code) else old(status)
      ensures |trace| == |old(trace)| + 1
    {
      if msg.basic || msg.code != 0 {
        status := ToInt32(msg.code);
      }
      Record(CbFirst);
    }

    /** The callback's announcement to the sender. */
    method Announce(msg: Reply)
      requires Valid() && sys.cb == Half(msg)
      modifies this`respReceived, this`trace, this`sys, this`timely
      ensures Valid() && sys == old(sys).(m := sys.m, cb := if msg.basic then CbIdle else Tail(msg))
      ensures respReceived && timely == old(timely) && |trace| == |old(trace)| + 1
    {
      respReceived := true;
      Record(CbSecond);
    }

    /** The last part of the callback, after the sender has been told. */
    method NoteResponse(msg: Reply)
      requires Valid() && sys.cb == Tail(msg)
      modifies this`state, this`trace, this`sys, this`timely
      ensures Valid() && sys == old(sys).(m := sys.m, cb := CbIdle) && timely == old(timely)
      ensures state == if msg.known then ToInt32(msg.code) else old(state)
      ensures |trace| == |old(trace)| + 1
    {
      if msg.known {
        state := ToInt32(msg.code);
      }
      Record(CbTail);
    }

    /**
     audio_prm_callback, for a reply to command number `cmd`, whether or not a sender waits
     for it. Only a first reply to the command being waited for counts as that command's.
     */
    method AudioPrmCallback(ghost cmd: nat, msg: Reply)
      requires Valid() && sys.cb == CbIdle
      modifies this`status, this`respReceived, this`state, this`trace, this`sys, this`timely
      ensures Valid() && sys == old(sys).(m := sys.m, reply := sys.reply)
      ensures sys.reply == if cmd == |sys.done| && sys.pc == Waiting then Some(msg) else old(sys.reply)
      ensures status == if msg.basic || msg.code != 0 then ToInt32(msg.code) else old(status)
      ensures state == if !msg.basic && msg.known then ToInt32(msg.code) else old(state)
      ensures respReceived && |trace| <= |old(trace)| + 4
      ensures timely == (old(timely) && sys.pc == Waiting && cmd == |sys.done| && old(sys.reply) == None)
    {
      Record(Arrive(cmd, msg));
      NoteStatus(msg);
      Announce(msg);
      if !msg.basic {
        NoteResponse(msg);
      }
    }

    // ---- The sender ----

    /** The readiness check of prm_gpr_send_pkt; `ready(j)` is what the j-th query answers. */
    method CheckApmReady(loaded: bool, ready: nat -> bool)
      requires Valid() && sys.pc == HasAdev
      modifies this`isApmReadyCheckDone, this`trace, this`sys, this`timely
      ensures Valid() && sys == old(sys).(m := sys.m, pc := Ready) && timely == old(timely)
      ensures sys.m == old(sys.m).(checkDone := old(isApmReadyCheckDone) || (isAdspUp && loaded))
      ensures |trace| <= |old(trace)| + 5
      ensures !old(isApmReadyCheckDone) && isAdspUp && loaded ==> Queried(ready, |trace| - |old(trace)| - 1)
    {
      Record(CheckReady(loaded));
      if !isApmReadyCheckDone && isAdspUp && loaded {
        QueryApm(ready);
      }
    }

    /** Queries go on up to the first that is answered with ready, or to the fourth. */
    ghost predicate Queried(ready: nat -> bool, n: int) {
      1 <= n <= 4 && (forall j :: 0 <= j < n - 1 ==> !ready(j)) && (n < 4 ==> ready(n - 1))
    }

    method RecordPoll(up: bool)
      requires Traced() && sys.pc.Polling? && sys.pc.retry <= MAX_RETRY_COUNT
      requires Memory() == if !up && sys.pc.retry < MAX_RETRY_COUNT then sys.m else sys.m.(checkDone := true)
      modifies this`trace, this`sys, this`timely
      ensures Valid() && timely == old(timely) && |trace| == |old(trace)| + 1
      ensures sys == if !up && old(sys.pc.retry) < MAX_RETRY_COUNT then old(sys).(pc := Polling(old(sys.pc.retry) + 1))
                     else old(sys).(m := old(sys.m).(checkDone := true), pc := Ready)
    {
      Record(Poll(up));
    }

    method QueryApm(ready: nat -> bool)
      requires Valid() && sys.pc == Polling(0)
      modifies this`isApmReadyCheckDone, this`trace, this`sys, this`timely
      ensures Valid() && sys == old(sys).(m := old(sys.m).(checkDone := true), pc := Ready) && timely == old(timely)
      ensures Queried(ready, |trace| - |old(trace)|)
    {
      var retry := 0;
      var up := ready(retry);
      while !up && retry < MAX_RETRY_COUNT
        invariant Valid() && 0 <= retry <= MAX_RETRY_COUNT && timely == old(timely)
        invariant sys == old(sys).(pc := Polling(retry))
        invariant |trace| == |old(trace)| + retry && up == ready(retry)
        invariant forall j :: 0 <= j < retry ==> !ready(j)
      {
        RecordPoll(false);
        retry := retry + 1;
        up := ready(retry);
      }
      isApmReadyCheckDone := true;
      RecordPoll(up);
    }

    /** The part of prm_gpr_send_pkt before the device check. */
    method BeginCommand()
      requires Valid() && sys.pc == Idle
      modifies this`state, this`status, this`trace, this`sys, this`timely
      ensures Valid() && sys == old(sys).(m := old(sys.m).(state := 1, status := 0), pc := Cleared)
      ensures timely == old(timely) && |trace| == |old(trace)| + 2
    {
      state := 1;
      Record(Lock);
      status := 0;
      Record(ClearStatus);
    }

    /** The part of prm_gpr_send_pkt from the readiness check to gpr_send_pkt. */
    method TransmitPkt(loaded: bool, ready: nat -> bool, rc: int)
      requires Valid() && sys.pc == HasAdev && sys.reply == None && status == 0
      modifies this`isApmReadyCheckDone, this`respReceived, this`trace, this`sys, this`timely
      ensures Valid() && sys.cb == old(sys.cb) && sys.reply == None && status == 0 && !respReceived
      ensures sys.pc == if rc < 0 then Idle else Waiting
      ensures sys.done == old(sys.done) + if rc < 0 then [NotSent(rc, rc)] else []
      ensures timely == old(timely) && |trace| <= |old(trace)| + 7
    {
      CheckApmReady(loaded, ready);
      respReceived := false;
      Record(ClearResp);
      Record(Transmit(rc));
    }

    /** What an earlier callback still has to do when a command starts: at most its last part. */
    ghost predicate Pending(tail: Option<Reply>)
      reads this
    {
      sys.cb == if tail.Some? then Tail(tail.value) else CbIdle
    }

    /** wait_event_timeout and what follows it, with no callback before its announcement. */
    method FinishWait() returns (ret: int)
      requires Valid() && sys.pc == Waiting && sys.cb == CbIdle
      modifies this`trace, this`sys, this`timely
      ensures Valid() && sys == old(sys).(pc := Idle, reply := None, done := sys.done) && timely == old(timely)
      ensures sys.done == old(sys.done) + [Sent(old(sys.reply), ret)]
      ensures ret == if !respReceived then ETIMEDOUT else if status > 0 then EINVAL else 0
      ensures |trace| <= |old(trace)| + 2
    {
      if !respReceived {
        Record(TimeOut);
        return ETIMEDOUT;
      }
      Record(Wake);
      ret := if status > 0 then EINVAL else 0;
      Record(ReadStatus);
    }

    /** The wait of prm_gpr_send_pkt, with the reply that arrives in time, if any. */
    method AwaitReply(tail: Option<Reply>, answer: Option<Reply>) returns (ret: int)
      requires Valid() && sys.pc == Waiting && Pending(tail) && sys.reply == None
      requires status == 0 && !respReceived
      modifies this`status, this`respReceived, this`state, this`trace, this`sys, this`timely
      ensures Valid() && sys.pc == Idle && sys.cb == CbIdle && sys.reply == None && timely == old(timely)
      ensures sys.done == old(sys.done) + [Sent(answer, ret)] && ret == Outcome(Sent(answer, ret))
      ensures |trace| <= |old(trace)| + 7
    {
      if tail.Some? {
        NoteResponse(tail.value);
      }
      if answer.Some? {
        AudioPrmCallback(|sys.done|, answer.value);
      }
      ret := FinishWait();
    }

    /**
     prm_gpr_send_pkt, with what gpr_send_pkt returns and the reply that arrives in time, if
     any; `tail` is an earlier reply whose callback has told its sender but not returned. One
     command is added to the history, with the result its reply calls for, in a bounded
     number of steps, whatever went wrong before.
     */
    method PrmGprSendPkt(loaded: bool, ready: nat -> bool, rc: int, tail: Option<Reply>, answer: Option<Reply>)
      returns (ret: int)
      requires Valid() && sys.pc == Idle && sys.reply == None && Pending(tail)
      modifies this
      ensures Valid() && sys.pc == Idle && sys.reply == None && timely == old(timely)
      ensures sys.cb == CbIdle || Pending(tail)
      ensures var f := if !old(adev) then NoDevice(ret) else if rc < 0 then NotSent(rc, ret) else Sent(answer, ret);
        sys.done == old(sys.done) + [f] && ret == Outcome(f)
      ensures ret == if !old(adev) then -19
                     else if rc < 0 then rc
                     else if answer == None then -110
                     else if 0 < answer.value.code < 0x8000_0000 then -22 else 0
      ensures |trace| <= |old(trace)| + 17
    {
      BeginCommand();
      Record(CheckAdev);
      if !adev {
        return ENODEV;
      }
      TransmitPkt(loaded, ready, rc);
      if rc < 0 {
        return rc;
      }
      ret := AwaitReply(tail, answer);
    }

    /** audio_prm_service_cb: a service that went down makes the next sender check again. */
    method AudioPrmServiceCb(up: bool)
      requires Valid() && sys.pc == Idle
      modifies this
      ensures Valid() && sys == old(sys).(m := sys.m) && timely == old(timely)
      ensures isAdspUp == up && isApmReadyCheckDone == (up && old(isApmReadyCheckDone))
      ensures Memory() == old(Memory()).(adspUp := isAdspUp, checkDone := isApmReadyCheckDone)
    {
      if up {
        isAdspUp := true;
      } else {
        isApmReadyCheckDone, isAdspUp := false, false;
      }
      Record(Service(up));
    }
  }
}
