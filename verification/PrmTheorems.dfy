/** Soundness of the PRM handshake over every interleaving, and why it needs its assumptions. */
module PrmTheorems {
  import opened Prelude
  import opened Errno
  import opened PrmModel

  /** The reply is in the callback but not yet announced to the sender. */
  predicate Unannounced(cb: Cb) { cb.Got? || cb.Half? }

  predicate AllSound(done: seq<Finished>) {
    forall k :: 0 <= k < |done| ==> done[k].ret == Outcome(done[k])
  }

  /** What the shared words hold at each point of a command, with the status written first. */
  predicate Inv(y: System) {
    && AllSound(y.done)
    && (Unannounced(y.cb) ==> y.pc == Waiting && y.reply == Some(y.cb.msg))
    && (y.pc != Waiting && y.pc != Woken ==> y.reply == None)
    && (y.pc in {Cleared, HasAdev, Ready, Armed} || y.pc.Polling? ==> y.m.status == 0)
    && (y.pc == Armed ==> !y.m.resp)
    && (y.pc == Waiting ==> (y.m.resp <==> y.reply.Some? && !Unannounced(y.cb)))
    && (y.pc == Waiting && (y.reply == None || y.cb.Got?) ==> y.m.status == 0)
    && (y.pc == Waiting && y.reply.Some? && !y.cb.Got? ==> y.m.status == ToInt32(y.reply.value.code))
    && (y.pc == Woken ==> y.reply.Some? && y.m.status == ToInt32(y.reply.value.code))
  }

  lemma StepKeepsInv(y: System, ev: Event)
    requires Inv(y) && Enabled(y, ev) && Timely(y, ev)
    ensures Inv(Next(StatusFirst, y, ev))
  {
  }

  lemma {:induction false} LegalIsPossible(order: Order, y: System, evs: seq<Event>)
    requires LegalRun(order, y, evs)
    ensures PossibleRun(order, y, evs)
    decreases |evs|
  {
    if evs != [] {
      LegalIsPossible(order, Next(order, y, evs[0]), evs[1..]);
    }
  }

  lemma {:induction false} RunKeepsInv(y: System, evs: seq<Event>)
    requires Inv(y) && LegalRun(StatusFirst, y, evs)
    ensures PossibleRun(StatusFirst, y, evs) && Inv(Run(StatusFirst, y, evs))
    decreases |evs|
  {
    if evs != [] {
      StepKeepsInv(y, evs[0]);
      RunKeepsInv(Next(StatusFirst, y, evs[0]), evs[1..]);
    }
  }

  /**
   In every interleaving, every command that has finished returned what its reply calls
   for: -EINVAL when the code is positive as a signed integer, 0 for any other code, and
   -ETIMEDOUT when no reply came.
   */
  lemma EveryCommandSound(y: System, evs: seq<Event>)
    requires AtRest(y) && LegalRun(StatusFirst, y, evs)
    ensures PossibleRun(StatusFirst, y, evs) && AllSound(Run(StatusFirst, y, evs).done)
  {
    RunKeepsInv(y, evs);
  }

  /** The same, read off one command that was sent; a code of 2^31 or more reads as success. */
  lemma ResultIff(y: System, evs: seq<Event>, k: nat)
    requires AtRest(y) && LegalRun(StatusFirst, y, evs) && PossibleRun(StatusFirst, y, evs)
    requires k < |Run(StatusFirst, y, evs).done| && Run(StatusFirst, y, evs).done[k].Sent?
    ensures var f := Run(StatusFirst, y, evs).done[k];
      && (f.ret == -110 <==> f.reply == None)
      && (f.ret == -22 <==> f.reply.Some? && 0 < f.reply.value.code < 0x8000_0000)
      && (f.ret == 0 <==> f.reply.Some? && (f.reply.value.code == 0 || f.reply.value.code >= 0x8000_0000))
  {
    EveryCommandSound(y, evs);
  }

  /** A command that was not sent: -ENODEV without a device, else what the transport returned. */
  lemma UnsentResult(y: System, evs: seq<Event>, k: nat)
    requires AtRest(y) && LegalRun(StatusFirst, y, evs) && PossibleRun(StatusFirst, y, evs)
    requires k < |Run(StatusFirst, y, evs).done|
    ensures var f := Run(StatusFirst, y, evs).done[k];
      && (f.NoDevice? ==> f.ret == -19)
      && (f.NotSent? ==> f.ret == f.rc)
  {
    EveryCommandSound(y, evs);
  }

  // ---- Timeouts that overtake the callback ----

  /** The DSP's part alone: it answers once, and while its caller waits. Timeouts are free. */
  predicate ArrivalsTimely(y: System, evs: seq<Event>)
    requires PossibleRun(StatusFirst, y, evs)
    decreases |evs|
  {
    evs == [] ||
    ((evs[0].Arrive? ==> Timely(y, evs[0])) && ArrivalsTimely(Next(StatusFirst, y, evs[0]), evs[1..]))
  }

  lemma {:induction false} DoneGrows(y: System, evs: seq<Event>)
    requires PossibleRun(StatusFirst, y, evs)
    ensures y.done <= Run(StatusFirst, y, evs).done
    decreases |evs|
  {
    if evs != [] {
      DoneGrows(Next(StatusFirst, y, evs[0]), evs[1..]);
    }
  }

  /** A timeout in the middle of the callback reports -ETIMEDOUT for a command that was answered. */
  lemma OvertakenIsUnsound(y: System)
    requires Inv(y) && Enabled(y, TimeOut) && !Timely(y, TimeOut)
    ensures !AllSound(Next(StatusFirst, y, TimeOut).done)
  {
    var done := Next(StatusFirst, y, TimeOut).done;
    assert done[|y.done|] == Sent(Some(y.cb.msg), ETIMEDOUT);
    assert done[|y.done|].ret != Outcome(done[|y.done|]);
  }

  lemma {:induction false} OvertakenRunIsUnsound(y: System, evs: seq<Event>)
    requires Inv(y) && PossibleRun(StatusFirst, y, evs) && ArrivalsTimely(y, evs) && !LegalRun(StatusFirst, y, evs)
    ensures !AllSound(Run(StatusFirst, y, evs).done)
    decreases |evs|
  {
    var y' := Next(StatusFirst, y, evs[0]);
    if Timely(y, evs[0]) {
      StepKeepsInv(y, evs[0]);
      OvertakenRunIsUnsound(y', evs[1..]);
    } else {
      OvertakenIsUnsound(y);
      var k :| 0 <= k < |y'.done| && y'.done[k].ret != Outcome(y'.done[k]);
      DoneGrows(y', evs[1..]);
      assert Run(StatusFirst, y, evs).done[k] == y'.done[k];
    }
  }

  /**
   When the DSP keeps to its part, every finished command of a run returned what its reply
   calls for if and only if no timeout overtook a callback between its start and its
   announcement.
   */
  lemma SoundIffNoOvertaking(y: System, evs: seq<Event>)
    requires AtRest(y) && PossibleRun(StatusFirst, y, evs) && ArrivalsTimely(y, evs)
    ensures AllSound(Run(StatusFirst, y, evs).done) <==> LegalRun(StatusFirst, y, evs)
  {
    if LegalRun(StatusFirst, y, evs) {
      EveryCommandSound(y, evs);
    } else {
      OvertakenRunIsUnsound(y, evs);
    }
  }

  // ---- Each assumption is needed ----

  lemma Cons(order: Order, y: System, ev: Event, rest: seq<Event>)
    requires Enabled(y, ev)
    ensures LegalRun(order, y, [ev] + rest) <==> Timely(y, ev) && LegalRun(order, Next(order, y, ev), rest)
    ensures PossibleRun(order, y, [ev] + rest) <==> PossibleRun(order, Next(order, y, ev), rest)
    ensures PossibleRun(order, Next(order, y, ev), rest) ==>
      Run(order, y, [ev] + rest) == Run(order, Next(order, y, ev), rest)
  {
    assert ([ev] + rest)[1..] == rest;
  }

  /** A command from idle to the point where it waits, with the DSP not reporting itself loaded. */
  const SendSteps: seq<Event> := [Lock, ClearStatus, CheckAdev, CheckReady(false), ClearResp, Transmit(1)]

  function WaitingState(y: System): System {
    y.(m := y.m.(state := 1, status := 0, resp := false), pc := Waiting)
  }

  lemma SendThen(order: Order, y: System, rest: seq<Event>)
    requires y.pc == Idle && y.m.adev
    ensures LegalRun(order, y, SendSteps + rest) <==> LegalRun(order, WaitingState(y), rest)
    ensures PossibleRun(order, y, SendSteps + rest) <==> PossibleRun(order, WaitingState(y), rest)
    ensures PossibleRun(order, WaitingState(y), rest) ==>
      Run(order, y, SendSteps + rest) == Run(order, WaitingState(y), rest)
  {
    var r5 := [Transmit(1)] + rest;
    var r4 := [ClearResp] + r5;
    var r3 := [CheckReady(false)] + r4;
    var r2 := [CheckAdev] + r3;
    var r1 := [ClearStatus] + r2;
    assert SendSteps + rest == [Lock] + r1;
    Cons(order, y, Lock, r1);
    var y1 := y.(m := y.m.(state := 1), pc := Locked);
    Cons(order, y1, ClearStatus, r2);
    var y2 := y1.(m := y1.m.(status := 0), pc := Cleared);
    Cons(order, y2, CheckAdev, r3);
    Cons(order, y2.(pc := HasAdev), CheckReady(false), r4);
    Cons(order, y2.(pc := Ready), ClearResp, r5);
    Cons(order, y2.(m := y2.m.(resp := false), pc := Armed), Transmit(1), rest);
  }

  /** With the announcement first, a sender woken between the two writes misses the error code. */
  lemma SwappedWritesLoseErrors(y: System, msg: Reply)
    requires AtRest(y) && y.m.adev && 0 < msg.code < 0x8000_0000
    ensures var evs := SendSteps + ([Arrive(0, msg)] + ([CbFirst] + ([Wake] + ([ReadStatus] + []))));
      && LegalRun(RespFirst, y, evs) && PossibleRun(RespFirst, y, evs)
      && Run(RespFirst, y, evs).done == [Sent(Some(msg), 0)]
  {
    var r3: seq<Event> := [ReadStatus] + [];
    var r2 := [Wake] + r3;
    var r1 := [CbFirst] + r2;
    var y1 := WaitingState(y);
    SendThen(RespFirst, y, [Arrive(0, msg)] + r1);
    Cons(RespFirst, y1, Arrive(0, msg), r1);
    var y2 := y1.(cb := Got(msg), reply := Some(msg));
    Cons(RespFirst, y2, CbFirst, r2);
    var y3 := y2.(m := y2.m.(resp := true), cb := Half(msg));
    Cons(RespFirst, y3, Wake, r3);
    Cons(RespFirst, y3.(pc := Woken), ReadStatus, []);
  }

  /** Every legal run is sound exactly because the status is written before the announcement. */
  lemma SoundIffStatusFirst(order: Order)
    ensures (forall y, evs :: AtRest(y) && LegalRun(order, y, evs) && PossibleRun(order, y, evs) ==>
               AllSound(Run(order, y, evs).done))
            <==> order == StatusFirst
  {
    if order == StatusFirst {
      forall y, evs | AtRest(y) && LegalRun(order, y, evs) && PossibleRun(order, y, evs)
        ensures AllSound(Run(order, y, evs).done)
      {
        EveryCommandSound(y, evs);
      }
    } else {
      var y := System(Shared(0, false, 0, true, false, false), Idle, CbIdle, None, []);
      var msg := Reply(false, true, 1);
      SwappedWritesLoseErrors(y, msg);
      var f := Sent(Some(msg), 0);
      assert [f][0].ret != Outcome([f][0]);
      assert !AllSound([f]);
    }
  }

  const AnnounceSteps: seq<Event> := [CbFirst, CbSecond, Wake, ReadStatus]

  /** A callback that finishes while a command waits gives that command its code, whoever it was for. */
  lemma AnnounceGives(y: System, msg: Reply)
    requires y.pc == Waiting && y.cb == Got(msg) && y.m.status == 0
    ensures PossibleRun(StatusFirst, y, AnnounceSteps)
    ensures Run(StatusFirst, y, AnnounceSteps).done ==
      y.done + [Sent(y.reply, if ToInt32(msg.code) > 0 then EINVAL else 0)]
  {
    var r3: seq<Event> := [ReadStatus] + [];
    var r2 := [Wake] + r3;
    var r1 := [CbSecond] + r2;
    assert AnnounceSteps == [CbFirst] + r1;
    Cons(StatusFirst, y, CbFirst, r1);
    var y1 := y.(m := WriteStatus(y.m, msg), cb := Half(msg));
    Cons(StatusFirst, y1, CbSecond, r2);
    var y2 := Next(StatusFirst, y1, CbSecond);
    Cons(StatusFirst, y2, Wake, r3);
    Cons(StatusFirst, y2.(pc := Woken), ReadStatus, []);
  }

  /**
   A reply that comes after its caller timed out is taken for the next command's: that
   command, never answered, returns the other's result instead of -ETIMEDOUT.
   */
  lemma LateReplyIsMistaken(y: System, msg: Reply)
    requires AtRest(y) && y.m.adev
    ensures var evs := SendSteps + ([TimeOut] + (SendSteps + ([Arrive(0, msg)] + AnnounceSteps)));
      && PossibleRun(StatusFirst, y, evs)
      && Run(StatusFirst, y, evs).done ==
           [Sent(None, ETIMEDOUT), Sent(None, if ToInt32(msg.code) > 0 then EINVAL else 0)]
  {
    var r2 := [Arrive(0, msg)] + AnnounceSteps;
    var r1 := SendSteps + r2;
    var y1 := Next(StatusFirst, WaitingState(y), TimeOut);
    var y2 := WaitingState(y1);
    SendThen(StatusFirst, y, [TimeOut] + r1);
    Cons(StatusFirst, WaitingState(y), TimeOut, r1);
    SendThen(StatusFirst, y1, r2);
    Cons(StatusFirst, y2, Arrive(0, msg), AnnounceSteps);
    AnnounceGives(y2.(cb := Got(msg)), msg);
  }

  /** The same mistake when the caller times out with its answer half way through the callback. */
  lemma HalfDoneReplyIsMistaken(y: System, msg: Reply)
    requires AtRest(y) && y.m.adev
    ensures var evs := SendSteps + ([Arrive(0, msg)] + ([TimeOut] + (SendSteps + AnnounceSteps)));
      && PossibleRun(StatusFirst, y, evs)
      && Run(StatusFirst, y, evs).done ==
           [Sent(Some(msg), ETIMEDOUT), Sent(None, if ToInt32(msg.code) > 0 then EINVAL else 0)]
  {
    var r2 := SendSteps + AnnounceSteps;
    var r1 := [TimeOut] + r2;
    var y1 := WaitingState(y);
    var y2 := y1.(cb := Got(msg), reply := Some(msg));
    var y3 := Next(StatusFirst, y2, TimeOut);
    SendThen(StatusFirst, y, [Arrive(0, msg)] + r1);
    Cons(StatusFirst, y1, Arrive(0, msg), r1);
    Cons(StatusFirst, y2, TimeOut, r2);
    SendThen(StatusFirst, y3, AnnounceSteps);
    AnnounceGives(WaitingState(y3), msg);
  }
}
