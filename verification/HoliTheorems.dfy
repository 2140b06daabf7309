/**
 Counters, pins, clocks and votes against the set of open streams: which events keep them in
 agreement, failed startups, and matching shutdowns.
 */
module HoliTheorems {
  import opened Prelude
  import opened HoliModel

  /** The driver together with the streams whose startup succeeded and that are still open. */
  datatype System = System(drv: State, open: multiset<Stream>)

  datatype Event =
    | Open(stream: Stream, startEnv: StartEnv)
    | Close(closing: Stream, stopEnv: StopEnv)
    | SetRate(iface: int, dir: Dir, rate: int)

  function Uses(open: multiset<Stream>, kind: Kind, i: int): nat {
    open[Stream(kind, i, Playback)] + open[Stream(kind, i, Capture)] + open[Stream(kind, i, OtherDir)]
  }

  /** Open streams of one MI2S interface and direction that run at a fractional rate. */
  function Voters(s: State, open: multiset<Stream>, i: int, dir: Dir): nat
    requires Wf(s) && IsIface(i)
  {
    if NeedsVote(s, i, dir) then open[Stream(Mi2s, i, dir)] else 0
  }

  function AllVoters(s: State, open: multiset<Stream>): nat
    requires Wf(s)
  {
    Voters(s, open, 0, Playback) + Voters(s, open, 0, Capture) +
    Voters(s, open, 1, Playback) + Voters(s, open, 1, Capture) +
    Voters(s, open, 2, Playback) + Voters(s, open, 2, Capture)
  }

  ghost predicate IfaceAgrees(s: State, open: multiset<Stream>, i: int)
    requires Wf(s) && IsIface(i)
  {
    && s.refCnt[i] == Uses(open, Mi2s, i)
    && s.gpioRef[i] == (if s.hasGpio[i] then BoolToNat(s.refCnt[i] > 0) + Uses(open, Tdm, i) + Uses(open, Aux, i) else 0)
    && (s.hasGpio[i] ==> (s.pins[i] <==> s.gpioRef[i] > 0))
    && (s.clks[i] <==> s.refCnt[i] > 0)
    && open[Stream(Mi2s, i, OtherDir)] == 0
  }

  ghost predicate VotesAgree(s: State, open: multiset<Stream>)
    requires Wf(s)
  {
    s.vote == AllVoters(s, open) && s.enables == BoolToNat(s.vote > 0) && (s.vote > 0 ==> s.hasVote)
  }

  /**
   The invariant. Per interface: the MI2S count is the open MI2S streams, the pin count is
   one for MI2S plus one per open TDM and AUX stream, pins are active and the clock is on
   exactly while counted. The vote count is the open fractional-rate streams of the voting
   interfaces, and the vote clock is enabled once exactly while there are any.
   */
  ghost predicate Inv(y: System) {
    Wf(y.drv) && (forall i :: IsIface(i) ==> IfaceAgrees(y.drv, y.open, i)) && VotesAgree(y.drv, y.open)
  }

  function Startup(s: State, st: Stream, env: StartEnv): (r: (State, int))
    requires Wf(s)
    ensures Wf(r.0)
  {
    if st.kind == Mi2s then Mi2sStartup(s, st.iface, st.dir, env) else PinStartup(s, st.iface, env.pinRc)
  }

  function Shutdown(s: State, st: Stream, env: StopEnv): (r: State)
    requires Wf(s)
    ensures Wf(r)
  {
    if st.kind == Mi2s then Mi2sShutdown(s, st.iface, st.dir, env) else PinShutdown(s, st.iface, env.sleepRc)
  }

  /** ALSA opens a stream whose startup code is not negative, and shuts down only open streams. */
  function Step(y: System, ev: Event): (r: System)
    requires Wf(y.drv)
    ensures Wf(r.drv)
  {
    match ev
    case Open(st, env) =>
      var (s', ret) := Startup(y.drv, st, env);
      System(s', if ret >= 0 then y.open + multiset{st} else y.open)
    case Close(st, env) =>
      if st in y.open then System(Shutdown(y.drv, st, env), y.open - multiset{st}) else y
    case SetRate(i, dir, rate) =>
      if !IsIface(i) || dir == OtherDir then y
      else if dir == Playback then y.(drv := y.drv.(rxRate := y.drv.rxRate[i := rate]))
      else y.(drv := y.drv.(txRate := y.drv.txRate[i := rate]))
  }

  // ---- Which events keep the invariant ----

  /** A startup that asks for the active pins: its interface has pins and nobody uses them. */
  predicate AsksPins(s: State, i: int)
    requires Wf(s) && IsIface(i)
  {
    s.hasGpio[i] && s.gpioRef[i] == 0
  }

  /** An MI2S startup that gets past its arguments and the vote. */
  predicate PassesVote(s: State, i: int, dir: Dir, env: StartEnv)
    requires Wf(s) && IsIface(i)
  {
    dir != OtherDir && (NeedsVote(s, i, dir) ==> s.hasVote && (s.vote == 0 ==> env.voteRc >= 0))
  }

  /** The rollback of a first MI2S use has to switch the clock off again. */
  predicate RollsBackClk(s: State, i: int, env: StartEnv)
    requires Wf(s) && IsIface(i)
  {
    env.clkRc >= 0 && (env.fmtRc < 0 || (AsksPins(s, i) && env.pinRc < 0))
  }

  ghost predicate Legal(y: System, ev: Event)
    requires Wf(y.drv)
  {
    var s := y.drv;
    match ev
    case Open(st, env) =>
      if !IsIface(st.iface) then true
      else if st.kind != Mi2s then AsksPins(s, st.iface) ==> env.pinRc <= 0
      else if !PassesVote(s, st.iface, st.dir, env) then true
      else if s.refCnt[st.iface] > 0 then s.refCnt[st.iface] < U32_MAX
      else if RollsBackClk(s, st.iface, env) then env.offRc >= 0
      else env.clkRc >= 0 && AsksPins(s, st.iface) ==> env.pinRc <= 0
    case Close(st, env) =>
      st in y.open && IsIface(st.iface) ==>
        var last := st.kind == Mi2s && s.refCnt[st.iface] == 1;
        && (last ==> env.offRc >= 0)
        && (s.hasGpio[st.iface] && s.gpioRef[st.iface] == 1 && (last || st.kind != Mi2s) ==> env.sleepRc == 0)
    case SetRate(i, dir, rate) =>
      VotingIface(i) && dir != OtherDir && y.open[Stream(Mi2s, i, dir)] > 0 ==>
        (Fractional(rate) <==> Fractional(Rate(s, i, dir)))
  }

  // ---- Counting open streams ----

  /** The open streams after `st` was opened (`opens`) or closed. */
  function After(open: multiset<Stream>, st: Stream, opens: bool): multiset<Stream> {
    if opens then open + multiset{st} else open - multiset{st}
  }

  function Delta(opens: bool): int { if opens then 1 else -1 }

  /** How opening or closing `st` changes the count of a stream, given that only open streams close. */
  lemma CountAfter(open: multiset<Stream>, st: Stream, opens: bool, x: Stream)
    requires opens || st in open
    ensures After(open, st, opens)[x] == open[x] + (if x == st then Delta(opens) else 0)
  {
  }

  lemma UsesAfter(open: multiset<Stream>, st: Stream, opens: bool, kind: Kind, i: int)
    requires opens || st in open
    ensures Uses(After(open, st, opens), kind, i) ==
      Uses(open, kind, i) + (if st.kind == kind && st.iface == i then Delta(opens) else 0)
  {
    CountAfter(open, st, opens, Stream(kind, i, Playback));
    CountAfter(open, st, opens, Stream(kind, i, Capture));
    CountAfter(open, st, opens, Stream(kind, i, OtherDir));
    match st.dir
    case Playback => assert st == Stream(st.kind, st.iface, Playback);
    case Capture => assert st == Stream(st.kind, st.iface, Capture);
    case OtherDir => assert st == Stream(st.kind, st.iface, OtherDir);
  }

  /** Nothing that interface `j` depends on differs. */
  ghost predicate SameIface(y: System, y': System, j: int)
    requires Wf(y.drv) && Wf(y'.drv) && IsIface(j)
  {
    var s, s' := y.drv, y'.drv;
    && s'.refCnt[j] == s.refCnt[j] && s'.gpioRef[j] == s.gpioRef[j] && s'.hasGpio[j] == s.hasGpio[j]
    && s'.pins[j] == s.pins[j] && s'.clks[j] == s.clks[j]
    && Uses(y'.open, Mi2s, j) == Uses(y.open, Mi2s, j) && Uses(y'.open, Tdm, j) == Uses(y.open, Tdm, j)
    && Uses(y'.open, Aux, j) == Uses(y.open, Aux, j)
    && y'.open[Stream(Mi2s, j, OtherDir)] == y.open[Stream(Mi2s, j, OtherDir)]
  }

  /** A step that touches only interface `i` keeps the invariant if it keeps it there. */
  lemma OneIface(y: System, y': System, i: int)
    requires Inv(y) && Wf(y'.drv) && IsIface(i)
    requires forall j :: IsIface(j) && j != i ==> SameIface(y, y', j)
    ensures Inv(y') <==> IfaceAgrees(y'.drv, y'.open, i) && VotesAgree(y'.drv, y'.open)
  {
    forall j | IsIface(j) && j != i
      ensures IfaceAgrees(y'.drv, y'.open, j)
    {
      assert IfaceAgrees(y.drv, y.open, j) && SameIface(y, y', j);
    }
  }

  /** The three counts of an interface after a stream was opened or closed. */
  lemma CountsAfter(open: multiset<Stream>, st: Stream, opens: bool, j: int)
    requires opens || st in open
    ensures var d: int := if st.iface == j then Delta(opens) else 0;
      var open' := After(open, st, opens);
      && Uses(open', Mi2s, j) == Uses(open, Mi2s, j) + (if st.kind == Mi2s then d else 0)
      && Uses(open', Tdm, j) == Uses(open, Tdm, j) + (if st.kind == Tdm then d else 0)
      && Uses(open', Aux, j) == Uses(open, Aux, j) + (if st.kind == Aux then d else 0)
      && open'[Stream(Mi2s, j, OtherDir)] ==
         open[Stream(Mi2s, j, OtherDir)] + (if st.kind == Mi2s && st.dir == OtherDir then d else 0)
  {
    UsesAfter(open, st, opens, Mi2s, j);
    UsesAfter(open, st, opens, Tdm, j);
    UsesAfter(open, st, opens, Aux, j);
    CountAfter(open, st, opens, Stream(Mi2s, j, OtherDir));
  }

  lemma VotersAfterAt(s: State, open: multiset<Stream>, st: Stream, opens: bool, i: int, dir: Dir)
    requires Wf(s) && IsIface(i) && (opens || st in open)
    ensures Voters(s, After(open, st, opens), i, dir) ==
      Voters(s, open, i, dir) + (if st == Stream(Mi2s, i, dir) && NeedsVote(s, i, dir) then Delta(opens) else 0)
  {
    CountAfter(open, st, opens, Stream(Mi2s, i, dir));
  }

  /** Opening or closing a stream changes the number of voters exactly when the stream needs a vote. */
  lemma VotersAfter(s: State, open: multiset<Stream>, st: Stream, opens: bool)
    requires Wf(s) && IsIface(st.iface) && (opens || st in open)
    ensures AllVoters(s, After(open, st, opens)) == AllVoters(s, open) +
      (if st.kind == Mi2s && st.dir != OtherDir && NeedsVote(s, st.iface, st.dir) then Delta(opens) else 0)
  {
    VotersAfterAt(s, open, st, opens, 0, Playback);
    VotersAfterAt(s, open, st, opens, 0, Capture);
    VotersAfterAt(s, open, st, opens, 1, Playback);
    VotersAfterAt(s, open, st, opens, 1, Capture);
    VotersAfterAt(s, open, st, opens, 2, Playback);
    VotersAfterAt(s, open, st, opens, 2, Capture);
    match st.dir
    case Playback => assert st == Stream(st.kind, st.iface, Playback);
    case Capture => assert st == Stream(st.kind, st.iface, Capture);
    case OtherDir =>
  }

  lemma SameRates(s: State, s': State, open: multiset<Stream>)
    requires Wf(s) && Wf(s') && s'.rxRate == s.rxRate && s'.txRate == s.txRate
    ensures AllVoters(s', open) == AllVoters(s, open)
  {
  }

  /** A step in which interfaces other than the stream's kept their driver state. */
  lemma StreamStep(y: System, y': System, st: Stream, opens: bool)
    requires Inv(y) && Wf(y'.drv) && IsIface(st.iface) && (opens || st in y.open)
    requires y'.open == After(y.open, st, opens)
    requires OtherIfacesUntouched(y.drv, y'.drv, st.iface)
    ensures Inv(y') <==> IfaceAgrees(y'.drv, y'.open, st.iface) && VotesAgree(y'.drv, y'.open)
  {
    forall j | IsIface(j) && j != st.iface
      ensures SameIface(y, y', j)
    {
      CountsAfter(y.open, st, opens, j);
    }
    OneIface(y, y', st.iface);
  }

  /** Only interface `i` of the driver state may differ. */
  ghost predicate OtherIfacesUntouched(s: State, s': State, i: int)
    requires Wf(s) && Wf(s')
  {
    && s'.hasGpio == s.hasGpio && s'.hasVote == s.hasVote && s'.rxRate == s.rxRate && s'.txRate == s.txRate
    && forall j :: IsIface(j) && j != i ==>
         s'.refCnt[j] == s.refCnt[j] && s'.gpioRef[j] == s.gpioRef[j] && s'.pins[j] == s.pins[j] && s'.clks[j] == s.clks[j]
  }

  // ---- Opening and closing TDM and AUX streams ----

  lemma PinsKeepVotes(s: State, s': State, open: multiset<Stream>, st: Stream, opens: bool)
    requires Wf(s) && Wf(s') && IsIface(st.iface) && st.kind != Mi2s && (opens || st in open)
    requires VotesAgree(s, open) && OtherIfacesUntouched(s, s', st.iface)
    requires s'.vote == s.vote && s'.enables == s.enables
    ensures VotesAgree(s', After(open, st, opens))
  {
    VotersAfter(s, open, st, opens);
    SameRates(s, s', After(open, st, opens));
  }

  lemma OpenPinsIface(s: State, open: multiset<Stream>, st: Stream, pinRc: int)
    requires Wf(s) && IsIface(st.iface) && st.kind != Mi2s && IfaceAgrees(s, open, st.iface)
    requires TakePins(s, st.iface, pinRc).1 >= 0
    ensures IfaceAgrees(TakePins(s, st.iface, pinRc).0, After(open, st, true), st.iface) <==>
      (AsksPins(s, st.iface) ==> pinRc <= 0)
  {
    CountsAfter(open, st, true, st.iface);
  }

  lemma ClosePinsIface(s: State, open: multiset<Stream>, st: Stream, sleepRc: int)
    requires Wf(s) && IsIface(st.iface) && st.kind != Mi2s && IfaceAgrees(s, open, st.iface) && st in open
    ensures IfaceAgrees(DropPins(s, st.iface, sleepRc), After(open, st, false), st.iface) <==>
      (s.hasGpio[st.iface] && s.gpioRef[st.iface] == 1 ==> sleepRc == 0)
  {
    CountsAfter(open, st, false, st.iface);
    assert Uses(open, st.kind, st.iface) > 0 by {
      UsesAfter(open, st, false, st.kind, st.iface);
    }
  }

  lemma OpenPinsIff(y: System, st: Stream, env: StartEnv)
    requires Inv(y) && st.kind != Mi2s
    ensures Inv(Step(y, Open(st, env))) <==> Legal(y, Open(st, env))
  {
    var y', i := Step(y, Open(st, env)), st.iface;
    if IsIface(i) && Startup(y.drv, st, env).1 >= 0 {
      StreamStep(y, y', st, true);
      PinsKeepVotes(y.drv, y'.drv, y.open, st, true);
      assert IfaceAgrees(y.drv, y.open, i);
      OpenPinsIface(y.drv, y.open, st, env.pinRc);
    }
  }

  lemma ClosePinsIff(y: System, st: Stream, env: StopEnv)
    requires Inv(y) && st.kind != Mi2s
    ensures Inv(Step(y, Close(st, env))) <==> Legal(y, Close(st, env))
  {
    var y', i := Step(y, Close(st, env)), st.iface;
    if IsIface(i) && st in y.open {
      StreamStep(y, y', st, false);
      PinsKeepVotes(y.drv, y'.drv, y.open, st, false);
      assert IfaceAgrees(y.drv, y.open, i);
      ClosePinsIface(y.drv, y.open, st, env.sleepRc);
    } else if st in y.open {
      StrayClose(y, st);
    }
  }

  /** A stream of no interface takes part in no count. */
  lemma StrayClose(y: System, st: Stream)
    requires Inv(y) && st in y.open && !IsIface(st.iface)
    ensures Inv(y.(open := After(y.open, st, false)))
  {
    var open' := After(y.open, st, false);
    forall j | IsIface(j)
      ensures IfaceAgrees(y.drv, open', j)
    {
      CountsAfter(y.open, st, false, j);
      assert IfaceAgrees(y.drv, y.open, j);
    }
    VotersAfterAt(y.drv, y.open, st, false, 0, Playback);
    VotersAfterAt(y.drv, y.open, st, false, 0, Capture);
    VotersAfterAt(y.drv, y.open, st, false, 1, Playback);
    VotersAfterAt(y.drv, y.open, st, false, 1, Capture);
    VotersAfterAt(y.drv, y.open, st, false, 2, Playback);
    VotersAfterAt(y.drv, y.open, st, false, 2, Capture);
  }

  // ---- Failed MI2S startups ----

  /** The vote, once taken, is given back completely. */
  lemma VoteRoundTrip(s: State, i: int, dir: Dir, env: StartEnv)
    requires Wf(s) && IsIface(i) && PassesVote(s, i, dir, env) && s.vote >= 0
    ensures DisableVote(TakeVote(s, i, dir), i, dir) == s
  {
  }

  /**
   Failed startups are all or nothing: whichever step fails with a negative code, the driver
   state equals the state on entry if and only if the rollback, when it has to switch the
   clock off, can do so.
   */
  lemma FailedStartupRestoresIff(y: System, i: int, dir: Dir, env: StartEnv)
    requires Inv(y) && Mi2sStartup(y.drv, i, dir, env).1 < 0
    ensures Mi2sStartup(y.drv, i, dir, env).0 == y.drv <==>
      !(IsIface(i) && PassesVote(y.drv, i, dir, env) && RollsBackClk(y.drv, i, env) && env.offRc < 0)
  {
    var s := y.drv;
    if IsIface(i) && PassesVote(s, i, dir, env) {
      assert IfaceAgrees(s, y.open, i);
      VoteRoundTrip(s, i, dir, env);
      FirstUseFails(s, i, dir, env);
    }
  }

  lemma FirstUseFails(s: State, i: int, dir: Dir, env: StartEnv)
    requires Wf(s) && IsIface(i) && PassesVote(s, i, dir, env) && s.vote >= 0 && s.refCnt[i] == 0 && !s.clks[i]
    requires Mi2sStartup(s, i, dir, env).1 < 0
    ensures Mi2sStartup(s, i, dir, env).0 ==
      if RollsBackClk(s, i, env) && env.offRc < 0 then s.(clks := s.clks[i := true]) else s
  {
    VoteRoundTrip(s, i, dir, env);
    assert s.refCnt[i := 1][i := 0] == s.refCnt;
    assert s.clks[i := true][i := false] == s.clks;
  }

  // ---- Opening and closing MI2S streams ----

  lemma TakeVoteAgrees(s: State, s': State, open: multiset<Stream>, st: Stream, env: StartEnv)
    requires Wf(s) && Wf(s') && IsIface(st.iface) && st.kind == Mi2s
    requires VotesAgree(s, open) && PassesVote(s, st.iface, st.dir, env)
    requires OtherIfacesUntouched(s, s', st.iface)
    requires s'.vote == TakeVote(s, st.iface, st.dir).vote && s'.enables == TakeVote(s, st.iface, st.dir).enables
    ensures VotesAgree(s', After(open, st, true))
  {
    VotersAfter(s, open, st, true);
    SameRates(s, s', After(open, st, true));
  }

  lemma DropVoteAgrees(s: State, s': State, open: multiset<Stream>, st: Stream)
    requires Wf(s) && Wf(s') && IsIface(st.iface) && st.kind == Mi2s && st.dir != OtherDir && st in open
    requires VotesAgree(s, open) && OtherIfacesUntouched(s, s', st.iface)
    requires s'.vote == DisableVote(s, st.iface, st.dir).vote && s'.enables == DisableVote(s, st.iface, st.dir).enables
    ensures VotesAgree(s', After(open, st, false))
  {
    VotersAfter(s, open, st, false);
    SameRates(s, s', After(open, st, false));
  }

  /** The state after a first use of an interface whose calls all succeed. */
  lemma FirstUseSucceeds(s: State, i: int, dir: Dir, env: StartEnv)
    requires Wf(s) && IsIface(i) && PassesVote(s, i, dir, env) && s.refCnt[i] == 0
    requires env.clkRc >= 0 && !RollsBackClk(s, i, env)
    ensures var (s', ret) := Mi2sStartup(s, i, dir, env);
      && ret >= 0 && OtherIfacesUntouched(s, s', i)
      && s'.vote == TakeVote(s, i, dir).vote && s'.enables == TakeVote(s, i, dir).enables
      && s'.refCnt[i] == 1 && s'.clks[i]
      && s'.gpioRef[i] == s.gpioRef[i] + BoolToNat(s.hasGpio[i] && (AsksPins(s, i) ==> env.pinRc == 0))
      && (s'.pins[i] <==> s.pins[i] || (AsksPins(s, i) && env.pinRc == 0))
  {
  }

  lemma OpenMi2sIface(s: State, s': State, open: multiset<Stream>, st: Stream)
    requires Wf(s) && Wf(s') && IsIface(st.iface) && st.kind == Mi2s && st.dir != OtherDir
    requires IfaceAgrees(s, open, st.iface) && s'.hasGpio == s.hasGpio
    requires var i := st.iface;
      && s'.refCnt[i] == s.refCnt[i] + 1 && s'.clks[i]
      && s'.gpioRef[i] == s.gpioRef[i] + BoolToNat(s.hasGpio[i] && s.refCnt[i] == 0)
      && (s.hasGpio[i] ==> s'.pins[i])
    ensures IfaceAgrees(s', After(open, st, true), st.iface)
  {
    CountsAfter(open, st, true, st.iface);
  }

  lemma FurtherUseIff(y: System, st: Stream, env: StartEnv)
    requires Inv(y) && st.kind == Mi2s && IsIface(st.iface) && PassesVote(y.drv, st.iface, st.dir, env)
    requires y.drv.refCnt[st.iface] > 0
    ensures Inv(Step(y, Open(st, env))) <==> y.drv.refCnt[st.iface] < U32_MAX
  {
    var y' := Step(y, Open(st, env));
    StreamStep(y, y', st, true);
    TakeVoteAgrees(y.drv, y'.drv, y.open, st, env);
    assert IfaceAgrees(y.drv, y.open, st.iface);
    if y.drv.refCnt[st.iface] < U32_MAX {
      OpenMi2sIface(y.drv, y'.drv, y.open, st);
    } else {
      CountsAfter(y.open, st, true, st.iface);
    }
  }

  lemma FirstUseIff(y: System, st: Stream, env: StartEnv)
    requires Inv(y) && st.kind == Mi2s && IsIface(st.iface) && PassesVote(y.drv, st.iface, st.dir, env)
    requires y.drv.refCnt[st.iface] == 0 && env.clkRc >= 0 && !RollsBackClk(y.drv, st.iface, env)
    ensures Inv(Step(y, Open(st, env))) <==> (AsksPins(y.drv, st.iface) ==> env.pinRc <= 0)
  {
    var y', i := Step(y, Open(st, env)), st.iface;
    FirstUseSucceeds(y.drv, i, st.dir, env);
    StreamStep(y, y', st, true);
    TakeVoteAgrees(y.drv, y'.drv, y.open, st, env);
    assert IfaceAgrees(y.drv, y.open, i);
    if AsksPins(y.drv, i) ==> env.pinRc <= 0 {
      OpenMi2sIface(y.drv, y'.drv, y.open, st);
    } else {
      CountsAfter(y.open, st, true, i);
    }
  }

  lemma FailedOpenIff(y: System, st: Stream, env: StartEnv)
    requires Inv(y) && st.kind == Mi2s && Startup(y.drv, st, env).1 < 0
    ensures Inv(Step(y, Open(st, env))) <==> Legal(y, Open(st, env))
  {
    var i := st.iface;
    FailedStartupRestoresIff(y, i, st.dir, env);
    if IsIface(i) && PassesVote(y.drv, i, st.dir, env) {
      assert IfaceAgrees(y.drv, y.open, i);
      FirstUseFails(y.drv, i, st.dir, env);
      assert RollsBackClk(y.drv, i, env) && env.offRc < 0 ==> !IfaceAgrees(Step(y, Open(st, env)).drv, y.open, i);
    }
  }

  lemma OpenMi2sIff(y: System, st: Stream, env: StartEnv)
    requires Inv(y) && st.kind == Mi2s
    ensures Inv(Step(y, Open(st, env))) <==> Legal(y, Open(st, env))
  {
    var i := st.iface;
    if Startup(y.drv, st, env).1 < 0 {
      FailedOpenIff(y, st, env);
    } else if y.drv.refCnt[i] > 0 {
      FurtherUseIff(y, st, env);
    } else {
      FirstUseIff(y, st, env);
    }
  }

  lemma CloseMi2sIface(s: State, open: multiset<Stream>, st: Stream, env: StopEnv)
    requires Wf(s) && IsIface(st.iface) && st.kind == Mi2s && st in open && IfaceAgrees(s, open, st.iface)
    ensures st.dir != OtherDir && s.refCnt[st.iface] > 0
    ensures IfaceAgrees(Mi2sShutdown(s, st.iface, st.dir, env), After(open, st, false), st.iface) <==>
      var last := s.refCnt[st.iface] == 1;
      (last ==> env.offRc >= 0) && (last && s.hasGpio[st.iface] && s.gpioRef[st.iface] == 1 ==> env.sleepRc == 0)
  {
    CountsAfter(open, st, false, st.iface);
    assert Uses(open, Mi2s, st.iface) > 0 by {
      UsesAfter(open, st, false, Mi2s, st.iface);
    }
  }

  lemma ShutdownShape(s: State, i: int, dir: Dir, env: StopEnv)
    requires Wf(s) && IsIface(i)
    ensures var s' := Mi2sShutdown(s, i, dir, env);
      && OtherIfacesUntouched(s, s', i)
      && s'.vote == DisableVote(s, i, dir).vote && s'.enables == DisableVote(s, i, dir).enables
  {
  }

  lemma CloseMi2sIff(y: System, st: Stream, env: StopEnv)
    requires Inv(y) && st.kind == Mi2s
    ensures Inv(Step(y, Close(st, env))) <==> Legal(y, Close(st, env))
  {
    var i := st.iface;
    if IsIface(i) && st in y.open {
      var y' := System(Mi2sShutdown(y.drv, i, st.dir, env), After(y.open, st, false));
      assert IfaceAgrees(y.drv, y.open, i);
      CloseMi2sIface(y.drv, y.open, st, env);
      ShutdownShape(y.drv, i, st.dir, env);
      StreamStep(y, y', st, false);
      DropVoteAgrees(y.drv, y'.drv, y.open, st);
    } else if st in y.open {
      StrayClose(y, st);
    }
  }

  // ---- Rate changes ----

  lemma SetRateIff(y: System, i: int, dir: Dir, rate: int)
    requires Inv(y)
    ensures Inv(Step(y, SetRate(i, dir, rate))) <==> Legal(y, SetRate(i, dir, rate))
  {
    if IsIface(i) && dir != OtherDir {
      var y' := Step(y, SetRate(i, dir, rate));
      forall j | IsIface(j)
        ensures IfaceAgrees(y'.drv, y'.open, j)
      {
        assert IfaceAgrees(y.drv, y.open, j);
      }
      RateVoters(y.drv, y'.drv, y.open, i, dir, rate);
    }
  }

  ghost predicate RateChanged(s: State, s': State, i: int, dir: Dir, rate: int)
    requires Wf(s) && Wf(s') && IsIface(i) && dir != OtherDir
  {
    s' == if dir == Playback then s.(rxRate := s.rxRate[i := rate]) else s.(txRate := s.txRate[i := rate])
  }

  lemma RateVotersAt(s: State, s': State, open: multiset<Stream>, i: int, dir: Dir, rate: int, j: int, d: Dir)
    requires Wf(s) && Wf(s') && IsIface(i) && dir != OtherDir && RateChanged(s, s', i, dir, rate)
    requires IsIface(j) && d != OtherDir
    ensures if j == i && d == dir
      then Voters(s', open, j, d) == Voters(s, open, j, d) <==>
             (VotingIface(i) && open[Stream(Mi2s, i, dir)] > 0 ==> (Fractional(rate) <==> Fractional(Rate(s, i, dir))))
      else Voters(s', open, j, d) == Voters(s, open, j, d)
  {
  }

  /** A rate change moves the number of voters unless it keeps the rate's kind or nobody listens. */
  lemma RateVoters(s: State, s': State, open: multiset<Stream>, i: int, dir: Dir, rate: int)
    requires Wf(s) && Wf(s') && IsIface(i) && dir != OtherDir && RateChanged(s, s', i, dir, rate)
    ensures AllVoters(s', open) == AllVoters(s, open) <==>
      (VotingIface(i) && open[Stream(Mi2s, i, dir)] > 0 ==> (Fractional(rate) <==> Fractional(Rate(s, i, dir))))
  {
    RateVotersAt(s, s', open, i, dir, rate, 0, Playback);
    RateVotersAt(s, s', open, i, dir, rate, 0, Capture);
    RateVotersAt(s, s', open, i, dir, rate, 1, Playback);
    RateVotersAt(s, s', open, i, dir, rate, 1, Capture);
    RateVotersAt(s, s', open, i, dir, rate, 2, Playback);
    RateVotersAt(s, s', open, i, dir, rate, 2, Capture);
  }

  // ---- Main results ----

  /** From agreement, an event keeps agreement if and only if it is legal. */
  lemma StepKeepsInvIff(y: System, ev: Event)
    requires Inv(y)
    ensures Inv(Step(y, ev)) <==> Legal(y, ev)
  {
    match ev
    case Open(st, env) => if st.kind == Mi2s { OpenMi2sIff(y, st, env); } else { OpenPinsIff(y, st, env); }
    case Close(st, env) => if st.kind == Mi2s { CloseMi2sIff(y, st, env); } else { ClosePinsIff(y, st, env); }
    case SetRate(i, dir, rate) => SetRateIff(y, i, dir, rate);
  }

  ghost predicate LegalRun(y: System, evs: seq<Event>)
    requires Wf(y.drv)
    decreases |evs|
  {
    evs == [] || (Legal(y, evs[0]) && LegalRun(Step(y, evs[0]), evs[1..]))
  }

  function Run(y: System, evs: seq<Event>): (r: System)
    requires Wf(y.drv)
    ensures Wf(r.drv)
    decreases |evs|
  {
    if evs == [] then y else Run(Step(y, evs[0]), evs[1..])
  }

  /** Over every legal run from the idle card, the counters, pins, clocks and votes agree with the open streams. */
  lemma {:induction false} RunKeepsInv(y: System, evs: seq<Event>)
    requires Inv(y) && LegalRun(y, evs)
    ensures Inv(Run(y, evs))
    decreases |evs|
  {
    if evs != [] {
      StepKeepsInvIff(y, evs[0]);
      RunKeepsInv(Step(y, evs[0]), evs[1..]);
    }
  }

  ghost predicate Idle(s: State)
    requires Wf(s)
  {
    && (forall i :: IsIface(i) ==> s.refCnt[i] == 0 && s.gpioRef[i] == 0 && !s.clks[i] && (s.hasGpio[i] ==> !s.pins[i]))
    && s.vote == 0 && s.enables == 0
  }

  /** Once every stream is closed again, everything is released, whatever happened in between. */
  lemma AllClosedIsIdle(s: State, evs: seq<Event>)
    requires Wf(s) && Idle(s) && LegalRun(System(s, multiset{}), evs)
    requires Run(System(s, multiset{}), evs).open == multiset{}
    ensures Idle(Run(System(s, multiset{}), evs).drv)
  {
    var y, y' := System(s, multiset{}), Run(System(s, multiset{}), evs);
    assert Inv(y);
    RunKeepsInv(y, evs);
    forall i | IsIface(i)
      ensures y'.drv.refCnt[i] == 0 && y'.drv.gpioRef[i] == 0 && !y'.drv.clks[i]
      ensures y'.drv.hasGpio[i] ==> !y'.drv.pins[i]
    {
      assert IfaceAgrees(y'.drv, y'.open, i);
    }
  }

  // ---- Ids, rates and counts ----

  /** One more user of interface `i`: pins are asked for on the first use only, and only there. */
  ghost predicate PinsTaken(s: State, s': State, i: int, pinRc: int, ret: int)
    requires Wf(s) && Wf(s') && 0 <= i < 4
  {
    && s' == s.(gpioRef := s'.gpioRef, pins := s'.pins)
    && (forall j :: 0 <= j < 4 && j != i ==> s'.gpioRef[j] == s.gpioRef[j] && s'.pins[j] == s.pins[j])
    && if !s.hasGpio[i] then ret == 0 && s' == s
       else if s.gpioRef[i] == 0 && pinRc != 0 then ret == pinRc && s' == s
       else ret == 0 && s'.gpioRef[i] == s.gpioRef[i] + 1 && (s'.pins[i] <==> s.pins[i] || s.gpioRef[i] == 0)
  }

  /** One user of interface `i` less: its pins go to sleep after the last, if they can. */
  ghost predicate PinsDropped(s: State, s': State, i: int, sleepRc: int)
    requires Wf(s) && Wf(s') && 0 <= i < 4
  {
    && s' == s.(gpioRef := s'.gpioRef, pins := s'.pins)
    && (forall j :: 0 <= j < 4 && j != i ==> s'.gpioRef[j] == s.gpioRef[j] && s'.pins[j] == s.pins[j])
    && if !s.hasGpio[i] then s' == s
       else s'.gpioRef[i] == s.gpioRef[i] - 1 && (s'.pins[i] <==> s.pins[i] && !(s.gpioRef[i] == 1 && sleepRc == 0))
  }

  lemma PinsUsed(s: State, i: int, pinRc: int, sleepRc: int)
    requires Wf(s)
    ensures var (s', ret) := PinStartup(s, i, pinRc);
      if 0 <= i < 4 then PinsTaken(s, s', i, pinRc, ret) else ret == -22 && s' == s
    ensures var s' := PinShutdown(s, i, sleepRc);
      if 0 <= i < 4 then PinsDropped(s, s', i, sleepRc) else s' == s
  {
  }

  lemma TdmModeOfId(daiId: int)
    ensures if 0x9000 <= daiId < 0x9040 && daiId % 16 <= 1 then TdmMode(daiId) == (daiId - 0x9000) / 16
            else TdmMode(daiId) < 0
  {
  }

  /** Ids 0x9000 + 16 * i and the next use the pins of interface `i`; every other id is refused. */
  lemma TdmIds(s: State, daiId: int, pinRc: int, sleepRc: int)
    requires Wf(s)
    ensures var (s', ret) := PinStartup(s, TdmMode(daiId), pinRc);
      if 0x9000 <= daiId < 0x9040 && daiId % 16 <= 1 then PinsTaken(s, s', (daiId - 0x9000) / 16, pinRc, ret)
      else ret == -22 && s' == s
    ensures var s' := PinShutdown(s, TdmMode(daiId), sleepRc);
      if 0x9000 <= daiId < 0x9040 && daiId % 16 <= 1 then PinsDropped(s, s', (daiId - 0x9000) / 16, sleepRc) else s' == s
  {
    TdmModeOfId(daiId);
    PinsUsed(s, TdmMode(daiId), pinRc, sleepRc);
  }

  /** AUX ids 1 to 4 use the pins of interfaces 0 to 3; every other id is refused. */
  lemma AuxIds(s: State, daiId: int, pinRc: int, sleepRc: int)
    requires Wf(s) && -0x8000_0000 <= daiId < 0x8000_0000
    ensures var (s', ret) := PinStartup(s, AuxMode(daiId), pinRc);
      if 1 <= daiId <= 4 then PinsTaken(s, s', daiId - 1, pinRc, ret) else ret == -22 && s' == s
    ensures var s' := PinShutdown(s, AuxMode(daiId), sleepRc);
      if 1 <= daiId <= 4 then PinsDropped(s, s', daiId - 1, sleepRc) else s' == s
  {
    PinsUsed(s, AuxMode(daiId), pinRc, sleepRc);
  }

  /** The stream's own configured rate is fractional, and its interface is one of the first three. */
  predicate AtFractionalRate(s: State, i: int, dir: Dir)
    requires Wf(s) && 0 <= i < 4
  {
    0 <= i <= 2 && (if dir == Playback then s.rxRate[i] else s.txRate[i]) in {11025, 22050, 44100, 88200, 176400, 352800}
  }

  /** A startup that succeeds counts one use, modulo 2^32, and one vote exactly for a fractional rate. */
  lemma StartupCounts(s: State, i: int, dir: Dir, env: StartEnv)
    requires Wf(s) && 0 <= i < 4 && Mi2sStartup(s, i, dir, env).1 >= 0
    ensures var s' := Mi2sStartup(s, i, dir, env).0;
      && dir != OtherDir && s'.refCnt == s.refCnt[i := (s.refCnt[i] + 1) % 0x1_0000_0000]
      && s'.vote == s.vote + (if AtFractionalRate(s, i, dir) then 1 else 0)
  {
    assert NeedsVote(s, i, dir) <==> AtFractionalRate(s, i, dir);
  }

  /** A shutdown takes back one use, modulo 2^32, and one vote exactly for a fractional rate. */
  lemma ShutdownCounts(s: State, i: int, dir: Dir, env: StopEnv)
    requires Wf(s) && 0 <= i < 4 && dir != OtherDir && s.hasVote && s.vote > 0
    ensures var s' := Mi2sShutdown(s, i, dir, env);
      && s'.refCnt == s.refCnt[i := s'.refCnt[i]] && s'.refCnt[i] == (s.refCnt[i] + 0xFFFF_FFFF) % 0x1_0000_0000
      && s'.vote == s.vote - (if AtFractionalRate(s, i, dir) then 1 else 0)
  {
    assert NeedsVote(s, i, dir) <==> AtFractionalRate(s, i, dir);
  }

  /** The return code of an MI2S startup, by the first step that fails. */
  lemma StartupCodes(s: State, i: int, dir: Dir, env: StartEnv)
    requires Wf(s)
    ensures Mi2sStartup(s, i, dir, env).1 ==
      if !(0 <= i < 4) || dir == OtherDir then -22
      else if AtFractionalRate(s, i, dir) && !s.hasVote then -22
      else if AtFractionalRate(s, i, dir) && s.vote == 0 && env.voteRc < 0 then env.voteRc
      else if (s.refCnt[i] + 1) % 0x1_0000_0000 != 1 then
        if AtFractionalRate(s, i, dir) && s.vote == 0 then env.voteRc else 0
      else if env.clkRc < 0 then env.clkRc
      else if env.fmtRc < 0 then env.fmtRc
      else if s.hasGpio[i] && s.gpioRef[i] == 0 then env.pinRc
      else env.fmtRc
  {
    if 0 <= i < 4 {
      assert NeedsVote(s, i, dir) <==> AtFractionalRate(s, i, dir);
    }
  }
}
