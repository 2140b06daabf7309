/**
 Clock, vote and pin counts against the open streams: which events keep them in agreement,
 and the resources that a failing or unusual call sequence leaves behind.
 */
module CommonTheorems {
  import opened Prelude
  import opened Errno
  import opened CommonModel
  import RscMgr

  /** An open stream; its rate is the runtime's, 0 until hw_params. */
  datatype Stream = Stream(intf: int, kind: Kind, rate: int, prepared: bool)

  type Streams = map<nat, Stream>

  datatype System = System(drv: State, streams: Streams)

  datatype Event =
    | Open(id: nat, intf: int, kind: Kind, pinRc: int)
    | Prepare(id: nat, rate: int, voteRc: Rc, clkRc: Rc)
    | Close(id: nat, relRc: Rc, sleepRc: int)
    | VoteReset(rcs: nat -> Rc)

  /** Streams open, and streams prepared, on an interface. */
  function OpenOn(m: Streams, i: int): set<nat> { set id | id in m && m[id].intf == i }

  function PreparedOn(m: Streams, i: int): set<nat> { set id | id in m && m[id].intf == i && m[id].prepared }

  /** Prepared streams of one interface agree in kind and rate, and none is AUXPCM. */
  ghost predicate Uniform(m: Streams) {
    && (forall id :: id in m && m[id].prepared && m[id].intf >= 0 ==> m[id].kind != AuxPcmStream)
    && forall a, b :: a in m && b in m && m[a].prepared && m[b].prepared && m[a].intf == m[b].intf >= 0 ==>
         m[a].kind == m[b].kind && m[a].rate == m[b].rate
  }

  ghost predicate Runs(m: Streams, i: int, kind: Kind) {
    exists id :: id in m && m[id].intf == i && m[id].prepared && m[id].kind == kind
  }

  ghost predicate VotesOn(s: State, m: Streams, i: int)
    requires Wf(s) && IsIntf(i)
  {
    exists id :: id in m && m[id].intf == i && m[id].prepared && NeedsVote(s, i, m[id].rate)
  }

  /** Interfaces that are on, require a vote and run at a fractional rate. */
  ghost function Voting(s: State, m: Streams): set<int>
    requires Wf(s)
  {
    set i | 0 <= i < INTF_MAX && VotesOn(s, m, i)
  }

  /** The clock count and the two clocks of an interface. */
  ghost predicate ClkAt(s: State, m: Streams, i: int)
    requires Wf(s) && IsIntf(i)
  {
    && s.clkRef[i] == |PreparedOn(m, i)|
    && (s.tdmClk[i] <==> Runs(m, i, TdmStream))
    && (s.mi2sClk[i] <==> Runs(m, i, Mi2sStream))
  }

  /** The pin count and the pins of an interface. */
  ghost predicate PinsAt(s: State, m: Streams, i: int)
    requires Wf(s) && IsIntf(i)
  {
    && s.gpioRef[i] == (if s.hasGpio[i] then |OpenOn(m, i)| else 0)
    && (s.hasGpio[i] ==> (s.pins[i] <==> s.gpioRef[i] > 0))
  }

  ghost predicate IntfAgrees(s: State, m: Streams, i: int)
    requires Wf(s) && IsIntf(i)
  {
    ClkAt(s, m, i) && PinsAt(s, m, i)
  }

  ghost predicate VotesAgree(s: State, m: Streams)
    requires Wf(s)
  {
    s.voteRef == |Voting(s, m)| && s.enables == (if s.voteRef > 0 then 1 else 0)
    && (s.voteRef > 0 ==> s.hasVote && s.initDone)
  }

  /**
   The invariant. Per interface: the clock count is its prepared streams, its clock is on
   exactly while it has one, the pin count is its open streams and the pins are active
   exactly while counted. The vote count is the number of interfaces that run at a
   fractional rate and need a vote, and the shared vote clock carries one enable exactly
   while there are any.
   */
  ghost predicate Inv(y: System) {
    && Wf(y.drv)
    && (forall id :: id in y.streams ==> y.streams[id].intf < INTF_MAX)
    && Uniform(y.streams)
    && (forall i :: IsIntf(i) ==> IntfAgrees(y.drv, y.streams, i))
    && VotesAgree(y.drv, y.streams)
  }

  /** Streams open under new names on interfaces that exist; other calls name open streams. */
  predicate ValidEvent(y: System, ev: Event) {
    match ev
    case Open(id, i, _, _) => id !in y.streams && i < INTF_MAX
    case Prepare(id, _, _, _) => id in y.streams
    case Close(id, _, _) => id in y.streams
    case VoteReset(_) => true
  }

  ghost function Step(y: System, ev: Event): (r: System)
    requires Wf(y.drv) && ValidEvent(y, ev)
    requires forall id :: id in y.streams ==> y.streams[id].intf < INTF_MAX
    ensures Wf(r.drv) && forall id :: id in r.streams ==> r.streams[id].intf < INTF_MAX
  {
    match ev
    case Open(id, i, kind, pinRc) =>
      var (s', ret) := Startup(y.drv, i, pinRc);
      System(s', if ret >= 0 then y.streams[id := Stream(i, kind, 0, false)] else y.streams)
    case Prepare(id, rate, voteRc, clkRc) =>
      var st := y.streams[id];
      var (s', ret) := HwParams(y.drv, st.intf, st.kind, rate, voteRc, clkRc);
      System(s', if ret >= 0 then y.streams[id := st.(rate := rate, prepared := true)] else y.streams)
    case Close(id, relRc, sleepRc) =>
      var st := y.streams[id];
      System(Shutdown(y.drv, st.intf, st.kind, st.rate, relRc, sleepRc), y.streams - {id})
    case VoteReset(rcs) =>
      if y.drv.hasVote && y.drv.initDone
      then y.(drv := y.drv.(enables := RscMgr.Restored(y.drv.enables, rcs)))
      else y
  }

  /** The streams prepared on interface `i` that `id` would join run the same kind at the same rate. */
  ghost predicate Matches(m: Streams, i: int, kind: Kind, rate: int) {
    kind != AuxPcmStream && forall a :: a in m && m[a].intf == i && m[a].prepared ==> m[a].kind == kind && m[a].rate == rate
  }

  /** The vote of a first prepare: not needed, or obtained. */
  predicate VoteObtained(s: State, i: int, rate: int, voteRc: Rc)
    requires Wf(s) && IsIntf(i)
  {
    NeedsVote(s, i, rate) ==> s.hasVote && (s.voteRef == 0 ==> s.initDone && voteRc == 0)
  }

  ghost predicate Legal(y: System, ev: Event)
    requires Wf(y.drv) && ValidEvent(y, ev)
    requires forall id :: id in y.streams ==> y.streams[id].intf < INTF_MAX
  {
    var s := y.drv;
    match ev
    case Open(_, i, _, pinRc) => IsIntf(i) && s.hasGpio[i] && s.gpioRef[i] == 0 ==> pinRc <= 0
    case Prepare(id, rate, voteRc, clkRc) =>
      var st := y.streams[id];
      if st.intf < 0 then true
      else if s.clkRef[st.intf] > 0 then !st.prepared && Matches(y.streams, st.intf, st.kind, rate)
      else if st.kind == AuxPcmStream then false
      else VoteObtained(s, st.intf, rate, voteRc) && NeedsVote(s, st.intf, rate) ==> clkRc == 0
    case Close(id, relRc, sleepRc) =>
      var st := y.streams[id];
      st.intf >= 0 ==>
        && (st.prepared || s.clkRef[st.intf] == 0)
        && (s.clkRef[st.intf] == 1 ==> relRc == 0)
        && (s.hasGpio[st.intf] && s.gpioRef[st.intf] == 1 ==> sleepRc == 0)
    case VoteReset(rcs) => s.enables == 1 ==> rcs(0) == 0
  }

  // ---- One interface at a time ----

  ghost predicate SameStreamsOn(m: Streams, m': Streams, j: int) {
    && (forall id :: id in m && m[id].intf == j ==> id in m' && m'[id] == m[id])
    && forall id :: id in m' && m'[id].intf == j ==> id in m && m'[id] == m[id]
  }

  ghost predicate SameDriverAt(s: State, s': State, j: int)
    requires Wf(s) && Wf(s') && IsIntf(j)
  {
    && s'.hasGpio[j] == s.hasGpio[j] && s'.voteReq[j] == s.voteReq[j]
    && s'.clkRef[j] == s.clkRef[j] && s'.gpioRef[j] == s.gpioRef[j]
    && s'.pins[j] == s.pins[j] && s'.tdmClk[j] == s.tdmClk[j] && s'.mi2sClk[j] == s.mi2sClk[j]
  }

  lemma SameSets(m: Streams, m': Streams, j: int)
    requires SameStreamsOn(m, m', j)
    ensures OpenOn(m', j) == OpenOn(m, j) && PreparedOn(m', j) == PreparedOn(m, j)
  {
  }

  lemma UntouchedIntf(s: State, m: Streams, s': State, m': Streams, j: int)
    requires Wf(s) && Wf(s') && IsIntf(j) && SameStreamsOn(m, m', j) && SameDriverAt(s, s', j)
    ensures IntfAgrees(s', m', j) <==> IntfAgrees(s, m, j)
    ensures VotesOn(s', m', j) <==> VotesOn(s, m, j)
  {
    SameSets(m, m', j);
    assert Runs(m', j, TdmStream) <==> Runs(m, j, TdmStream);
    assert Runs(m', j, Mi2sStream) <==> Runs(m, j, Mi2sStream);
  }

  lemma SetsButOne(a: set<int>, b: set<int>, i: int)
    requires a - {i} == b - {i}
    ensures |b| == |a| + BoolToNat(i in b) - BoolToNat(i in a)
  {
    var rest := a - {i};
    assert i in a ==> a == rest + {i};
    assert i in b ==> b == rest + {i};
    assert i !in a ==> a == rest;
    assert i !in b ==> b == rest;
  }

  /** When only interface `i` may start or stop voting, the count moves by that alone. */
  lemma VotingAt(s: State, m: Streams, s': State, m': Streams, i: int)
    requires Wf(s) && Wf(s') && IsIntf(i)
    requires forall j :: IsIntf(j) && j != i ==> (VotesOn(s', m', j) <==> VotesOn(s, m, j))
    ensures |Voting(s', m')| == |Voting(s, m)| + BoolToNat(VotesOn(s', m', i)) - BoolToNat(VotesOn(s, m, i))
  {
    var a, b := Voting(s, m), Voting(s', m');
    forall j | j != i
      ensures j in a <==> j in b
    {
    }
    SetsButOne(a, b, i);
  }

  /** Every interface but `i` is as before. */
  ghost predicate DriverOnlyAt(s: State, s': State, i: int)
    requires Wf(s) && Wf(s')
  {
    && s'.hasVote == s.hasVote && s'.initDone == s.initDone
    && forall j :: IsIntf(j) && j != i ==> SameDriverAt(s, s', j)
  }

  ghost predicate StreamsOnlyAt(m: Streams, m': Streams, i: int) {
    forall j :: j != i ==> SameStreamsOn(m, m', j)
  }

  lemma StreamsStayInRange(m: Streams, m': Streams, i: int)
    requires StreamsOnlyAt(m, m', i) && i < INTF_MAX && forall id :: id in m ==> m[id].intf < INTF_MAX
    ensures forall id :: id in m' ==> m'[id].intf < INTF_MAX
  {
    forall id | id in m'
      ensures m'[id].intf < INTF_MAX
    {
      assert SameStreamsOn(m, m', m'[id].intf) || m'[id].intf == i;
    }
  }

  lemma OthersAgree(s: State, m: Streams, s': State, m': Streams, i: int)
    requires Wf(s) && Wf(s') && IsIntf(i) && DriverOnlyAt(s, s', i) && StreamsOnlyAt(m, m', i)
    requires forall j :: IsIntf(j) ==> IntfAgrees(s, m, j)
    ensures forall j :: IsIntf(j) && j != i ==> IntfAgrees(s', m', j)
    ensures |Voting(s', m')| == |Voting(s, m)| + BoolToNat(VotesOn(s', m', i)) - BoolToNat(VotesOn(s, m, i))
  {
    forall j | IsIntf(j) && j != i
      ensures IntfAgrees(s', m', j)
      ensures VotesOn(s', m', j) <==> VotesOn(s, m, j)
    {
      UntouchedIntf(s, m, s', m', j);
      assert IntfAgrees(s, m, j);
    }
    VotingAt(s, m, s', m', i);
  }

  /** The vote count and the enable move as interface `i` starts or stops voting. */
  ghost predicate VotesMove(s: State, m: Streams, s': State, m': Streams, i: int)
    requires Wf(s) && Wf(s') && IsIntf(i)
  {
    && s'.voteRef == s.voteRef + BoolToNat(VotesOn(s', m', i)) - BoolToNat(VotesOn(s, m, i))
    && s'.enables == (if s'.voteRef > 0 then 1 else 0)
    && (s'.voteRef > 0 ==> s'.hasVote && s'.initDone)
  }

  lemma StepAt(s: State, m: Streams, s': State, m': Streams, i: int)
    requires Inv(System(s, m)) && Wf(s') && IsIntf(i) && DriverOnlyAt(s, s', i) && StreamsOnlyAt(m, m', i)
    ensures Inv(System(s', m')) <==> Uniform(m') && ClkAt(s', m', i) && PinsAt(s', m', i) && VotesMove(s, m, s', m', i)
    ensures IntfAgrees(s, m, i) && Uniform(m)
  {
    OthersAgree(s, m, s', m', i);
    StreamsStayInRange(m, m', i);
    assert (forall j :: IsIntf(j) ==> IntfAgrees(s', m', j)) <==> IntfAgrees(s', m', i);
    assert VotesAgree(s', m') <==> VotesMove(s, m, s', m', i);
  }

  // ---- Streams on no interface ----

  lemma OffIntf(y: System, y': System)
    requires Inv(y) && y'.drv == y.drv
    requires forall j :: IsIntf(j) ==> SameStreamsOn(y.streams, y'.streams, j)
    requires forall id :: id in y'.streams ==> y'.streams[id].intf < INTF_MAX
    ensures Inv(y')
  {
    forall j | IsIntf(j)
      ensures IntfAgrees(y'.drv, y'.streams, j)
      ensures VotesOn(y'.drv, y'.streams, j) <==> VotesOn(y.drv, y.streams, j)
    {
      UntouchedIntf(y.drv, y.streams, y'.drv, y'.streams, j);
      assert IntfAgrees(y.drv, y.streams, j);
    }
    assert Voting(y'.drv, y'.streams) == Voting(y.drv, y.streams);
    forall id | id in y'.streams && y'.streams[id].prepared && y'.streams[id].intf >= 0
      ensures id in y.streams && y.streams[id] == y'.streams[id]
    {
      assert SameStreamsOn(y.streams, y'.streams, y'.streams[id].intf);
    }
  }

  // ---- Startup ----

  lemma OpenSets(m: Streams, id: nat, st: Stream)
    requires id !in m && !st.prepared
    ensures var m' := m[id := st];
      && OpenOn(m', st.intf) == OpenOn(m, st.intf) + {id} && id !in OpenOn(m, st.intf)
      && StreamsOnlyAt(m, m', st.intf)
      && (Uniform(m) ==> Uniform(m'))
  {
  }

  lemma StartupFrame(s: State, i: int, pinRc: int)
    requires Wf(s) && IsIntf(i)
    ensures DriverOnlyAt(s, Startup(s, i, pinRc).0, i)
  {
  }

  lemma OpenPins(s: State, m: Streams, id: nat, st: Stream, pinRc: int)
    requires Wf(s) && IsIntf(st.intf) && PinsAt(s, m, st.intf) && id !in m && !st.prepared
    requires Startup(s, st.intf, pinRc).1 >= 0
    ensures PinsAt(Startup(s, st.intf, pinRc).0, m[id := st], st.intf) <==>
              (s.hasGpio[st.intf] && s.gpioRef[st.intf] == 0 ==> pinRc <= 0)
  {
    OpenSets(m, id, st);
  }

  lemma OpenClk(s: State, m: Streams, id: nat, st: Stream, pinRc: int)
    requires Wf(s) && IsIntf(st.intf) && id !in m && !st.prepared
    ensures var s' := Startup(s, st.intf, pinRc).0;
      && (ClkAt(s, m, st.intf) ==> ClkAt(s', m[id := st], st.intf))
      && (VotesOn(s', m[id := st], st.intf) <==> VotesOn(s, m, st.intf))
  {
    var m' := m[id := st];
    assert forall a | a in m && m[a].prepared :: a in m' && m'[a] == m[a];
    assert forall a | a in m' && m'[a].prepared :: a in m && m'[a] == m[a];
    assert PreparedOn(m', st.intf) == PreparedOn(m, st.intf);
  }

  lemma OpenAccepted(s: State, m: Streams, id: nat, st: Stream, pinRc: int)
    requires Inv(System(s, m)) && id !in m && !st.prepared && IsIntf(st.intf)
    requires Startup(s, st.intf, pinRc).1 >= 0
    ensures Inv(System(Startup(s, st.intf, pinRc).0, m[id := st])) <==>
              (s.hasGpio[st.intf] && s.gpioRef[st.intf] == 0 ==> pinRc <= 0)
  {
    var s' := Startup(s, st.intf, pinRc).0;
    OpenSets(m, id, st);
    StartupFrame(s, st.intf, pinRc);
    StepAt(s, m, s', m[id := st], st.intf);
    OpenPins(s, m, id, st, pinRc);
    OpenClk(s, m, id, st, pinRc);
  }

  lemma OpenIff(y: System, id: nat, i: int, kind: Kind, pinRc: int)
    requires Inv(y) && ValidEvent(y, Open(id, i, kind, pinRc))
    ensures Inv(Step(y, Open(id, i, kind, pinRc))) <==> Legal(y, Open(id, i, kind, pinRc))
  {
    var st := Stream(i, kind, 0, false);
    if i < 0 {
      OffIntf(y, Step(y, Open(id, i, kind, pinRc)));
    } else if Startup(y.drv, i, pinRc).1 >= 0 {
      OpenAccepted(y.drv, y.streams, id, st, pinRc);
    }
  }

  // ---- hw_params ----

  lemma PrepareSets(m: Streams, id: nat, st: Stream)
    requires id in m && m[id].intf == st.intf && st.prepared
    ensures var m' := m[id := st];
      && OpenOn(m', st.intf) == OpenOn(m, st.intf)
      && PreparedOn(m', st.intf) == PreparedOn(m, st.intf) + {id}
      && (id in PreparedOn(m, st.intf) <==> m[id].prepared)
      && StreamsOnlyAt(m, m', st.intf)
  {
  }

  /** A new prepared stream keeps uniformity exactly when it matches the others. */
  lemma PrepareUniform(m: Streams, id: nat, st: Stream)
    requires id in m && m[id].intf == st.intf >= 0 && st.prepared && !m[id].prepared && Uniform(m)
    ensures Uniform(m[id := st]) <==> Matches(m, st.intf, st.kind, st.rate)
  {
    var m' := m[id := st];
    if Uniform(m') {
      forall a | a in m && m[a].intf == st.intf && m[a].prepared
        ensures m[a].kind == st.kind && m[a].rate == st.rate
      {
        assert a in m' && m'[a] == m[a];
        assert id in m' && m'[id] == st;
      }
      assert id in m' && m'[id] == st;
    }
  }

  /** A further prepare counts one more stream and moves no clock. */
  lemma JoinClk(s: State, m: Streams, id: nat, st: Stream)
    requires Wf(s) && IsIntf(st.intf) && ClkAt(s, m, st.intf) && s.clkRef[st.intf] > 0
    requires id in m && m[id].intf == st.intf && st.prepared
    requires !m[id].prepared ==> Matches(m, st.intf, st.kind, st.rate)
    ensures var s' := s.(clkRef := s.clkRef[st.intf := s.clkRef[st.intf] + 1]);
      && (ClkAt(s', m[id := st], st.intf) <==> !m[id].prepared)
      && (!m[id].prepared ==> (VotesOn(s', m[id := st], st.intf) <==> VotesOn(s, m, st.intf)))
  {
    var m', i := m[id := st], st.intf;
    PrepareSets(m, id, st);
    assert s.clkRef[i] == |PreparedOn(m, i)|;
    if m[id].prepared {
      assert PreparedOn(m', i) == PreparedOn(m, i);
    } else {
      assert PreparedOn(m, i) != {};
      var b: nat :| b in PreparedOn(m, i);
      assert b in m' && m'[b] == m[b];
      assert id in m' && m'[id] == st;
      assert m[b].kind == st.kind && m[b].rate == st.rate;
      assert forall a | a in m && m[a].prepared :: a in m' && m'[a] == m[a];
      assert forall a | a in m' && m'[a].prepared && a != id :: a in m && m'[a] == m[a];
    }
  }

  lemma PreparePins(s: State, m: Streams, s': State, id: nat, st: Stream)
    requires Wf(s) && Wf(s') && IsIntf(st.intf) && PinsAt(s, m, st.intf)
    requires s'.gpioRef == s.gpioRef && s'.pins == s.pins && s'.hasGpio == s.hasGpio
    requires id in m && m[id].intf == st.intf && st.prepared
    ensures PinsAt(s', m[id := st], st.intf)
  {
    PrepareSets(m, id, st);
  }

  lemma JoinFrame(s: State, i: int)
    requires Wf(s) && IsIntf(i)
    ensures DriverOnlyAt(s, s.(clkRef := s.clkRef[i := s.clkRef[i] + 1]), i)
  {
  }

  lemma JoinAccepted(s: State, m: Streams, id: nat, st: Stream)
    requires Inv(System(s, m)) && IsIntf(st.intf) && s.clkRef[st.intf] > 0
    requires id in m && m[id].intf == st.intf && st.prepared
    ensures Inv(System(s.(clkRef := s.clkRef[st.intf := s.clkRef[st.intf] + 1]), m[id := st])) <==>
              !m[id].prepared && Matches(m, st.intf, st.kind, st.rate)
  {
    var s' := s.(clkRef := s.clkRef[st.intf := s.clkRef[st.intf] + 1]);
    PrepareSets(m, id, st);
    JoinFrame(s, st.intf);
    StepAt(s, m, s', m[id := st], st.intf);
    if m[id].prepared {
      JoinClk(s, m, id, st);
    } else {
      PrepareUniform(m, id, st);
      if Matches(m, st.intf, st.kind, st.rate) {
        PreparePins(s, m, s', id, st);
        JoinClk(s, m, id, st);
      }
    }
  }

  /** The first prepared stream of an interface decides which clock runs and whether it votes. */
  lemma FirstSets(s: State, m: Streams, id: nat, st: Stream)
    requires Wf(s) && IsIntf(st.intf) && ClkAt(s, m, st.intf) && s.clkRef[st.intf] == 0
    requires id in m && m[id].intf == st.intf && st.prepared
    ensures !VotesOn(s, m, st.intf) && !s.tdmClk[st.intf] && !s.mi2sClk[st.intf]
    ensures !m[id].prepared && Matches(m, st.intf, st.kind, st.rate) <==> st.kind != AuxPcmStream
    ensures VotesOn(s, m[id := st], st.intf) <==> NeedsVote(s, st.intf, st.rate)
    ensures Runs(m[id := st], st.intf, TdmStream) <==> st.kind == TdmStream
    ensures Runs(m[id := st], st.intf, Mi2sStream) <==> st.kind == Mi2sStream
    ensures |PreparedOn(m[id := st], st.intf)| == 1
  {
    var m', i := m[id := st], st.intf;
    assert PreparedOn(m, i) == {};
    assert forall a :: a in m && m[a].intf == i && m[a].prepared ==> a in PreparedOn(m, i);
    PrepareSets(m, id, st);
    assert PreparedOn(m', i) == {id};
    assert id in m' && m'[id] == st;
    assert forall a :: a in m' && m'[a].intf == i && m'[a].prepared ==> a in PreparedOn(m', i);
  }

  /** The driver after the vote of a first prepare, if one is needed, has been obtained. */
  function Taken(s: State, i: int, rate: int): (r: State)
    requires Wf(s) && IsIntf(i)
    ensures Wf(r)
  {
    if NeedsVote(s, i, rate) then s.(voteRef := s.voteRef + 1, enables := s.enables + BoolToNat(s.voteRef == 0)) else s
  }

  function ClkStarted(s: State, i: int, kind: Kind, rate: int): (r: State)
    requires Wf(s) && IsIntf(i)
    ensures Wf(r)
  {
    SetClk(Taken(s, i, rate), i, kind, true).(clkRef := s.clkRef[i := 1])
  }

  /** What a first prepare does: nothing, keep the vote alone, or everything. */
  lemma FirstPrepareCases(s: State, i: int, kind: Kind, rate: int, voteRc: Rc, clkRc: Rc)
    requires Wf(s) && IsIntf(i) && s.clkRef[i] == 0 && kind != AuxPcmStream
    ensures var (s', ret) := HwParams(s, i, kind, rate, voteRc, clkRc);
      if !VoteObtained(s, i, rate, voteRc) then s' == s && ret < 0
      else if clkRc < 0 then s' == Taken(s, i, rate) && ret < 0
      else s' == ClkStarted(s, i, kind, rate) && ret == 0
  {
  }

  lemma TakenFrame(s: State, i: int, rate: int)
    requires Wf(s) && IsIntf(i)
    ensures DriverOnlyAt(s, Taken(s, i, rate), i)
  {
  }

  lemma ClkStartedFrame(s: State, i: int, kind: Kind, rate: int)
    requires Wf(s) && IsIntf(i)
    ensures DriverOnlyAt(s, ClkStarted(s, i, kind, rate), i)
  {
  }

  lemma FirstAccepted(s: State, m: Streams, id: nat, st: Stream)
    requires Inv(System(s, m)) && IsIntf(st.intf) && s.clkRef[st.intf] == 0 && st.kind != AuxPcmStream
    requires NeedsVote(s, st.intf, st.rate) ==> s.hasVote && s.initDone
    requires id in m && m[id].intf == st.intf && st.prepared
    ensures Inv(System(ClkStarted(s, st.intf, st.kind, st.rate), m[id := st]))
  {
    var s', i := ClkStarted(s, st.intf, st.kind, st.rate), st.intf;
    assert IntfAgrees(s, m, i);
    ClkStartedFrame(s, i, st.kind, st.rate);
    FirstSets(s, m, id, st);
    PrepareSets(m, id, st);
    PrepareUniform(m, id, st);
    PreparePins(s, m, s', id, st);
    StepAt(s, m, s', m[id := st], i);
    assert VotesOn(s', m[id := st], i) <==> VotesOn(s, m[id := st], i);
  }

  /** A vote taken with no stream prepared for it is never given back. */
  lemma VoteLeaks(s: State, m: Streams, i: int, rate: int)
    requires Inv(System(s, m)) && IsIntf(i)
    ensures Inv(System(Taken(s, i, rate), m)) <==> !NeedsVote(s, i, rate)
  {
    var s' := Taken(s, i, rate);
    TakenFrame(s, i, rate);
    StepAt(s, m, s', m, i);
    assert VotesOn(s', m, i) <==> VotesOn(s, m, i);
  }

  lemma AuxIsNotUniform(m: Streams, id: nat)
    requires id in m && m[id].prepared && m[id].intf >= 0 && m[id].kind == AuxPcmStream
    ensures !Uniform(m)
  {
  }

  lemma PrepareFirst(s: State, m: Streams, id: nat, st: Stream, voteRc: Rc, clkRc: Rc)
    requires Inv(System(s, m)) && IsIntf(st.intf) && s.clkRef[st.intf] == 0 && st.kind != AuxPcmStream
    requires id in m && m[id].intf == st.intf && st.prepared
    ensures var (s', ret) := HwParams(s, st.intf, st.kind, st.rate, voteRc, clkRc);
      Inv(System(s', if ret >= 0 then m[id := st] else m)) <==>
        (VoteObtained(s, st.intf, st.rate, voteRc) && NeedsVote(s, st.intf, st.rate) ==> clkRc == 0)
  {
    FirstPrepareCases(s, st.intf, st.kind, st.rate, voteRc, clkRc);
    if VoteObtained(s, st.intf, st.rate, voteRc) {
      if clkRc < 0 {
        VoteLeaks(s, m, st.intf, st.rate);
      } else {
        FirstAccepted(s, m, id, st);
      }
    }
  }

  lemma PrepareOnIntf(s: State, m: Streams, id: nat, st: Stream, voteRc: Rc, clkRc: Rc)
    requires Inv(System(s, m)) && IsIntf(st.intf)
    requires id in m && m[id].intf == st.intf && st.prepared
    ensures var (s', ret) := HwParams(s, st.intf, st.kind, st.rate, voteRc, clkRc);
      Inv(System(s', if ret >= 0 then m[id := st] else m)) <==>
        if s.clkRef[st.intf] > 0 then !m[id].prepared && Matches(m, st.intf, st.kind, st.rate)
        else if st.kind == AuxPcmStream then false
        else (VoteObtained(s, st.intf, st.rate, voteRc) && NeedsVote(s, st.intf, st.rate) ==> clkRc == 0)
  {
    if s.clkRef[st.intf] != 0 {
      assert IntfAgrees(s, m, st.intf);
      JoinAccepted(s, m, id, st);
    } else if st.kind == AuxPcmStream {
      AuxIsNotUniform(m[id := st], id);
    } else {
      PrepareFirst(s, m, id, st, voteRc, clkRc);
    }
  }

  lemma PrepareIff(y: System, id: nat, rate: int, voteRc: Rc, clkRc: Rc)
    requires Inv(y) && ValidEvent(y, Prepare(id, rate, voteRc, clkRc))
    ensures Inv(Step(y, Prepare(id, rate, voteRc, clkRc))) <==> Legal(y, Prepare(id, rate, voteRc, clkRc))
  {
    var st := y.streams[id].(rate := rate, prepared := true);
    if st.intf < 0 {
      assert forall j :: IsIntf(j) ==> SameStreamsOn(y.streams, y.streams[id := st], j);
      OffIntf(y, Step(y, Prepare(id, rate, voteRc, clkRc)));
    } else {
      PrepareOnIntf(y.drv, y.streams, id, st, voteRc, clkRc);
    }
  }

  // ---- Shutdown ----

  lemma CloseSets(m: Streams, id: nat)
    requires id in m
    ensures var m', i := m - {id}, m[id].intf;
      && OpenOn(m', i) == OpenOn(m, i) - {id} && id in OpenOn(m, i)
      && PreparedOn(m', i) == PreparedOn(m, i) - {id} && (id in PreparedOn(m, i) <==> m[id].prepared)
      && StreamsOnlyAt(m, m', i)
      && (Uniform(m) ==> Uniform(m'))
  {
  }

  lemma CloseFrame(s: State, i: int, kind: Kind, rate: int, relRc: Rc)
    requires Wf(s) && IsIntf(i)
    ensures DriverOnlyAt(s, DropClk(s, i, kind, rate, relRc), i)
  {
  }

  lemma DropPinsFrame(s: State, i: int, sleepRc: int)
    requires Wf(s) && IsIntf(i)
    ensures DriverOnlyAt(s, DropPins(s, i, sleepRc), i)
  {
  }

  lemma ClosePins(s: State, m: Streams, id: nat, sleepRc: int)
    requires Wf(s) && id in m && IsIntf(m[id].intf) && PinsAt(s, m, m[id].intf)
    ensures PinsAt(DropPins(s, m[id].intf, sleepRc), m - {id}, m[id].intf) <==>
              (s.hasGpio[m[id].intf] && s.gpioRef[m[id].intf] == 1 ==> sleepRc == 0)
  {
    CloseSets(m, id);
  }

  /** Dropping a stream that another one stands for starts and stops nothing. */
  lemma StandIn(s: State, m: Streams, id: nat, i: int, b: nat)
    requires Wf(s) && IsIntf(i) && id in m && b in m
    requires m[id].prepared && m[id].intf == i ==> b != id && m[b] == m[id]
    ensures VotesOn(s, m - {id}, i) <==> VotesOn(s, m, i)
    ensures forall kind :: Runs(m - {id}, i, kind) <==> Runs(m, i, kind)
  {
    var m' := m - {id};
    assert b != id ==> b in m' && m'[b] == m[b];
    assert forall a :: a in m && a != id ==> a in m' && m'[a] == m[a];
  }

  /** Closing one of several prepared streams, or one never prepared, starts and stops nothing. */
  lemma CloseOther(s: State, m: Streams, id: nat)
    requires Wf(s) && id in m && IsIntf(m[id].intf) && ClkAt(s, m, m[id].intf) && Uniform(m)
    requires m[id].prepared ==> s.clkRef[m[id].intf] != 1
    ensures VotesOn(s, m - {id}, m[id].intf) <==> VotesOn(s, m, m[id].intf)
    ensures Runs(m - {id}, m[id].intf, TdmStream) <==> s.tdmClk[m[id].intf]
    ensures Runs(m - {id}, m[id].intf, Mi2sStream) <==> s.mi2sClk[m[id].intf]
    ensures |PreparedOn(m - {id}, m[id].intf)| == s.clkRef[m[id].intf] - BoolToNat(m[id].prepared)
  {
    var i := m[id].intf;
    CloseSets(m, id);
    if m[id].prepared {
      assert |PreparedOn(m, i) - {id}| > 0;
      var b: nat :| b in PreparedOn(m, i) - {id};
      assert m[b] == m[id];
      StandIn(s, m, id, i, b);
    } else {
      StandIn(s, m, id, i, id);
    }
  }

  /** Closing the last prepared stream of an interface leaves nothing that runs or votes. */
  lemma CloseLast(s: State, m: Streams, id: nat)
    requires Wf(s) && id in m && IsIntf(m[id].intf) && ClkAt(s, m, m[id].intf) && Uniform(m)
    requires m[id].prepared && s.clkRef[m[id].intf] == 1
    ensures VotesOn(s, m, m[id].intf) <==> NeedsVote(s, m[id].intf, m[id].rate)
    ensures !VotesOn(s, m - {id}, m[id].intf)
    ensures forall kind :: !Runs(m - {id}, m[id].intf, kind)
    ensures s.tdmClk[m[id].intf] <==> m[id].kind == TdmStream
    ensures s.mi2sClk[m[id].intf] <==> m[id].kind == Mi2sStream
    ensures PreparedOn(m - {id}, m[id].intf) == {}
  {
    var m', i := m - {id}, m[id].intf;
    CloseSets(m, id);
    assert |PreparedOn(m, i) - {id}| == 0;
    assert PreparedOn(m', i) == {};
    assert forall a :: a in m' && m'[a].intf == i && m'[a].prepared ==> a in PreparedOn(m', i);
  }

  /** The clock part of a shutdown against the streams that remain. */
  ghost predicate ClkClosed(s: State, m: Streams, s': State, m': Streams, i: int)
    requires Wf(s) && Wf(s') && IsIntf(i)
  {
    ClkAt(s', m', i) && VotesMove(s, m, s', m', i)
  }

  /** The last prepared stream: its vote goes, and its clock if the release succeeds. */
  lemma CloseClkLast(s: State, m: Streams, id: nat, relRc: Rc)
    requires Wf(s) && id in m && IsIntf(m[id].intf) && ClkAt(s, m, m[id].intf) && Uniform(m) && VotesAgree(s, m)
    requires m[id].prepared && s.clkRef[m[id].intf] == 1
    ensures var st := m[id];
      ClkClosed(s, m, DropClk(s, st.intf, st.kind, st.rate, relRc), m - {id}, st.intf) <==> relRc == 0
  {
    var st, m' := m[id], m - {id};
    var s' := DropClk(s, st.intf, st.kind, st.rate, relRc);
    CloseLast(s, m, id);
    assert VotesOn(s', m', st.intf) <==> VotesOn(s, m', st.intf);
    if NeedsVote(s, st.intf, st.rate) {
      assert st.intf in Voting(s, m);
      assert s.voteRef >= 1;
    }
  }

  lemma CloseClkOther(s: State, m: Streams, id: nat, relRc: Rc)
    requires Wf(s) && id in m && IsIntf(m[id].intf) && ClkAt(s, m, m[id].intf) && Uniform(m) && VotesAgree(s, m)
    requires !(m[id].prepared && s.clkRef[m[id].intf] == 1)
    ensures var st := m[id];
      ClkClosed(s, m, DropClk(s, st.intf, st.kind, st.rate, relRc), m - {id}, st.intf) <==>
        st.prepared || s.clkRef[st.intf] == 0
  {
    var st, m' := m[id], m - {id};
    CloseOther(s, m, id);
    assert VotesOn(DropClk(s, st.intf, st.kind, st.rate, relRc), m', st.intf) <==> VotesOn(s, m', st.intf);
  }

  lemma CloseClk(s: State, m: Streams, id: nat, relRc: Rc)
    requires Wf(s) && id in m && IsIntf(m[id].intf) && ClkAt(s, m, m[id].intf) && Uniform(m) && VotesAgree(s, m)
    ensures var st := m[id];
      ClkClosed(s, m, DropClk(s, st.intf, st.kind, st.rate, relRc), m - {id}, st.intf) <==>
        (st.prepared || s.clkRef[st.intf] == 0) && (s.clkRef[st.intf] == 1 ==> relRc == 0)
  {
    if m[id].prepared && s.clkRef[m[id].intf] == 1 {
      CloseClkLast(s, m, id, relRc);
    } else {
      CloseClkOther(s, m, id, relRc);
    }
  }

  lemma PinsKeepClk(s: State, m: Streams, s1: State, m': Streams, i: int, sleepRc: int)
    requires Wf(s) && Wf(s1) && IsIntf(i)
    ensures ClkClosed(s, m, DropPins(s1, i, sleepRc), m', i) <==> ClkClosed(s, m, s1, m', i)
  {
    assert VotesOn(DropPins(s1, i, sleepRc), m', i) <==> VotesOn(s1, m', i);
  }

  lemma CloseOnIntf(s: State, m: Streams, id: nat, relRc: Rc, sleepRc: int)
    requires Inv(System(s, m)) && id in m && IsIntf(m[id].intf)
    ensures var st := m[id];
      Inv(System(Shutdown(s, st.intf, st.kind, st.rate, relRc, sleepRc), m - {id})) <==>
        && (st.prepared || s.clkRef[st.intf] == 0)
        && (s.clkRef[st.intf] == 1 ==> relRc == 0)
        && (s.hasGpio[st.intf] && s.gpioRef[st.intf] == 1 ==> sleepRc == 0)
  {
    var st, m' := m[id], m - {id};
    var i := st.intf;
    var s1 := DropClk(s, i, st.kind, st.rate, relRc);
    var s' := DropPins(s1, i, sleepRc);
    assert IntfAgrees(s, m, i);
    CloseSets(m, id);
    CloseFrame(s, i, st.kind, st.rate, relRc);
    DropPinsFrame(s1, i, sleepRc);
    CloseClk(s, m, id, relRc);
    PinsKeepClk(s, m, s1, m', i, sleepRc);
    ClosePins(s1, m, id, sleepRc);
    StepAt(s, m, s', m', i);
  }

  lemma CloseIff(y: System, id: nat, relRc: Rc, sleepRc: int)
    requires Inv(y) && ValidEvent(y, Close(id, relRc, sleepRc))
    ensures Inv(Step(y, Close(id, relRc, sleepRc))) <==> Legal(y, Close(id, relRc, sleepRc))
  {
    if y.streams[id].intf < 0 {
      OffIntf(y, Step(y, Close(id, relRc, sleepRc)));
    } else {
      CloseOnIntf(y.drv, y.streams, id, relRc, sleepRc);
    }
  }

  // ---- Vote reset, and whole runs ----

  lemma ResetIff(y: System, rcs: nat -> Rc)
    requires Inv(y)
    ensures Inv(Step(y, VoteReset(rcs))) <==> Legal(y, VoteReset(rcs))
  {
    var s := y.drv;
    if s.hasVote && s.initDone {
      RscMgr.RestoredIff(s.enables, rcs);
      var s' := s.(enables := RscMgr.Restored(s.enables, rcs));
      assert forall i :: IsIntf(i) ==> (IntfAgrees(s', y.streams, i) <==> IntfAgrees(s, y.streams, i));
      assert forall i :: IsIntf(i) ==> (VotesOn(s', y.streams, i) <==> VotesOn(s, y.streams, i));
      assert Voting(s', y.streams) == Voting(s, y.streams);
    }
  }

  /** The invariant survives an event if and only if the event is legal. */
  lemma StepKeepsInvIff(y: System, ev: Event)
    requires Inv(y) && ValidEvent(y, ev)
    ensures Inv(Step(y, ev)) <==> Legal(y, ev)
  {
    match ev
    case Open(id, i, kind, pinRc) => OpenIff(y, id, i, kind, pinRc);
    case Prepare(id, rate, voteRc, clkRc) => PrepareIff(y, id, rate, voteRc, clkRc);
    case Close(id, relRc, sleepRc) => CloseIff(y, id, relRc, sleepRc);
    case VoteReset(rcs) => ResetIff(y, rcs);
  }

  ghost predicate Shaped(y: System) {
    Wf(y.drv) && forall id :: id in y.streams ==> y.streams[id].intf < INTF_MAX
  }

  /** Every event is legal at the state the earlier ones produced. */
  ghost predicate LegalRun(y: System, evs: seq<Event>)
    requires Shaped(y)
    decreases |evs|
  {
    evs == [] || (ValidEvent(y, evs[0]) && Legal(y, evs[0]) && LegalRun(Step(y, evs[0]), evs[1..]))
  }

  ghost function Run(y: System, evs: seq<Event>): (r: System)
    requires Shaped(y) && LegalRun(y, evs)
    ensures Shaped(r)
    decreases |evs|
  {
    if evs == [] then y else Run(Step(y, evs[0]), evs[1..])
  }

  /** Over every legal run the counts, clocks, pins and votes agree with the open and prepared streams. */
  lemma {:induction false} RunKeepsInv(y: System, evs: seq<Event>)
    requires Inv(y) && LegalRun(y, evs)
    ensures Inv(Run(y, evs))
    decreases |evs|
  {
    if evs != [] {
      StepKeepsInvIff(y, evs[0]);
      RunKeepsInv(Step(y, evs[0]), evs[1..]);
    }
  }

  ghost predicate Idle(s: State)
    requires Wf(s)
  {
    && (forall i :: IsIntf(i) ==> s.clkRef[i] == 0 && s.gpioRef[i] == 0 && !s.tdmClk[i] && !s.mi2sClk[i])
    && (forall i :: IsIntf(i) && s.hasGpio[i] ==> !s.pins[i])
    && s.voteRef == 0 && s.enables == 0
  }

  lemma NoStreamsIffIdle(s: State)
    requires Wf(s)
    ensures Inv(System(s, map[])) <==> Idle(s)
  {
    assert forall i :: OpenOn(map[], i) == {} && PreparedOn(map[], i) == {};
    assert Voting(s, map[]) == {};
    if Inv(System(s, map[])) {
      assert forall i :: IsIntf(i) ==> IntfAgrees(s, map[], i);
    }
  }

  /** Once every stream is closed again everything is released, whatever happened in between. */
  lemma AllClosedIsIdle(s: State, evs: seq<Event>)
    requires Wf(s) && Idle(s) && LegalRun(System(s, map[]), evs)
    requires Run(System(s, map[]), evs).streams == map[]
    ensures Idle(Run(System(s, map[]), evs).drv)
  {
    NoStreamsIffIdle(s);
    RunKeepsInv(System(s, map[]), evs);
    NoStreamsIffIdle(Run(System(s, map[]), evs).drv);
  }

  /**
   A clock failure after the vote: hw_params reports an error, the stream stays unprepared,
   and the vote is still counted.
   */
  lemma FailedClkLeaksVote(y: System, id: nat, rate: int, clkRc: Rc)
    requires Inv(y) && id in y.streams && IsIntf(y.streams[id].intf) && y.streams[id].kind != AuxPcmStream
    requires y.drv.clkRef[y.streams[id].intf] == 0 && NeedsVote(y.drv, y.streams[id].intf, rate)
    requires y.drv.hasVote && y.drv.initDone && clkRc < 0
    ensures var y' := Step(y, Prepare(id, rate, 0, clkRc));
      y'.streams == y.streams && y'.drv.voteRef == |Voting(y'.drv, y'.streams)| + 1
  {
    var s, i := y.drv, y.streams[id].intf;
    FirstPrepareCases(s, i, y.streams[id].kind, rate, 0, clkRc);
    var s' := Taken(s, i, rate);
    assert forall j :: IsIntf(j) ==> (VotesOn(s', y.streams, j) <==> VotesOn(s, y.streams, j));
    assert Voting(s', y.streams) == Voting(s, y.streams);
  }

  // ---- Rates and votes ----

  /** The first prepared stream of an interface takes a vote exactly for a required one at a fractional rate. */
  lemma FirstPrepareVotes(s: State, i: int, kind: Kind, rate: int, voteRc: Rc, clkRc: Rc)
    requires Wf(s) && 0 <= i < 6 && s.clkRef[i] == 0 && kind != AuxPcmStream
    requires HwParams(s, i, kind, rate, voteRc, clkRc).1 >= 0
    ensures var s' := HwParams(s, i, kind, rate, voteRc, clkRc).0;
      && s'.voteRef == s.voteRef + (if s.voteReq[i] && rate in {44100, 88200, 176400, 352800} then 1 else 0)
      && s'.clkRef == s.clkRef[i := 1]
      && s'.tdmClk == (if kind == TdmStream then s.tdmClk[i := true] else s.tdmClk)
      && s'.mi2sClk == (if kind == Mi2sStream then s.mi2sClk[i := true] else s.mi2sClk)
  {
    FirstPrepareCases(s, i, kind, rate, voteRc, clkRc);
  }

  /** The shutdown of the last one returns it on the same condition. */
  lemma LastShutdownVotes(s: State, i: int, kind: Kind, rate: int, relRc: Rc, sleepRc: int)
    requires Wf(s) && 0 <= i < 6 && s.clkRef[i] == 1 && s.hasVote && s.voteRef > 0
    ensures var s' := Shutdown(s, i, kind, rate, relRc, sleepRc);
      && s'.voteRef == s.voteRef - (if s.voteReq[i] && rate in {44100, 88200, 176400, 352800} then 1 else 0)
      && s'.clkRef == s.clkRef[i := 0]
  {
  }
}
