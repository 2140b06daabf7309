/**
 Runs of the DMA-buffer manager, the fd table they implement, round trips and the crash
 handler.
 */
module IonRuns {
  import opened Prelude
  import opened Errno
  import opened IonModel
  import opened IonInvariant
  import opened IonTheorems

  // ---- Runs ----

  lemma StepShape(s: State, ev: Event)
    requires Wf(s) && ValidEvent(s, ev)
    ensures var s' := Step(s, ev).0; Wf(s') && |s'.allocs| == |s.allocs| && s'.smmu == s.smmu && s'.probed == s.probed
  {
  }

  ghost predicate LegalRun(s: State, evs: seq<Event>)
    requires Wf(s)
    decreases |evs|
  {
    evs == [] ||
    (ValidEvent(s, evs[0]) && Legal(s, evs[0]) && (StepShape(s, evs[0]); LegalRun(Step(s, evs[0]).0, evs[1..])))
  }

  ghost function Run(s: State, evs: seq<Event>): State
    requires Wf(s) && LegalRun(s, evs)
    decreases |evs|
  {
    if evs == [] then s else StepShape(s, evs[0]); Run(Step(s, evs[0]).0, evs[1..])
  }

  /** Both lists empty and nothing held: the state after probe. */
  ghost predicate Initial(s: State) {
    && Wf(s) && s.fds == []
    && (forall d :: 0 <= d < |s.allocs| ==> s.allocs[d] == [])
    && s.k.refs == multiset{} && s.k.attached == multiset{} && s.k.mapped == multiset{}
    && s.k.vmaps == multiset{} && s.k.cpu == multiset{} && s.k.dsp == {} && !s.k.fault
  }

  lemma {:induction false} RunKeepsInv(s: State, evs: seq<Event>)
    requires Inv(s) && LegalRun(s, evs)
    ensures Inv(Run(s, evs))
    decreases |evs|
  {
    if evs != [] {
      StepKeepsInvIff(s, evs[0]);
      RunKeepsInv(Step(s, evs[0]).0, evs[1..]);
    }
  }

  /** After any legal run from probe the lists, references and attachments agree. */
  lemma EveryLegalRunAgrees(s: State, evs: seq<Event>)
    requires Initial(s) && LegalRun(s, evs)
    ensures Inv(Run(s, evs))
  {
    assert Inv(s);
    RunKeepsInv(s, evs);
  }

  // ---- The fd table that the two kinds of list implement ----

  function WithoutFd(fds: seq<FdEntry>, fd: int): seq<FdEntry> {
    if fds == [] then []
    else (if fds[0].fd == fd then [] else [fds[0]]) + WithoutFd(fds[1..], fd)
  }

  function WithFlag(fds: seq<FdEntry>, fd: int, hyp: bool): seq<FdEntry> {
    if fds == [] then []
    else [if fds[0].fd == fd then fds[0].(hyp := hyp) else fds[0]] + WithFlag(fds[1..], fd, hyp)
  }

  predicate MapSucceeds(s: State, dev: nat, env: MapEnv)
    requires dev < |s.probed| == |s.smmu|
  {
    ReachesList(s, dev, env) && (s.smmu[dev] ==> env.beginRc == 0 && env.vaddr != 0)
  }

  /** The table with one row per fd, as user space sees it. */
  function TableStep(s: State, ev: Event): seq<FdEntry>
    requires |s.allocs| == |s.smmu| == |s.probed| && ValidEvent(s, ev)
  {
    match ev
    case Map(dev, fd, env) =>
      if MapSucceeds(s, dev, env) then s.fds + [FdEntry(fd, env.buf, env.paddr, env.len, dev, false)] else s.fds
    case Unmap(dev, fd, _) =>
      if exists i :: 0 <= i < |s.fds| && s.fds[i].fd == fd && s.fds[i].dev == dev then WithoutFd(s.fds, fd) else s.fds
    case HypMap(fd, rc) => if rc == 0 then WithFlag(s.fds, fd, true) else s.fds
    case HypUnmap(fd, rc) => if rc == 0 then WithFlag(s.fds, fd, false) else s.fds
    case Crash(_, _) => []
    case OtherIoctl => s.fds
  }

  lemma RemoveAtTail(fds: seq<FdEntry>, i: nat)
    requires fds != []
    ensures RemoveAt(fds, i + 1) == [fds[0]] + RemoveAt(fds[1..], i)
  {
  }

  lemma {:induction false} WithoutFdIsRemoveAt(fds: seq<FdEntry>, fd: int)
    requires DistinctFds(fds)
    ensures WithoutFd(fds, fd) == RemoveAt(fds, FdIndex(fds, fd))
  {
    if fds != [] {
      var rest, i := fds[1..], FdIndex(fds[1..], fd);
      WithoutFdIsRemoveAt(rest, fd);
      if fds[0].fd == fd {
        assert i == |rest|;
        assert RemoveAt(fds, 0) == rest;
      } else {
        RemoveAtTail(fds, i);
      }
    }
  }

  lemma {:induction false} WithFlagIsUpdate(fds: seq<FdEntry>, fd: int, hyp: bool)
    requires DistinctFds(fds)
    ensures WithFlag(fds, fd, hyp) ==
      var i := FdIndex(fds, fd); if i < |fds| then fds[i := fds[i].(hyp := hyp)] else fds
  {
    if fds != [] {
      var rest, i := fds[1..], FdIndex(fds[1..], fd);
      WithFlagIsUpdate(rest, fd, hyp);
      if fds[0].fd == fd {
        assert i == |rest|;
        UpdateHead(fds, fds[0].(hyp := hyp));
      } else if i < |rest| {
        UpdateTail(fds, i, rest[i].(hyp := hyp));
      } else {
        UpdateHead(fds, fds[0]);
      }
    }
  }

  lemma UpdateHead(fds: seq<FdEntry>, e: FdEntry)
    requires fds != []
    ensures fds[0 := e] == [e] + fds[1..] && (e == fds[0] ==> fds[0 := e] == fds)
  {
  }

  lemma UpdateTail(fds: seq<FdEntry>, i: nat, e: FdEntry)
    requires i + 1 < |fds|
    ensures fds[i + 1 := e] == [fds[0]] + fds[1..][i := e]
  {
  }

  lemma LegalMapIsTableStep(s: State, dev: nat, fd: int, env: MapEnv)
    requires Inv(s) && dev < |s.allocs| && Legal(s, Map(dev, fd, env))
    ensures MapStep(s, dev, fd, env).0.fds == TableStep(s, Map(dev, fd, env))
  {
    if MapSucceeds(s, dev, env) {
      NotListed(s, dev, env.buf);
      MapListsEntry(s, dev, fd, env);
    } else if ReachesList(s, dev, env) {
      MapSmmuResult(s.(k := Get(s.k, env.buf)), dev, env);
    } else if env.fdAllocOk && s.probed[dev] && env.getOk {
      MapFailsEarly(s.(k := Get(s.k, env.buf)), dev, env);
    }
  }

  lemma LegalUnmapFds(s: State, dev: nat, fd: int, endRc: Rc)
    requires Inv(s) && dev < |s.allocs| && Legal(s, Unmap(dev, fd, endRc))
    ensures var i := FdIndex(s.fds, fd);
      UnmapStep(s, dev, fd, endRc).0.fds == if i < |s.fds| && s.fds[i].dev == dev then RemoveAt(s.fds, i) else s.fds
  {
    var i := FdIndex(s.fds, fd);
    if i < |s.fds| && s.fds[i].dev == dev {
      UnmapOnOwnDevice(s, dev, fd, endRc);
    } else {
      UnmapCases(s, dev, fd, endRc);
    }
  }

  lemma OwnedIsFound(fds: seq<FdEntry>, fd: int, dev: nat)
    requires DistinctFds(fds)
    ensures (exists i :: 0 <= i < |fds| && fds[i].fd == fd && fds[i].dev == dev)
      <==> FdIndex(fds, fd) < |fds| && fds[FdIndex(fds, fd)].dev == dev
  {
  }

  lemma LegalUnmapIsTableStep(s: State, dev: nat, fd: int, endRc: Rc)
    requires Inv(s) && dev < |s.allocs| && Legal(s, Unmap(dev, fd, endRc))
    ensures UnmapStep(s, dev, fd, endRc).0.fds == TableStep(s, Unmap(dev, fd, endRc))
  {
    LegalUnmapFds(s, dev, fd, endRc);
    WithoutFdIsRemoveAt(s.fds, fd);
    OwnedIsFound(s.fds, fd, dev);
  }

  /** Legal ioctls act on the lists as the plain fd table says. */
  lemma LegalStepIsTableStep(s: State, ev: Event)
    requires Inv(s) && ValidEvent(s, ev) && Legal(s, ev)
    ensures Step(s, ev).0.fds == TableStep(s, ev)
  {
    match ev
    case Map(dev, fd, env) => LegalMapIsTableStep(s, dev, fd, env);
    case Unmap(dev, fd, endRc) => LegalUnmapIsTableStep(s, dev, fd, endRc);
    case HypMap(fd, rc) => WithFlagIsUpdate(s.fds, fd, true);
    case HypUnmap(fd, rc) => WithFlagIsUpdate(s.fds, fd, false);
    case Crash(_, _) =>
    case OtherIoctl =>
  }

  // ---- Round trip ----

  /** A successful legal map followed by the unmap of the same fd restores the whole state. */
  lemma MapUnmapRestores(s: State, dev: nat, fd: int, env: MapEnv)
    requires Inv(s) && dev < |s.allocs|
    requires MapSucceeds(s, dev, env) && !FdListed(s, fd) && !BufListed(s, env.buf)
    ensures var (s1, rc1) := MapStep(s, dev, fd, env);
      rc1 == 0 && Wf(s1) && |s1.allocs| == |s.allocs| && UnmapStep(s1, dev, fd, 0) == (s, 0)
  {
    var s1 := MapStep(s, dev, fd, env).0;
    var e := NewEntry(dev, fd, env);
    var n := |s.fds|;
    NotListed(s, dev, env.buf);
    MapListsEntry(s, dev, fd, env);
    LegalMapKeepsInv(s, dev, fd, env);
    UnmapCases(s1, dev, fd, 0);
    assert s1.fds[n] == e;
    BufIndexOfListed(s1, n);
    ReleaseNewest(s, e, if s.smmu[dev] then env.vaddr else 0, s1);
  }

  lemma ReleaseNewest(s: State, e: FdEntry, vaddr: nat, s1: State)
    requires Wf(s) && e.dev < |s.allocs| && Listed(s, e, vaddr, s1) && e.handle !in Bufs(s.allocs[e.dev])
    ensures Released(s1, e).(fds := RemoveAt(s1.fds, |s.fds|)) == s
  {
    var xs := s.allocs[e.dev];
    BufIndexAbsent(xs, e.handle, Alloc(e.handle, vaddr));
    UpdateLast(s.allocs, e.dev, Alloc(e.handle, vaddr), Alloc(e.handle, vaddr));
    assert RemoveAt(s1.fds, |s.fds|) == s.fds;
    MinusOne(s.k.refs, e.handle);
    MinusOne(s.k.attached, (e.dev, e.handle));
    MinusOne(s.k.mapped, (e.dev, e.handle));
    MinusOne(s.k.vmaps, e.handle);
    MinusOne(s.k.cpu, e.handle);
    assert s.k.vmaps + multiset{} - multiset{} == s.k.vmaps && s.k.cpu + multiset{} - multiset{} == s.k.cpu;
  }

  // ---- Crash handler ----

  /** The memory behind the flagged entries whose unassignment the hypervisor accepts. */
  function FlaggedMemory(fds: seq<FdEntry>, hypFails: set<int>): set<int> {
    if fds == [] then {}
    else (if fds[0].hyp && fds[0].fd !in hypFails then Region(fds[0]) else {}) + FlaggedMemory(fds[1..], hypFails)
  }

  /** The handler takes back exactly the memory assigned through listed fds. */
  lemma {:induction false} CrashReturnsMemory(s: State, endFails: set<nat>, hypFails: set<int>)
    requires Wf(s)
    ensures CrashStep(s, endFails, hypFails).k.dsp == s.k.dsp - FlaggedMemory(s.fds, hypFails)
    decreases |s.fds|
  {
    if s.fds != [] {
      CrashReturnsMemory(CrashOne(s, endFails, hypFails), endFails, hypFails);
    }
  }

  /** Both kinds of list are empty and nothing is held; `!fault` rules out double releases. */
  ghost predicate NothingHeld(r: State) {
    && r.fds == [] && (forall d :: 0 <= d < |r.allocs| ==> r.allocs[d] == [])
    && r.k.refs == multiset{} && r.k.attached == multiset{} && r.k.mapped == multiset{}
    && r.k.vmaps == multiset{} && !r.k.fault
  }

  lemma EmptyTableHoldsNothing(r: State)
    requires Inv(r) && r.fds == []
    ensures NothingHeld(r)
  {
    forall d | 0 <= d < |r.allocs|
      ensures r.allocs[d] == []
    {
      assert Bufs(r.allocs[d]) == HandlesOn([], d);
    }
  }

  /**
   The handler empties everything, with every release matching one earlier acquisition,
   if and only if no listed buffer behind an SMMU fails to end its CPU access.
   */
  lemma CrashReleasesAllIff(s: State, endFails: set<nat>, hypFails: set<int>)
    requires Inv(s)
    ensures NothingHeld(CrashStep(s, endFails, hypFails)) <==> Legal(s, Crash(endFails, hypFails))
  {
    var r := CrashStep(s, endFails, hypFails);
    if Legal(s, Crash(endFails, hypFails)) {
      LegalCrashKeepsInv(s, endFails, hypFails);
      EmptyTableHoldsNothing(r);
    } else {
      IllegalCrashBreaksInv(s, endFails, hypFails);
      if NothingHeld(r) {
        forall d | 0 <= d < |r.allocs|
          ensures Bufs(r.allocs[d]) == HandlesOn([], d)
        {
        }
        assert Inv(r);
      }
    }
  }

  // ---- What MAP returns and lists ----

  /** The return code of MAP, by the first call that fails. */
  lemma MapCodes(s: State, dev: nat, fd: int, env: MapEnv)
    requires Wf(s) && dev < |s.allocs|
    ensures MapStep(s, dev, fd, env).1 ==
      if !env.fdAllocOk then -12
      else if !s.probed[dev] then -517
      else if !env.getOk then -22
      else if !s.smmu[dev] then 0
      else if !env.allocOk then -12
      else if env.attachRc != 0 then env.attachRc
      else if env.mapRc != 0 then env.mapRc
      else if env.beginRc != 0 || env.vaddr == 0 then -12
      else 0
  {
  }

  /** The return code of the other ioctls; unmapping a listed fd is `UnmapCases`. */
  lemma OtherCodes(s: State, dev: nat, fd: int, rc: Rc)
    requires Wf(s) && dev < |s.allocs|
    ensures (forall i :: 0 <= i < |s.fds| ==> s.fds[i].fd != fd) ==>
      Step(s, Unmap(dev, fd, rc)) == Step(s, HypMap(fd, rc)) == Step(s, HypUnmap(fd, rc)) == (s, -22)
    ensures (exists i :: 0 <= i < |s.fds| && s.fds[i].fd == fd) ==>
      Step(s, HypMap(fd, rc)).1 == Step(s, HypUnmap(fd, rc)).1 == rc
    ensures (exists i :: 0 <= i < |s.fds| && s.fds[i].fd == fd) && rc < 0 ==>
      Step(s, HypMap(fd, rc)).0 == Step(s, HypUnmap(fd, rc)).0 == s
    ensures Step(s, OtherIoctl) == (s, -22)
  {
  }

  /** A map of an unlisted fd and buffer in which every call succeeds. */
  predicate MapsNew(s: State, dev: nat, fd: int, env: MapEnv)
    requires dev < |s.allocs| == |s.smmu| == |s.probed|
  {
    && env.fdAllocOk && s.probed[dev] && env.getOk && env.allocOk && env.attachRc == 0 && env.mapRc == 0
    && (s.smmu[dev] ==> env.beginRc == 0 && env.vaddr != 0)
    && forall i :: 0 <= i < |s.fds| ==> s.fds[i].fd != fd && s.fds[i].handle != env.buf
  }

  /** It lists one entry with the fd, buffer, address, length and device of the call, unassigned. */
  lemma MapListsBuffer(s: State, dev: nat, fd: int, env: MapEnv)
    requires Inv(s) && dev < |s.allocs| && MapsNew(s, dev, fd, env)
    ensures var (s', rc) := MapStep(s, dev, fd, env); var n := |s.fds|;
      && rc == 0 && Inv(s') && |s'.fds| == n + 1 && s'.fds[..n] == s.fds
      && s'.fds[n].fd == fd && s'.fds[n].handle == env.buf && s'.fds[n].dev == dev
      && s'.fds[n].paddr == env.paddr && s'.fds[n].plen == env.len && !s'.fds[n].hyp
    ensures var s' := MapStep(s, dev, fd, env).0;
      && s'.allocs == s.allocs[dev := s.allocs[dev] + [Alloc(env.buf, if s.smmu[dev] then env.vaddr else 0)]]
      && s'.k.refs == s.k.refs + multiset{env.buf} && s'.k.dsp == s.k.dsp
  {
    NotListed(s, dev, env.buf);
    MapListsEntry(s, dev, fd, env);
    LegalMapKeepsInv(s, dev, fd, env);
  }

  /** An assignment of the newest entry moves exactly its addresses, towards the DSP or back. */
  lemma HypNewest(s: State, fd: int, assign: bool)
    requires Wf(s) && s.fds != [] && s.fds[|s.fds| - 1].fd == fd && forall i :: 0 <= i < |s.fds| - 1 ==> s.fds[i].fd != fd
    ensures var e := s.fds[|s.fds| - 1];
      var (s', rc) := HypStep(s, fd, assign, 0);
      && rc == 0 && s'.fds == s.fds[|s.fds| - 1 := e.(hyp := assign)]
      && forall a :: a in s'.k.dsp <==>
           if e.paddr <= a < e.paddr + e.plen then assign else a in s.k.dsp
  {
    assert FdIndex(s.fds, fd) == |s.fds| - 1;
    RegionIsRange(s.fds[|s.fds| - 1]);
  }

  lemma AssignNewest(s: State, fd: int, paddr: int, plen: nat)
    requires Wf(s) && s.fds != [] && forall i :: 0 <= i < |s.fds| - 1 ==> s.fds[i].fd != fd
    requires var e := s.fds[|s.fds| - 1]; e.fd == fd && e.paddr == paddr && e.plen == plen
    ensures var (s2, rc2) := Step(s, HypMap(fd, 0));
      var (s3, rc3) := Step(s2, HypUnmap(fd, 0));
      && rc2 == 0 && (forall a :: a in s2.k.dsp <==> a in s.k.dsp || paddr <= a < paddr + plen)
      && rc3 == 0 && (forall a :: a in s3.k.dsp <==> a in s.k.dsp && !(paddr <= a < paddr + plen))
      && |s2.fds| == |s3.fds| == |s.fds| && s2.fds[|s.fds| - 1].hyp && !s3.fds[|s.fds| - 1].hyp
  {
    HypNewest(s, fd, true);
    HypNewest(HypStep(s, fd, true, 0).0, fd, false);
  }

  /** Assigning it gives the DSP exactly the addresses of the call, and unassigning takes exactly them back. */
  lemma MapThenAssign(s: State, dev: nat, fd: int, env: MapEnv)
    requires Inv(s) && dev < |s.allocs| && MapsNew(s, dev, fd, env)
    ensures var s1 := MapStep(s, dev, fd, env).0;
      var (s2, rc2) := Step(s1, HypMap(fd, 0));
      var (s3, rc3) := Step(s2, HypUnmap(fd, 0));
      && rc2 == 0 && (forall a :: a in s2.k.dsp <==> a in s.k.dsp || env.paddr <= a < env.paddr + env.len)
      && rc3 == 0 && (forall a :: a in s3.k.dsp <==> a in s.k.dsp && !(env.paddr <= a < env.paddr + env.len))
      && |s2.fds| == |s3.fds| == |s.fds| + 1 && s2.fds[|s.fds|].hyp && !s3.fds[|s.fds|].hyp
  {
    MapListsBuffer(s, dev, fd, env);
    var s1 := MapStep(s, dev, fd, env).0;
    assert forall i :: 0 <= i < |s.fds| ==> s1.fds[i] == s1.fds[..|s.fds|][i];
    AssignNewest(s1, fd, env.paddr, env.len);
  }

  lemma RegionIsRange(e: FdEntry)
    ensures forall a :: a in Region(e) <==> e.paddr <= a < e.paddr + e.plen
  {
    forall a
      ensures a in Region(e) <==> e.paddr <= a < e.paddr + e.plen
    {
      assert Covers(e, a) <==> e.paddr <= a < e.paddr + e.plen;
    }
  }
}
