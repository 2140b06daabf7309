/**
 Main results about the DMA-buffer manager: the exact set of ioctls that keep the lists,
 references and attachments in agreement, runs, round trips, the crash handler, and
 hypervisor ownership.
 */
module IonTheorems {
  import opened Prelude
  import opened Errno
  import opened IonModel
  import opened IonInvariant

  // ---- Legal ioctls keep the invariant ----

  lemma UnmapCases(s: State, dev: nat, fd: int, endRc: Rc)
    requires Inv(s) && dev < |s.allocs|
    ensures var i := FdIndex(s.fds, fd);
      if i == |s.fds| then UnmapStep(s, dev, fd, endRc) == (s, -22)
      else if s.fds[i].dev != dev && s.smmu[dev] then UnmapStep(s, dev, fd, endRc) == (s, -22)
      else if s.fds[i].dev != dev then UnmapStep(s, dev, fd, endRc) == (s.(fds := RemoveAt(s.fds, i)), 0)
      else if s.smmu[dev] && endRc != 0 then
        UnmapStep(s, dev, fd, endRc) == (s.(k := Vunmap(s.k, s.fds[i].handle)), endRc)
      else UnmapStep(s, dev, fd, endRc) == (Released(s, s.fds[i]).(fds := RemoveAt(s.fds, i)), 0)
  {
    var i := FdIndex(s.fds, fd);
    if i < |s.fds| {
      BufIndexOfListed(s, i);
      if s.fds[i].dev != dev {
        NotListed(s, dev, s.fds[i].handle);
      } else if s.smmu[dev] && endRc != 0 {
        FreeStops(s, i, endRc);
      } else {
        FreeListed(s, i, endRc);
      }
    }
  }

  lemma UnmapOnOwnDevice(s: State, dev: nat, fd: int, endRc: Rc)
    requires Inv(s) && dev < |s.allocs| && Legal(s, Unmap(dev, fd, endRc))
    requires FdIndex(s.fds, fd) < |s.fds| && s.fds[FdIndex(s.fds, fd)].dev == dev
    ensures var i := FdIndex(s.fds, fd);
      UnmapStep(s, dev, fd, endRc) == (Released(s, s.fds[i]).(fds := RemoveAt(s.fds, i)), 0)
  {
    UnmapCases(s, dev, fd, endRc);
  }

  lemma LegalUnmapKeepsInv(s: State, dev: nat, fd: int, endRc: Rc)
    requires Inv(s) && dev < |s.allocs| && Legal(s, Unmap(dev, fd, endRc))
    ensures Inv(UnmapStep(s, dev, fd, endRc).0)
  {
    var i := FdIndex(s.fds, fd);
    if i == |s.fds| || s.fds[i].dev != dev {
      UnmapCases(s, dev, fd, endRc);
    } else {
      UnmapOnOwnDevice(s, dev, fd, endRc);
      ReleasedKeepsInv(s, i);
    }
  }

  /** The derived values do not look at the hypervisor flag. */
  lemma {:induction false} FlagsIrrelevant(fds: seq<FdEntry>, gs: seq<FdEntry>, smmu: seq<bool>, d: nat)
    requires |fds| == |gs|
    requires forall i :: 0 <= i < |fds| ==> fds[i].handle == gs[i].handle && fds[i].dev == gs[i].dev
    ensures RefsOf(fds) == RefsOf(gs) && AttachmentsOf(fds) == AttachmentsOf(gs)
    ensures VmapsOf(fds, smmu) == VmapsOf(gs, smmu) && HandlesOn(fds, d) == HandlesOn(gs, d)
  {
    if fds != [] {
      FlagsIrrelevant(fds[1..], gs[1..], smmu, d);
    }
  }

  lemma HypKeepsInv(s: State, fd: int, assign: bool, hypRc: Rc)
    requires Inv(s)
    ensures Inv(HypStep(s, fd, assign, hypRc).0)
  {
    var s' := HypStep(s, fd, assign, hypRc).0;
    FlagsIrrelevant(s.fds, s'.fds, s.smmu, 0);
    forall d | 0 <= d < |s.allocs|
      ensures Bufs(s'.allocs[d]) == HandlesOn(s'.fds, d)
    {
      FlagsIrrelevant(s.fds, s'.fds, s.smmu, d);
    }
  }

  lemma CrashOneKeepsInv(s: State, endFails: set<nat>, hypFails: set<int>)
    requires Inv(s) && s.fds != [] && (s.smmu[s.fds[0].dev] ==> s.fds[0].handle !in endFails)
    ensures Inv(CrashOne(s, endFails, hypFails))
  {
    var s1 := HypReturn(s, s.fds[0], hypFails);
    FreeListed(s1, 0, EndRc(endFails, s.fds[0].handle));
    ReleasedKeepsInv(s1, 0);
    assert RemoveAt(s.fds, 0) == s.fds[1..];
  }

  lemma LegalCrashRest(s: State, endFails: set<nat>, hypFails: set<int>)
    requires Inv(s) && Legal(s, Crash(endFails, hypFails)) && s.fds != []
    ensures Inv(CrashOne(s, endFails, hypFails))
    ensures Legal(CrashOne(s, endFails, hypFails), Crash(endFails, hypFails))
  {
    CrashOneKeepsInv(s, endFails, hypFails);
  }

  lemma {:induction false} LegalCrashKeepsInv(s: State, endFails: set<nat>, hypFails: set<int>)
    requires Inv(s) && Legal(s, Crash(endFails, hypFails))
    ensures Inv(CrashStep(s, endFails, hypFails))
    decreases |s.fds|
  {
    if s.fds != [] {
      LegalCrashRest(s, endFails, hypFails);
      LegalCrashKeepsInv(CrashOne(s, endFails, hypFails), endFails, hypFails);
    }
  }

  // ---- Everything else breaks it ----

  lemma IllegalMapBreaksInv(s: State, dev: nat, fd: int, env: MapEnv)
    requires Inv(s) && dev < |s.allocs| && !Legal(s, Map(dev, fd, env))
    ensures !Inv(MapStep(s, dev, fd, env).0)
  {
    if s.smmu[dev] && (env.beginRc != 0 || env.vaddr == 0) {
      IllegalFailedMap(s, dev, fd, env);
    } else if !Added(env) {
      UnreportedFailure(s, dev, fd, env);
    } else if FdListed(s, fd) {
      MapGrowsList(s, dev, fd, env);
      assert |Bufs(s.allocs[dev])| == |HandlesOn(s.fds, dev)|;
    } else {
      var i :| 0 <= i < |s.fds| && s.fds[i].handle == env.buf;
      var fds' := MapStep(s, dev, fd, env).0.fds;
      assert fds'[i].handle == fds'[|s.fds|].handle;
    }
  }

  lemma MapGrowsList(s: State, dev: nat, fd: int, env: MapEnv)
    requires Wf(s) && dev < |s.allocs| && ReachesList(s, dev, env) && FdListed(s, fd)
    requires s.smmu[dev] ==> env.beginRc == 0 && env.vaddr != 0
    ensures MapStep(s, dev, fd, env).0.fds == s.fds
    ensures |MapStep(s, dev, fd, env).0.allocs[dev]| == |s.allocs[dev]| + 1
  {
  }

  /** Without an SMMU a failed map is reported as success: the reference it took is lost. */
  lemma UnreportedFailure(s: State, dev: nat, fd: int, env: MapEnv)
    requires Inv(s) && dev < |s.allocs| && !s.smmu[dev]
    requires env.fdAllocOk && s.probed[dev] && env.getOk && !Added(env)
    ensures MapStep(s, dev, fd, env).1 == 0 && !Inv(MapStep(s, dev, fd, env).0)
    ensures MapStep(s, dev, fd, env).0.allocs == s.allocs
    ensures MapStep(s, dev, fd, env).0.k == s.k.(refs := s.k.refs + multiset{env.buf})
  {
    var s0 := s.(k := Get(s.k, env.buf));
    MapFailsEarly(s0, dev, env);
    var s' := MapStep(s, dev, fd, env).0;
    assert s'.allocs == s.allocs && s'.k.refs == s.k.refs + multiset{env.buf};
    assert |Bufs(s.allocs[dev])| == |HandlesOn(s.fds, dev)|;
    HandlesOnConcat(s.fds, [NewEntry(dev, fd, env)], dev);
    assert s'.k.refs[env.buf] != s.k.refs[env.buf];
  }

  /** Taking the first allocation of a buffer off leaves a second one where it was. */
  lemma RemoveFirstOfTwo(xs: seq<Alloc>, x: Alloc)
    requires x.buf in Bufs(xs)
    ensures var i := BufIndex(xs + [x], x.buf);
      i == BufIndex(xs, x.buf) < |xs| && RemoveAt(xs + [x], i) == RemoveAt(xs, i) + [x]
  {
    var j :| 0 <= j < |xs| && Bufs(xs)[j] == x.buf;
    assert xs[j].buf == x.buf;
    assert BufIndex(xs, x.buf) <= j;
    BufIndexPrefix(xs, x);
    RemoveAtPrefix(xs, x, BufIndex(xs, x.buf));
  }

  lemma RemoveAtPrefix(xs: seq<Alloc>, x: Alloc, i: nat)
    requires i < |xs|
    ensures RemoveAt(xs + [x], i) == RemoveAt(xs, i) + [x]
  {
    assert (xs + [x])[i + 1..] == xs[i + 1..] + [x];
  }

  lemma BufIndexPrefix(xs: seq<Alloc>, x: Alloc)
    requires BufIndex(xs, x.buf) < |xs|
    ensures BufIndex(xs + [x], x.buf) == BufIndex(xs, x.buf)
  {
    var i, j := BufIndex(xs, x.buf), BufIndex(xs + [x], x.buf);
    assert (xs + [x])[i] == xs[i];
    assert j <= i;
    assert (xs + [x])[j] == xs[j];
  }

  lemma FailedMapAllocs(s: State, dev: nat, fd: int, env: MapEnv)
    requires Wf(s) && dev < |s.allocs| && ReachesList(s, dev, env) && s.smmu[dev]
    requires env.beginRc != 0 || env.vaddr == 0
    ensures var xs := s.allocs[dev] + [Alloc(env.buf, 0)];
      MapStep(s, dev, fd, env).0.allocs[dev] == RemoveAt(xs, BufIndex(xs, env.buf))
  {
    var xs := s.allocs[dev] + [Alloc(env.buf, 0)];
    assert xs[|xs| - 1].buf == env.buf;
    assert BufIndex(xs, env.buf) < |xs|;
  }

  /** The failure path takes the older allocation of the buffer off the list and leaves the new one. */
  lemma IllegalFailedMap(s: State, dev: nat, fd: int, env: MapEnv)
    requires Inv(s) && dev < |s.allocs| && !Legal(s, Map(dev, fd, env))
    requires s.smmu[dev] && (env.beginRc != 0 || env.vaddr == 0)
    ensures !Inv(MapStep(s, dev, fd, env).0)
    ensures var (xs, i) := (s.allocs[dev], BufIndex(s.allocs[dev], env.buf));
      i < |xs| && MapStep(s, dev, fd, env).0.allocs[dev] == RemoveAt(xs, i) + [Alloc(env.buf, 0)]
  {
    FailedMapAllocs(s, dev, fd, env);
    RemoveFirstOfTwo(s.allocs[dev], Alloc(env.buf, 0));
    UnmappedIsNotInv(MapStep(s, dev, fd, env).0, dev, Alloc(env.buf, 0));
  }

  lemma UnmappedIsNotInv(s: State, dev: nat, x: Alloc)
    requires |s.allocs| == |s.smmu| && dev < |s.allocs| && s.smmu[dev] && x in s.allocs[dev] && x.vaddr == 0
    ensures !Inv(s)
  {
    assert !VaddrsOf(s.allocs[dev], true);
  }

  /** A shorter fd list with the same references does not agree with them. */
  lemma DroppedFdIsNotInv(s: State, i: nat)
    requires Inv(s) && i < |s.fds|
    ensures !Inv(s.(fds := RemoveAt(s.fds, i)))
  {
    SplitMultisets(s.fds, i, s.smmu);
    assert RefsOf(s.fds)[s.fds[i].handle] == RefsOf(RemoveAt(s.fds, i))[s.fds[i].handle] + 1;
  }

  /** The kernel mapping is gone but the buffer is still listed. */
  lemma LostVmapIsNotInv(s: State, i: nat)
    requires Inv(s) && i < |s.fds| && s.smmu[s.fds[i].dev]
    ensures !Inv(s.(k := Vunmap(s.k, s.fds[i].handle)))
  {
    HeldByListed(s, i);
    var h := s.fds[i].handle;
    assert (s.k.vmaps - multiset{h})[h] != s.k.vmaps[h];
  }

  lemma UnmapStopsHalfway(s: State, i: nat, endRc: Rc)
    requires Inv(s) && i < |s.fds| && s.smmu[s.fds[i].dev] && endRc != 0
    ensures UnmapStep(s, s.fds[i].dev, s.fds[i].fd, endRc).0 == s.(k := Vunmap(s.k, s.fds[i].handle))
  {
    BufIndexOfListed(s, i);
    UnmapCases(s, s.fds[i].dev, s.fds[i].fd, endRc);
  }

  lemma UnmapDropsFd(s: State, i: nat, dev: nat, endRc: Rc)
    requires Inv(s) && i < |s.fds| && s.fds[i].dev != dev < |s.allocs| && !s.smmu[dev]
    ensures UnmapStep(s, dev, s.fds[i].fd, endRc).0 == s.(fds := RemoveAt(s.fds, i))
  {
    BufIndexOfListed(s, i);
    UnmapCases(s, dev, s.fds[i].fd, endRc);
  }

  lemma IllegalUnmapBreaksInv(s: State, dev: nat, fd: int, endRc: Rc)
    requires Inv(s) && dev < |s.allocs| && !Legal(s, Unmap(dev, fd, endRc))
    ensures !Inv(UnmapStep(s, dev, fd, endRc).0)
  {
    var i :| 0 <= i < |s.fds| && s.fds[i].fd == fd && !(if s.fds[i].dev == dev then s.smmu[dev] ==> endRc == 0 else s.smmu[dev]);
    if s.fds[i].dev == dev {
      UnmapStopsHalfway(s, i, endRc);
      LostVmapIsNotInv(s, i);
    } else {
      UnmapDropsFd(s, i, dev, endRc);
      DroppedFdIsNotInv(s, i);
    }
  }

  /** A buffer whose CPU-access end fails in the crash handler stays on its device's list. */
  lemma {:induction false} CrashLeaves(s: State, endFails: set<nat>, hypFails: set<int>, d: nat, b: nat)
    requires Wf(s) && d < |s.allocs| && s.smmu[d] && b in endFails
    requires b in Bufs(s.allocs[d])
    requires forall i :: 0 <= i < |s.fds| && s.fds[i].handle == b ==> s.smmu[s.fds[i].dev]
    ensures b in Bufs(CrashStep(s, endFails, hypFails).allocs[d])
    decreases |s.fds|
  {
    if s.fds != [] {
      var e := s.fds[0];
      FreeOthers(HypReturn(s, e, hypFails), e.dev, e.handle, EndRc(endFails, e.handle), d, b);
      CrashLeaves(CrashOne(s, endFails, hypFails), endFails, hypFails, d, b);
    }
  }

  lemma FreeOthers(s: State, dev: nat, h: nat, rc: Rc, d: nat, b: nat)
    requires dev < |s.allocs| == |s.smmu| && d < |s.allocs| && b in Bufs(s.allocs[d])
    requires h == b ==> s.smmu[dev] && rc != 0
    ensures b in Bufs(Free(s, dev, h, rc).0.allocs[d])
  {
    var xs := s.allocs[dev];
    var i := BufIndex(xs, h);
    if h != b && d == dev && i < |xs| {
      var j :| 0 <= j < |xs| && Bufs(xs)[j] == b;
      assert xs[j].buf == b && j != i;
      assert Bufs(RemoveAt(xs, i))[if j < i then j else j - 1] == b;
    }
  }

  lemma IllegalCrashBreaksInv(s: State, endFails: set<nat>, hypFails: set<int>)
    requires Inv(s) && !Legal(s, Crash(endFails, hypFails))
    ensures !Inv(CrashStep(s, endFails, hypFails))
  {
    var i :| 0 <= i < |s.fds| && s.smmu[s.fds[i].dev] && s.fds[i].handle in endFails;
    var e := s.fds[i];
    HeldByListed(s, i);
    BufsHold(s.allocs[e.dev]);
    CrashLeaves(s, endFails, hypFails, e.dev, e.handle);
  }

  /** The main result: from agreement, an ioctl keeps agreement if and only if it is legal. */
  lemma StepKeepsInvIff(s: State, ev: Event)
    requires Inv(s) && ValidEvent(s, ev)
    ensures Inv(Step(s, ev).0) <==> Legal(s, ev)
  {
    match ev
    case Map(dev, fd, env) =>
      if Legal(s, ev) { LegalMapKeepsInv(s, dev, fd, env); } else { IllegalMapBreaksInv(s, dev, fd, env); }
    case Unmap(dev, fd, endRc) =>
      if Legal(s, ev) { LegalUnmapKeepsInv(s, dev, fd, endRc); } else { IllegalUnmapBreaksInv(s, dev, fd, endRc); }
    case HypMap(fd, rc) => HypKeepsInv(s, fd, true, rc);
    case HypUnmap(fd, rc) => HypKeepsInv(s, fd, false, rc);
    case Crash(endFails, hypFails) =>
      if Legal(s, ev) {
        LegalCrashKeepsInv(s, endFails, hypFails);
      } else {
        IllegalCrashBreaksInv(s, endFails, hypFails);
      }
    case OtherIoctl =>
  }
}
