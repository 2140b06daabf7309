/**
 Who owns the memory behind the fd list: the hypervisor assigns listed buffers to the DSP,
 and the driver remembers that in a flag. The flags are true, and no memory is lost, over a
 run exactly when no assigned buffer is unmapped and a crash gets every one back.
 */
module IonOwnership {
  import opened Prelude
  import opened Errno
  import opened IonModel
  import opened IonInvariant
  import opened IonTheorems
  import opened IonRuns

  // ---- Flags and owners ----

  /** The flag of every listed buffer says who owns its memory; listed buffers do not overlap. */
  ghost predicate OwnershipAgrees(fds: seq<FdEntry>, dsp: set<int>) {
    && (forall i, j :: 0 <= i < j < |fds| ==> Region(fds[i]) !! Region(fds[j]))
    && forall i :: 0 <= i < |fds| ==> if fds[i].hyp then Region(fds[i]) <= dsp else Region(fds[i]) !! dsp
  }

  /** Memory is owned by the DSP only through a listed, flagged buffer. */
  ghost predicate NoOrphans(s: State) {
    s.k.dsp == FlaggedMemory(s.fds, {})
  }

  function OwnMemory(e: FdEntry): set<int> { if e.hyp then Region(e) else {} }

  lemma {:induction false} FlaggedMemoryConcat(a: seq<FdEntry>, b: seq<FdEntry>)
    ensures FlaggedMemory(a + b, {}) == FlaggedMemory(a, {}) + FlaggedMemory(b, {})
  {
    if a == [] {
      assert a + b == b;
    } else {
      assert (a + b)[1..] == a[1..] + b;
      FlaggedMemoryConcat(a[1..], b);
    }
  }

  lemma FlaggedMemorySplit(fds: seq<FdEntry>, i: nat)
    requires i < |fds|
    ensures FlaggedMemory(fds, {}) == FlaggedMemory(RemoveAt(fds, i), {}) + OwnMemory(fds[i])
  {
    var a, e, b := fds[..i], [fds[i]], fds[i + 1..];
    assert fds == a + (e + b);
    FlaggedMemoryCons(fds[i], b);
    FlaggedMemoryConcat(a, e + b);
    FlaggedMemoryConcat(a, b);
    UnionSwap(FlaggedMemory(a, {}), OwnMemory(fds[i]), FlaggedMemory(b, {}));
  }

  lemma FlaggedMemoryCons(e: FdEntry, rest: seq<FdEntry>)
    ensures FlaggedMemory([e] + rest, {}) == OwnMemory(e) + FlaggedMemory(rest, {})
  {
    assert ([e] + rest)[1..] == rest;
  }

  lemma UnionSwap(x: set<int>, y: set<int>, z: set<int>)
    ensures x + (y + z) == (x + z) + y
  {
  }

  lemma {:induction false} FlaggedMemoryAvoids(fds: seq<FdEntry>, a: int)
    requires forall i :: 0 <= i < |fds| ==> a !in Region(fds[i])
    ensures a !in FlaggedMemory(fds, {})
  {
    if fds != [] {
      assert a !in Region(fds[0]);
      FlaggedMemoryAvoids(fds[1..], a);
    }
  }

  /** Flags tell the owners, and only listed memory is with the DSP. */
  ghost predicate Owned(s: State) {
    OwnershipAgrees(s.fds, s.k.dsp) && NoOrphans(s)
  }

  predicate Assigned(e: FdEntry) { e.hyp && e.plen > 0 }

  // ---- Which steps keep them ----

  /** What the environment grants: a buffer that gets listed overlaps no listed one. */
  ghost predicate DisjointMap(s: State, ev: Event)
    requires Wf(s) && ValidEvent(s, ev)
  {
    ev.Map? && MapStep(s, ev.dev, ev.fd, ev.env).0.fds != s.fds ==>
      forall i :: 0 <= i < |s.fds| ==> Region(s.fds[i]) !! Region(NewEntry(ev.dev, ev.fd, ev.env))
  }

  /** The guards of msm_audio_ion_free that let it succeed. */
  predicate Frees(s: State, dev: nat, h: nat, endRc: Rc)
    requires dev < |s.allocs| == |s.smmu|
  {
    var i := BufIndex(s.allocs[dev], h);
    s.smmu[dev] ==> i < |s.allocs[dev]| && s.allocs[dev][i].vaddr != 0 && endRc == 0
  }

  /** UNMAP deletes no assigned buffer, and after a crash every assigned one is given back. */
  predicate OwnerSafe(s: State, ev: Event)
    requires |s.allocs| == |s.smmu| && ValidEvent(s, ev)
  {
    match ev
    case Unmap(dev, fd, endRc) =>
      var i := FdIndex(s.fds, fd);
      i < |s.fds| && Frees(s, dev, s.fds[i].handle, endRc) ==>
        !Assigned(s.fds[HandleIndex(s.fds, s.fds[i].handle)])
    case Crash(_, hypFails) =>
      forall i :: 0 <= i < |s.fds| && Assigned(s.fds[i]) ==> s.fds[i].fd !in hypFails
    case _ => true
  }

  lemma MapFdsAndDsp(s: State, dev: nat, fd: int, env: MapEnv)
    requires Wf(s) && dev < |s.allocs|
    ensures var s' := MapStep(s, dev, fd, env).0;
      s'.k.dsp == s.k.dsp && (s'.fds == s.fds || s'.fds == s.fds + [NewEntry(dev, fd, env)])
  {
  }

  lemma OwnershipRemove(fds: seq<FdEntry>, dsp: set<int>, i: nat)
    requires OwnershipAgrees(fds, dsp)
    ensures OwnershipAgrees(RemoveAt(fds, i), dsp)
  {
  }

  lemma OwnershipAppend(fds: seq<FdEntry>, dsp: set<int>, e: FdEntry)
    requires OwnershipAgrees(fds, dsp) && !e.hyp && Region(e) !! dsp
    requires forall i :: 0 <= i < |fds| ==> Region(fds[i]) !! Region(e)
    ensures OwnershipAgrees(fds + [e], dsp)
  {
  }

  lemma HypOwnership(s: State, fd: int, assign: bool, rc: Rc)
    requires Wf(s) && OwnershipAgrees(s.fds, s.k.dsp)
    ensures var s' := HypStep(s, fd, assign, rc).0; OwnershipAgrees(s'.fds, s'.k.dsp)
  {
    var i := FdIndex(s.fds, fd);
    var s' := HypStep(s, fd, assign, rc).0;
    if i < |s.fds| && rc == 0 {
      forall j | 0 <= j < |s.fds|
        ensures Region(s'.fds[j]) == Region(s.fds[j])
      {
      }
    }
  }

  // ---- One step ----

  /** The addresses in a list's assigned memory. */
  lemma {:induction false} InFlaggedMemory(fds: seq<FdEntry>, hypFails: set<int>, a: int)
    ensures a in FlaggedMemory(fds, hypFails) <==>
      exists i :: 0 <= i < |fds| && fds[i].hyp && fds[i].fd !in hypFails && a in Region(fds[i])
  {
    if fds != [] {
      InFlaggedMemory(fds[1..], hypFails, a);
      if a in FlaggedMemory(fds[1..], hypFails) {
        var i :| 0 <= i < |fds[1..]| && fds[1..][i].hyp && fds[1..][i].fd !in hypFails && a in Region(fds[1..][i]);
        assert fds[i + 1] == fds[1..][i];
      }
      if i :| 0 < i < |fds| && fds[i].hyp && fds[i].fd !in hypFails && a in Region(fds[i]) {
        assert fds[1..][i - 1] == fds[i];
      }
    }
  }

  lemma MapKeepsOwned(s: State, dev: nat, fd: int, env: MapEnv)
    requires Wf(s) && dev < |s.allocs| && Owned(s) && DisjointMap(s, Map(dev, fd, env))
    ensures Owned(MapStep(s, dev, fd, env).0)
  {
    var e, s' := NewEntry(dev, fd, env), MapStep(s, dev, fd, env).0;
    MapFdsAndDsp(s, dev, fd, env);
    if s'.fds != s.fds {
      DisjointFromFlagged(s.fds, Region(e));
      OwnershipAppend(s.fds, s.k.dsp, e);
      FlaggedMemoryConcat(s.fds, [e]);
    }
  }

  lemma DisjointFromFlagged(fds: seq<FdEntry>, r: set<int>)
    requires forall i :: 0 <= i < |fds| ==> Region(fds[i]) !! r
    ensures FlaggedMemory(fds, {}) !! r
  {
    forall a | a in r
      ensures a !in FlaggedMemory(fds, {})
    {
      FlaggedMemoryAvoids(fds, a);
    }
  }

  /** Assigning or unassigning the entry `i` moves its memory and no other. */
  lemma FlagMovesMemory(fds: seq<FdEntry>, dsp: set<int>, i: nat, assign: bool)
    requires OwnershipAgrees(fds, dsp) && dsp == FlaggedMemory(fds, {}) && i < |fds|
    ensures FlaggedMemory(fds[i := fds[i].(hyp := assign)], {}) ==
      if assign then dsp + Region(fds[i]) else dsp - Region(fds[i])
  {
    var fds', r := fds[i := fds[i].(hyp := assign)], Region(fds[i]);
    FlaggedMemorySplit(fds, i);
    FlaggedMemorySplit(fds', i);
    var others := RemoveAt(fds, i);
    assert RemoveAt(fds', i) == others;
    assert Region(fds'[i]) == r;
    forall j | 0 <= j < |others|
      ensures Region(others[j]) !! r
    {
      assert others[j] == fds[if j < i then j else j + 1];
    }
    DisjointFromFlagged(others, r);
  }

  lemma HypKeepsOwned(s: State, fd: int, assign: bool, rc: Rc)
    requires Wf(s) && Owned(s)
    ensures Owned(HypStep(s, fd, assign, rc).0)
  {
    HypOwnership(s, fd, assign, rc);
    var i := FdIndex(s.fds, fd);
    if i < |s.fds| {
      FlagMovesMemory(s.fds, s.k.dsp, i, assign);
    }
  }

  /** UNMAP leaves the DSP's memory alone and deletes one entry, if the free succeeds. */
  lemma UnmapFds(s: State, dev: nat, fd: int, endRc: Rc)
    requires Wf(s) && dev < |s.allocs|
    ensures var (s', i) := (UnmapStep(s, dev, fd, endRc).0, FdIndex(s.fds, fd));
      && s'.k.dsp == s.k.dsp
      && s'.fds == if i < |s.fds| && Frees(s, dev, s.fds[i].handle, endRc)
                   then RemoveAt(s.fds, HandleIndex(s.fds, s.fds[i].handle)) else s.fds
  {
  }

  lemma UnmapOwnedIff(s: State, dev: nat, fd: int, endRc: Rc)
    requires Wf(s) && dev < |s.allocs| && Owned(s)
    ensures Owned(UnmapStep(s, dev, fd, endRc).0) <==> OwnerSafe(s, Unmap(dev, fd, endRc))
  {
    var i := FdIndex(s.fds, fd);
    UnmapFds(s, dev, fd, endRc);
    if i < |s.fds| && Frees(s, dev, s.fds[i].handle, endRc) {
      var j := HandleIndex(s.fds, s.fds[i].handle);
      OwnershipRemove(s.fds, s.k.dsp, j);
      OrphansOnRemove(s.fds, s.k.dsp, j);
    }
  }

  lemma AllReturnedIff(fds: seq<FdEntry>, hypFails: set<int>)
    requires OwnershipAgrees(fds, FlaggedMemory(fds, {}))
    ensures FlaggedMemory(fds, {}) - FlaggedMemory(fds, hypFails) == {} <==>
      (forall i :: 0 <= i < |fds| && Assigned(fds[i]) ==> fds[i].fd !in hypFails)
  {
    var all, back := FlaggedMemory(fds, {}), FlaggedMemory(fds, hypFails);
    if forall i :: 0 <= i < |fds| && Assigned(fds[i]) ==> fds[i].fd !in hypFails {
      forall a | a in all
        ensures a in back
      {
        InFlaggedMemory(fds, {}, a);
        InFlaggedMemory(fds, hypFails, a);
      }
    } else {
      var i :| 0 <= i < |fds| && Assigned(fds[i]) && fds[i].fd in hypFails;
      StaysAssigned(fds, hypFails, i);
    }
  }

  lemma StaysAssigned(fds: seq<FdEntry>, hypFails: set<int>, i: nat)
    requires OwnershipAgrees(fds, FlaggedMemory(fds, {})) && i < |fds| && Assigned(fds[i]) && fds[i].fd in hypFails
    ensures fds[i].paddr in FlaggedMemory(fds, {}) - FlaggedMemory(fds, hypFails)
  {
    var a := fds[i].paddr;
    assert Covers(fds[i], a) && a in Region(fds[i]);
    InFlaggedMemory(fds, {}, a);
    InFlaggedMemory(fds, hypFails, a);
  }

  /** A crash leaves nothing with the DSP exactly when it gets every assigned buffer back. */
  lemma CrashOwnedIff(s: State, endFails: set<nat>, hypFails: set<int>)
    requires Wf(s) && Owned(s)
    ensures Owned(CrashStep(s, endFails, hypFails)) <==> OwnerSafe(s, Crash(endFails, hypFails))
  {
    CrashReturnsMemory(s, endFails, hypFails);
    AllReturnedIff(s.fds, hypFails);
  }

  /**
   From agreement of flags and owners with no memory lost, a step keeps both if and only if
   it is safe, whatever the lists look like and whatever the kernel answers.
   */
  lemma OwnershipStepIff(s: State, ev: Event)
    requires Wf(s) && ValidEvent(s, ev) && DisjointMap(s, ev) && Owned(s)
    ensures Owned(Step(s, ev).0) <==> OwnerSafe(s, ev)
  {
    match ev
    case Map(dev, fd, env) => MapKeepsOwned(s, dev, fd, env);
    case Unmap(dev, fd, endRc) => UnmapOwnedIff(s, dev, fd, endRc);
    case HypMap(fd, rc) => HypKeepsOwned(s, fd, true, rc);
    case HypUnmap(fd, rc) => HypKeepsOwned(s, fd, false, rc);
    case Crash(endFails, hypFails) => CrashOwnedIff(s, endFails, hypFails);
    case OtherIoctl =>
  }

  /** From agreement of the lists, the unmap that is unsafe is that of an assigned buffer by its device. */
  lemma UnsafeUnmapIff(s: State, dev: nat, n: nat, endRc: Rc)
    requires Inv(s) && dev < |s.allocs| && n < |s.fds| && Legal(s, Unmap(dev, s.fds[n].fd, endRc))
    ensures OwnerSafe(s, Unmap(dev, s.fds[n].fd, endRc)) <==> !(s.fds[n].dev == dev && Assigned(s.fds[n]))
  {
    var e := s.fds[n];
    BufIndexOfListed(s, n);
    if e.dev == dev {
      HeldByListed(s, n);
    } else {
      NotListed(s, dev, e.handle);
    }
  }

  // ---- Whole runs ----

  /** Ioctls and crashes, legal for the lists or not, in which listed buffers never overlap. */
  ghost predicate PossibleRun(s: State, evs: seq<Event>)
    requires Wf(s)
    decreases |evs|
  {
    evs == [] ||
    (ValidEvent(s, evs[0]) && DisjointMap(s, evs[0]) && (StepShape(s, evs[0]); PossibleRun(Step(s, evs[0]).0, evs[1..])))
  }

  ghost predicate SafeRun(s: State, evs: seq<Event>)
    requires Wf(s) && PossibleRun(s, evs)
    decreases |evs|
  {
    evs == [] || (OwnerSafe(s, evs[0]) && (StepShape(s, evs[0]); SafeRun(Step(s, evs[0]).0, evs[1..])))
  }

  ghost predicate OwnedThroughout(s: State, evs: seq<Event>)
    requires Wf(s) && PossibleRun(s, evs)
    decreases |evs|
  {
    Owned(s) && (evs == [] || (StepShape(s, evs[0]); OwnedThroughout(Step(s, evs[0]).0, evs[1..])))
  }

  ghost function After(s: State, evs: seq<Event>): State
    requires Wf(s) && PossibleRun(s, evs)
    decreases |evs|
  {
    if evs == [] then s else StepShape(s, evs[0]); After(Step(s, evs[0]).0, evs[1..])
  }

  /** Flags tell the owners and no memory is lost, at every point of a run, if and only if every step is safe. */
  lemma {:induction false} OwnershipRunIff(s: State, evs: seq<Event>)
    requires Wf(s) && PossibleRun(s, evs) && Owned(s)
    ensures OwnedThroughout(s, evs) <==> SafeRun(s, evs)
    decreases |evs|
  {
    if evs != [] {
      StepShape(s, evs[0]);
      OwnershipStepIff(s, evs[0]);
      if OwnerSafe(s, evs[0]) {
        OwnershipRunIff(Step(s, evs[0]).0, evs[1..]);
      }
    }
  }

  lemma {:induction false} OwnedAtEnd(s: State, evs: seq<Event>)
    requires Wf(s) && PossibleRun(s, evs) && OwnedThroughout(s, evs)
    ensures Owned(After(s, evs))
    decreases |evs|
  {
    if evs != [] {
      StepShape(s, evs[0]);
      OwnedAtEnd(Step(s, evs[0]).0, evs[1..]);
    }
  }

  /** After every safe run from probe flags tell the owners and no memory is lost. */
  lemma OwnershipRun(s: State, evs: seq<Event>)
    requires Initial(s) && PossibleRun(s, evs) && SafeRun(s, evs)
    ensures Owned(After(s, evs))
  {
    OwnershipRunIff(s, evs);
    OwnedAtEnd(s, evs);
  }

  // ---- What an unsafe unmap leads to ----

  /** Unmapping leaves no DSP-owned memory behind if and only if the buffer was not assigned. */
  lemma UnmapOrphansIff(s: State, dev: nat, fd: int, endRc: Rc)
    requires Inv(s) && dev < |s.allocs| && Legal(s, Unmap(dev, fd, endRc))
    requires OwnershipAgrees(s.fds, s.k.dsp) && NoOrphans(s)
    requires FdIndex(s.fds, fd) < |s.fds| && s.fds[FdIndex(s.fds, fd)].dev == dev
    ensures var e := s.fds[FdIndex(s.fds, fd)];
      NoOrphans(UnmapStep(s, dev, fd, endRc).0) <==> !(e.hyp && e.plen > 0)
  {
    var i := FdIndex(s.fds, fd);
    UnmapOnOwnDevice(s, dev, fd, endRc);
    OrphansOnRemove(s.fds, s.k.dsp, i);
  }

  lemma OrphansOnRemove(fds: seq<FdEntry>, dsp: set<int>, i: nat)
    requires OwnershipAgrees(fds, dsp) && dsp == FlaggedMemory(fds, {}) && i < |fds|
    ensures dsp == FlaggedMemory(RemoveAt(fds, i), {}) <==> !(fds[i].hyp && fds[i].plen > 0)
  {
    var e := fds[i];
    FlaggedMemorySplit(fds, i);
    if e.hyp && e.plen > 0 {
      OwnAddressIsNotOthers(fds, dsp, i);
      assert Covers(e, e.paddr) && e.paddr in Region(e);
    } else {
      assert OwnMemory(e) == {};
    }
  }

  lemma OwnAddressIsNotOthers(fds: seq<FdEntry>, dsp: set<int>, i: nat)
    requires OwnershipAgrees(fds, dsp) && i < |fds| && fds[i].plen > 0
    ensures fds[i].paddr !in FlaggedMemory(RemoveAt(fds, i), {})
  {
    var rest, a := RemoveAt(fds, i), fds[i].paddr;
    assert Covers(fds[i], a) && a in Region(fds[i]);
    forall j | 0 <= j < |rest|
      ensures a !in Region(rest[j])
    {
      assert rest[j] == fds[if j < i then j else j + 1];
    }
    FlaggedMemoryAvoids(rest, a);
  }

  /** Unmapping assigned memory forgets the buffer but not the DSP's ownership. */
  lemma AssignThenUnmap(s: State, n: nat)
    requires Inv(s) && n < |s.fds|
    ensures var e := s.fds[n];
      var s2 := HypStep(s, e.fd, true, 0).0;
      && |s2.allocs| == |s.allocs|
      && var (s3, rc) := UnmapStep(s2, e.dev, e.fd, 0);
      rc == 0 && Inv(s3) && s3.fds == RemoveAt(s.fds, n) && s3.k.dsp == s.k.dsp + Region(e)
      && s3.smmu == s.smmu && s3.probed == s.probed
  {
    var e := s.fds[n];
    var s2 := HypStep(s, e.fd, true, 0).0;
    BufIndexOfListed(s, n);
    HypKeepsInv(s, e.fd, true, 0);
    assert s2.fds[n] == e.(hyp := true);
    BufIndexOfListed(s2, n);
    UnmapOnOwnDevice(s2, e.dev, e.fd, 0);
    ReleasedKeepsInv(s2, n);
  }

  lemma MapThenListed(s: State, dev: nat, fd: int, env: MapEnv)
    requires Inv(s) && dev < |s.allocs|
    requires MapSucceeds(s, dev, env) && !FdListed(s, fd) && !BufListed(s, env.buf)
    ensures var s1 := MapStep(s, dev, fd, env).0;
      Inv(s1) && s1.fds == s.fds + [NewEntry(dev, fd, env)] && s1.k.dsp == s.k.dsp
  {
    NotListed(s, dev, env.buf);
    MapListsEntry(s, dev, fd, env);
    LegalMapKeepsInv(s, dev, fd, env);
  }

  /** A newly listed buffer is unflagged: agreement asks that none of its memory is the DSP's. */
  lemma MapOwnershipIff(s: State, dev: nat, fd: int, env: MapEnv)
    requires Inv(s) && dev < |s.allocs| && OwnershipAgrees(s.fds, s.k.dsp)
    requires MapSucceeds(s, dev, env) && !FdListed(s, fd) && !BufListed(s, env.buf)
    requires forall i :: 0 <= i < |s.fds| ==> Region(s.fds[i]) !! Region(NewEntry(dev, fd, env))
    ensures var s1 := MapStep(s, dev, fd, env).0;
      OwnershipAgrees(s1.fds, s1.k.dsp) <==> Region(NewEntry(dev, fd, env)) !! s.k.dsp
  {
    MapThenListed(s, dev, fd, env);
    var e := NewEntry(dev, fd, env);
    if Region(e) !! s.k.dsp {
      OwnershipAppend(s.fds, s.k.dsp, e);
    } else {
      assert (s.fds + [e])[|s.fds|] == e;
    }
  }

  /**
   The buffer `n` unmapped by its device and another mapped: flags and owners agree again if
   and only if the first was not assigned or the second lies elsewhere.
   */
  lemma MapAfterUnmapIff(s: State, n: nat, endRc: Rc, dev: nat, fd: int, env: MapEnv)
    requires Inv(s) && Owned(s) && n < |s.fds| && Legal(s, Unmap(s.fds[n].dev, s.fds[n].fd, endRc))
    requires dev < |s.allocs| && MapSucceeds(s, dev, env)
    requires var rest := s.(fds := RemoveAt(s.fds, n));
      && !FdListed(rest, fd) && !BufListed(rest, env.buf)
      && forall i :: 0 <= i < |rest.fds| ==> Region(rest.fds[i]) !! Region(NewEntry(dev, fd, env))
    ensures var s2 := UnmapStep(s, s.fds[n].dev, s.fds[n].fd, endRc).0;
      && Wf(s2) && |s2.allocs| == |s.allocs| && s2.fds == RemoveAt(s.fds, n)
      && var s3 := MapStep(s2, dev, fd, env).0;
         OwnershipAgrees(s3.fds, s3.k.dsp) <==> !s.fds[n].hyp || Region(s.fds[n]) !! Region(NewEntry(dev, fd, env))
  {
    var e, r := s.fds[n], Region(NewEntry(dev, fd, env));
    BufIndexOfListed(s, n);
    UnmapOnOwnDevice(s, e.dev, e.fd, endRc);
    ReleasedKeepsInv(s, n);
    var s2 := UnmapStep(s, e.dev, e.fd, endRc).0;
    OwnershipRemove(s.fds, s.k.dsp, n);
    MapOwnershipIff(s2, dev, fd, env);
    FlaggedMemorySplit(s.fds, n);
    DisjointFromFlagged(RemoveAt(s.fds, n), r);
  }

  /** Three ioctls that each succeed and are legal for the lists: assign, unmap, map the same buffer again. */
  function Remap(e: FdEntry, env: MapEnv): seq<Event> {
    [HypMap(e.fd, 0)] + ([Unmap(e.dev, e.fd, 0)] + ([Map(e.dev, e.fd, env)] + []))
  }

  /** A run by its first step. */
  lemma RunCons(s: State, ev: Event, rest: seq<Event>, s': State)
    requires Wf(s) && ValidEvent(s, ev) && s' == Step(s, ev).0
    ensures Wf(s')
    ensures PossibleRun(s, [ev] + rest) <==> DisjointMap(s, ev) && PossibleRun(s', rest)
    ensures LegalRun(s, [ev] + rest) <==> Legal(s, ev) && LegalRun(s', rest)
    ensures PossibleRun(s, [ev] + rest) ==> After(s, [ev] + rest) == After(s', rest)
    ensures PossibleRun(s, [ev] + rest) ==> (SafeRun(s, [ev] + rest) <==> OwnerSafe(s, ev) && SafeRun(s', rest))
  {
    StepShape(s, ev);
    assert ([ev] + rest)[1..] == rest;
  }

  lemma AssignListed(s: State, n: nat)
    requires Inv(s) && n < |s.fds|
    ensures var e := s.fds[n];
      Step(s, HypMap(e.fd, 0)).0 == s.(k := s.k.(dsp := s.k.dsp + Region(e)), fds := s.fds[n := e.(hyp := true)])
    ensures Inv(Step(s, HypMap(s.fds[n].fd, 0)).0)
  {
    BufIndexOfListed(s, n);
    HypKeepsInv(s, s.fds[n].fd, true, 0);
  }

  lemma UnmapListed(s: State, n: nat)
    requires Inv(s) && n < |s.fds|
    ensures Legal(s, Unmap(s.fds[n].dev, s.fds[n].fd, 0))
    ensures var s' := Step(s, Unmap(s.fds[n].dev, s.fds[n].fd, 0)).0;
      && Inv(s') && s'.fds == RemoveAt(s.fds, n) && s'.k.dsp == s.k.dsp
      && |s'.allocs| == |s.allocs| && s'.smmu == s.smmu && s'.probed == s.probed
  {
    var e := s.fds[n];
    BufIndexOfListed(s, n);
    UnmapOnOwnDevice(s, e.dev, e.fd, 0);
    ReleasedKeepsInv(s, n);
  }

  lemma RemovedIsUnlisted(s: State, s': State, n: nat)
    requires ListsAgree(s) && n < |s.fds| && s'.fds == RemoveAt(s.fds, n)
    ensures !FdListed(s', s.fds[n].fd) && !BufListed(s', s.fds[n].handle)
  {
    assert forall j :: 0 <= j < |s'.fds| ==> s'.fds[j] == s.fds[if j < n then j else j + 1];
  }

  lemma MapListed(s: State, e: FdEntry, env: MapEnv)
    requires Inv(s) && e.dev < |s.allocs| && MapSucceeds(s, e.dev, env) && NewEntry(e.dev, e.fd, env) == e
    requires !FdListed(s, e.fd) && !BufListed(s, e.handle)
    requires forall i :: 0 <= i < |s.fds| ==> Region(s.fds[i]) !! Region(e)
    ensures var evs := [Map(e.dev, e.fd, env)] + [];
      && PossibleRun(s, evs) && LegalRun(s, evs)
      && After(s, evs).fds == s.fds + [e] && After(s, evs).k.dsp == s.k.dsp
  {
    MapThenListed(s, e.dev, e.fd, env);
    RunCons(s, Map(e.dev, e.fd, env), [], Step(s, Map(e.dev, e.fd, env)).0);
  }

  lemma RemovedIsDisjoint(fds: seq<FdEntry>, dsp: set<int>, n: nat, e: FdEntry)
    requires OwnershipAgrees(fds, dsp) && n < |fds| && e == fds[n].(hyp := false)
    ensures Region(e) == Region(fds[n]) && e.handle == fds[n].handle && e.fd == fds[n].fd && e.dev == fds[n].dev
    ensures forall i :: 0 <= i < |RemoveAt(fds, n)| ==> Region(RemoveAt(fds, n)[i]) !! Region(e)
  {
    assert Region(e) == Region(fds[n]);
    forall i | 0 <= i < |RemoveAt(fds, n)|
      ensures Region(RemoveAt(fds, n)[i]) !! Region(e)
    {
      assert RemoveAt(fds, n)[i] == fds[if i < n then i else i + 1];
    }
  }

  lemma UnflaggedAtDsp(fds: seq<FdEntry>, e: FdEntry, dsp: set<int>)
    requires !e.hyp && e.plen > 0 && Region(e) <= dsp
    ensures !OwnershipAgrees(fds + [e], dsp)
  {
    assert Covers(e, e.paddr) && e.paddr in Region(e);
    assert (fds + [e])[|fds|] == e;
  }

  /** Unmapping an assigned buffer and mapping it again lists it as it was, unflagged. */
  lemma RemapAssigned(s: State, n: nat, e: FdEntry, env: MapEnv)
    requires Inv(s) && n < |s.fds| && Assigned(s.fds[n]) && OwnershipAgrees(s.fds, s.k.dsp)
    requires e == s.fds[n].(hyp := false) && MapSucceeds(s, e.dev, env) && NewEntry(e.dev, e.fd, env) == e
    ensures var evs := [Unmap(e.dev, e.fd, 0)] + ([Map(e.dev, e.fd, env)] + []);
      && PossibleRun(s, evs) && LegalRun(s, evs) && !SafeRun(s, evs)
      && After(s, evs).fds == RemoveAt(s.fds, n) + [e] && After(s, evs).k.dsp == s.k.dsp
  {
    RemovedIsDisjoint(s.fds, s.k.dsp, n, e);
    UnmapListed(s, n);
    UnsafeUnmapIff(s, e.dev, n, 0);
    var s' := Step(s, Unmap(e.dev, e.fd, 0)).0;
    RemovedIsUnlisted(s, s', n);
    MapListed(s', e, env);
    RunCons(s, Unmap(e.dev, e.fd, 0), [Map(e.dev, e.fd, env)] + [], s');
  }

  /**
   Assigning any listed buffer, unmapping it and mapping it again: all legal for the lists
   and successful, and the buffer ends listed and unflagged with its memory at the DSP.
   */
  lemma RemapLosesOwner(s: State, n: nat, env: MapEnv)
    requires Inv(s) && Owned(s) && n < |s.fds| && s.fds[n].plen > 0
    requires var e := s.fds[n].(hyp := false); MapSucceeds(s, e.dev, env) && NewEntry(e.dev, e.fd, env) == e
    ensures var (e, evs) := (s.fds[n].(hyp := false), Remap(s.fds[n], env));
      && PossibleRun(s, evs) && LegalRun(s, evs) && !SafeRun(s, evs)
      && var s3 := After(s, evs);
         s3.fds == RemoveAt(s.fds, n) + [e] && Region(e) <= s3.k.dsp && !OwnershipAgrees(s3.fds, s3.k.dsp)
  {
    var e := s.fds[n].(hyp := false);
    AssignListed(s, n);
    HypOwnership(s, e.fd, true, 0);
    var s1 := Step(s, HypMap(e.fd, 0)).0;
    assert RemoveAt(s1.fds, n) == RemoveAt(s.fds, n);
    RemapAssigned(s1, n, e, env);
    RunCons(s, HypMap(e.fd, 0), [Unmap(e.dev, e.fd, 0)] + ([Map(e.dev, e.fd, env)] + []), s1);
    RemovedIsDisjoint(s.fds, s.k.dsp, n, e);
    UnflaggedAtDsp(RemoveAt(s.fds, n), e, s.k.dsp + Region(e));
  }
}
