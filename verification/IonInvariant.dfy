/**
 The index/allocator agreement of the DMA-buffer manager, and exactly which ioctls keep it.
 */
module IonInvariant {
  import opened Prelude
  import opened Errno
  import opened IonModel

  // ---- What the fd list says the driver should hold ----

  function HandlesOn(fds: seq<FdEntry>, d: nat): seq<nat> {
    if fds == [] then []
    else (if fds[0].dev == d then [fds[0].handle] else []) + HandlesOn(fds[1..], d)
  }

  function RefsOf(fds: seq<FdEntry>): multiset<nat> {
    if fds == [] then multiset{} else multiset{fds[0].handle} + RefsOf(fds[1..])
  }

  function AttachmentsOf(fds: seq<FdEntry>): multiset<(nat, nat)> {
    if fds == [] then multiset{} else multiset{(fds[0].dev, fds[0].handle)} + AttachmentsOf(fds[1..])
  }

  /** Kernel mappings: one for every listed buffer of a device behind an SMMU. */
  function VmapsOf(fds: seq<FdEntry>, smmu: seq<bool>): multiset<nat> {
    if fds == [] then multiset{}
    else (if fds[0].dev < |smmu| && smmu[fds[0].dev] then multiset{fds[0].handle} else multiset{})
         + VmapsOf(fds[1..], smmu)
  }

  function Bufs(xs: seq<Alloc>): (r: seq<nat>)
    ensures |r| == |xs|
  {
    seq(|xs|, i requires 0 <= i < |xs| => xs[i].buf)
  }

  ghost predicate DistinctFds(fds: seq<FdEntry>) {
    forall i, j :: 0 <= i < j < |fds| ==> fds[i].fd != fds[j].fd
  }

  ghost predicate DistinctHandles(fds: seq<FdEntry>) {
    forall i, j :: 0 <= i < j < |fds| ==> fds[i].handle != fds[j].handle
  }

  predicate FdListed(s: State, fd: int) { exists i :: 0 <= i < |s.fds| && s.fds[i].fd == fd }

  predicate BufListed(s: State, b: nat) { exists i :: 0 <= i < |s.fds| && s.fds[i].handle == b }

  /** Each device's allocation list is, in order, the handles of its fd-list entries. */
  ghost predicate ListsAgree(s: State) {
    && Wf(s)
    && DistinctFds(s.fds)
    && DistinctHandles(s.fds)
    && (forall d :: 0 <= d < |s.allocs| ==> Bufs(s.allocs[d]) == HandlesOn(s.fds, d))
  }

  /** Every listed buffer carries one reference and one mapped attachment; nothing was released twice. */
  ghost predicate KernelAgrees(fds: seq<FdEntry>, smmu: seq<bool>, k: Kernel) {
    && k.refs == RefsOf(fds)
    && k.attached == AttachmentsOf(fds)
    && k.mapped == AttachmentsOf(fds)
    && k.vmaps == VmapsOf(fds, smmu)
    && k.vmaps <= k.cpu
    && !k.fault
  }

  /** Buffers of devices behind an SMMU, and only those, have a kernel address. */
  ghost predicate VaddrsAgree(allocs: seq<seq<Alloc>>, smmu: seq<bool>)
    requires |allocs| == |smmu|
  {
    forall d :: 0 <= d < |allocs| ==> VaddrsOf(allocs[d], smmu[d])
  }

  ghost predicate VaddrsOf(xs: seq<Alloc>, mapped: bool) {
    forall x :: x in xs ==> (x.vaddr != 0 <==> mapped)
  }

  ghost predicate Inv(s: State) {
    ListsAgree(s) && KernelAgrees(s.fds, s.smmu, s.k) && VaddrsAgree(s.allocs, s.smmu)
  }

  /** The buffer gets as far as the device's allocation list. */
  predicate Added(env: MapEnv) { env.allocOk && env.attachRc == 0 && env.mapRc == 0 }

  predicate ReachesList(s: State, dev: nat, env: MapEnv)
    requires dev < |s.probed|
  {
    env.fdAllocOk && s.probed[dev] && env.getOk && Added(env)
  }

  /** The ioctls that keep the invariant: a condition on the arguments and the current lists. */
  predicate Legal(s: State, ev: Event)
    requires |s.allocs| == |s.smmu| == |s.probed| && ValidEvent(s, ev)
    requires forall i :: 0 <= i < |s.fds| ==> s.fds[i].dev < |s.allocs|
  {
    match ev
    case Map(dev, fd, env) =>
      if !env.fdAllocOk || !s.probed[dev] || !env.getOk then true
      else if s.smmu[dev] then
        if !Added(env) then true
        else if env.beginRc != 0 || env.vaddr == 0 then env.buf !in Bufs(s.allocs[dev])
        else !FdListed(s, fd) && !BufListed(s, env.buf)
      else Added(env) && !FdListed(s, fd) && !BufListed(s, env.buf)
    case Unmap(dev, fd, endRc) =>
      forall i :: 0 <= i < |s.fds| && s.fds[i].fd == fd ==>
        if s.fds[i].dev == dev then s.smmu[dev] ==> endRc == 0 else s.smmu[dev]
    case Crash(endFails, _) =>
      forall i :: 0 <= i < |s.fds| && s.smmu[s.fds[i].dev] ==> s.fds[i].handle !in endFails
    case _ => true
  }

  // ---- The derived values split with the list ----

  lemma {:induction false} RefsConcat(a: seq<FdEntry>, b: seq<FdEntry>)
    ensures RefsOf(a + b) == RefsOf(a) + RefsOf(b)
  {
    if a == [] {
      assert a + b == b;
    } else {
      assert (a + b)[1..] == a[1..] + b;
      RefsConcat(a[1..], b);
    }
  }

  lemma {:induction false} AttachmentsConcat(a: seq<FdEntry>, b: seq<FdEntry>)
    ensures AttachmentsOf(a + b) == AttachmentsOf(a) + AttachmentsOf(b)
  {
    if a == [] {
      assert a + b == b;
    } else {
      assert (a + b)[1..] == a[1..] + b;
      AttachmentsConcat(a[1..], b);
    }
  }

  lemma {:induction false} VmapsConcat(a: seq<FdEntry>, b: seq<FdEntry>, smmu: seq<bool>)
    ensures VmapsOf(a + b, smmu) == VmapsOf(a, smmu) + VmapsOf(b, smmu)
  {
    if a == [] {
      assert a + b == b;
    } else {
      assert (a + b)[1..] == a[1..] + b;
      VmapsConcat(a[1..], b, smmu);
    }
  }

  lemma {:induction false} HandlesOnConcat(a: seq<FdEntry>, b: seq<FdEntry>, d: nat)
    ensures HandlesOn(a + b, d) == HandlesOn(a, d) + HandlesOn(b, d)
  {
    if a == [] {
      assert a + b == b;
    } else {
      assert (a + b)[1..] == a[1..] + b;
      HandlesOnConcat(a[1..], b, d);
      assert HandlesOn(a, d) == OwnHandle(a[0], d) + HandlesOn(a[1..], d);
    }
  }

  function OwnHandle(e: FdEntry, d: nat): seq<nat> { if e.dev == d then [e.handle] else [] }

  function OwnVmap(e: FdEntry, smmu: seq<bool>): multiset<nat> {
    if e.dev < |smmu| && smmu[e.dev] then multiset{e.handle} else multiset{}
  }

  /** Taking one entry out of the list takes out its share of everything. */
  lemma SplitMultisets(fds: seq<FdEntry>, i: nat, smmu: seq<bool>)
    requires i < |fds|
    ensures RefsOf(fds) == RefsOf(RemoveAt(fds, i)) + multiset{fds[i].handle}
    ensures AttachmentsOf(fds) == AttachmentsOf(RemoveAt(fds, i)) + multiset{(fds[i].dev, fds[i].handle)}
    ensures VmapsOf(fds, smmu) == VmapsOf(RemoveAt(fds, i), smmu) + OwnVmap(fds[i], smmu)
  {
    var a, e, b := fds[..i], [fds[i]], fds[i + 1..];
    assert fds == a + (e + b);
    assert (e + b)[1..] == b;
    RefsConcat(a, e + b);
    RefsConcat(a, b);
    AttachmentsConcat(a, e + b);
    AttachmentsConcat(a, b);
    VmapsConcat(a, e + b, smmu);
    VmapsConcat(a, b, smmu);
  }

  lemma SplitHandlesOn(fds: seq<FdEntry>, i: nat, d: nat)
    requires i < |fds|
    ensures HandlesOn(fds, d) == HandlesOn(fds[..i], d) + OwnHandle(fds[i], d) + HandlesOn(fds[i + 1..], d)
    ensures HandlesOn(RemoveAt(fds, i), d) == HandlesOn(fds[..i], d) + HandlesOn(fds[i + 1..], d)
  {
    var a, e, b := fds[..i], [fds[i]], fds[i + 1..];
    assert fds == a + (e + b);
    assert (e + b)[1..] == b;
    HandlesOnConcat(a, e + b, d);
    HandlesOnConcat(a, b, d);
  }

  lemma {:induction false} HandlesOnSource(fds: seq<FdEntry>, d: nat, h: nat)
    requires h in HandlesOn(fds, d)
    ensures exists i :: 0 <= i < |fds| && fds[i].handle == h && fds[i].dev == d
  {
    if fds[0].dev == d && fds[0].handle == h {
    } else {
      HandlesOnSource(fds[1..], d, h);
      var i :| 0 <= i < |fds[1..]| && fds[1..][i].handle == h && fds[1..][i].dev == d;
      assert fds[i + 1].handle == h;
    }
  }

  /** Under the invariant, a listed buffer sits on its device's list at the matching place. */
  lemma BufIndexOfListed(s: State, i: nat)
    requires ListsAgree(s) && i < |s.fds|
    ensures var e := s.fds[i];
      BufIndex(s.allocs[e.dev], e.handle) == |HandlesOn(s.fds[..i], e.dev)| < |s.allocs[e.dev]|
    ensures HandleIndex(s.fds, s.fds[i].handle) == i == FdIndex(s.fds, s.fds[i].fd)
  {
    var e := s.fds[i];
    SplitHandlesOn(s.fds, i, e.dev);
    var xs := s.allocs[e.dev];
    var n := |HandlesOn(s.fds[..i], e.dev)|;
    assert Bufs(xs) == HandlesOn(s.fds, e.dev);
    assert Bufs(xs)[n] == xs[n].buf == e.handle;
    var j := BufIndex(xs, e.handle);
    if j < n {
      assert Bufs(xs)[j] == HandlesOn(s.fds[..i], e.dev)[j];
      HandlesOnSource(s.fds[..i], e.dev, e.handle);
    }
  }

  lemma BufsHold(xs: seq<Alloc>)
    ensures forall j :: 0 <= j < |xs| ==> xs[j].buf in Bufs(xs)
  {
    forall j | 0 <= j < |xs|
      ensures xs[j].buf in Bufs(xs)
    {
      assert Bufs(xs)[j] == xs[j].buf;
    }
  }

  /** A buffer on no fd-list entry of device `d` is not on its allocation list. */
  lemma NotListed(s: State, d: nat, h: nat)
    requires ListsAgree(s) && d < |s.allocs|
    requires forall i :: 0 <= i < |s.fds| && s.fds[i].dev == d ==> s.fds[i].handle != h
    ensures BufIndex(s.allocs[d], h) == |s.allocs[d]|
    ensures h !in Bufs(s.allocs[d])
  {
    var xs := s.allocs[d];
    if h in HandlesOn(s.fds, d) {
      HandlesOnSource(s.fds, d, h);
    }
    BufsHold(xs);
  }

  lemma BufIndexAbsent(xs: seq<Alloc>, b: nat, x: Alloc)
    requires b !in Bufs(xs) && x.buf == b
    ensures BufIndex(xs + [x], b) == |xs|
  {
    BufsHold(xs);
    assert (xs + [x])[|xs|].buf == b;
  }

  // ---- Freeing a listed buffer ----

  /** A listed buffer is held once in every way the free path gives it back. */
  lemma HeldByListed(s: State, i: nat)
    requires Inv(s) && i < |s.fds|
    ensures var e := s.fds[i];
      && e.handle in s.k.refs && (e.dev, e.handle) in s.k.attached && (e.dev, e.handle) in s.k.mapped
      && (s.smmu[e.dev] ==> e.handle in s.k.vmaps && e.handle in s.k.cpu)
      && BufIndex(s.allocs[e.dev], e.handle) < |s.allocs[e.dev]|
      && (s.allocs[e.dev][BufIndex(s.allocs[e.dev], e.handle)].vaddr != 0 <==> s.smmu[e.dev])
  {
    BufIndexOfListed(s, i);
    SplitMultisets(s.fds, i, s.smmu);
  }

  /** What the driver gives back when it frees the buffer of `e`. */
  function Released(s: State, e: FdEntry): State
    requires e.dev < |s.allocs|
  {
    s.(allocs := s.allocs[e.dev := RemoveAt(s.allocs[e.dev], BufIndex(s.allocs[e.dev], e.handle))],
       k := s.k.(refs := s.k.refs - multiset{e.handle},
                 attached := s.k.attached - multiset{(e.dev, e.handle)},
                 mapped := s.k.mapped - multiset{(e.dev, e.handle)},
                 cpu := s.k.cpu - OwnVmap(e, s.smmu),
                 vmaps := s.k.vmaps - OwnVmap(e, s.smmu)))
  }

  lemma FreeListed(s: State, i: nat, endRc: Rc)
    requires Inv(s) && i < |s.fds| && (s.smmu[s.fds[i].dev] ==> endRc == 0)
    ensures Free(s, s.fds[i].dev, s.fds[i].handle, endRc) == (Released(s, s.fds[i]), 0)
  {
    HeldByListed(s, i);
    assert s.k.cpu - multiset{} == s.k.cpu && s.k.vmaps - multiset{} == s.k.vmaps;
  }

  lemma MinusOne<T>(x: multiset<T>, t: T)
    ensures x + multiset{t} - multiset{t} == x
  {
  }

  lemma MinusMonotone<T>(x: multiset<T>, y: multiset<T>, z: multiset<T>)
    requires x <= y
    ensures x - z <= y - z
  {
  }

  lemma ReleasedKernel(s: State, i: nat)
    requires KernelAgrees(s.fds, s.smmu, s.k) && i < |s.fds| && s.fds[i].dev < |s.allocs|
    ensures KernelAgrees(RemoveAt(s.fds, i), s.smmu, Released(s, s.fds[i]).k)
  {
    var e, fds2 := s.fds[i], RemoveAt(s.fds, i);
    SplitMultisets(s.fds, i, s.smmu);
    MinusOne(RefsOf(fds2), e.handle);
    MinusOne(AttachmentsOf(fds2), (e.dev, e.handle));
    MinusOne(VmapsOf(fds2, s.smmu), e.handle);
    MinusMonotone(s.k.vmaps, s.k.cpu, OwnVmap(e, s.smmu));
  }

  lemma DistinctRemove(fds: seq<FdEntry>, i: nat)
    requires DistinctFds(fds) && DistinctHandles(fds) && i < |fds|
    ensures DistinctFds(RemoveAt(fds, i)) && DistinctHandles(RemoveAt(fds, i))
  {
  }

  lemma RemoveOnDevice(xs: seq<Alloc>, fds: seq<FdEntry>, i: nat)
    requires i < |fds| && Bufs(xs) == HandlesOn(fds, fds[i].dev)
    ensures var n := |HandlesOn(fds[..i], fds[i].dev)|;
      n < |xs| && Bufs(RemoveAt(xs, n)) == HandlesOn(RemoveAt(fds, i), fds[i].dev)
  {
    SplitHandlesOn(fds, i, fds[i].dev);
    BufsRemove(xs, |HandlesOn(fds[..i], fds[i].dev)|);
  }

  lemma ReleasedLists(s: State, i: nat)
    requires ListsAgree(s) && i < |s.fds|
    ensures ListsAgree(Released(s, s.fds[i]).(fds := RemoveAt(s.fds, i)))
  {
    var e := s.fds[i];
    var s2 := Released(s, e).(fds := RemoveAt(s.fds, i));
    BufIndexOfListed(s, i);
    DistinctRemove(s.fds, i);
    forall d | 0 <= d < |s.allocs|
      ensures Bufs(s2.allocs[d]) == HandlesOn(s2.fds, d)
    {
      if d == e.dev {
        RemoveOnDevice(s.allocs[d], s.fds, i);
      } else {
        SplitHandlesOn(s.fds, i, d);
      }
    }
  }

  lemma ReleasedVaddrs(s: State, e: FdEntry)
    requires e.dev < |s.allocs| == |s.smmu| && VaddrsAgree(s.allocs, s.smmu)
    ensures VaddrsAgree(Released(s, e).allocs, s.smmu)
  {
    assert VaddrsOf(s.allocs[e.dev], s.smmu[e.dev]);
  }

  lemma ReleasedKeepsInv(s: State, i: nat)
    requires Inv(s) && i < |s.fds|
    ensures Inv(Released(s, s.fds[i]).(fds := RemoveAt(s.fds, i)))
  {
    ReleasedKernel(s, i);
    ReleasedLists(s, i);
    ReleasedVaddrs(s, s.fds[i]);
  }

  lemma BufsRemove(xs: seq<Alloc>, n: nat)
    requires n < |xs|
    ensures Bufs(RemoveAt(xs, n)) == Bufs(xs)[..n] + Bufs(xs)[n + 1..]
  {
  }

  /** A failing end-of-CPU-access stops the free after the kernel mapping is already gone. */
  lemma FreeStops(s: State, i: nat, endRc: Rc)
    requires Inv(s) && i < |s.fds| && s.smmu[s.fds[i].dev] && endRc != 0
    ensures Free(s, s.fds[i].dev, s.fds[i].handle, endRc) == (s.(k := Vunmap(s.k, s.fds[i].handle)), endRc)
    ensures s.fds[i].handle in s.k.vmaps
  {
    HeldByListed(s, i);
  }

  // ---- One ioctl at a time ----

  /** The state after listing `e` with its buffer held once and, behind an SMMU, kernel mapped. */
  ghost predicate Listed(s: State, e: FdEntry, vaddr: nat, s': State)
    requires e.dev < |s.allocs| == |s.smmu|
  {
    && s'.fds == s.fds + [e] && s'.smmu == s.smmu && s'.probed == s.probed
    && s'.allocs == s.allocs[e.dev := s.allocs[e.dev] + [Alloc(e.handle, vaddr)]]
    && s'.k.refs == s.k.refs + multiset{e.handle}
    && s'.k.attached == s.k.attached + multiset{(e.dev, e.handle)}
    && s'.k.mapped == s.k.mapped + multiset{(e.dev, e.handle)}
    && s'.k.vmaps == s.k.vmaps + OwnVmap(e, s.smmu)
    && s'.k.cpu == s.k.cpu + OwnVmap(e, s.smmu)
    && s'.k.fault == s.k.fault && s'.k.dsp == s.k.dsp
  }

  lemma AppendKernel(s: State, e: FdEntry, vaddr: nat, s': State)
    requires KernelAgrees(s.fds, s.smmu, s.k) && e.dev < |s.allocs| == |s.smmu|
    requires Listed(s, e, vaddr, s')
    ensures KernelAgrees(s'.fds, s'.smmu, s'.k)
  {
    SplitMultisets(s'.fds, |s.fds|, s.smmu);
    assert RemoveAt(s'.fds, |s.fds|) == s.fds;
  }

  lemma AppendLists(s: State, e: FdEntry, vaddr: nat, s': State)
    requires ListsAgree(s) && e.dev < |s.allocs|
    requires !FdListed(s, e.fd) && !BufListed(s, e.handle)
    requires Listed(s, e, vaddr, s')
    ensures ListsAgree(s')
  {
    forall d | 0 <= d < |s.allocs|
      ensures Bufs(s'.allocs[d]) == HandlesOn(s'.fds, d)
    {
      HandlesOnConcat(s.fds, [e], d);
      assert [e][1..] == [];
      if d == e.dev {
        assert Bufs(s'.allocs[d]) == Bufs(s.allocs[d]) + [e.handle];
      }
    }
  }

  /** Where a map of a buffer that is not on the device's list ends up. */
  lemma MapSmmuResult(s: State, dev: nat, env: MapEnv)
    requires dev < |s.allocs| && Added(env) && env.buf !in Bufs(s.allocs[dev])
    ensures var (s1, rc) := BufMap(s, dev, env);
      if env.beginRc != 0 || env.vaddr == 0 then
        rc == ENOMEM
        && s1 == s.(k := Put(s.k, env.buf).(cpu := if env.beginRc == 0 then s.k.cpu + multiset{env.buf} else s.k.cpu))
      else
        rc == 0
        && s1 == s.(allocs := s.allocs[dev := s.allocs[dev] + [Alloc(env.buf, env.vaddr)]],
                    k := Vmap(BeginCpu(MapAttachment(Attach(s.k, dev, env.buf), dev, env.buf), env.buf), env.buf))
  {
    var xs := s.allocs[dev];
    BufIndexAbsent(xs, env.buf, Alloc(env.buf, 0));
    MinusOne(s.k.attached, (dev, env.buf));
    MinusOne(s.k.mapped, (dev, env.buf));
    UpdateLast(s.allocs, dev, Alloc(env.buf, 0), Alloc(env.buf, env.vaddr));
  }

  lemma UpdateLast(allocs: seq<seq<Alloc>>, d: nat, x: Alloc, y: Alloc)
    requires d < |allocs|
    ensures var xs := allocs[d];
      && (xs + [x])[|xs| := y] == xs + [y]
      && RemoveAt(xs + [x], |xs|) == xs
      && allocs[d := xs + [x]][d := xs] == allocs
      && allocs[d := xs + [x]][d := xs + [y]] == allocs[d := xs + [y]]
  {
  }

  lemma MapFailsEarly(s: State, dev: nat, env: MapEnv)
    requires Wf(s) && dev < |s.allocs| && !Added(env)
    ensures var (s1, rc) := DmaBufMap(s, dev, env); s1 == s && rc < 0
    ensures BufMap(s, dev, env).0 == s.(k := Put(s.k, env.buf)) && BufMap(s, dev, env).1 < 0
  {
    var at := s.k.attached;
    assert at + multiset{(dev, env.buf)} - multiset{(dev, env.buf)} == at;
  }

  lemma GetPut(k: Kernel, b: nat)
    ensures Put(Get(k, b), b) == k
  {
    assert k.refs + multiset{b} - multiset{b} == k.refs;
  }

  lemma ListedKeepsInv(s: State, e: FdEntry, vaddr: nat, s': State)
    requires Inv(s) && e.dev < |s.allocs| && (vaddr != 0 <==> s.smmu[e.dev])
    requires !FdListed(s, e.fd) && !BufListed(s, e.handle)
    requires Listed(s, e, vaddr, s')
    ensures Inv(s')
  {
    AppendKernel(s, e, vaddr, s');
    AppendLists(s, e, vaddr, s');
    assert VaddrsOf(s.allocs[e.dev], s.smmu[e.dev]);
  }

  /** The state before the ioctl, apart from a CPU-access window that may have been left open. */
  lemma FailedMapRestores(s: State, dev: nat, fd: int, env: MapEnv)
    requires Wf(s) && dev < |s.allocs|
    requires MapStep(s, dev, fd, env).1 < 0
    requires ReachesList(s, dev, env) ==> env.buf !in Bufs(s.allocs[dev])
    ensures MapStep(s, dev, fd, env).0 == s.(k := s.k.(cpu := MapStep(s, dev, fd, env).0.k.cpu))
    ensures MapStep(s, dev, fd, env).0.k.cpu == s.k.cpu <==>
      !(ReachesList(s, dev, env) && env.beginRc == 0 && env.vaddr == 0)
  {
    if env.fdAllocOk && s.probed[dev] && env.getOk {
      var s0 := s.(k := Get(s.k, env.buf));
      GetPut(s.k, env.buf);
      if Added(env) {
        MapSmmuResult(s0, dev, env);
        assert (s.k.cpu + multiset{env.buf})[env.buf] != s.k.cpu[env.buf];
      } else {
        MapFailsEarly(s0, dev, env);
      }
    }
  }

  lemma FailedMapCpu(s: State, dev: nat, fd: int, env: MapEnv)
    requires Wf(s) && dev < |s.allocs|
    requires MapStep(s, dev, fd, env).1 < 0
    requires ReachesList(s, dev, env) ==> env.buf !in Bufs(s.allocs[dev])
    ensures s.k.cpu <= MapStep(s, dev, fd, env).0.k.cpu
  {
    if ReachesList(s, dev, env) {
      MapSmmuResult(s.(k := Get(s.k, env.buf)), dev, env);
    } else if env.fdAllocOk && s.probed[dev] && env.getOk {
      MapFailsEarly(s.(k := Get(s.k, env.buf)), dev, env);
    }
  }

  lemma LegalMapKeepsInv(s: State, dev: nat, fd: int, env: MapEnv)
    requires Inv(s) && dev < |s.allocs| && Legal(s, Map(dev, fd, env))
    ensures Inv(MapStep(s, dev, fd, env).0)
  {
    if MapStep(s, dev, fd, env).1 < 0 {
      FailedMapRestores(s, dev, fd, env);
      FailedMapCpu(s, dev, fd, env);
    } else {
      NotListed(s, dev, env.buf);
      MapListsEntry(s, dev, fd, env);
      ListedKeepsInv(s, NewEntry(dev, fd, env), if s.smmu[dev] then env.vaddr else 0, MapStep(s, dev, fd, env).0);
    }
  }

  /** A map that gets through lists its buffer, whatever else is on the lists. */
  lemma MapListsEntry(s: State, dev: nat, fd: int, env: MapEnv)
    requires Wf(s) && dev < |s.allocs| && env.fdAllocOk && s.probed[dev] && env.getOk && Added(env)
    requires s.smmu[dev] ==> env.beginRc == 0 && env.vaddr != 0
    requires env.buf !in Bufs(s.allocs[dev]) && !FdListed(s, fd)
    ensures MapStep(s, dev, fd, env).1 == 0
    ensures Listed(s, FdEntry(fd, env.buf, env.paddr, env.len, dev, false), if s.smmu[dev] then env.vaddr else 0,
                   MapStep(s, dev, fd, env).0)
  {
    MapSmmuResult(s.(k := Get(s.k, env.buf)), dev, env);
  }
}
