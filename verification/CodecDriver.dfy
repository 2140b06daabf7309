/** Populating the codec lists of a card's DAI links, in place. */
module CodecDriver {
  import opened Prelude
  import opened Errno
  import opened CodecModel

  class DaiLink {
    var codecs: array<Codec>
    var numCodecs: nat

    ghost predicate Valid()
      reads this
    {
      numCodecs == codecs.Length
    }

    ghost function Contents(): Link
      reads this, codecs
    {
      codecs[..]
    }

    constructor (list: Link)
      ensures Valid() && Contents() == list && fresh(codecs)
    {
      codecs := new Codec[|list|](j requires 0 <= j < |list| => list[j]);
      numCodecs := |list|;
    }

    /**
     The naming pass over one link. It stops at the first codec whose node is missing, with
     the codecs before it resolved and the rest untouched.
     */
    method ResolveCodecs(t: Tree) returns (ret: Rc, done: nat)
      requires Valid()
      modifies codecs
      ensures done <= |old(Contents())|
      ensures Contents() == ResolvedAll(t, old(Contents())[..done]) + old(Contents())[done..]
      ensures forall j :: 0 <= j < done ==> !Unresolvable(t, old(Contents())[j])
      ensures forall j :: 0 <= j < done ==>
        var c := old(Contents())[j];
        if c.node == None && c.name != None && t.index(c.name.value) >= 0
        then codecs[j] == Codec(None, t.phandle(t.index(c.name.value)), c.daiName) && codecs[j].node != None
        else codecs[j] == c
      ensures ret == 0 ==> done == numCodecs
      ensures ret != 0 ==> ret == ENODEV && done < numCodecs && Unresolvable(t, old(Contents())[done])
    {
      for j := 0 to numCodecs
        invariant forall k :: 0 <= k < j ==> codecs[k] == Resolved(t, old(Contents())[k])
        invariant forall k :: 0 <= k < j ==> !Unresolvable(t, old(Contents())[k])
        invariant forall k :: j <= k < numCodecs ==> codecs[k] == old(Contents())[k]
      {
        if codecs[j].node.Some? || codecs[j].name == None {
          continue;
        }
        var index := t.index(codecs[j].name.value);
        if index < 0 {
          continue;
        }
        var np := t.phandle(index);
        if np == None {
          return ENODEV, j;
        }
        codecs[j] := codecs[j].(node := np, name := None);
      }
      return 0, numCodecs;
    }

    /** The availability count of one link: nodes that are not available are dropped. */
    method CheckCodecs(t: Tree) returns (enabled: nat)
      requires Valid()
      modifies codecs
      ensures Contents() == CheckedAll(t, old(Contents()))
      ensures enabled == |Kept(t, old(Contents()))|
    {
      enabled := 0;
      for j := 0 to numCodecs
        invariant enabled == |Kept(t, old(Contents())[..j])|
        invariant forall k :: 0 <= k < j ==> codecs[k] == Checked(t, old(Contents())[k])
        invariant forall k :: j <= k < numCodecs ==> codecs[k] == old(Contents())[k]
      {
        KeptNext(t, old(Contents()), j);
        if codecs[j].node == None {
          continue;
        }
        if !t.available(codecs[j].node.value) {
          codecs[j] := codecs[j].(node := None);
          continue;
        }
        enabled := enabled + 1;
      }
      assert old(Contents())[..numCodecs] == old(Contents());
    }

    /**
     Copies the codecs that kept their node to a new list of `enabled` entries; `before` is
     the list as it was before its unavailable nodes were dropped.
     */
    method CopyEnabled(t: Tree, enabled: nat, ghost before: Link)
      requires Valid() && Contents() == CheckedAll(t, before) && enabled == |Kept(t, before)|
      modifies this
      ensures Valid() && fresh(codecs) && Contents() == Kept(t, before)
    {
      var comp := new Codec[enabled](_ => Codec(None, None, ""));
      var index := 0;
      for j := 0 to numCodecs
        invariant codecs == old(codecs) && Valid() && fresh(comp)
        invariant Contents() == CheckedAll(t, before)
        invariant comp.Length == enabled && index == |Kept(t, before[..j])| <= enabled
        invariant comp[..index] == Kept(t, before[..j])
      {
        KeptNext(t, before, j);
        KeptGrows(t, before, j);
        assert codecs[j] == Contents()[j] == Checked(t, before[j]);
        if codecs[j].node.Some? {
          comp[index] := codecs[j].(name := None);
          index := index + 1;
        }
      }
      assert before[..numCodecs] == before;
      codecs, numCodecs := comp, enabled;
    }

    /** The second pass over one link; `alloc` says whether memory for a new list is found. */
    method CompactCodecs(t: Tree, alloc: bool) returns (ret: Rc)
      requires Valid()
      modifies this, codecs
      ensures Valid() && (codecs == old(codecs) || fresh(codecs))
      ensures old(codecs)[..] == Passed(t, old(Contents()))
      ensures ret == 0 ==> Contents() == Compacted(t, old(Contents()))
      ensures ret != 0 ==> ret == ENOMEM && !alloc && codecs == old(codecs) && Contents() == CheckedAll(t, old(Contents()))
      ensures ret == 0 <==> alloc || numCodecs <= 1 || !(0 < |Kept(t, old(Contents()))| < |old(Contents())|)
    {
      if numCodecs > 1 {
        var enabled := CheckCodecs(t);
        if enabled > 0 && enabled < numCodecs {
          if !alloc {
            return ENOMEM;
          }
          CopyEnabled(t, enabled, old(Contents()));
        }
      }
      ret := 0;
    }
  }

  // ---- A card: links may share a list ----

  /** The links are different entries of the card's array, whatever their lists. */
  ghost predicate Card(links: seq<DaiLink>)
    reads links
  {
    && (forall i :: 0 <= i < |links| ==> links[i].Valid())
    && forall i, j :: 0 <= i < j < |links| ==> links[i] != links[j]
  }

  ghost function Lists(links: seq<DaiLink>): (r: seq<array<Codec>>)
    reads links
    ensures |r| == |links|
  {
    seq(|links|, i requires 0 <= i < |links| reads links => links[i].codecs)
  }

  /** What lists hold; a shared list holds the same for each of its links. */
  ghost function Values(lists: seq<array<Codec>>): (r: seq<Link>)
    reads lists
    ensures |r| == |lists|
  {
    seq(|lists|, i requires 0 <= i < |lists| reads lists => lists[i][..])
  }

  /** `was` is what the lists of a card can have held. */
  ghost predicate Held(lists: seq<array<Codec>>, was: seq<Link>) {
    && |was| == |lists|
    && (forall i :: 0 <= i < |lists| ==> lists[i].Length == |was[i]|)
    && forall i, j :: 0 <= i < |lists| && 0 <= j < |lists| && lists[i] == lists[j] ==> was[i] == was[j]
  }

  /** The naming pass has finished with the first `n` links, and with every list they have. */
  ghost predicate Named(t: Tree, links: seq<DaiLink>, lists: seq<array<Codec>>, was: seq<Link>, n: nat)
    reads links, lists
  {
    && Card(links) && Held(lists, was) && n <= |links| == |lists|
    && (forall i :: 0 <= i < |links| ==> links[i].codecs == lists[i])
    && (forall i :: 0 <= i < n ==> lists[i][..] == ResolvedAll(t, was[i]) && !MissesNode(t, was[i]))
    && forall i :: n <= i < |links| ==> lists[i][..] == was[i] || lists[i][..] == ResolvedAll(t, was[i])
  }

  /** The naming pass over one link. */
  method ResolveLink(t: Tree, links: seq<DaiLink>, ghost lists: seq<array<Codec>>, ghost was: seq<Link>, i: nat)
    returns (ret: Rc)
    requires i < |links| && Named(t, links, lists, was, i)
    modifies links[i].codecs
    ensures ret == 0 ==> Named(t, links, lists, was, i + 1)
    ensures ret != 0 ==> ret == ENODEV && MissesNode(t, was[i])
  {
    var done;
    ResolvedTwice(t, was[i]);
    ret, done := links[i].ResolveCodecs(t);
    if ret == 0 {
      assert lists[i][..] == ResolvedAll(t, was[i]);
    }
  }

  /** The naming pass over a card; `at` is the link it stopped at. */
  method ResolveLinks(t: Tree, links: seq<DaiLink>) returns (ret: Rc, ghost at: nat)
    requires Card(links)
    modifies Lists(links)
    ensures ret == 0 ==> Named(t, links, old(Lists(links)), old(Values(Lists(links))), |links|)
    ensures ret != 0 ==> ret == ENODEV && at < |links| && MissesNode(t, old(links[at].Contents()))
  {
    ghost var lists := Lists(links);
    ghost var was := Values(lists);
    for i := 0 to |links|
      invariant Named(t, links, lists, was, i)
    {
      ret := ResolveLink(t, links, lists, was, i);
      if ret != 0 {
        at := i;
        return;
      }
    }
    ret, at := 0, |links|;
  }

  /**
   The second pass has finished with the first `n` links. Each has its own new list or still
   its old one; of the old lists some have had their unavailable nodes dropped.
   */
  ghost predicate Enough(t: Tree, links: seq<DaiLink>, lists: seq<array<Codec>>, was: seq<Link>, n: nat)
    reads links, lists, set l | l in links :: l.codecs
  {
    && Card(links) && Held(lists, was) && n <= |links| == |lists|
    && (forall i :: n <= i < |links| ==> links[i].codecs == lists[i])
    && (forall i :: 0 <= i < n ==> links[i].codecs == lists[i] || links[i].codecs !in lists)
    && (forall i :: 0 <= i < n ==> links[i].Contents() == Compacted(t, was[i]))
    && forall i :: n <= i < |links| ==>
         lists[i][..] == was[i] || lists[i][..] == Passed(t, was[i])
  }

  /** The second pass over one link. */
  method CompactLink(t: Tree, links: seq<DaiLink>, ghost lists: seq<array<Codec>>, ghost was: seq<Link>, i: nat, alloc: bool)
    returns (ret: Rc)
    requires i < |links| && Enough(t, links, lists, was, i)
    modifies links[i], lists[i]
    ensures ret == 0 ==> Enough(t, links, lists, was, i + 1)
    ensures ret != 0 ==> ret == ENOMEM && !alloc && Enough(t, links, lists, was, i)
    ensures links[i].codecs == lists[i] || fresh(links[i].codecs)
  {
    PassedTwice(t, was[i]);
    ret := links[i].CompactCodecs(t, alloc);
    assert lists[i][..] == Passed(t, was[i]);
    assert forall k :: 0 <= k < |links| && k != i ==> links[k].codecs == old(links[k].codecs) && links[k].Valid();
    assert links[i].codecs == lists[i] || links[i].codecs !in lists;
    forall k | 0 <= k < i
      ensures links[k].Contents() == Compacted(t, was[k])
    {
      if links[k].codecs == lists[i] {
        assert old(links[k].Contents()) == Compacted(t, was[i]);
      }
    }
    forall k | i < k < |links|
      ensures lists[k][..] == was[k] || lists[k][..] == Passed(t, was[k])
    {
      assert lists[k] == lists[i] ==> was[k] == was[i];
    }
  }

  /** The second pass over a card; `at` is the link it stopped at. */
  method CompactLinks(t: Tree, links: seq<DaiLink>, alloc: seq<bool>) returns (ret: Rc, ghost at: nat)
    requires Card(links) && |alloc| == |links|
    modifies links, Lists(links)
    ensures at <= |links| && Enough(t, links, old(Lists(links)), old(Values(Lists(links))), at)
    ensures ret == 0 ==> at == |links|
    ensures ret != 0 ==> ret == ENOMEM && at < |links| && !alloc[at]
  {
    ghost var lists := Lists(links);
    ghost var was := Values(lists);
    for i := 0 to |links|
      invariant Enough(t, links, lists, was, i)
    {
      ret := CompactLink(t, links, lists, was, i, alloc[i]);
      if ret != 0 {
        at := i;
        return;
      }
    }
    ret, at := 0, |links|;
  }

  /**
   msm_populate_dai_link_component_of_node: on success every link's list is its resolved
   codecs, compacted, also when links share a list.
   */
  method PopulateDaiLinks(t: Tree, links: seq<DaiLink>, alloc: seq<bool>) returns (ret: Rc)
    requires Card(links) && |alloc| == |links|
    modifies links, Lists(links)
    ensures Card(links) && ret in {0, ENODEV, ENOMEM}
    ensures ret == 0 ==> forall i :: 0 <= i < |links| ==>
      links[i].Contents() == Compacted(t, ResolvedAll(t, old(links[i].Contents())))
    ensures ret == 0 ==> forall i :: 0 <= i < |links| ==> NodesFrom(t, old(links[i].Contents()), links[i].Contents())
    ensures ret == ENODEV <==> exists i :: 0 <= i < |links| && MissesNode(t, old(links[i].Contents()))
    ensures ret == ENOMEM ==> exists i :: 0 <= i < |links| && !alloc[i]
  {
    ghost var at;
    ret, at := ResolveLinks(t, links);
    if ret != 0 {
      return;
    }
    ret, at := CompactLinks(t, links, alloc);
    if ret == 0 {
      forall i | 0 <= i < |links|
        ensures NodesFrom(t, old(links[i].Contents()), links[i].Contents())
      {
        PopulatedNodes(t, old(links[i].Contents()));
      }
    }
  }
}
