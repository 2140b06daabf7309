/** What populating a card's codec lists means: resolve names, then keep the codecs that exist. */
module CodecModel {
  import opened Prelude

  /** A device-tree node, by number. */
  type Node = nat

  /** A codec of a DAI link: found by `name`, or already resolved to a node. */
  datatype Codec = Codec(name: Option<string>, node: Option<Node>, daiName: string)

  /** A DAI link's codec list; the array's length is `num_codecs`. */
  type Link = seq<Codec>

  /**
   The card's device tree: the index of a codec name (negative when not listed), the node
   at an index, and whether a node is available.
   */
  datatype Tree = Tree(index: string -> int, phandle: int -> Option<Node>, available: Node -> bool)

  predicate Skipped(t: Tree, c: Codec) {
    c.node.Some? || c.name == None || t.index(c.name.value) < 0
  }

  predicate Unresolvable(t: Tree, c: Codec) {
    !Skipped(t, c) && t.phandle(t.index(c.name.value)) == None
  }

  predicate MissesNode(t: Tree, cs: seq<Codec>) {
    exists j :: 0 <= j < |cs| && Unresolvable(t, cs[j])
  }

  /** The codec after the naming pass. */
  function Resolved(t: Tree, c: Codec): Codec {
    if Skipped(t, c) || Unresolvable(t, c) then c
    else c.(node := t.phandle(t.index(c.name.value)), name := None)
  }

  /** The codec after the availability pass. */
  function Checked(t: Tree, c: Codec): Codec {
    if c.node.Some? && !t.available(c.node.value) then c.(node := None) else c
  }

  predicate Enabled(t: Tree, c: Codec) { c.node.Some? && t.available(c.node.value) }

  /** The enabled codecs of a list, in its order, as the new list holds them. */
  function Kept(t: Tree, cs: seq<Codec>): seq<Codec> {
    if cs == [] then []
    else
      var c := cs[|cs| - 1];
      Kept(t, cs[..|cs| - 1]) + if Enabled(t, c) then [c.(name := None)] else []
  }

  function CheckedAll(t: Tree, cs: seq<Codec>): (r: seq<Codec>)
    ensures |r| == |cs|
  {
    seq(|cs|, j requires 0 <= j < |cs| => Checked(t, cs[j]))
  }

  function ResolvedAll(t: Tree, cs: seq<Codec>): (r: seq<Codec>)
    ensures |r| == |cs|
  {
    seq(|cs|, j requires 0 <= j < |cs| => Resolved(t, cs[j]))
  }

  /** A link with several codecs after the second pass, when the new list can be allocated. */
  function Compacted(t: Tree, cs: Link): Link {
    if |cs| <= 1 then cs
    else if 0 < |Kept(t, cs)| < |cs| then Kept(t, cs)
    else CheckedAll(t, cs)
  }

  // ---- Kept is an order-preserving filter ----

  /** The positions of the enabled codecs: increasing, and none left out. */
  function Origins(t: Tree, cs: seq<Codec>): (r: seq<nat>)
    ensures forall k :: 0 <= k < |r| ==> r[k] < |cs|
    ensures forall k, l :: 0 <= k < l < |r| ==> r[k] < r[l]
  {
    if cs == [] then []
    else Origins(t, cs[..|cs| - 1]) + if Enabled(t, cs[|cs| - 1]) then [|cs| - 1] else []
  }

  lemma {:induction false} OriginsIff(t: Tree, cs: seq<Codec>, j: nat)
    requires j < |cs|
    ensures j in Origins(t, cs) <==> Enabled(t, cs[j])
  {
    if j < |cs| - 1 {
      OriginsIff(t, cs[..|cs| - 1], j);
    }
  }

  lemma {:induction false} KeptAt(t: Tree, cs: seq<Codec>)
    ensures |Origins(t, cs)| == |Kept(t, cs)|
    ensures forall k :: 0 <= k < |Kept(t, cs)| ==> Kept(t, cs)[k] == cs[Origins(t, cs)[k]].(name := None)
  {
    if cs != [] {
      KeptAt(t, cs[..|cs| - 1]);
    }
  }

  /** The new list is the enabled codecs, each once, in their old order. */
  lemma {:induction false} KeptIsFilter(t: Tree, cs: seq<Codec>)
    ensures |Origins(t, cs)| == |Kept(t, cs)|
    ensures forall k :: 0 <= k < |Kept(t, cs)| ==> Kept(t, cs)[k] == cs[Origins(t, cs)[k]].(name := None)
    ensures forall k, l :: 0 <= k < l < |Kept(t, cs)| ==> Origins(t, cs)[k] < Origins(t, cs)[l]
    ensures forall j :: 0 <= j < |cs| ==> (Enabled(t, cs[j]) <==> j in Origins(t, cs))
  {
    KeptAt(t, cs);
    forall j | 0 <= j < |cs|
      ensures Enabled(t, cs[j]) <==> j in Origins(t, cs)
    {
      OriginsIff(t, cs, j);
    }
  }

  lemma {:induction false} KeptGrows(t: Tree, cs: seq<Codec>, n: nat)
    requires n <= |cs|
    ensures |Kept(t, cs[..n])| <= |Kept(t, cs)|
    ensures n < |cs| && Enabled(t, cs[n]) ==> |Kept(t, cs[..n])| < |Kept(t, cs)|
    decreases |cs| - n
  {
    if n < |cs| {
      assert cs[..n + 1][..n] == cs[..n];
      KeptGrows(t, cs, n + 1);
    } else {
      assert cs[..n] == cs;
    }
  }

  lemma KeptNext(t: Tree, cs: seq<Codec>, n: nat)
    requires n < |cs|
    ensures Kept(t, cs[..n + 1]) == Kept(t, cs[..n]) + if Enabled(t, cs[n]) then [cs[n].(name := None)] else []
  {
    assert cs[..n + 1][..n] == cs[..n];
  }

  /** Every codec is kept exactly when all are enabled, none exactly when none is. */
  lemma {:induction false} KeptAllIff(t: Tree, cs: seq<Codec>)
    ensures |Kept(t, cs)| <= |cs|
    ensures |Kept(t, cs)| == |cs| <==> forall j :: 0 <= j < |cs| ==> Enabled(t, cs[j])
    ensures |Kept(t, cs)| == 0 <==> forall j :: 0 <= j < |cs| ==> !Enabled(t, cs[j])
  {
    if cs != [] {
      var front := cs[..|cs| - 1];
      KeptAllIff(t, front);
      assert forall j :: 0 <= j < |front| ==> front[j] == cs[j];
    }
  }

  /**
   After the second pass a link that had several codecs refers to no unavailable node, and
   its codecs are all enabled if and only if it had at least one enabled codec.
   */
  lemma CompactedIsAvailable(t: Tree, cs: Link)
    requires |cs| > 1
    ensures forall j :: 0 <= j < |Compacted(t, cs)| ==>
      (Compacted(t, cs)[j].node.Some? ==> t.available(Compacted(t, cs)[j].node.value))
    ensures (forall j :: 0 <= j < |Compacted(t, cs)| ==> Enabled(t, Compacted(t, cs)[j]))
            <==> exists j :: 0 <= j < |cs| && Enabled(t, cs[j])
    ensures |Compacted(t, cs)| > 0
  {
    KeptAllIff(t, cs);
    KeptIsFilter(t, cs);
    var r := Compacted(t, cs);
    if 0 < |Kept(t, cs)| < |cs| {
      forall j | 0 <= j < |r|
        ensures Enabled(t, r[j])
      {
        assert Origins(t, cs)[j] in Origins(t, cs);
        assert Enabled(t, cs[Origins(t, cs)[j]]);
      }
    } else {
      assert forall j :: 0 <= j < |cs| ==> (Enabled(t, r[j]) <==> Enabled(t, cs[j]));
      assert |Kept(t, cs)| == 0 ==> !Enabled(t, r[0]);
    }
  }

  /** Populating a second time changes nothing: a compacted list is already compact. */
  lemma CompactedIsStable(t: Tree, cs: Link)
    ensures Compacted(t, Compacted(t, cs)) == Compacted(t, cs)
  {
    var r := Compacted(t, cs);
    if |cs| > 1 && |r| > 1 {
      KeptAllIff(t, r);
      KeptAllIff(t, cs);
      CompactedIsAvailable(t, cs);
      assert CheckedAll(t, r) == r;
      if exists j :: 0 <= j < |cs| && Enabled(t, cs[j]) {
        assert |Kept(t, r)| == |r|;
      } else {
        assert |Kept(t, cs)| == 0;
        assert forall j :: 0 <= j < |r| ==> !Enabled(t, r[j]);
        assert |Kept(t, r)| == 0;
      }
    }
  }

  // ---- Lists that several links share are passed over more than once ----

  /** Resolving a resolved list changes nothing and misses the same nodes. */
  lemma ResolvedTwice(t: Tree, cs: seq<Codec>)
    ensures ResolvedAll(t, ResolvedAll(t, cs)) == ResolvedAll(t, cs)
    ensures MissesNode(t, ResolvedAll(t, cs)) <==> MissesNode(t, cs)
  {
    var r := ResolvedAll(t, cs);
    assert forall j :: 0 <= j < |cs| ==> r[j] == Resolved(t, cs[j]);
    assert forall j :: 0 <= j < |cs| ==> Resolved(t, r[j]) == r[j];
    assert forall j :: 0 <= j < |cs| ==> (Unresolvable(t, r[j]) <==> Unresolvable(t, cs[j]));
  }

  /** Dropping the unavailable nodes first does not change what is kept. */
  lemma {:induction false} KeptOfChecked(t: Tree, cs: seq<Codec>)
    ensures Kept(t, CheckedAll(t, cs)) == Kept(t, cs)
    ensures CheckedAll(t, CheckedAll(t, cs)) == CheckedAll(t, cs)
  {
    if cs != [] {
      var front := cs[..|cs| - 1];
      KeptOfChecked(t, front);
      assert CheckedAll(t, cs)[..|cs| - 1] == CheckedAll(t, front);
      assert CheckedAll(t, cs)[|cs| - 1] == Checked(t, cs[|cs| - 1]);
    }
  }

  /** A list after the second pass has gone over it, whether or not a new one replaces it. */
  function Passed(t: Tree, cs: Link): (r: Link)
    ensures |r| == |cs|
  {
    if |cs| > 1 then CheckedAll(t, cs) else cs
  }

  lemma PassedTwice(t: Tree, cs: Link)
    ensures Passed(t, Passed(t, cs)) == Passed(t, cs)
    ensures Compacted(t, Passed(t, cs)) == Compacted(t, cs)
    ensures |Compacted(t, cs)| == |cs| ==> Compacted(t, cs) == Passed(t, cs)
  {
    KeptOfChecked(t, cs);
  }

  // ---- Which node a codec gets ----

  /** The node a codec stands for: its own, or for a listed name the one at the name's index. */
  predicate StandsFor(t: Tree, c: Codec, node: Option<Node>) {
    match c.node
    case Some(_) => node == c.node
    case None =>
      match c.name
      case Some(name) => node == if t.index(name) >= 0 then t.phandle(t.index(name)) else None
      case None => node == None
  }

  /** After a naming pass that misses no node. */
  lemma ResolvedAt(t: Tree, cs: seq<Codec>, j: nat)
    requires j < |cs| && !MissesNode(t, cs)
    ensures var (c, r) := (cs[j], ResolvedAll(t, cs)[j]);
      if c.node == None && c.name != None && t.index(c.name.value) >= 0
      then r.node != None && r.node == t.phandle(t.index(c.name.value)) && r.name == None && r.daiName == c.daiName
      else r == c
    ensures StandsFor(t, cs[j], ResolvedAll(t, cs)[j].node)
  {
    assert !Unresolvable(t, cs[j]);
  }

  /** Every codec of the new list stands for a codec of the old one, or lost a node that was not available. */
  ghost predicate NodesFrom(t: Tree, cs: Link, r: Link) {
    forall j :: 0 <= j < |r| ==> r[j].node != None ==> ComesFrom(t, cs, r[j])
  }

  ghost predicate ComesFrom(t: Tree, cs: Link, c: Codec) {
    exists k :: 0 <= k < |cs| && cs[k].daiName == c.daiName && StandsFor(t, cs[k], c.node)
  }

  lemma CompactedOrigin(t: Tree, cs: Link, j: nat) returns (k: nat)
    requires j < |Compacted(t, cs)| && Compacted(t, cs)[j].node != None
    ensures k < |cs| && cs[k].node == Compacted(t, cs)[j].node && cs[k].daiName == Compacted(t, cs)[j].daiName
  {
    if |cs| > 1 && 0 < |Kept(t, cs)| < |cs| {
      KeptAt(t, cs);
      k := Origins(t, cs)[j];
    } else {
      k := j;
    }
  }

  lemma PopulatedNodes(t: Tree, cs: Link)
    requires !MissesNode(t, cs)
    ensures NodesFrom(t, cs, Compacted(t, ResolvedAll(t, cs)))
  {
    var r := Compacted(t, ResolvedAll(t, cs));
    forall j | 0 <= j < |r| && r[j].node != None
      ensures ComesFrom(t, cs, r[j])
    {
      var k := CompactedOrigin(t, ResolvedAll(t, cs), j);
      ResolvedAt(t, cs, k);
    }
  }
}
