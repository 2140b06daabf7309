/**
 The TDM slot-offset tables of the holi driver: a mixer control writes one port's slots, and
 hw_params finds the slots of a DAI by taking its id apart. The two address the same tables
 by different arithmetic.
 */
module SlotMap {
  import opened Prelude
  import opened Errno

  const TDM_INTERFACE_MAX := 4
  const MAX_PATH := 2
  const TDM_PORT_MAX := 8
  const TDM_MAX_SLOTS := 8
  const TDM_PORT_RANGE_START := 0x9000

  /** Offsets in one interface's table. */
  const CELLS := MAX_PATH * TDM_PORT_MAX * TDM_MAX_SLOTS

  /** 0, 4, 8, .. 28. */
  predicate ValidOffset(v: int) { ToUint32(v) % 4 == 0 && ToUint32(v) <= 28 }

  /** A port: the interface, its direction (0 receive, 1 transmit) and the channel on it. */
  datatype Port = Port(interface: nat, path: nat, channel: nat)

  predicate IsPort(p: Port) {
    p.interface < TDM_INTERFACE_MAX && p.path < MAX_PATH && p.channel < TDM_PORT_MAX
  }

  /** One use of the control: two selectors and a value for every slot. */
  datatype Write = Write(interface: int, channel: int, values: seq<int>)

  predicate WriteOk(w: Write) {
    0 <= ToInt32(w.interface) < TDM_INTERFACE_MAX * MAX_PATH && 0 <= ToInt32(w.channel) < TDM_PORT_MAX
  }

  /** The control numbers the two directions of an interface consecutively. */
  predicate Selects(w: Write, p: Port) {
    ToInt32(w.interface) == MAX_PATH * p.interface + p.path && ToInt32(w.channel) == p.channel
  }

  predicate Sets(w: Write, p: Port, slot: nat) {
    Selects(w, p) && slot < |w.values| && ValidOffset(w.values[slot])
  }

  /** The last valid offset written for a slot of a port, or what it held at first. */
  function SlotAfter(init: int, ws: seq<Write>, p: Port, slot: nat): int {
    if ws == [] then init
    else
      var w := ws[|ws| - 1];
      if Sets(w, p, slot) then ToUint32(w.values[slot]) else SlotAfter(init, ws[..|ws| - 1], p, slot)
  }

  /** A slot holds what a write set it to until a later write sets it. */
  lemma {:induction false} LastWriteWins(init: int, ws: seq<Write>, p: Port, slot: nat, j: nat)
    requires j < |ws| && Sets(ws[j], p, slot) && forall i :: j < i < |ws| ==> !Sets(ws[i], p, slot)
    ensures SlotAfter(init, ws, p, slot) == ToUint32(ws[j].values[slot])
  {
    if j < |ws| - 1 {
      LastWriteWins(init, ws[..|ws| - 1], p, slot, j);
    }
  }

  lemma {:induction false} NeverWritten(init: int, ws: seq<Write>, p: Port, slot: nat)
    requires forall i :: 0 <= i < |ws| ==> !Sets(ws[i], p, slot)
    ensures SlotAfter(init, ws, p, slot) == init
  {
    if ws != [] {
      NeverWritten(init, ws[..|ws| - 1], p, slot);
    }
  }

  // ---- DAI ids ----

  /** The AFE port ids: 16 per interface, directions alternating. */
  function PortId(p: Port): int {
    TDM_PORT_RANGE_START + 16 * p.interface + 2 * p.channel + p.path
  }

  predicate IsTdmId(id: int) {
    TDM_PORT_RANGE_START <= id < TDM_PORT_RANGE_START + 16 * TDM_INTERFACE_MAX
  }

  /** What a lookup comes to: refused, the port's slots, or a port beyond the last interface's table. */
  datatype Lookup = Refused(rc: Rc) | Found(slots: seq<int>) | PastTables

  /** How holi_tdm_snd_hw_params takes an id apart. */
  function PortOf(id: nat): Port
    requires id >= TDM_PORT_RANGE_START
  {
    Port((id - TDM_PORT_RANGE_START) / (MAX_PATH * TDM_PORT_MAX), id % MAX_PATH,
         ((id - TDM_PORT_RANGE_START) / MAX_PATH) % TDM_PORT_MAX)
  }

  /** Decoding an id is the inverse of numbering a port. */
  lemma PortOfId(p: Port)
    requires IsPort(p)
    ensures IsTdmId(PortId(p)) && PortOf(PortId(p)) == p
  {
  }

  /** The ids in range are exactly the ports: any other decodes to an interface that does not exist. */
  lemma IdsArePorts(id: nat)
    requires id >= TDM_PORT_RANGE_START
    ensures PortId(PortOf(id)) == id && (IsPort(PortOf(id)) <==> IsTdmId(id))
  {
    var d := id - TDM_PORT_RANGE_START;
    assert d / 2 / 8 == d / 16;
    assert d == 2 * (d / 2) + id % 2;
    assert d / 2 == 8 * (d / 16) + d / 2 % 8;
  }

  /** Where a port's slot lies in its interface's table. */
  function CellOf(p: Port, slot: nat): nat {
    (p.path * TDM_PORT_MAX + p.channel) * TDM_MAX_SLOTS + slot
  }

  /** No two slots of ports share a cell. */
  lemma CellsAreDistinct(p: Port, slot: nat, q: Port, slot': nat)
    requires IsPort(p) && IsPort(q) && slot < TDM_MAX_SLOTS && slot' < TDM_MAX_SLOTS
    requires p.interface == q.interface && CellOf(p, slot) == CellOf(q, slot')
    ensures p == q && slot == slot'
  {
    CellRoundTrip(p, slot);
    CellRoundTrip(q, slot');
  }

  /** A cell's number gives back its port and slot. */
  lemma CellRoundTrip(p: Port, slot: nat)
    requires IsPort(p) && slot < TDM_MAX_SLOTS
    ensures var c := CellOf(p, slot); c < CELLS && p == Port(p.interface, c / 64, c / 8 % 8) && slot == c % 8
  {
  }

  class TdmConfig {
    /** One row per interface: both directions, every channel, every slot. */
    const table: array2<int>
    ghost const initial: (nat, nat) -> int
    ghost var writes: seq<Write>

    /** Cell `c` of row `t` holds slot `c % 8` of the port at `c / 8`. */
    ghost predicate Holds(t: nat, c: nat)
      requires table.Length0 == TDM_INTERFACE_MAX && table.Length1 == CELLS && t < TDM_INTERFACE_MAX && c < CELLS
      reads this, table
    {
      table[t, c] == SlotAfter(initial(t, c), writes, Port(t, c / 64, c / 8 % 8), c % 8)
    }

    ghost predicate Valid()
      reads this, table
    {
      && table.Length0 == TDM_INTERFACE_MAX && table.Length1 == CELLS
      && forall t, c :: 0 <= t < TDM_INTERFACE_MAX && 0 <= c < CELLS ==> Holds(t, c)
    }

    constructor (contents: (nat, nat) -> int)
      ensures Valid() && fresh(table) && writes == [] && initial == contents
    {
      table := new int[TDM_INTERFACE_MAX, CELLS]((t, c) => if t < 0 || c < 0 then 0 else contents(t, c));
      initial, writes := contents, [];
    }

    /** tdm_slot_map_put. A refused write changes no cell; invalid offsets are skipped. */
    method TdmSlotMapPut(w: Write) returns (ret: Rc)
      requires Valid() && |w.values| == TDM_MAX_SLOTS
      modifies this, table
      ensures Valid()
      ensures ret == if WriteOk(w) then 0 else EINVAL
      ensures writes == if ret == 0 then old(writes) + [w] else old(writes)
    {
      var interface, channel := ToInt32(w.interface), ToInt32(w.channel);
      if interface < 0 || interface >= TDM_INTERFACE_MAX * MAX_PATH {
        return EINVAL;
      }
      if channel < 0 || channel >= TDM_PORT_MAX {
        return EINVAL;
      }
      var row := interface / MAX_PATH;
      var base := ((interface % MAX_PATH) * TDM_PORT_MAX + channel) * TDM_MAX_SLOTS;
      WriteSlots(row, base, w.values);
      writes := writes + [w];
      ret := 0;
      forall t, c | 0 <= t < TDM_INTERFACE_MAX && 0 <= c < CELLS
        ensures Holds(t, c)
      {
        assert old(Holds(t, c));
        Selected(w, t, c);
        assert writes[..|writes| - 1] == old(writes);
      }
    }

    /** The slot loop of tdm_slot_map_put. */
    method WriteSlots(row: nat, base: nat, values: seq<int>)
      requires table.Length0 == TDM_INTERFACE_MAX && table.Length1 == CELLS
      requires row < TDM_INTERFACE_MAX && base + TDM_MAX_SLOTS <= CELLS && |values| == TDM_MAX_SLOTS
      modifies table
      ensures forall t, c :: 0 <= t < TDM_INTERFACE_MAX && 0 <= c < CELLS ==>
        table[t, c] == if t == row && base <= c < base + TDM_MAX_SLOTS && ValidOffset(values[c - base])
                       then ToUint32(values[c - base]) else old(table[t, c])
    {
      for slot := 0 to TDM_MAX_SLOTS
        invariant forall t, c :: 0 <= t < TDM_INTERFACE_MAX && 0 <= c < CELLS ==>
          table[t, c] == if t == row && base <= c < base + slot && ValidOffset(values[c - base])
                         then ToUint32(values[c - base]) else old(table[t, c])
      {
        if ValidOffset(values[slot]) {
          table[row, base + slot] := ToUint32(values[slot]);
        }
      }
    }

    /**
     The slot lookup of holi_tdm_snd_hw_params, for any DAI id. Each slot is the last valid
     offset written for the DAI's port, whatever was written for others. Ids of interfaces
     that have no table are not refused: the code then indexes past its tables.
     */
    method TdmSlotOffsets(id: nat) returns (r: Lookup)
      requires Valid()
      ensures r.Found? <==> IsTdmId(id)
      ensures id < TDM_PORT_RANGE_START ==> r == Refused(EINVAL)
      ensures r.PastTables? <==> id >= TDM_PORT_RANGE_START && !IsPort(PortOf(id))
      ensures r.Found? ==> |r.slots| == TDM_MAX_SLOTS
      ensures r.Found? ==> forall p, k :: IsPort(p) && PortId(p) == id && 0 <= k < TDM_MAX_SLOTS ==>
        r.slots[k] == SlotAfter(initial(p.interface, CellOf(p, k)), writes, p, k)
    {
      if id < TDM_PORT_RANGE_START {
        return Refused(EINVAL);
      }
      IdsArePorts(id);
      var pathDir := id % MAX_PATH;
      var interface := (id - TDM_PORT_RANGE_START) / (MAX_PATH * TDM_PORT_MAX);
      var channel := ((id - TDM_PORT_RANGE_START) / MAX_PATH) % TDM_PORT_MAX;
      assert PortOf(id) == Port(interface, pathDir, channel);
      if interface >= TDM_INTERFACE_MAX {
        return PastTables;
      }
      r := ReadSlots(interface, pathDir, channel);
      forall p, k | IsPort(p) && PortId(p) == id && 0 <= k < TDM_MAX_SLOTS
        ensures r.slots[k] == SlotAfter(initial(p.interface, CellOf(p, k)), writes, p, k)
      {
        PortOfId(p);
      }
    }

    method ReadSlots(interface: nat, pathDir: nat, channel: nat) returns (r: Lookup)
      requires Valid() && IsPort(Port(interface, pathDir, channel))
      ensures r.Found? && |r.slots| == TDM_MAX_SLOTS
      ensures var p := Port(interface, pathDir, channel);
        forall k :: 0 <= k < TDM_MAX_SLOTS ==> r.slots[k] == SlotAfter(initial(interface, CellOf(p, k)), writes, p, k)
    {
      var base := (pathDir * TDM_PORT_MAX + channel) * TDM_MAX_SLOTS;
      r := Found(seq(TDM_MAX_SLOTS, k requires 0 <= k < TDM_MAX_SLOTS reads table => table[interface, base + k]));
      forall k | 0 <= k < TDM_MAX_SLOTS
        ensures r.slots[k] == SlotAfter(initial(interface, base + k), writes, Port(interface, pathDir, channel), k)
      {
        CellRoundTrip(Port(interface, pathDir, channel), k);
        assert Holds(interface, base + k);
      }
    }
  }

  /** A write reaches a cell exactly when it selects the port that the cell belongs to. */
  lemma Selected(w: Write, t: nat, c: nat)
    requires WriteOk(w) && t < TDM_INTERFACE_MAX && c < CELLS
    ensures var i := ToInt32(w.interface);
      var base := (i % MAX_PATH * TDM_PORT_MAX + ToInt32(w.channel)) * TDM_MAX_SLOTS;
      && (Selects(w, Port(t, c / 64, c / 8 % 8)) <==> t == i / MAX_PATH && base <= c < base + TDM_MAX_SLOTS)
      && (base <= c < base + TDM_MAX_SLOTS ==> c - base == c % 8)
  {
  }

  /**
   The control's selectors against the DAI ids: interface argument 2 * i + path and channel c
   set the slots found for id 0x9000 + 16 * i + 2 * c + path, to those of the values that are
   0, 4, .. 28 as unsigned words, and the slots of no other id.
   */
  lemma WriteThenLookup(init: int, ws: seq<Write>, w: Write, i: nat, path: nat, c: nat, id: nat, slot: nat)
    requires i < 4 && path < 2 && c < 8 && w.interface == 2 * i + path && w.channel == c
    requires |w.values| == 8 && 0x9000 <= id < 0x9040 && slot < 8
    ensures WriteOk(w)
    ensures SlotAfter(init, ws + [w], PortOf(id), slot) ==
      if id == 0x9000 + 16 * i + 2 * c + path && w.values[slot] % 0x1_0000_0000 in {0, 4, 8, 12, 16, 20, 24, 28}
      then w.values[slot] % 0x1_0000_0000
      else SlotAfter(init, ws, PortOf(id), slot)
  {
    assert (ws + [w])[..|ws|] == ws;
    IdsArePorts(id);
    IdParts(id, i, path, c);
    OffsetsAre(w.values[slot]);
    SelectsIs(w, i, path, c, PortOf(id));
  }

  lemma SelectsIs(w: Write, i: nat, path: nat, c: nat, p: Port)
    requires i < 4 && path < 2 && c < 8 && w.interface == 2 * i + path && w.channel == c && IsPort(p)
    ensures WriteOk(w) && (Selects(w, p) <==> p == Port(i, path, c))
  {
  }

  lemma IdParts(id: nat, i: nat, path: nat, c: nat)
    requires i < 4 && path < 2 && c < 8 && 0x9000 <= id < 0x9040
    ensures id == 0x9000 + 16 * i + 2 * c + path <==> PortOf(id) == Port(i, path, c)
  {
  }

  /** The values that count as offsets: 0, 4, .. 28 as unsigned words. */
  lemma OffsetsAre(v: int)
    ensures ValidOffset(v) <==> v % 0x1_0000_0000 in {0, 4, 8, 12, 16, 20, 24, 28}
  {
  }
}
