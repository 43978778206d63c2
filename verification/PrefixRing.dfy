/** The drafter's prefix rings: each layer keeps the newest committed rows in a circular buffer and masks
    them by absolute position. */
module PrefixRing {
  import opened RingColumns
  import opened Wrappers

  const NO_POS: int := -0x100_0000_0000
  const KV_SLACK: nat := 128
  const CHUNK: nat := 2048

  /** A layer's window (0 or less for full attention), whether it is causal, and its ring's capacity. */
  datatype Layer = Layer(causal: bool, window: int, cap: nat)

  function CapOf(window: int, fullCap: nat, tail: nat): nat {
    if window > 0 then window + KV_SLACK else fullCap + tail
  }

  /** The source's test of one ring column for a block query at q. */
  predicate Keeps(layer: Layer, pa: int, q: int) {
    && pa != NO_POS
    && (layer.causal ==> pa <= q)
    && (layer.window > 0 ==> q - pa < layer.window)
  }

  /** The same test over the complete prefix of committed positions, nothing ever dropped. */
  predicate PrefixKeeps(layer: Layer, start: int, end: int, p: int, q: int) {
    start <= p < end && (layer.causal ==> p <= q) && (layer.window > 0 ==> q - p < layer.window)
  }

  class Ring<KV(0)> {
    const cap: nat
    const block: nat
    const slots: nat
    const pos: array2<int>
    const kv: array2<KV>

    ghost predicate Shaped() {
      cap > 0 && pos as object != kv && pos.Length0 == kv.Length0 == slots && pos.Length1 == cap && kv.Length1 == cap + block
    }

    constructor (slots: nat, cap: nat, block: nat)
      requires cap > 0
      ensures Shaped() && this.cap == cap && this.slots == slots && this.block == block && fresh(pos) && fresh(kv)
      ensures forall s, c :: 0 <= s < slots && 0 <= c < cap ==> pos[s, c] == NO_POS
    {
      this.cap, this.block, this.slots := cap, block, slots;
      pos := new int[slots, cap]((i, j) => NO_POS);
      kv := new KV[slots, cap + block];
    }

    /** Column c holds the position of the range lo .. hi that belongs there, with its value, or nothing. */
    ghost predicate ColumnHolds(slot: nat, lo: int, hi: int, value: int -> KV, c: nat)
      reads pos, kv
      requires Shaped() && slot < slots && c < cap
    {
      var p := pos[slot, c];
      if p == NO_POS then forall q :: lo <= q < hi ==> Column(q, cap) != c
      else lo <= p < hi && Column(p, cap) == c && kv[slot, c] == value(p)
    }

    /** The ring holds exactly the positions lo .. hi. */
    ghost predicate HoldsRange(slot: nat, lo: int, hi: int, value: int -> KV)
      reads pos, kv
      requires Shaped() && slot < slots
    {
      0 <= lo <= hi <= lo + cap && forall c :: 0 <= c < cap ==> ColumnHolds(slot, lo, hi, value, c)
    }

    /** The slot stands for the committed prefix start .. end: it holds the newest min(end - start, cap). */
    ghost predicate Holds(slot: nat, start: int, end: int, value: int -> KV)
      reads pos, kv
      requires Shaped() && slot < slots
    {
      0 <= start <= end && HoldsRange(slot, Max(start, end - cap), end, value)
    }

    /** Frame: nothing outside the slot's ring columns has changed. */
    twostate predicate OnlySlot(slot: nat)
      reads pos, kv
      requires Shaped()
    {
      && (forall s, c :: 0 <= s < slots && 0 <= c < cap && s != slot ==> pos[s, c] == old(pos[s, c]))
      && (forall s, c :: 0 <= s < slots && 0 <= c < cap + block && (s != slot || c >= cap) ==> kv[s, c] == old(kv[s, c]))
    }

    /** Write one committed row: it is new at the top, dropping what is cap below it, or already there. */
    method Put(slot: nat, p: int, value: int -> KV, ghost lo: int, ghost hi: int)
      requires Shaped() && slot < slots && HoldsRange(slot, lo, hi, value) && lo <= p <= hi
      modifies pos, kv
      ensures HoldsRange(slot, if p == hi then Max(lo, hi + 1 - cap) else lo, if p == hi then hi + 1 else hi, value)
      ensures OnlySlot(slot)
    {
      hide Column;
      var col := Column(p, cap);
      label Before:
      kv[slot, col] := value(p);
      pos[slot, col] := p;
      ghost var lo2, hi2 := if p == hi then Max(lo, hi + 1 - cap) else lo, if p == hi then hi + 1 else hi;
      forall c | 0 <= c < cap
        ensures ColumnHolds(slot, lo2, hi2, value, c)
      {
        assert old@Before(ColumnHolds(slot, lo, hi, value, c));
        ghost var u := pos[slot, c];
        if c != col && u != NO_POS && p == hi && u == p - cap {
          ColumnOfNext(u, cap);
        }
      }
    }

    /** A cold rebuild: the newest min(P, cap) committed rows, chunk by chunk. */
    method Fill(slot: nat, rows: nat, end: int, value: int -> KV, chunk: nat := CHUNK)
      requires Shaped() && slot < slots && rows <= end && chunk > 0
      modifies pos, kv
      ensures Holds(slot, end - rows, end, value)
      ensures OnlySlot(slot)
    {
      hide Column;
      var mc := if rows < cap then rows else cap;
      for c := 0 to cap
        invariant forall d :: 0 <= d < c ==> pos[slot, d] == NO_POS
        invariant OnlySlot(slot)
      {
        pos[slot, c] := NO_POS;
      }
      var lo := 0;
      while lo < mc
        invariant lo <= mc
        invariant HoldsRange(slot, end - mc, end - mc + lo, value)
        invariant OnlySlot(slot)
      {
        var hi := if lo + chunk < mc then lo + chunk else mc;
        for p := end - mc + lo to end - mc + hi
          invariant HoldsRange(slot, end - mc, p, value)
          invariant OnlySlot(slot)
        {
          Put(slot, p, value, end - mc, p);
        }
        lo := hi;
      }
    }

    /** The ring writes of a propose step: the newest `tail` rows of a prefix that has grown to `end`. */
    method Stage(slot: nat, tail: nat, end: int, value: int -> KV, ghost start: int, ghost before: int)
      requires Shaped() && slot < slots && Holds(slot, start, before, value)
      requires before <= end <= before + tail && start + tail <= end && tail <= cap
      modifies pos, kv
      ensures Holds(slot, start, end, value)
      ensures OnlySlot(slot)
    {
      hide ColumnHolds;
      ghost var top := before;
      for p := end - tail to end
        invariant top == Max(before, p)
        invariant HoldsRange(slot, Max(start, top - cap), top, value)
        invariant OnlySlot(slot)
      {
        Put(slot, p, value, Max(start, top - cap), top);
        if p == top {
          top := top + 1;
        }
      }
    }

    /** The kept columns for a query, as positions and values. */
    function Visible(layer: Layer, slot: nat, q: int): (m: map<int, KV>)
      reads pos, kv
      requires Shaped() && slot < slots
      requires forall c :: 0 <= c < cap ==> pos[slot, c] == NO_POS || Column(pos[slot, c], cap) == c
      ensures forall c :: 0 <= c < cap && Keeps(layer, pos[slot, c], q) ==>
                pos[slot, c] in m && m[pos[slot, c]] == kv[slot, c]
      ensures forall p :: p in m ==> exists c :: 0 <= c < cap && Keeps(layer, p, q) && pos[slot, c] == p
    {
      map c | 0 <= c < cap && Keeps(layer, pos[slot, c], q) :: pos[slot, c] := kv[slot, c]
    }

    /** A ring whose capacity reaches the window keeps, for every block query, exactly the positions a mask
        over the complete prefix keeps; a full-attention ring keeps exactly the newest min(prefix, cap). */
    lemma MaskIsPrefixMask(layer: Layer, slot: nat, start: int, end: int, value: int -> KV, q: int)
      requires Shaped() && slot < slots && Holds(slot, start, end, value) && q >= end && layer.window <= cap
      ensures forall c :: 0 <= c < cap ==> pos[slot, c] == NO_POS || Column(pos[slot, c], cap) == c
      ensures forall p :: p in Visible(layer, slot, q) <==>
                PrefixKeeps(layer, start, end, p, q) && (layer.window <= 0 ==> p >= end - cap)
      ensures forall p :: p in Visible(layer, slot, q) ==> Visible(layer, slot, q)[p] == value(p)
    {
      hide Column;
      forall c | 0 <= c < cap
        ensures pos[slot, c] == NO_POS || Column(pos[slot, c], cap) == c
      {
        assert ColumnHolds(slot, Max(start, end - cap), end, value, c);
      }
      forall p | PrefixKeeps(layer, start, end, p, q) && (layer.window <= 0 ==> p >= end - cap)
        ensures p in Visible(layer, slot, q)
      {
        var c := Column(p, cap);
        assert ColumnHolds(slot, Max(start, end - cap), end, value, c);
        ColumnsDiffer(p, pos[slot, c], cap);
      }
      forall p | p in Visible(layer, slot, q)
        ensures PrefixKeeps(layer, start, end, p, q) && p >= end - cap && Visible(layer, slot, q)[p] == value(p)
      {
        var c :| 0 <= c < cap && Keeps(layer, p, q) && pos[slot, c] == p;
        assert ColumnHolds(slot, Max(start, end - cap), end, value, c);
      }
    }

    /** A whole propose step at the source's sizes: the newest block of rows is staged, and then every query of
        the block sees exactly what a mask over the complete prefix would let it see. */
    method Body(layer: Layer, slot: nat, end: int, value: int -> KV, fullCap: nat, ghost start: int, ghost before: int)
      requires Shaped() && slot < slots && Holds(slot, start, before, value)
      requires layer.cap == cap == CapOf(layer.window, fullCap, block) && block <= KV_SLACK
      requires before <= end <= before + block && start + block <= end
      modifies pos, kv
      ensures Holds(slot, start, end, value)
      ensures OnlySlot(slot)
      ensures forall c :: 0 <= c < cap ==> pos[slot, c] == NO_POS || Column(pos[slot, c], cap) == c
      ensures forall q, p :: end <= q < end + block ==>
        (p in Visible(layer, slot, q) <==>
           && start <= p < end && (layer.causal ==> p <= q)
           && (if layer.window > 0 then q - p < layer.window else p >= end - (fullCap + block)))
      ensures forall q, p :: end <= q < end + block && p in Visible(layer, slot, q) ==> Visible(layer, slot, q)[p] == value(p)
    {
      hide HoldsRange, Column;
      CapacityReachesWindow(layer.window, fullCap, block);
      Stage(slot, block, end, value, start, before);
      MaskIsPrefixMask(layer, slot, start, end, value, end);
      forall q | end <= q < end + block
        ensures forall p :: p in Visible(layer, slot, q) <==>
          PrefixKeeps(layer, start, end, p, q) && (layer.window <= 0 ==> p >= end - (fullCap + block))
        ensures forall p :: p in Visible(layer, slot, q) ==> Visible(layer, slot, q)[p] == value(p)
      {
        MaskIsPrefixMask(layer, slot, start, end, value, q);
      }
    }
  }

  /** The source's sizes always reach the window, and always take a whole tail when a block is no wider
      than the slack. */
  lemma CapacityReachesWindow(window: int, fullCap: nat, tail: nat)
    requires tail <= KV_SLACK
    ensures window <= CapOf(window, fullCap, tail) && tail <= CapOf(window, fullCap, tail)
    ensures CapOf(window, fullCap, tail) == if window > 0 then window + 128 else fullCap + tail
  {
  }

  // ----- the mask list ----------------------------------------------------------------------------

  /** One mask row: the ring columns, then the block's own columns. */
  function MaskRow(layer: Layer, ppos: seq<int>, end: int, block: nat, i: nat): (row: seq<bool>)
    requires i < block
    ensures |row| == |ppos| + block
    ensures forall c :: 0 <= c < |ppos| ==>
      (row[c] <==>
         && ppos[c] != -1099511627776 && (layer.causal ==> ppos[c] <= end + i)
         && (layer.window > 0 ==> end + i - ppos[c] < layer.window))
    ensures forall c :: |ppos| <= c < |row| ==> (row[c] <==> (layer.causal ==> c - |ppos| <= i))
  {
    seq(|ppos|, c requires 0 <= c < |ppos| => Keeps(layer, ppos[c], end + i))
      + seq(block, j requires 0 <= j < block => layer.causal ==> j <= i)
  }

  function Mask(layer: Layer, ppos: seq<int>, end: int, block: nat): seq<seq<bool>> {
    seq(block, i requires 0 <= i < block => MaskRow(layer, ppos, end, block, i))
  }

  /** The masks of all layers, one computed per distinct (causal, window, cap). */
  method Masks(layers: seq<Layer>, ppos: map<nat, seq<int>>, end: int, block: nat) returns (out: seq<seq<seq<bool>>>)
    requires forall l :: 0 <= l < |layers| ==> layers[l].cap in ppos
    ensures |out| == |layers|
    ensures forall l :: 0 <= l < |layers| ==> out[l] == Mask(layers[l], ppos[layers[l].cap], end, block)
    ensures forall l, i :: 0 <= l < |layers| && 0 <= i < block ==>
      |out[l]| == block && out[l][i] == MaskRow(layers[l], ppos[layers[l].cap], end, block, i)
  {
    var cache: map<Layer, seq<seq<bool>>> := map[];
    out := [];
    for l := 0 to |layers|
      invariant |out| == l
      invariant forall k :: k in cache ==> k.cap in ppos && cache[k] == Mask(k, ppos[k.cap], end, block)
      invariant forall m :: 0 <= m < l ==> out[m] == Mask(layers[m], ppos[layers[m].cap], end, block)
    {
      var key := layers[l];
      if key !in cache {
        cache := cache[key := Mask(key, ppos[key.cap], end, block)];
      }
      out := out + [cache[key]];
    }
  }
}
