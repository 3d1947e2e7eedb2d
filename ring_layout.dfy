/** The layout seen ring by ring: ring construction lays out one block of
    slots per ring, each block wholly original or wholly a corner copy, and
    the connection flags it gives follow from where the copies are. */
module RingLayout {
  import opened EdgeVertices

  /** Number of true entries. */
  function Copies(f: seq<bool>): (c: nat)
    ensures c <= |f|
  {
    if f == [] then 0 else Copies(f[..|f| - 1]) + (if f[|f| - 1] then 1 else 0)
  }

  /** Number of false entries. */
  function Uncut(f: seq<bool>): (c: nat)
  {
    if f == [] then 0 else Uncut(f[..|f| - 1]) + (if f[|f| - 1] then 0 else 1)
  }

  lemma {:induction false} UncutCopies(f: seq<bool>)
    ensures Uncut(f) + Copies(f) == |f|
    decreases |f|
  {
    if f != [] {
      UncutCopies(f[..|f| - 1]);
    }
  }

  lemma {:induction false} CopiesFront(f: seq<bool>)
    requires f != []
    ensures Copies(f) == (if f[0] then 1 else 0) + Copies(f[1..])
    decreases |f|
  {
    if |f| > 1 {
      var front := f[..|f| - 1];
      CopiesFront(front);
      assert front[1..] == f[1..][..|f| - 2];
    }
  }

  /** Whether each ring of the layout, in array order, is a corner copy:
      every center point has its own ring, followed by a copy when it is a
      corner that is not smooth shaded. */
  function RingFlags(corner: seq<bool>, smooth: bool): (f: seq<bool>)
    ensures |f| == |corner| + Duplicates(corner, smooth)
    ensures |corner| > 0 ==> !f[0]
  {
    if |corner| == 0 then []
    else
      var n := |corner| - 1;
      RingFlags(corner[..n], smooth) + [false] + (if !smooth && corner[n] then [true] else [])
  }

  /** The rings one center point adds: its own and, for a corner that is
      not smooth shaded, a copy. */
  function RingTail(isCorner: bool, smooth: bool): (t: seq<bool>)
    ensures Copies(t) == if !smooth && isCorner then 1 else 0
  {
    if !smooth && isCorner then [false, true] else [false]
  }

  lemma {:induction false} RingFlagsLast(corner: seq<bool>, smooth: bool)
    requires |corner| > 0
    ensures RingFlags(corner, smooth) == RingFlags(corner[..|corner| - 1], smooth) + RingTail(corner[|corner| - 1], smooth)
  {
  }

  lemma {:induction false} CopiesAppend(f: seq<bool>, g: seq<bool>)
    ensures Copies(f + g) == Copies(f) + Copies(g)
    decreases |g|
  {
    if g == [] {
      assert f + g == f;
    } else {
      var front := g[..|g| - 1];
      CopiesAppend(f, front);
      assert (f + g)[..|f + g| - 1] == f + front;
    }
  }

  /** The copies among the rings are the duplicated corners. */
  lemma {:induction false} RingFlagsCopies(corner: seq<bool>, smooth: bool)
    ensures Copies(RingFlags(corner, smooth)) == Duplicates(corner, smooth)
    decreases |corner|
  {
    if |corner| > 0 {
      var n := |corner| - 1;
      RingFlagsCopies(corner[..n], smooth);
      RingFlagsLast(corner, smooth);
      CopiesAppend(RingFlags(corner[..n], smooth), RingTail(corner[n], smooth));
    }
  }

  /** Where block b starts: after b whole blocks. */
  function Blocks(b: nat, block: nat): (k: nat)
  {
    if b == 0 then 0 else Blocks(b - 1, block) + block
  }

  lemma {:induction false} BlocksMono(b: nat, m: nat, block: nat)
    requires b < m
    ensures Blocks(b, block) + block <= Blocks(m, block)
    decreases m
  {
    if b < m - 1 {
      BlocksMono(b, m - 1, block);
    }
  }

  /** Block starts are strictly increasing in the block number. */
  lemma {:induction false} BlocksOrder(a: nat, b: nat, block: nat)
    requires 0 < block
    ensures Blocks(a, block) < Blocks(b, block) <==> a < b
    decreases a
  {
    if a > 0 && b > 0 {
      BlocksOrder(a - 1, b - 1, block);
    } else if b > 0 {
      BlocksMono(0, b, block);
    }
  }

  /** The layout is one block per ring. */
  lemma {:induction false} LayoutBlocks(corner: seq<bool>, smooth: bool, edges: nat, radial: nat)
    requires 1 <= edges <= 2
    ensures |Layout(corner, smooth, edges, radial)| == Blocks(|RingFlags(corner, smooth)|, BlockSize(edges, radial))
    decreases |corner|
  {
    if |corner| > 0 {
      var n := |corner| - 1;
      LayoutBlocks(corner[..n], smooth, edges, radial);
      LayoutGrows(corner, smooth, edges, radial);
      BlocksGrow(|RingFlags(corner[..n], smooth)|, |Layout(corner[..n], smooth, edges, radial)|,
                 BlockSize(edges, radial), !smooth && corner[n],
                 |RingFlags(corner, smooth)|, |Layout(corner, smooth, edges, radial)|);
    }
  }

  /** One more center point adds one ring, or two for a copied corner. */
  lemma LayoutGrows(corner: seq<bool>, smooth: bool, edges: nat, radial: nat)
    requires 1 <= edges <= 2 && |corner| > 0
    ensures var n, block := |corner| - 1, BlockSize(edges, radial);
      var twice := !smooth && corner[n];
      && |RingFlags(corner, smooth)| == |RingFlags(corner[..n], smooth)| + (if twice then 2 else 1)
      && |Layout(corner, smooth, edges, radial)| == |Layout(corner[..n], smooth, edges, radial)| + (if twice then block + block else block)
  {
  }

  lemma BlocksGrow(m: nat, len: nat, block: nat, twice: bool, m': nat, len': nat)
    requires len == Blocks(m, block)
    requires m' == m + (if twice then 2 else 1) && len' == len + (if twice then block + block else block)
    ensures len' == Blocks(m', block)
  {
    assert Blocks(m + 1, block) == len + block;
    if twice {
      assert Blocks(m + 2, block) == Blocks(m + 1, block) + block;
    }
  }

  /** Slot `off` of block b is on edge 0 for the first `radial` slots and
      on edge 1 after them, and is a copy exactly when ring b is. */
  lemma {:induction false} LayoutRings(corner: seq<bool>, smooth: bool, edges: nat, radial: nat, b: nat, off: nat)
    requires 1 <= edges <= 2 && b < |RingFlags(corner, smooth)| && off < BlockSize(edges, radial)
    ensures Blocks(b, BlockSize(edges, radial)) + off < |Layout(corner, smooth, edges, radial)|
    ensures Layout(corner, smooth, edges, radial)[Blocks(b, BlockSize(edges, radial)) + off].duplicate == RingFlags(corner, smooth)[b]
    ensures Layout(corner, smooth, edges, radial)[Blocks(b, BlockSize(edges, radial)) + off].edge == if off < radial then 0 else 1
    decreases |corner|
  {
    var n := |corner| - 1;
    if b < |RingFlags(corner[..n], smooth)| {
      LayoutRings(corner[..n], smooth, edges, radial, b, off);
      LayoutEarlier(corner, smooth, edges, radial, b, off);
    } else {
      LayoutLast(corner, smooth, edges, radial, b, off);
    }
  }

  /** A ring before the last center point's rings is where the shorter
      layout has it. */
  lemma LayoutEarlier(corner: seq<bool>, smooth: bool, edges: nat, radial: nat, b: nat, off: nat)
    requires 1 <= edges <= 2 && |corner| > 0 && off < BlockSize(edges, radial)
    requires b < |RingFlags(corner[..|corner| - 1], smooth)|
    ensures Blocks(b, BlockSize(edges, radial)) + off < |Layout(corner[..|corner| - 1], smooth, edges, radial)|
    ensures Blocks(b, BlockSize(edges, radial)) + off < |Layout(corner, smooth, edges, radial)|
    ensures Layout(corner, smooth, edges, radial)[Blocks(b, BlockSize(edges, radial)) + off]
            == Layout(corner[..|corner| - 1], smooth, edges, radial)[Blocks(b, BlockSize(edges, radial)) + off]
    ensures b < |RingFlags(corner, smooth)|
    ensures RingFlags(corner, smooth)[b] == RingFlags(corner[..|corner| - 1], smooth)[b]
  {
    var n := |corner| - 1;
    var block := BlockSize(edges, radial);
    LayoutBlocks(corner[..n], smooth, edges, radial);
    BlocksMono(b, |RingFlags(corner[..n], smooth)|, block);
    EarlierSlot(corner, smooth, edges, radial, Blocks(b, block) + off);
    EarlierFlag(corner, smooth, b);
  }

  lemma EarlierSlot(corner: seq<bool>, smooth: bool, edges: nat, radial: nat, k: nat)
    requires 1 <= edges <= 2 && |corner| > 0 && k < |Layout(corner[..|corner| - 1], smooth, edges, radial)|
    ensures k < |Layout(corner, smooth, edges, radial)|
    ensures Layout(corner, smooth, edges, radial)[k] == Layout(corner[..|corner| - 1], smooth, edges, radial)[k]
  {
  }

  lemma EarlierFlag(corner: seq<bool>, smooth: bool, b: nat)
    requires |corner| > 0 && b < |RingFlags(corner[..|corner| - 1], smooth)|
    ensures b < |RingFlags(corner, smooth)| && RingFlags(corner, smooth)[b] == RingFlags(corner[..|corner| - 1], smooth)[b]
  {
    RingFlagsLast(corner, smooth);
  }

  /** The last center point's rings: its own, then its copy. */
  lemma LayoutLast(corner: seq<bool>, smooth: bool, edges: nat, radial: nat, b: nat, off: nat)
    requires 1 <= edges <= 2 && |corner| > 0 && off < BlockSize(edges, radial)
    requires |RingFlags(corner[..|corner| - 1], smooth)| <= b < |RingFlags(corner, smooth)|
    ensures Blocks(b, BlockSize(edges, radial)) + off < |Layout(corner, smooth, edges, radial)|
    ensures Layout(corner, smooth, edges, radial)[Blocks(b, BlockSize(edges, radial)) + off].duplicate == RingFlags(corner, smooth)[b]
    ensures Layout(corner, smooth, edges, radial)[Blocks(b, BlockSize(edges, radial)) + off].edge == if off < radial then 0 else 1
  {
    if b == |RingFlags(corner[..|corner| - 1], smooth)| {
      LayoutOwn(corner, smooth, edges, radial, b, off);
    } else {
      LayoutCopy(corner, smooth, edges, radial, b, off);
    }
  }

  /** The last center point's own ring follows the shorter layout. */
  lemma LayoutOwn(corner: seq<bool>, smooth: bool, edges: nat, radial: nat, b: nat, off: nat)
    requires 1 <= edges <= 2 && |corner| > 0 && off < BlockSize(edges, radial)
    requires b == |RingFlags(corner[..|corner| - 1], smooth)|
    ensures Blocks(b, BlockSize(edges, radial)) + off < |Layout(corner, smooth, edges, radial)|
    ensures b < |RingFlags(corner, smooth)| && !RingFlags(corner, smooth)[b]
    ensures Layout(corner, smooth, edges, radial)[Blocks(b, BlockSize(edges, radial)) + off]
              == if off < radial then Slot(|corner| - 1, 0, off, false) else Slot(|corner| - 1, 1, off - radial, false)
  {
    OwnRing(corner, smooth, b);
    LayoutBlocks(corner[..|corner| - 1], smooth, edges, radial);
    OwnSlot(corner, smooth, edges, radial, b, off);
  }

  lemma OwnRing(corner: seq<bool>, smooth: bool, b: nat)
    requires |corner| > 0 && b == |RingFlags(corner[..|corner| - 1], smooth)|
    ensures b < |RingFlags(corner, smooth)| && !RingFlags(corner, smooth)[b]
  {
    RingFlagsLast(corner, smooth);
  }

  lemma OwnSlot(corner: seq<bool>, smooth: bool, edges: nat, radial: nat, b: nat, off: nat)
    requires 1 <= edges <= 2 && |corner| > 0 && off < BlockSize(edges, radial)
    requires |Layout(corner[..|corner| - 1], smooth, edges, radial)| == Blocks(b, BlockSize(edges, radial))
    ensures Blocks(b, BlockSize(edges, radial)) + off < |Layout(corner, smooth, edges, radial)|
    ensures Layout(corner, smooth, edges, radial)[Blocks(b, BlockSize(edges, radial)) + off]
              == if off < radial then Slot(|corner| - 1, 0, off, false) else Slot(|corner| - 1, 1, off - radial, false)
  {
    var n := |corner| - 1;
    var prefix := Layout(corner[..n], smooth, edges, radial);
    var tail := if !smooth && corner[n] then Ring(n, true, edges, radial) else [];
    RingAt(n, false, edges, radial, off);
    SlotAt(Layout(corner, smooth, edges, radial), prefix, Ring(n, false, edges, radial), tail, Blocks(b, BlockSize(edges, radial)) + off, off,
           if off < radial then Slot(|corner| - 1, 0, off, false) else Slot(|corner| - 1, 1, off - radial, false));
  }

  /** The copy of a corner follows its own ring. */
  lemma LayoutCopy(corner: seq<bool>, smooth: bool, edges: nat, radial: nat, b: nat, off: nat)
    requires 1 <= edges <= 2 && |corner| > 0 && off < BlockSize(edges, radial)
    requires |RingFlags(corner[..|corner| - 1], smooth)| < b < |RingFlags(corner, smooth)|
    ensures Blocks(b, BlockSize(edges, radial)) + off < |Layout(corner, smooth, edges, radial)|
    ensures RingFlags(corner, smooth)[b]
    ensures Layout(corner, smooth, edges, radial)[Blocks(b, BlockSize(edges, radial)) + off]
              == if off < radial then Slot(|corner| - 1, 0, off, true) else Slot(|corner| - 1, 1, off - radial, true)
  {
    CopyRing(corner, smooth, b);
    LayoutBlocks(corner[..|corner| - 1], smooth, edges, radial);
    CopySlot(corner, smooth, edges, radial, b, off);
  }

  lemma CopyRing(corner: seq<bool>, smooth: bool, b: nat)
    requires |corner| > 0 && |RingFlags(corner[..|corner| - 1], smooth)| < b < |RingFlags(corner, smooth)|
    ensures !smooth && corner[|corner| - 1] && b - 1 == |RingFlags(corner[..|corner| - 1], smooth)| && RingFlags(corner, smooth)[b]
  {
    RingFlagsLast(corner, smooth);
  }

  lemma CopySlot(corner: seq<bool>, smooth: bool, edges: nat, radial: nat, b: nat, off: nat)
    requires 1 <= edges <= 2 && |corner| > 0 && off < BlockSize(edges, radial) && 0 < b
    requires !smooth && corner[|corner| - 1]
    requires |Layout(corner[..|corner| - 1], smooth, edges, radial)| == Blocks(b - 1, BlockSize(edges, radial))
    ensures Blocks(b, BlockSize(edges, radial)) + off < |Layout(corner, smooth, edges, radial)|
    ensures Layout(corner, smooth, edges, radial)[Blocks(b, BlockSize(edges, radial)) + off]
              == if off < radial then Slot(|corner| - 1, 0, off, true) else Slot(|corner| - 1, 1, off - radial, true)
  {
    var n := |corner| - 1;
    var block := BlockSize(edges, radial);
    var own := Layout(corner[..n], smooth, edges, radial) + Ring(n, false, edges, radial);
    assert Blocks(b, block) == Blocks(b - 1, block) + block;
    var tail := if !smooth && corner[n] then Ring(n, true, edges, radial) else [];
    RingAt(n, true, edges, radial, off);
    SlotAfter(Layout(corner, smooth, edges, radial), own, tail, Blocks(b, block) + off, off,
              if off < radial then Slot(|corner| - 1, 0, off, true) else Slot(|corner| - 1, 1, off - radial, true));
  }

  lemma SlotAfter(lay: seq<Slot>, front: seq<Slot>, ring: seq<Slot>, k: nat, off: nat, slot: Slot)
    requires lay == front + ring && k == |front| + off && off < |ring| && ring[off] == slot
    ensures k < |lay| && lay[k] == slot
  {
  }

  lemma SlotAt(lay: seq<Slot>, front: seq<Slot>, ring: seq<Slot>, rest: seq<Slot>, k: nat, off: nat, slot: Slot)
    requires lay == front + ring + rest && k == |front| + off && off < |ring| && ring[off] == slot
    ensures k < |lay| && lay[k] == slot
  {
  }

  /** Whether the surface stops between ring r and the ring after it: the
      next ring is a corner copy, or r is the last ring of an open curve. */
  function RingCuts(flags: seq<bool>, closed: bool): (cut: seq<bool>)
    ensures |cut| == |flags|
    ensures forall r :: 0 <= r < |flags| ==> cut[r] == if r + 1 < |flags| then flags[r + 1] else !closed
  {
    seq(|flags|, r requires 0 <= r < |flags| => if r + 1 < |flags| then flags[r + 1] else !closed)
  }

  lemma {:induction false} UncutPrefix(flags: seq<bool>, closed: bool, m: nat)
    requires m < |flags|
    ensures Uncut(RingCuts(flags, closed)[..m]) == m - Copies(flags[1..m + 1])
    decreases m
  {
    var cut := RingCuts(flags, closed);
    if m > 0 {
      UncutPrefix(flags, closed, m - 1);
      assert cut[..m][..m - 1] == cut[..m - 1];
      assert flags[1..m + 1][..m - 1] == flags[1..m];
    }
  }

  /** The surface stops once per copy and, on an open curve, once at the
      end. */
  lemma {:induction false} RingCutsUncut(flags: seq<bool>, closed: bool)
    requires flags != [] && !flags[0]
    ensures Uncut(RingCuts(flags, closed)) == |flags| - Copies(flags) - (if closed then 0 else 1)
  {
    var cut := RingCuts(flags, closed);
    var q := |flags|;
    UncutPrefix(flags, closed, q - 1);
    assert cut[..q - 1] == cut[..|cut| - 1];
    assert Uncut(cut) == Uncut(cut[..q - 1]) + (if cut[q - 1] then 0 else 1);
    assert flags[1..q] == flags[1..];
    CopiesFront(flags);
    UncutCopies(cut);
  }
}
