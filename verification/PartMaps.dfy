/** Which parts a write or read touches, and how many bytes of each. */
module PartMaps {
  import opened Basics
  import opened WaveFiles

  // ----- specification -----

  /** Bytes of logical part q that lie in [start, end). */
  function PartAmount(start: int, end: int, q: int): int {
    Min(end, (q + 1) * PART_SIZE) - Max(start, q * PART_SIZE)
  }

  /** One past the last logical part of [start, end). */
  function PartLimit(start: int, end: int): int {
    if end <= start / PART_SIZE * PART_SIZE then start / PART_SIZE
    else (end + PART_SIZE - 1) / PART_SIZE
  }

  /** The part map of [start, end) built from its logical parts below n; a later logical part that
      shares a ring slot with an earlier one replaces its amount. */
  function PartMapUpTo(opts: FileOpts, start: int, end: int, n: int): map<int, int>
    requires opts.Valid() && 0 <= start
    decreases n
  {
    if n <= start / PART_SIZE then map[]
    else
      PartMapUpTo(opts, start, end, n - 1)
      [PartIdxAtOffset(opts, (n - 1) * PART_SIZE) := PartAmount(start, end, n - 1)]
  }

  function PartMap(opts: FileOpts, start: int, end: int): map<int, int>
    requires opts.Valid() && 0 <= start
  {
    PartMapUpTo(opts, start, end, PartLimit(start, end))
  }

  // ----- the loops of the source -----

  /** computePartMap */
  method ComputePartMap(opts: FileOpts, startOffset: int, size: int) returns (partMap: map<int, int>)
    requires opts.Valid() && 0 <= startOffset
    ensures partMap == PartMap(opts, startOffset, startOffset + size)
  {
    partMap := map[];
    var endOffset := startOffset + size;
    var startFileOffset := startOffset - startOffset % PART_SIZE;
    var testOffset := startFileOffset;
    while testOffset < endOffset
      invariant testOffset % PART_SIZE == 0 && startFileOffset <= testOffset
      invariant testOffset / PART_SIZE <= PartLimit(startOffset, endOffset)
      invariant partMap == PartMapUpTo(opts, startOffset, endOffset, testOffset / PART_SIZE)
    {
      var partIdx := PartIdxAtOffset(opts, testOffset);
      var partStartOffset := testOffset;
      var partEndOffset := testOffset + PART_SIZE;
      var partWriteStartOffset := 0;
      var partWriteEndOffset := PART_SIZE;
      if startOffset > partStartOffset && startOffset < partEndOffset {
        partWriteStartOffset := startOffset - partStartOffset;
      }
      if endOffset > partStartOffset && endOffset < partEndOffset {
        partWriteEndOffset := endOffset - partStartOffset;
      }
      partMap := partMap[partIdx := partWriteEndOffset - partWriteStartOffset];
      testOffset := testOffset + PART_SIZE;
    }
  }

  /** incompletePartsFromMap; Go leaves the iteration order open. */
  method IncompletePartsFromMap(partMap: map<int, int>) returns (incompleteParts: seq<int>)
    ensures forall p :: p in incompleteParts <==> p in partMap && partMap[p] != PART_SIZE
  {
    incompleteParts := [];
    var left: set<int> := partMap.Keys;
    while |left| > 0
      invariant left <= partMap.Keys
      invariant forall p :: p in incompleteParts <==> p in partMap && p !in left && partMap[p] != PART_SIZE
      decreases |left|
    {
      var partIdx := Pick(left);
      if partMap[partIdx] != PART_SIZE {
        incompleteParts := incompleteParts + [partIdx];
      }
      left := left - {partIdx};
    }
  }

  /** getPartIdxsFromMap */
  method GetPartIdxsFromMap(partMap: map<int, int>) returns (partIdxs: seq<int>)
    ensures forall p :: p in partIdxs <==> p in partMap
  {
    partIdxs := [];
    var left: set<int> := partMap.Keys;
    while |left| > 0
      invariant left <= partMap.Keys
      invariant forall p :: p in partIdxs <==> p in partMap && p !in left
      decreases |left|
    {
      var partIdx := Pick(left);
      partIdxs := partIdxs + [partIdx];
      left := left - {partIdx};
    }
  }

  // ----- what the part map says -----

  /** Every logical part of the range is in the map. */
  lemma {:induction false} PartMapCovers(opts: FileOpts, start: int, end: int, n: int, q: int)
    requires opts.Valid() && 0 <= start && start / PART_SIZE <= q < n
    ensures PartIdxAtOffset(opts, q * PART_SIZE) in PartMapUpTo(opts, start, end, n)
    decreases n
  {
    if q < n - 1 {
      PartMapCovers(opts, start, end, n - 1, q);
    }
  }

  /** A map entry is the amount of the last logical part that lands in that slot. */
  lemma {:induction false} PartMapLast(opts: FileOpts, start: int, end: int, n: int, idx: int) returns (q: int)
    requires opts.Valid() && 0 <= start
    requires idx in PartMapUpTo(opts, start, end, n)
    ensures start / PART_SIZE <= q < n && PartIdxAtOffset(opts, q * PART_SIZE) == idx
    ensures PartMapUpTo(opts, start, end, n)[idx] == PartAmount(start, end, q)
    ensures forall r :: q < r < n ==> PartIdxAtOffset(opts, r * PART_SIZE) != idx
    decreases n
  {
    if PartIdxAtOffset(opts, (n - 1) * PART_SIZE) == idx {
      q := n - 1;
    } else {
      q := PartMapLast(opts, start, end, n - 1, idx);
    }
  }

  /** Offsets of the range have their part in the map. */
  lemma RangeInPartMap(opts: FileOpts, start: int, end: int, x: int)
    requires opts.Valid() && 0 <= start <= x < end
    ensures PartIdxAtOffset(opts, x) in PartMap(opts, start, end)
  {
    var q := x / PART_SIZE;
    PartMapCovers(opts, start, end, PartLimit(start, end), q);
    SameLogicalPart(opts, x, q * PART_SIZE);
  }

  // ----- which bytes a write really covers -----

  /** A circular write that ends at or before the live window is dropped. */
  predicate WriteSkipped(f: WaveFile, end: int) {
    f.opts.circular && end <= f.size - f.opts.maxSize
  }

  /** First offset a write of [offset, end) stores, after both front truncations. */
  function WriteStart(f: WaveFile, offset: int, end: int): int {
    if !f.opts.circular then offset
    else
      var lo := Max(offset, f.size - f.opts.maxSize);
      Max(lo, end - f.opts.maxSize)
  }

  function SizeAfter(f: WaveFile, end: int): int {
    Max(f.size, end)
  }

  /** First live offset once the file has grown to cover end. */
  function StartAfter(f: WaveFile, end: int): int {
    f.(size := SizeAfter(f, end)).DataStartIdx()
  }

  /** The one family of writes that the part map mis-describes. The range reaches below the live
      window, covers the whole logical part the window starts in, and stops before the logical part
      that shares its ring slot at the end of the file. */
  predicate LosesTail(f: WaveFile, offset: int, end: int) {
    var r := f.size % PART_SIZE;
    var start := f.size - f.opts.maxSize;
    && f.opts.circular && 0 < start && r != 0
    && offset <= start - r && start - r + PART_SIZE <= end <= f.size - r
  }

  /** Part-map soundness. Take any offset y that is still live after the write and that the write
      does not store. If its part is touched by the write, the part is listed as incomplete, or
      the write is in the LosesTail family and y is in the file's last, partial part. */
  lemma PartMapSound(f: WaveFile, offset: int, end: int, y: int, z: int)
    requires f.Valid() && 0 <= offset <= f.size && offset <= end && !WriteSkipped(f, end)
    requires StartAfter(f, end) <= y < SizeAfter(f, end)
    requires !(WriteStart(f, offset, end) <= y < end)
    requires WriteStart(f, offset, end) <= z < end
    requires PartIdxAtOffset(f.opts, y) == PartIdxAtOffset(f.opts, z)
    ensures
      var p := PartIdxAtOffset(f.opts, y);
      var pm := PartMap(f.opts, offset, end);
      && p in pm
      && (pm[p] != PART_SIZE || (LosesTail(f, offset, end) && f.size - f.size % PART_SIZE <= y))
  {
    var p := PartIdxAtOffset(f.opts, y);
    RangeInPartMap(f.opts, offset, end, z);
    var limit := PartLimit(offset, end);
    var q := PartMapLast(f.opts, offset, end, limit, p);
    if PartAmount(offset, end, q) == PART_SIZE {
      var cell := q * PART_SIZE + y % PART_SIZE;
      assert offset <= cell < end && cell / PART_SIZE == q && cell % PART_SIZE == y % PART_SIZE;
      SameLogicalPart(f.opts, cell, q * PART_SIZE);
      assert SameCell(f.opts, y, cell);
      var lo := WriteStart(f, offset, end);
      if lo <= cell {
        CellsDistinct(f.opts, y, cell);
        assert false;
      } else {
        LastPartAtLeast(f, offset, end, q, z);
        OnlyTailLost(f, offset, end, q, y, cell);
      }
    }
  }

  /** The last logical part of a slot is not before that of any offset in the slot. */
  lemma LastPartAtLeast(f: WaveFile, offset: int, end: int, q: int, z: int)
    requires f.Valid() && 0 <= offset <= z < end && 0 <= q
    requires forall r :: q < r < PartLimit(offset, end) ==>
               PartIdxAtOffset(f.opts, r * PART_SIZE) != PartIdxAtOffset(f.opts, z)
    ensures z / PART_SIZE <= q
  {
    var r := z / PART_SIZE;
    SameLogicalPart(f.opts, z, r * PART_SIZE);
  }

  lemma OnlyTailLost(f: WaveFile, offset: int, end: int, q: int, y: int, cell: int)
    requires f.Valid() && 0 <= offset <= f.size && offset <= end && !WriteSkipped(f, end)
    requires StartAfter(f, end) <= y < SizeAfter(f, end)
    requires !(WriteStart(f, offset, end) <= y < end)
    requires 0 <= q && offset <= q * PART_SIZE && (q + 1) * PART_SIZE <= end
    requires forall r :: q < r < PartLimit(offset, end) ==>
               PartIdxAtOffset(f.opts, r * PART_SIZE) != PartIdxAtOffset(f.opts, q * PART_SIZE)
    requires cell == q * PART_SIZE + y % PART_SIZE < WriteStart(f, offset, end) < (q + 1) * PART_SIZE
    requires SameCell(f.opts, y, cell)
    ensures LosesTail(f, offset, end) && f.size - f.size % PART_SIZE <= y
  {
    var m := f.opts.maxSize;
    assert f.opts.circular;
    assert end <= f.size && WriteStart(f, offset, end) == f.size - m;
    RingShift(f.opts, cell);
    CellsDistinct(f.opts, y, cell + m);
    WindowStartPart(f.size, m, q, cell);
    RingShift(f.opts, q * PART_SIZE);
    var next := q + m / PART_SIZE;
    assert next * PART_SIZE == q * PART_SIZE + m;
    assert PartIdxAtOffset(f.opts, next * PART_SIZE) == PartIdxAtOffset(f.opts, q * PART_SIZE);
    if f.size - f.size % PART_SIZE < end {
      LimitReached(offset, end, next);
      assert false;
    }
  }

  /** q is the logical part the live window starts in. */
  lemma WindowStartPart(size: int, m: int, q: int, cell: int)
    requires 0 < m && m % PART_SIZE == 0 && 0 <= q
    requires q * PART_SIZE <= cell < size - m < (q + 1) * PART_SIZE
    ensures size % PART_SIZE == size - m - q * PART_SIZE != 0
  {
    var k := m / PART_SIZE;
    assert size == (q + k) * PART_SIZE + (size - m - q * PART_SIZE);
  }

  lemma LimitReached(start: int, end: int, q: int)
    requires 0 <= start && start / PART_SIZE <= q && q * PART_SIZE < end
    ensures q < PartLimit(start, end)
  {
  }

  /** In the LosesTail family the shared slot really is recorded as complete. */
  lemma TailMarkedComplete(f: WaveFile, offset: int, end: int)
    requires f.Valid() && 0 <= offset && LosesTail(f, offset, end)
    ensures
      var p := PartIdxAtOffset(f.opts, f.size - 1);
      p in PartMap(f.opts, offset, end) && PartMap(f.opts, offset, end)[p] == PART_SIZE
    ensures PartIdxAtOffset(f.opts, f.size - f.opts.maxSize) == PartIdxAtOffset(f.opts, f.size - 1)
  {
    var m := f.opts.maxSize;
    var start := f.size - m;
    TailArithmetic(f.size, m);
    SameLogicalPart(f.opts, start - 1, start);
    RangeInPartMap(f.opts, offset, end, start);
    RingShift(f.opts, start - 1);
    var p := PartIdxAtOffset(f.opts, start);
    var q := PartMapLast(f.opts, offset, end, PartLimit(offset, end), p);
    LastPartAtLeast(f, offset, end, q, start);
    LastOfSlot(f, offset, end, q, start);
  }

  lemma LastOfSlot(f: WaveFile, offset: int, end: int, q: int, start: int)
    requires f.Valid() && 0 <= offset && LosesTail(f, offset, end) && start == f.size - f.opts.maxSize
    requires start / PART_SIZE <= q < PartLimit(offset, end)
    requires PartIdxAtOffset(f.opts, q * PART_SIZE) == PartIdxAtOffset(f.opts, start)
    ensures q == start / PART_SIZE && PartAmount(offset, end, q) == PART_SIZE
  {
    var first := start / PART_SIZE * PART_SIZE;
    TailArithmetic(f.size, f.opts.maxSize);
    SameLogicalPart(f.opts, first, start);
    CellsDistinct(f.opts, q * PART_SIZE, first);
  }

  lemma TailArithmetic(size: int, m: int)
    requires 0 < m && m % PART_SIZE == 0 && 0 < size - m && size % PART_SIZE != 0
    ensures (size - m) / PART_SIZE * PART_SIZE == size - m - size % PART_SIZE
    ensures (size - m - 1) / PART_SIZE == (size - m) / PART_SIZE
  {
    assert size == (size - m) + m / PART_SIZE * PART_SIZE;
  }
}
