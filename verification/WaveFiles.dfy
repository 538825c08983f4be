/** The values of the block store: file rows, data parts, and the arithmetic that maps a logical
    file offset to a part. A circular file keeps its last `maxSize` bytes in a ring of parts. */
module WaveFiles {
  import opened Basics

  /** partDataSize: the number of bytes in one part. */
  const PART_SIZE := 65536

  datatype FileKey = FileKey(zoneId: string, name: string)

  datatype FileOpts = FileOpts(maxSize: int, circular: bool, ijson: bool, ijsonBudget: int)
  {
    /** What MakeFile guarantees about the options it stores. */
    predicate Valid() {
      && 0 <= maxSize
      && (circular ==> 0 < maxSize)
      && (circular ==> maxSize % PART_SIZE == 0)
      && (circular ==> !ijson)
      && 0 <= ijsonBudget && (ijsonBudget > 0 ==> ijson)
    }
  }

  datatype WaveFile = WaveFile(key: FileKey, opts: FileOpts, size: int)
  {
    predicate Valid() {
      opts.Valid() && 0 <= size
    }

    function DataStartIdx(): int {
      if opts.circular && size > opts.maxSize then size - opts.maxSize else 0
    }
  }

  /** A part held by the cache. `data` is the used prefix of a buffer of PART_SIZE bytes; the rest
      of the buffer is zero, and reading past the used prefix sees those zeros. */
  datatype DataCacheEntry = DataCacheEntry(partIdx: int, data: seq<byte>)

  type PartTable = map<int, seq<byte>>
  type DirtyParts = map<int, DataCacheEntry>

  function PartIdxAtOffset(opts: FileOpts, offset: int): int
    requires opts.Valid() && 0 <= offset
  {
    var partIdx := offset / PART_SIZE;
    if opts.circular then partIdx % (opts.maxSize / PART_SIZE) else partIdx
  }

  /** Byte o of a part whose used prefix is s. */
  function ByteAt(s: seq<byte>, o: nat): byte {
    if o < |s| then s[o] else 0
  }

  /** The used prefix of a part: the cache first, then the database. */
  function Content(dirty: DirtyParts, base: PartTable, idx: int): seq<byte> {
    if idx in dirty then dirty[idx].data else if idx in base then base[idx] else []
  }

  /** The byte the store returns for logical offset x. */
  function Stored(opts: FileOpts, dirty: DirtyParts, base: PartTable, x: int): byte
    requires opts.Valid() && 0 <= x
  {
    ByteAt(Content(dirty, base, PartIdxAtOffset(opts, x)), x % PART_SIZE)
  }

  /** The live bytes of file f are exactly the corresponding bytes of log. */
  ghost predicate Holds(f: WaveFile, dirty: DirtyParts, base: PartTable, log: seq<byte>) {
    && f.Valid()
    && f.size == |log|
    && forall x {:trigger log[x]} :: f.DataStartIdx() <= x < |log| ==> Stored(f.opts, dirty, base, x) == log[x]
  }

  predicate PartsFit(base: PartTable) {
    forall i :: i in base ==> |base[i]| <= PART_SIZE
  }

  predicate DirtyFit(dirty: DirtyParts) {
    forall i :: i in dirty ==> dirty[i].partIdx == i && |dirty[i].data| <= PART_SIZE
  }

  // ----- ring addressing -----

  lemma ModUnique(x: int, d: int, a: int, r: int)
    requires 0 < d && 0 <= r < d && x == d * a + r
    ensures x % d == r && x / d == a
  {
    var q, s := x / d, x % d;
    assert x == d * q + s;
    if q > a {
      assert d * (q - a) >= d by { MulAtLeast(d, q - a); }
    } else if q < a {
      assert d * (a - q) >= d by { MulAtLeast(d, a - q); }
    }
    assert d * (q - a) == r - s;
  }

  lemma MulAtLeast(d: int, k: int)
    requires 0 < d && 1 <= k
    ensures d * k >= d
  {
  }

  /** Part index and offset within the part together are the flat ring address x % maxSize. */
  lemma FlatAddress(opts: FileOpts, x: int)
    requires opts.Valid() && opts.circular && 0 <= x
    ensures PartIdxAtOffset(opts, x) * PART_SIZE + x % PART_SIZE == x % opts.maxSize
  {
    var m := opts.maxSize / PART_SIZE;
    var q, r := x / PART_SIZE, x % PART_SIZE;
    var a, b := q / m, q % m;
    assert q == m * a + b;
    assert opts.maxSize == m * PART_SIZE;
    var flat := b * PART_SIZE + r;
    assert x == opts.maxSize * a + flat by {
      assert m * PART_SIZE * a == (m * a) * PART_SIZE;
    }
    ModUnique(x, opts.maxSize, a, flat);
  }

  /** x and y sit in the same byte of the same part. */
  predicate SameCell(opts: FileOpts, x: int, y: int)
    requires opts.Valid() && 0 <= x && 0 <= y
  {
    PartIdxAtOffset(opts, x) == PartIdxAtOffset(opts, y) && x % PART_SIZE == y % PART_SIZE
  }

  /** Ring addressing is injective on any window of maxSize offsets. */
  lemma CellsDistinct(opts: FileOpts, x: int, y: int)
    requires opts.Valid() && 0 <= x && 0 <= y
    requires opts.circular ==> x - y < opts.maxSize && y - x < opts.maxSize
    requires SameCell(opts, x, y)
    ensures x == y
  {
    if opts.circular {
      FlatAddress(opts, x);
      FlatAddress(opts, y);
      var d := opts.maxSize;
      assert x - y == d * (x / d - y / d);
      if x / d > y / d {
        MulAtLeast(d, x / d - y / d);
      } else if x / d < y / d {
        MulAtLeast(d, y / d - x / d);
      }
    }
  }

  /** Offsets of one logical part share a part index. */
  lemma SameLogicalPart(opts: FileOpts, x: int, y: int)
    requires opts.Valid() && 0 <= x && 0 <= y && x / PART_SIZE == y / PART_SIZE
    ensures PartIdxAtOffset(opts, x) == PartIdxAtOffset(opts, y)
  {
  }

  /** Moving by maxSize stays in the same cell. */
  lemma RingShift(opts: FileOpts, x: int)
    requires opts.Valid() && opts.circular && 0 <= x
    ensures SameCell(opts, x, x + opts.maxSize)
  {
    var m := opts.maxSize / PART_SIZE;
    assert opts.maxSize == m * PART_SIZE;
    var q := x / PART_SIZE;
    assert (x + opts.maxSize) / PART_SIZE == q + m;
    ModUnique(q + m, m, q / m + 1, q % m) by {
      assert m * (q / m + 1) == m * (q / m) + m;
    }
  }
}
