/** The buffer that a response body is collected in. Its growth is computed in floating point. */
module ReceiveBuffer {

  const TWO_53: nat := 0x20_0000_0000_0000

  ghost predicate IsExact(fl: real -> real, n: nat) {
    fl(n as real) == n as real
  }

  /**
   * What rounding to a double guarantees: whole numbers up to 2^53 are exact, and order is kept. No operand
   * of the growth formula is negative.
   */
  ghost predicate RoundsLikeDouble(fl: real -> real) {
    && (forall n: nat :: n <= TWO_53 ==> IsExact(fl, n))
    && (forall x, y :: x <= y ==> fl(x) <= fl(y))
  }

  function Ceil(x: real): int {
    -((-x).Floor)
  }

  /** ceil((double) size / (double) chunk) */
  function Blocks(fl: real -> real, size: nat, chunk: nat): int
    requires fl(chunk as real) != 0.0
  {
    Ceil(fl(fl(size as real) / fl(chunk as real)))
  }

  /** (size_t) ((Blocks + 1) * chunk), every operation rounded. */
  function RoundedSize(fl: real -> real, size: nat, chunk: nat): int
    requires fl(chunk as real) != 0.0
  {
    fl(Times(fl(Blocks(fl, size, chunk) as real + 1.0), fl(chunk as real))).Floor
  }

  /** The growth has room for the whole delivery. */
  ghost predicate Covers(fl: real -> real, size: nat, chunk: nat) {
    fl(chunk as real) != 0.0 && RoundedSize(fl, size, chunk) >= size
  }

  function Times(x: real, y: real): real {
    x * y
  }

  function WholeBlocks(size: nat, chunk: nat): nat
    requires chunk > 0
  {
    size / chunk
  }

  lemma PositiveProduct(x: real, c: real)
    requires x > 0.0 && c > 0.0
    ensures x * c > 0.0
  {}

  lemma ScaleUp(x: real, y: real, c: real)
    requires c >= 1.0 && x * c <= y * c
    ensures x <= y
  {
    if y < x {
      PositiveProduct(x - y, c);
    }
  }

  lemma QuotientBounds(s: real, c: real, m: real)
    requires 1.0 <= c <= s && m * c <= s
    ensures m <= s / c <= s
  {
    var q := s / c;
    assert q * c == s;
    ScaleUp(m, q, c);
    assert s * (c - 1.0) >= 0.0;
    ScaleUp(q, s, c);
  }

  lemma ProductMonotonic(a: int, b: int, chunk: nat)
    requires a <= b
    ensures a * chunk <= b * chunk
  {}

  lemma RealProduct(a: int, b: int)
    ensures Times(a as real, b as real) == (a * b) as real
  {}

  /** The rounded quotient loses less than one block. */
  lemma BlocksCover(fl: real -> real, size: nat, chunk: nat)
    requires RoundsLikeDouble(fl) && 0 < chunk <= size <= TWO_53
    ensures IsExact(fl, chunk)
    ensures WholeBlocks(size, chunk) <= Blocks(fl, size, chunk) <= TWO_53
  {
    var m, s, c := size / chunk, size as real, chunk as real;
    assert IsExact(fl, size) && IsExact(fl, chunk);
    assert m * chunk <= size;
    RealProduct(m, chunk);
    QuotientBounds(s, c, m as real);
    assert IsExact(fl, m) && IsExact(fl, TWO_53);
    assert m as real <= fl(s / c) <= TWO_53 as real;
  }

  /** A rounded whole number is the number itself, or is past every whole number that is exact. */
  lemma RoundedWhole(fl: real -> real, n: nat)
    requires RoundsLikeDouble(fl)
    ensures if n <= TWO_53 then fl(n as real) == n as real else fl(n as real) >= TWO_53 as real
  {
    assert IsExact(fl, TWO_53);
    if n <= TWO_53 {
      assert IsExact(fl, n);
    }
  }

  lemma AtLeastOneBlock(x: real, c: real)
    requires x >= 0.0 && c >= 1.0
    ensures Times(x, c) >= x
  {
    assert x * (c - 1.0) >= 0.0;
  }

  lemma PartialBlock(size: nat, chunk: nat, blocks: int)
    requires chunk > 0 && blocks > WholeBlocks(size, chunk)
    ensures blocks * chunk > size
  {
    ProductMonotonic(size / chunk + 1, blocks, chunk);
    assert (size / chunk + 1) * chunk > size;
  }

  /** Multiplying back up: whether or not a double can hold the product, it reaches the size. */
  lemma ProductCovers(fl: real -> real, blocks: nat, chunk: nat, size: nat)
    requires RoundsLikeDouble(fl) && 0 < chunk && size <= TWO_53 && blocks > WholeBlocks(size, chunk)
    ensures fl(Times(blocks as real, chunk as real)) >= size as real
  {
    hide RoundsLikeDouble, Times;
    var product := blocks * chunk;
    assert product > size by {
      PartialBlock(size, chunk, blocks);
    }
    RealProduct(blocks, chunk);
    RoundedWhole(fl, product);
  }

  lemma Ordered(fl: real -> real, x: real, y: real)
    requires RoundsLikeDouble(fl) && x <= y
    ensures fl(x) <= fl(y)
  {}

  /** When even the block count is past 2^53, so is the product. */
  lemma ProductPastLimit(fl: real -> real, sum: real, chunk: nat)
    requires RoundsLikeDouble(fl) && 0 < chunk && sum >= TWO_53 as real
    ensures fl(Times(sum, chunk as real)) >= TWO_53 as real
  {
    hide RoundsLikeDouble, Times;
    var limit, product := TWO_53 as real, Times(sum, chunk as real);
    AtLeastOneBlock(sum, chunk as real);
    Ordered(fl, limit, product);
    RoundedWhole(fl, TWO_53);
    assert fl(limit) == limit;
    assert fl(product) >= limit;
  }

  /** The extra block makes up for everything the roundings lose. */
  lemma GrowthCovers(fl: real -> real, size: nat, chunk: nat)
    requires RoundsLikeDouble(fl) && 0 < chunk <= size <= TWO_53
    ensures Covers(fl, size, chunk)
  {
    BlocksCover(fl, size, chunk);
    hide RoundsLikeDouble, Blocks, Times, WholeBlocks;
    var blocks := Blocks(fl, size, chunk);
    assert blocks as real + 1.0 == (blocks + 1) as real;
    RoundedWhole(fl, blocks + 1);
    if blocks + 1 <= TWO_53 {
      ProductCovers(fl, blocks + 1, chunk, size);
    } else {
      ProductPastLimit(fl, fl(blocks as real + 1.0), chunk);
    }
  }

  /** A delivery of exactly one chunk grows the buffer by exactly two. */
  lemma OneChunk(fl: real -> real, chunk: nat)
    requires RoundsLikeDouble(fl) && 0 < chunk && 2 * chunk <= TWO_53
    ensures fl(chunk as real) != 0.0 && RoundedSize(fl, chunk, chunk) == 2 * chunk
  {
    RoundedWhole(fl, chunk);
    RoundedWhole(fl, 1);
    RoundedWhole(fl, 2);
    RoundedWhole(fl, 2 * chunk);
    assert chunk as real / chunk as real == 1.0;
    RealProduct(2, chunk);
  }

  /** There is such a rounding: down to 2^53 between 2^53 and 2^53 + 2, and no change anywhere else. */
  lemma RoundingExists()
    ensures var fl := (x: real) => if TWO_53 as real <= x < (TWO_53 + 2) as real then TWO_53 as real else x;
            RoundsLikeDouble(fl) && fl((TWO_53 + 1) as real) == TWO_53 as real
  {}

  lemma FallsShort(fl: real -> real)
    requires RoundsLikeDouble(fl) && fl((TWO_53 + 1) as real) == TWO_53 as real
    ensures fl(1 as real) == 1.0 && RoundedSize(fl, TWO_53 + 1, 1) == TWO_53
  {
    RoundedWhole(fl, 1);
    RoundedWhole(fl, TWO_53);
    hide RoundsLikeDouble;
  }

  /**
   * The bound is sharp. A double cannot hold 2^53 + 1; once that number rounds to the even 2^53, as IEEE 754
   * says, the growth for a delivery of that size in chunks of one byte is too small.
   */
  lemma GrowthCoversUpTo(fl: real -> real, bound: nat)
    requires RoundsLikeDouble(fl) && fl((TWO_53 + 1) as real) == TWO_53 as real
    ensures (forall size: nat, chunk: nat :: 0 < chunk <= size <= bound ==> Covers(fl, size, chunk))
            <==> bound <= TWO_53
  {
    hide RoundsLikeDouble;
    if bound <= TWO_53 {
      forall size: nat, chunk: nat | 0 < chunk <= size <= bound
        ensures Covers(fl, size, chunk)
      {
        GrowthCovers(fl, size, chunk);
      }
    } else {
      FallsShort(fl);
      assert !Covers(fl, TWO_53 + 1, 1);
    }
  }

  lemma AdditionalSizeIsEnough(fl: real -> real, size: nat, chunk: nat)
    requires RoundsLikeDouble(fl) && 0 < chunk && size <= TWO_53
    ensures size >= chunk ==> fl(chunk as real) != 0.0
    ensures var additional := if size >= chunk then RoundedSize(fl, size, chunk) else chunk;
            && additional >= size
            && additional >= chunk
            && (size <= chunk && 2 * chunk <= TWO_53 ==> additional <= 2 * chunk)
  {
    if size >= chunk {
      GrowthCovers(fl, size, chunk);
      if size == chunk && 2 * chunk <= TWO_53 {
        OneChunk(fl, chunk);
      }
    }
  }

  /** Every reallocation added a chunk or more, and none came before the bytes had outgrown what was there. */
  predicate Counted(length: nat, alloced: nat, reallocations: nat, chunk: nat) {
    && 1 + reallocations * chunk <= alloced
    && (reallocations > 0 ==> (reallocations - 1) * chunk < length)
  }

  /** The most reallocations that `length` bytes can have caused. */
  function ReallocationLimit(length: nat, chunk: nat): nat
    requires chunk > 0
  {
    if length == 0 then 0 else 1 + (length - 1) / chunk
  }

  lemma CountWithinLimit(length: nat, alloced: nat, reallocations: nat, chunk: nat)
    requires chunk > 0 && Counted(length, alloced, reallocations, chunk)
    ensures reallocations <= ReallocationLimit(length, chunk)
  {
    if reallocations > 0 {
      QuotientAtLeast(length - 1, chunk, reallocations - 1);
    }
  }

  lemma QuotientAtLeast(x: nat, c: nat, q: nat)
    requires c > 0 && q * c <= x
    ensures q <= x / c
  {
    if x / c < q {
      ProductMonotonic(x / c + 1, q, c);
    }
  }

  lemma CountedAfterGrowth(length: nat, alloced: nat, reallocations: nat, chunk: nat, added: nat, arrived: nat)
    requires Counted(length, alloced, reallocations, chunk)
    requires length + arrived >= alloced && added >= chunk
    ensures Counted(length + arrived, alloced + added, reallocations + 1, chunk)
  {
    assert (reallocations + 1) * chunk == reallocations * chunk + chunk;
  }

  lemma CountedWithin(length: nat, alloced: nat, reallocations: nat, chunk: nat, arrived: nat)
    requires Counted(length, alloced, reallocations, chunk)
    ensures Counted(length + arrived, alloced, reallocations, chunk)
  {}

  method CopyInto(target: array<char>, at: nat, source: string)
    requires at + |source| <= target.Length
    modifies target
    ensures target[..at] == old(target[..at])
    ensures target[at..at + |source|] == source
  {
    var i := 0;
    while i < |source|
      invariant 0 <= i <= |source|
      invariant target[..at] == old(target[..at])
      invariant target[at..at + i] == source[..i]
    {
      target[at + i] := source[i];
      i := i + 1;
    }
  }

  function Concat(deliveries: seq<string>): (r: string) {
    if deliveries == [] then [] else Concat(deliveries[..|deliveries| - 1]) + deliveries[|deliveries| - 1]
  }

  class MemoryBuffer {
    var data: array?<char>
    var length: nat
    var alloced: nat
    const chunk: nat
    ghost var reallocations: nat

    /** Every byte has its place, and so has the 0 after the last one. */
    ghost predicate Valid()
      reads this, data
    {
      && chunk >= 1
      && length < alloced
      && Counted(length, alloced, reallocations, chunk)
      && (data == null ==> length == 0 && alloced == 1)
      && (data != null ==> data.Length == alloced && data[length] == '\0')
    }

    ghost function Contents(): string
      requires Valid()
      reads this, data
    {
      if data == null then [] else data[..length]
    }

    constructor (chunkSize: nat)
      requires chunkSize >= 1
      ensures Valid() && data == null && Contents() == [] && chunk == chunkSize
      ensures reallocations == 0 && alloced == 1
    {
      data, length, alloced, chunk, reallocations := null, 0, 1, chunkSize, 0;
    }

    /** realloc(data, alloced + additional): the old bytes keep their places. */
    method Grow(additional: nat)
      requires Valid()
      modifies this
      ensures length == old(length) && reallocations == old(reallocations)
      ensures alloced == old(alloced) + additional
      ensures fresh(data) && data != null && data.Length == alloced
      ensures data[..length] == old(Contents())
    {
      var grown := new char[alloced + additional];
      if data != null {
        CopyInto(grown, 0, data[..]);
        assert grown[..length] == data[..length] by {
          assert grown[0..alloced] == data[..];
        }
      }
      data, alloced := grown, alloced + additional;
    }

    /** Makes room for the bytes that arrived and for the 0 after them. */
    method Reserve(fl: real -> real, realSize: nat)
      requires Valid() && RoundsLikeDouble(fl)
      requires realSize <= TWO_53 && (realSize == 0 ==> data != null)
      modifies this
      ensures length == old(length) && length + realSize < alloced
      ensures Counted(length + realSize, alloced, reallocations, chunk)
      ensures data != null && data.Length == alloced && data[..length] == old(Contents())
      ensures fresh(data) || data == old(data)
      ensures reallocations == old(reallocations) + if old(alloced) == alloced then 0 else 1
      ensures old(alloced <= length + 2 * chunk) && realSize <= chunk && 2 * chunk <= TWO_53
              ==> alloced <= length + realSize + 2 * chunk
    {
      hide RoundsLikeDouble, RoundedSize, Counted;
      if realSize + length >= alloced {
        AdditionalSizeIsEnough(fl, realSize, chunk);
        var additional := chunk;
        if realSize >= chunk {
          additional := RoundedSize(fl, realSize, chunk);
        }
        CountedAfterGrowth(length, alloced, reallocations, chunk, additional, realSize);
        Grow(additional);
        reallocations := reallocations + 1;
      } else {
        CountedWithin(length, alloced, reallocations, chunk, realSize);
      }
    }

    /**
     * body_callback. The rounding is a parameter. For deliveries of up to 2^53 bytes the growth is enough; an
     * empty one must not come first, because its terminating 0 would have no place to go.
     */
    method BodyCallback(fl: real -> real, buffer: string) returns (consumed: nat)
      requires Valid() && RoundsLikeDouble(fl)
      requires |buffer| <= TWO_53 && (buffer == [] ==> data != null)
      modifies this, data
      ensures Valid() && data != null && consumed == |buffer|
      ensures Contents() == old(Contents()) + buffer
      ensures fresh(data) || data == old(data)
      ensures old(alloced <= length + 2 * chunk) && |buffer| <= chunk && 2 * chunk <= TWO_53
              ==> alloced <= length + 2 * chunk
    {
      hide RoundsLikeDouble, Counted;
      ghost var before := Contents();
      Reserve(fl, |buffer|);
      CopyInto(data, length, buffer);
      assert data[..length + |buffer|] == before + buffer;
      length := length + |buffer|;
      data[length] := '\0';
      return |buffer|;
    }
  }

  /** Deliveries of up to 2^53 bytes, of which the first is not empty. */
  ghost predicate Deliverable(deliveries: seq<string>) {
    && (deliveries != [] ==> deliveries[0] != [])
    && forall i :: 0 <= i < |deliveries| ==> |deliveries[i]| <= TWO_53
  }

  ghost predicate FitChunk(deliveries: seq<string>, chunk: nat) {
    2 * chunk <= TWO_53 && forall i :: 0 <= i < |deliveries| ==> |deliveries[i]| <= chunk
  }

  /** A whole transfer: the callback is called once for each delivery. */
  method ReceiveAll(fl: real -> real, chunk: nat, deliveries: seq<string>) returns (mem: MemoryBuffer)
    requires RoundsLikeDouble(fl) && chunk >= 1 && Deliverable(deliveries)
    ensures fresh(mem) && mem.Valid() && mem.chunk == chunk
    ensures mem.Contents() == Concat(deliveries)
    ensures deliveries != [] ==> mem.data != null && mem.data[mem.length] == '\0'
    ensures mem.reallocations <= ReallocationLimit(mem.length, chunk)
    ensures FitChunk(deliveries, chunk) ==> mem.alloced <= mem.length + 2 * chunk
  {
    hide RoundsLikeDouble, Counted, ReallocationLimit;
    mem := new MemoryBuffer(chunk);
    var i := 0;
    assert deliveries[..0] == [];
    while i < |deliveries|
      invariant 0 <= i <= |deliveries|
      invariant fresh(mem) && (mem.data != null ==> fresh(mem.data))
      invariant mem.Valid() && mem.chunk == chunk
      invariant i > 0 ==> mem.data != null
      invariant mem.Contents() == Concat(deliveries[..i])
      invariant FitChunk(deliveries, chunk) ==> mem.alloced <= mem.length + 2 * chunk
    {
      assert deliveries[..i + 1][..i] == deliveries[..i];
      var consumed := mem.BodyCallback(fl, deliveries[i]);
      i := i + 1;
    }
    assert deliveries[..i] == deliveries;
    CountWithinLimit(mem.length, mem.alloced, mem.reallocations, chunk);
  }
}
