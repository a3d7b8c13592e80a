/** The partition tables parted_server works on, as lists of sector ranges, and
    the sector and byte arithmetic of its ids and positions
    (packages/partman-base/parted_server.c). */
module PartedTable {
  import opened Wrappers

  /** libparted's type bits: LOGICAL can be combined with FREESPACE and METADATA. */
  datatype Kind = Ordinary(logical: bool) | Extended | Free(logical: bool) | Metadata(logical: bool)

  datatype Partition = Partition(start: int, end: int, kind: Kind, system: string, flags: set<string>, name: string) {
    predicate IsLogical() {
      match kind case Ordinary(l) => l case Extended => false case Free(l) => l case Metadata(l) => l
    }

    predicate IsActive() {
      kind.Ordinary? || kind.Extended?
    }

    /** Neither extended, nor metadata, nor free. */
    predicate IsListed() {
      kind.Ordinary?
    }

    predicate Before(that: Partition) {
      end < that.start
    }

    predicate Disjoint(that: Partition) {
      Before(that) || that.Before(this)
    }
  }

  type Positive = n: int | n > 0 witness 1

  datatype RawTable = Table(labelType: string, sectorSize: Positive, maxPrimary: nat, canExtend: bool, parts: seq<Partition>) {
    predicate HasExtended() {
      exists i :: 0 <= i < |parts| && parts[i].kind.Extended?
    }

    /** What libparted keeps: ranges are not empty, there is at most one extended
        partition, the active logical ones lie in it, and without it nothing is logical. */
    predicate Sound() {
      && (forall i :: 0 <= i < |parts| ==> parts[i].start <= parts[i].end)
      && (forall i, j :: 0 <= i < |parts| && 0 <= j < |parts| && parts[i].kind.Extended? && parts[j].kind.Extended? ==> i == j)
      && (forall i, j :: 0 <= i < |parts| && 0 <= j < |parts| && parts[i].kind.Extended? && parts[j].kind == Ordinary(true) ==>
            parts[i].start <= parts[j].start && parts[j].end <= parts[i].end)
      && (forall j :: 0 <= j < |parts| && parts[j].IsLogical() ==> HasExtended())
    }
  }

  type Table = t: RawTable | t.Sound() witness Table("", 1, 0, false, [])

  type Range = (int, int)

  // ---------------------------------------------------------------------
  // The partitions that are remembered

  function ListedOf(parts: seq<Partition>): seq<Partition> {
    if parts == [] then []
    else
      var p := parts[|parts| - 1];
      ListedOf(parts[..|parts| - 1]) + if p.IsListed() then [p] else []
  }

  function RangesOf(parts: seq<Partition>): (r: seq<Range>)
    ensures |r| == |parts|
    ensures forall i :: 0 <= i < |r| ==> r[i] == (parts[i].start, parts[i].end)
  {
    seq(|parts|, i requires 0 <= i < |parts| => (parts[i].start, parts[i].end))
  }

  function Geometries(disk: Option<Table>): seq<Range> {
    match disk
    case None => []
    case Some(t) => RangesOf(ListedOf(t.parts))
  }

  lemma {:induction false} ListedMeaning(parts: seq<Partition>, p: Partition)
    ensures p in ListedOf(parts) <==> p in parts && p.kind.Ordinary?
  {
    if parts != [] {
      var last := |parts| - 1;
      ListedMeaning(parts[..last], p);
      assert parts == parts[..last] + [parts[last]];
    }
  }

  /** The remembered ranges are those of the ordinary partitions, no more, no less. */
  lemma GeometriesMeaning(t: Table, r: Range)
    ensures r in Geometries(Some(t)) <==>
            exists p :: p in t.parts && p.kind.Ordinary? && r == (p.start, p.end)
  {
    var listed := ListedOf(t.parts);
    if r in RangesOf(listed) {
      var i :| 0 <= i < |listed| && RangesOf(listed)[i] == r;
      ListedMeaning(t.parts, listed[i]);
    }
    if exists p :: p in t.parts && p.kind.Ordinary? && r == (p.start, p.end) {
      var p :| p in t.parts && p.kind.Ordinary? && r == (p.start, p.end);
      ListedMeaning(t.parts, p);
      assert p in listed;
      var i :| 0 <= i < |listed| && listed[i] == p;
      assert RangesOf(listed)[i] == r;
    }
  }

  // ---------------------------------------------------------------------
  // Byte ids

  /** Division of the C language. */
  function CDiv(a: int, b: int): int
    requires b > 0
  {
    if a >= 0 then a / b else -((-a) / b)
  }

  /** The id partition_info prints. */
  function IdOf(t: Table, p: Partition): Range {
    (p.start * t.sectorSize, p.end * t.sectorSize + t.sectorSize - 1)
  }

  predicate HasId(t: Table, p: Partition, id: Range) {
    p.start == CDiv(id.0, t.sectorSize) && p.end == CDiv(id.1 - t.sectorSize + 1, t.sectorSize)
  }

  /** partition_with_id: the first partition with the id. */
  function FindFrom(t: Table, id: Range, i: nat): (r: Option<nat>)
    requires i <= |t.parts|
    ensures r.Some? ==> i <= r.value < |t.parts| && HasId(t, t.parts[r.value], id)
    ensures forall k :: i <= k < |t.parts| && HasId(t, t.parts[k], id) ==> r.Some? && r.value <= k
    decreases |t.parts| - i
  {
    if i == |t.parts| then None
    else if HasId(t, t.parts[i], id) then Some(i)
    else FindFrom(t, id, i + 1)
  }

  /** It rounds towards zero. */
  lemma CDivMeaning(a: int, b: int)
    requires b > 0
    ensures a >= 0 ==> CDiv(a, b) * b <= a < CDiv(a, b) * b + b
    ensures a <= 0 ==> CDiv(a, b) * b - b < a <= CDiv(a, b) * b
  {
    if a > 0 {
      assert a == b * (a / b) + a % b;
    } else if a < 0 {
      assert -a == b * (-a / b) + -a % b;
      assert CDiv(a, b) == -(-a / b);
      Negate(-a / b, b);
    }
  }

  lemma Negate(a: int, b: int)
    ensures (-a) * b == -(a * b)
  {
  }

  /** Which ids name a partition: those whose first byte lies in its first sector and whose
      last byte lies at the end of its last sector or less than a sector behind it. */
  lemma HasIdMeaning(t: Table, p: Partition, id: Range)
    requires id.0 >= 0 && id.1 >= t.sectorSize - 1
    ensures HasId(t, p, id) <==>
      && p.start * t.sectorSize <= id.0 < p.start * t.sectorSize + t.sectorSize
      && p.end * t.sectorSize + t.sectorSize - 1 <= id.1 < p.end * t.sectorSize + 2 * t.sectorSize - 1
  {
    SectorOf(id.0, t.sectorSize, p.start);
    SectorOf(id.1 - t.sectorSize + 1, t.sectorSize, p.end);
  }

  lemma SectorOf(a: nat, ss: Positive, k: int)
    ensures CDiv(a, ss) == k <==> k * ss <= a < k * ss + ss
  {
    CDivMeaning(a, ss);
    if k * ss <= a < k * ss + ss {
      DivUnique(a, ss, k, a - k * ss);
    }
  }

  lemma MulDiv(a: int, b: int)
    requires b > 0
    ensures CDiv(a * b, b) == a
  {
    if a >= 0 {
      DivExact(a, b);
    } else {
      DivExact(-a, b);
      assert (-a) * b == -(a * b);
      assert a * b < 0;
    }
  }

  lemma DivExact(a: nat, b: int)
    requires b > 0
    ensures (a * b) / b == a
  {
    DivUnique(a * b, b, a, 0);
  }

  lemma DivUnique(n: int, b: int, q: int, r: int)
    requires b > 0 && n == q * b + r && 0 <= r < b
    ensures n / b == q && n % b == r
  {
    var d := n / b - q;
    assert n == (n / b) * b + n % b;
    assert d * b == r - n % b;
    assert d > 0 ==> d * b >= b;
    assert d < 0 ==> d * b <= -b;
  }

  /** Looking up the id printed for a partition finds that partition, when no
      two share both ends. */
  lemma IdRoundTrip(t: Table, k: nat)
    requires k < |t.parts|
    requires forall i :: 0 <= i < |t.parts| && i != k ==> (t.parts[i].start, t.parts[i].end) != (t.parts[k].start, t.parts[k].end)
    ensures FindFrom(t, IdOf(t, t.parts[k]), 0) == Some(k)
  {
    MulDiv(t.parts[k].start, t.sectorSize);
    MulDiv(t.parts[k].end, t.sectorSize);
  }

  /** The method with the loop of partition_with_id. */
  method PartitionWithId(t: Table, id: Range) returns (r: Option<nat>)
    ensures r == FindFrom(t, id, 0)
  {
    var startSector := CDiv(id.0, t.sectorSize);
    var endSector := CDiv(id.1 - t.sectorSize + 1, t.sectorSize);
    for i := 0 to |t.parts|
      invariant FindFrom(t, id, 0) == FindFrom(t, id, i)
    {
      if t.parts[i].start == startSector && t.parts[i].end == endSector {
        return Some(i);
      }
    }
    return None;
  }

  // ---------------------------------------------------------------------
  // Positions of a new partition inside a byte range

  datatype Position = Full | Beginning | End

  /** Lines 1949-1959. */
  function Span(sectorSize: int, range: Range, position: Position, length: int): Range
    requires sectorSize > 0
  {
    match position
    case Full => (CDiv(range.0, sectorSize), CDiv(range.1 - sectorSize + 1, sectorSize))
    case Beginning => (CDiv(range.0, sectorSize), CDiv(range.0 + length, sectorSize))
    case End => (CDiv(range.1 - length, sectorSize), CDiv(range.1 - sectorSize + 1, sectorSize))
  }

  /** The byte range of the sectors first..last. */
  function ByteRange(sectorSize: int, first: int, last: int): Range {
    (first * sectorSize, last * sectorSize + sectorSize - 1)
  }

  /** A span of at least one byte and at most one sector more than asked for. */
  predicate SlightlyLonger(sectorSize: int, span: Range, length: int) {
    length + 1 <= (span.1 - span.0 + 1) * sectorSize <= length + sectorSize
  }

  lemma FullSpan(ss: int, first: nat, last: nat, length: int)
    requires ss > 0
    ensures Span(ss, ByteRange(ss, first, last), Full, length) == (first, last)
  {
    MulDiv(first, ss);
    MulDiv(last, ss);
  }

  lemma BeginningSpan(ss: int, first: nat, last: nat, length: nat)
    requires ss > 0 && first <= last
    ensures var span := Span(ss, ByteRange(ss, first, last), Beginning, length);
      && span.0 == first && SlightlyLonger(ss, span, length)
      && (span.1 <= last <==> length < (last - first + 1) * ss)
  {
    MulDiv(first, ss);
    var q, r := length / ss, length % ss;
    assert length == q * ss + r;
    assert (first + q) * ss == first * ss + q * ss;
    DivUnique(first * ss + length, ss, first + q, r);
    assert (q + 1) * ss == q * ss + ss;
    LessByQuotient(length, ss, last - first + 1);
  }

  lemma LessByQuotient(n: nat, ss: int, k: int)
    requires ss > 0
    ensures n / ss < k <==> n < k * ss
  {
    var q, r := n / ss, n % ss;
    assert n == q * ss + r;
    if q < k {
      assert (q + 1) * ss <= k * ss by { MulLe(q + 1, k, ss); }
      assert (q + 1) * ss == q * ss + ss;
    } else {
      MulLe(k, q, ss);
    }
  }

  lemma MulLe(a: int, b: int, c: int)
    requires a <= b && c >= 0
    ensures a * c <= b * c
  {
    assert (b - a) * c >= 0;
    assert (b - a) * c == b * c - a * c;
  }

  /** "end": the division of the first sector rounds towards zero, so the promise
      holds exactly when the last byte is not closer to the start of the disk than
      the length, or the difference is a whole number of sectors. */
  lemma EndSpan(ss: int, first: nat, last: nat, length: nat)
    requires ss > 0 && first <= last
    ensures var range := ByteRange(ss, first, last); var span := Span(ss, range, End, length);
      && span.1 == last
      && (SlightlyLonger(ss, span, length) <==> length <= range.1 || (length - range.1) % ss == 0)
  {
    MulDiv(last, ss);
    var n := ByteRange(ss, first, last).1 - length;
    assert n == (last + 1) * ss - 1 - length;
    if n >= 0 {
      var q, r := n / ss, n % ss;
      assert n == q * ss + r;
      assert (last - q + 1) * ss == (last + 1) * ss - q * ss;
    } else {
      var q, r := (-n) / ss, (-n) % ss;
      assert -n == q * ss + r;
      assert (last + q + 1) * ss == (last + 1) * ss + q * ss;
    }
  }

  /** Where "end" is right about the length it is right about the range too:
      it stays inside exactly when the length is less than the byte size. */
  lemma EndSpanInside(ss: int, first: nat, last: nat, length: nat)
    requires ss > 0 && first <= last
    requires SlightlyLonger(ss, Span(ss, ByteRange(ss, first, last), End, length), length)
    ensures Span(ss, ByteRange(ss, first, last), End, length).0 >= first
            <==> length < (last - first + 1) * ss
  {
    MulDiv(last, ss);
    var start := Span(ss, ByteRange(ss, first, last), End, length).0;
    var sectors := last - start + 1;
    if start >= first {
      MulLe(sectors, last - first + 1, ss);
    } else {
      MulLe(last - first + 2, sectors, ss);
      assert (last - first + 2) * ss == (last - first + 1) * ss + ss;
    }
  }

  /** A one-sector range at the start of the disk: asking for 512 bytes at the
      end gives a span of exactly 512 bytes, which is not one byte more. */
  lemma EndSpanTooShort()
    ensures Span(512, ByteRange(512, 0, 0), End, 512) == (0, 0)
    ensures !SlightlyLonger(512, (0, 0), 512)
  {
  }

  // ---------------------------------------------------------------------
  // The gap at the end of the disk

  function GrainSize(sectorSize: int): (grain: int)
    requires sectorSize > 0
    ensures grain > 0
  {
    if 65536 / sectorSize == 0 then 1 else 65536 / sectorSize
  }

  function RoundDown(n: int, grain: int): (r: int)
    requires grain > 0
    ensures n - grain < r <= n
  {
    n - n % grain
  }

  /** The last sector of gap_at_end_geom: it starts at 0 and has
      RoundDown(length, grain) - 1 sectors. */
  function GapEnd(sectorSize: int, length: int): int
    requires sectorSize > 0
  {
    RoundDown(length, GrainSize(sectorSize)) - 2
  }

  /** The first byte of an MD 0.90 superblock on a device of so many bytes. */
  function MdSuperblock(bytes: int): int {
    RoundDown(bytes, 65536) - 65536
  }

  /** The superblock of the partition starts before that of the whole disk. */
  predicate SuperblockBelow(ss: int, length: nat, start: nat, end: int) {
    start * ss + MdSuperblock((end - start + 1) * ss) < MdSuperblock(length * ss)
  }

  /** Sectors and 64K blocks fit: one is never cut by the border of the other. */
  predicate SectorsFit(ss: int)
    requires ss > 0
  {
    65536 % ss == 0 || ss > 65536
  }

  /** The promise of the gap at the end, in the units of the constraint. */
  lemma SuperblockSectorBelow(ss: int, length: nat, start: nat, end: int)
    requires ss > 0 && start <= end <= GapEnd(ss, length)
    ensures var g := GrainSize(ss); start + RoundDown(end - start + 1, g) - g < RoundDown(length, g) - g
  {
  }

  /** In bytes: no partition inside the gap constraint has its superblock where
      the whole disk has its own, exactly for the sector sizes that fit. */
  lemma GapSufficesIff(ss: int)
    requires ss > 0
    ensures SectorsFit(ss) <==>
      forall length: nat, start: nat, end :: start <= end <= GapEnd(ss, length) ==> SuperblockBelow(ss, length, start, end)
  {
    if SectorsFit(ss) {
      forall length: nat, start: nat, end | start <= end <= GapEnd(ss, length) ensures SuperblockBelow(ss, length, start, end) {
        GapSuffices(ss, length, start, end);
      }
    } else {
      var length, end := GapTooSmall(ss);
      assert !SuperblockBelow(ss, length, 0, end);
    }
  }

  lemma GapSuffices(ss: int, length: nat, start: nat, end: int)
    requires ss > 0 && SectorsFit(ss) && start <= end <= GapEnd(ss, length)
    ensures SuperblockBelow(ss, length, start, end)
  {
    assert start * ss + (end - start + 1) * ss == (end + 1) * ss;
    if ss > 65536 {
      DivUnique(65536, ss, 0, 65536);
      MulLe(end + 1, length - 1, ss);
      assert (length - 1) * ss == length * ss - ss;
    } else {
      assert 65536 == (65536 / ss) * ss + 65536 % ss;
      DivPositive(ss);
      AlignedEnd(GrainSize(ss), ss, length, end);
    }
  }

  lemma AlignedEnd(g: int, ss: int, length: nat, end: int)
    requires g > 0 && ss > 0 && g * ss == 65536 && 0 <= end <= RoundDown(length, g) - 2
    ensures (end + 1) * ss < RoundDown(length * ss, 65536)
  {
    var q := length / g;
    assert length == q * g + length % g;
    Associate(q, g, ss);
    BelowWhole(q * g, q, ss, length, end);
  }

  lemma BelowWhole(whole: int, q: int, ss: int, length: nat, end: int)
    requires ss > 0 && whole * ss == q * 65536 && end + 2 <= whole <= length
    ensures (end + 1) * ss < RoundDown(length * ss, 65536)
  {
    MulLe(end + 2, whole, ss);
    MulLe(whole, length, ss);
    assert (end + 2) * ss == (end + 1) * ss + ss;
  }

  /** Otherwise there is a disk on which the largest partition allowed at its
      start shares the superblock of the disk. */
  lemma GapTooSmall(ss: int) returns (length: nat, end: int)
    requires ss > 0 && !SectorsFit(ss)
    ensures 0 <= end <= GapEnd(ss, length)
    ensures MdSuperblock((end + 1) * ss) == MdSuperblock(length * ss)
  {
    var g := GrainSize(ss);
    assert 65536 == (65536 / ss) * ss + 65536 % ss;
    DivPositive(ss);
    var d := 65536 - g * ss;
    var q := (131072 - ss) / d;
    assert 131072 - ss == q * d + (131072 - ss) % d;
    assert q >= 2 by { if q <= 1 { MulLe(q, 1, d); } }
    SameBlock(g, ss, d, q, (131072 - ss) % d);
    length, end := q * g + g - 1, q * g - 2;
    assert q * g >= 2 by { MulLe(1, g, q); }
    DivUnique(length, g, q, g - 1);
  }

  lemma SameBlock(g: int, ss: int, d: int, q: int, r: int)
    requires g * ss + d == 65536 && 0 <= r < d && q * d + r == 131072 - ss && g * ss > 0
    ensures RoundDown((q * g - 1) * ss, 65536) == RoundDown((q * g + g - 1) * ss, 65536)
  {
    Associate(q, g, ss);
    assert q * (g * ss) == q * 65536 - q * d by { Distribute(g * ss, d, q); }
    Distribute(q * g, -1, ss);
    Distribute(q * g - 1, g, ss);
    SameFloor((q * g - 1) * ss, (q * g + g - 1) * ss, q - 2, r, d);
  }

  lemma SameFloor(n: int, m: int, k: int, r: int, d: int)
    requires n == k * 65536 + r && m == n + 65536 - d && 0 <= r < d <= 65536
    ensures RoundDown(n, 65536) == RoundDown(m, 65536)
  {
  }

  lemma Distribute(a: int, b: int, c: int)
    ensures (a + b) * c == a * c + b * c
    ensures c * (a + b) == c * a + c * b
  {
  }

  lemma DivPositive(ss: int)
    requires 0 < ss <= 65536
    ensures 65536 / ss >= 1 && GrainSize(ss) == 65536 / ss
  {
    assert 65536 == (65536 / ss) * ss + 65536 % ss;
    if 65536 / ss <= 0 {
      MulLe(65536 / ss, 0, ss);
    }
  }

  lemma Associate(a: int, b: int, c: int)
    ensures a * b * c == a * (b * c)
  {
  }

  // ---------------------------------------------------------------------
  // Where a logical partition is possible

  /** An active partition separates a free space from the extended partition. */
  predicate Between(part: Partition, space: Partition, extended: Partition) {
    part.IsActive() && ((space.Before(part) && part.Before(extended)) || (extended.Before(part) && part.Before(space)))
  }

  predicate NothingBetween(t: Table, space: Partition, extended: Partition) {
    forall i :: 0 <= i < |t.parts| ==> !Between(t.parts[i], space, extended)
  }

  /** The sectors from the first to the last of the two. */
  function Hull(a: Partition, b: Partition): Partition {
    a.(start := if a.start <= b.start then a.start else b.start, end := if a.end >= b.end then a.end else b.end)
  }

  /** The primary partitions do not overlap the extended one or the free space. */
  predicate Apart(t: Table, space: Partition, extended: Partition) {
    && (forall p :: p in t.parts && p.kind == Ordinary(false) ==> p.Disjoint(extended))
    && (forall p :: p in t.parts && p.kind == Ordinary(false) ==> p.Disjoint(space))
  }

  /** Nothing lies between exactly when the extended partition could be stretched
      over the free space without running into a primary partition. */
  lemma BetweenMeansBlocked(t: Table, space: Partition, e: nat)
    requires e < |t.parts| && t.parts[e].kind.Extended? && space.start <= space.end && Apart(t, space, t.parts[e])
    ensures NothingBetween(t, space, t.parts[e]) <==>
            forall p :: p in t.parts && p.kind == Ordinary(false) ==> p.Disjoint(Hull(t.parts[e], space))
  {
    var extended := t.parts[e];
    if NothingBetween(t, space, extended) {
      forall p | p in t.parts && p.kind == Ordinary(false) ensures p.Disjoint(Hull(extended, space)) {
        var i :| 0 <= i < |t.parts| && t.parts[i] == p;
        assert !Between(t.parts[i], space, extended);
      }
    }
    if forall p :: p in t.parts && p.kind == Ordinary(false) ==> p.Disjoint(Hull(extended, space)) {
      forall i | 0 <= i < |t.parts| ensures !Between(t.parts[i], space, extended) {
        assert t.parts[i] in t.parts;
        if Between(t.parts[i], space, extended) {
          BlockerIsPrimary(t, i, space, e);
        }
      }
    }
  }

  /** The assertion inside possible_logical_partition cannot fail. */
  lemma BlockerIsPrimary(t: Table, i: nat, space: Partition, e: nat)
    requires i < |t.parts| && e < |t.parts| && t.parts[e].kind.Extended? && Between(t.parts[i], space, t.parts[e])
    ensures t.parts[i].kind == Ordinary(false)
  {
  }
}
