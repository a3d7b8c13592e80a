/** Partition ids as text: the bytes of the first and the last sector in decimal, as
    parted_server prints them, and the scan that finds the partition again
    (packages/partman-base/parted_server.c). */
module PartedIds {
  import opened Wrappers
  import opened CText
  import opened PartedTable

  const LLONG_MAX: int := 0x7fff_ffff_ffff_ffff

  /** "%lli" when printing a number that is not negative. */
  function Decimal(n: nat): string {
    Numeral(n, 10)
  }

  // ---------------------------------------------------------------------
  // sscanf

  /** A number without its sign: the base is 16 after "0x", 8 after "0", else 10. */
  function ScanUnsigned(s: string): Option<Scanned> {
    if HasPrefix0x(s) then
      var k := DigitRun(s[2..], 16, |s|);
      Some(Scanned(ValueOf(s[2..][..k], 16), s[2 + k..]))
    else
      var base := if s != [] && s[0] == '0' then 8 else 10;
      var k := DigitRun(s, base, |s|);
      if k == 0 then None else Some(Scanned(ValueOf(s[..k], base), s[k..]))
  }

  function Clamp(v: int): int {
    if v > LLONG_MAX then LLONG_MAX else if v < -LLONG_MAX - 1 then -LLONG_MAX - 1 else v
  }

  /** "%lli" when scanning. */
  function ScanNumber(s: string): Option<Scanned> {
    var t := SkipSpaces(s);
    var negative := t != [] && t[0] == '-';
    var r := ScanUnsigned(if t != [] && (t[0] == '-' || t[0] == '+') then t[1..] else t);
    if r.None? then None
    else Some(Scanned(Clamp(if negative then -r.value.value else r.value.value), r.value.rest))
  }

  /** "%lli-%lli" yields two values. */
  function ScanId(s: string): Option<Range> {
    var a := ScanNumber(s);
    if a.None? || a.value.rest == [] || a.value.rest[0] != '-' then None
    else
      var b := ScanNumber(a.value.rest[1..]);
      if b.None? then None else Some((a.value.value, b.value.value))
  }

  lemma ScanDecimal(n: nat, rest: string)
    requires n <= LLONG_MAX && (rest == [] || rest[0] == '-')
    ensures ScanNumber(Decimal(n) + rest) == Some(Scanned(n, rest))
  {
    var ds := Decimal(n);
    var s := ds + rest;
    NumeralMeaning(n, 10);
    assert s[0] == ds[0] && SkipSpaces(s) == s;
    if n == 0 {
      RunOfDigits(ds, rest, 8, |s|);
      assert ds == "0" && s[..1] == "0" && s[1..] == rest;
      assert "0"[..0] == [] && ValueOf("0", 8) == 0;
    } else {
      RunOfDigits(ds, rest, 10, |s|);
      assert s[..|ds|] == ds && s[|ds|..] == rest;
    }
  }

  // ---------------------------------------------------------------------
  // Ids

  /** The id column of partition_info. */
  function PrintId(t: Table, p: Partition): string
    requires 0 <= p.start <= p.end
  {
    var id := IdOf(t, p);
    NonNegative(t, p);
    Decimal(id.0) + (['-'] + Decimal(id.1))
  }

  lemma NonNegative(t: Table, p: Partition)
    requires 0 <= p.start <= p.end
    ensures 0 <= IdOf(t, p).0 && 0 <= IdOf(t, p).1
  {
    MulLe(0, p.start, t.sectorSize);
    MulLe(0, p.end, t.sectorSize);
  }

  /** Scanning a printed id gives its two numbers, on every disk whose bytes can be
      counted by a long long. */
  lemma ScanPrintedId(t: Table, p: Partition)
    requires 0 <= p.start <= p.end && IdOf(t, p).0 <= LLONG_MAX && IdOf(t, p).1 <= LLONG_MAX
    ensures ScanId(PrintId(t, p)) == Some(IdOf(t, p))
  {
    var id := IdOf(t, p);
    NonNegative(t, p);
    var tail := ['-'] + Decimal(id.1);
    ScanDecimal(id.0, tail);
    assert tail[1..] == Decimal(id.1) && Decimal(id.1) + [] == Decimal(id.1);
    ScanDecimal(id.1, []);
  }

  /** The id printed for a partition finds that partition, when no two share both ends. */
  lemma TextRoundTrip(t: Table, k: nat)
    requires k < |t.parts| && 0 <= t.parts[k].start && IdOf(t, t.parts[k]).0 <= LLONG_MAX && IdOf(t, t.parts[k]).1 <= LLONG_MAX
    requires forall i :: 0 <= i < |t.parts| && i != k ==> (t.parts[i].start, t.parts[i].end) != (t.parts[k].start, t.parts[k].end)
    ensures var id := ScanId(PrintId(t, t.parts[k])); id.Some? && FindFrom(t, id.value, 0) == Some(k)
  {
    ScanPrintedId(t, t.parts[k]);
    IdRoundTrip(t, k);
  }
}
