/** Identifiers of s390 devices (packages/s390-zfcp/s390-dev.c): the printers, the
    parsers built on sscanf, and the byte order of LUNs. */
module S390Ids {
  import opened Wrappers
  import opened CText

  datatype CcwDevId = CcwDevId(cssid: nat, ssid: nat, devno: nat) {
    predicate InRange() {
      cssid <= CSSID_MAX && ssid <= SSID_MAX && devno <= DEVNO_MAX
    }
  }

  datatype LunDevId = LunDevId(fcpDev: CcwDevId, wwpn: nat, lun: nat) {
    predicate InRange() {
      fcpDev.InRange() && wwpn < Pow16(16) && lun < Pow16(16)
    }
  }

  const CSSID_MAX: nat := 0xff
  const SSID_MAX: nat := 0xf
  const DEVNO_MAX: nat := 0xffff

  datatype Error =
    | InvalidId | InvalidHexnum | InvalidDevIdFormat | InvalidCssidRange | InvalidSsidRange | InvalidDevnoRange
    | InvalidLunFormat | InvalidWwpnLength | InvalidWwpn | InvalidLunLength | InvalidLun

  datatype Result<+T> = Ok(value: T) | Err(error: Error)

  function Pow16(n: nat): nat {
    if n == 0 then 1 else 16 * Pow16(n - 1)
  }

  // ---------------------------------------------------------------------
  // Hexadecimal numbers

  /** "%x" */
  function Hex(n: nat): (s: string)
    ensures AllDigits(s, 16) && |s| > 0
  {
    Numeral(n, 16)
  }

  function Zeros(n: nat): (z: string)
    ensures |z| == n && forall i :: 0 <= i < n ==> z[i] == '0'
  {
    seq(n, _ => '0')
  }

  function Pad(s: string, width: nat): (r: string)
    requires AllDigits(s, 16)
    ensures AllDigits(r, 16)
  {
    if |s| < width then Zeros(width - |s|) + s else s
  }

  /** "%04x" and "%016x" */
  function HexPadded(n: nat, width: nat): (s: string)
    ensures AllDigits(s, 16)
  {
    Pad(Hex(n), width)
  }

  lemma HexMeaning(n: nat)
    ensures ValueOf(Hex(n), 16) == n
  {
    NumeralMeaning(n, 16);
  }

  lemma {:induction false} HexLength(n: nat, k: nat)
    requires n < Pow16(k) && k > 0
    ensures |Hex(n)| <= k
  {
    if n >= 16 {
      HexLength(n / 16, k - 1);
    }
  }

  lemma {:induction false} ZerosInFront(z: nat, s: string)
    requires AllDigits(s, 16)
    ensures AllDigits(Zeros(z) + s, 16) && ValueOf(Zeros(z) + s, 16) == ValueOf(s, 16)
    decreases |s|, z
  {
    var all := Zeros(z) + s;
    if s != [] {
      ZerosInFront(z, s[..|s| - 1]);
      assert all[..|all| - 1] == Zeros(z) + s[..|s| - 1];
    } else if z > 0 {
      ZerosInFront(z - 1, s);
      assert all[..|all| - 1] == Zeros(z - 1) + s;
    }
  }

  lemma PadMeaning(s: string, width: nat)
    requires AllDigits(s, 16) && |s| <= width
    ensures |Pad(s, width)| == width && ValueOf(Pad(s, width), 16) == ValueOf(s, 16)
  {
    ZerosInFront(width - |s|, s);
  }

  lemma PaddedMeaning(n: nat, width: nat)
    requires n < Pow16(width) && width > 0
    ensures |HexPadded(n, width)| == width && ValueOf(HexPadded(n, width), 16) == n
  {
    HexMeaning(n);
    HexLength(n, width);
    PadMeaning(Hex(n), width);
  }

  // ---------------------------------------------------------------------
  // sscanf

  /** An unsigned number without its sign: a "0x" counts as a number of its own. */
  function ScanDigits(s: string, width: nat): Option<Scanned> {
    if HasPrefix0x(s) && width >= 2 then
      var k := DigitRun(s[2..], 16, width - 2);
      Some(Scanned(ValueOf(s[2..][..k], 16), s[2 + k..]))
    else
      var k := DigitRun(s, 16, width);
      if k == 0 then None else Some(Scanned(ValueOf(s[..k], 16), s[k..]))
  }

  /** "%8x" or "%16llx": spaces, a sign and the prefix are allowed. */
  function ScanHex(s: string, width: nat, modulus: nat): Option<Scanned>
    requires modulus > 0
  {
    var t := SkipSpaces(s);
    if t != [] && t[0] == '-' && width > 0 then
      var r := ScanDigits(t[1..], width - 1);
      if r.None? then None else Some(Scanned((-r.value.value) % modulus, r.value.rest))
    else if t != [] && t[0] == '+' && width > 0 then ScanDigits(t[1..], width - 1)
    else ScanDigits(t, width)
  }

  /** Nothing is left for " %c". */
  predicate AtEnd(s: string) {
    SkipSpaces(s) == []
  }

  /** A run of digits that a different character, or the width, ends. */
  lemma ScanPrinted(ds: string, rest: string, width: nat, modulus: nat)
    requires modulus > 0 && AllDigits(ds, 16) && 0 < |ds| <= width
    requires rest == [] || (!IsDigit(rest[0], 16) && rest[0] != 'x' && rest[0] != 'X') || (|ds| == width > 1)
    ensures ScanHex(ds + rest, width, modulus) == Some(Scanned(ValueOf(ds, 16), rest))
  {
    var s := ds + rest;
    assert s[0] == ds[0] && IsDigit(ds[0], 16);
    assert SkipSpaces(s) == s;
    assert !HasPrefix0x(s) by {
      if |ds| > 1 {
        assert s[1] == ds[1] && IsDigit(ds[1], 16);
      } else if rest != [] {
        assert s[1] == rest[0];
      }
    }
    var k := DigitRun(s, 16, width);
    RunOfDigits(ds, rest, 16, width);
    assert s[..k] == ds && s[k..] == rest;
  }

  // ---------------------------------------------------------------------
  // CCW ids

  function InRangeOrError(d: CcwDevId): Result<CcwDevId> {
    if d.cssid > CSSID_MAX then Err(InvalidCssidRange)
    else if d.ssid > SSID_MAX then Err(InvalidSsidRange)
    else if d.devno > DEVNO_MAX then Err(InvalidDevnoRange)
    else Ok(d)
  }

  const UINT: nat := 0x1_0000_0000
  const UINT64: nat := 0x1_0000_0000_0000_0000

  /** A literal '.', then a number. */
  function ScanDotHex(s: string): Option<Scanned> {
    if s != [] && s[0] == '.' then ScanHex(s[1..], 8, UINT) else None
  }

  /** "%8x.%8x.%8x %c" yields exactly three values. */
  function ScanTriple(id: string): Option<(int, int, int)> {
    var a := ScanHex(id, 8, UINT);
    if a.None? then None
    else
      var b := ScanDotHex(a.value.rest);
      if b.None? then None
      else
        var c := ScanDotHex(b.value.rest);
        if c.None? || !AtEnd(c.value.rest) then None
        else Some((a.value.value, b.value.value, c.value.value))
  }

  /** ccw_parse_devid. */
  function ParseCcw(id: string): Result<CcwDevId> {
    var one := ScanHex(id, 8, UINT);
    if one.Some? && AtEnd(one.value.rest) then
      if id == "0x" || id == "0X" then Err(InvalidHexnum)
      else if one.value.value < 0 then Err(InvalidDevnoRange)
      else InRangeOrError(CcwDevId(0, 0, one.value.value))
    else
      var t := ScanTriple(id);
      if t.None? || t.value.0 < 0 || t.value.1 < 0 || t.value.2 < 0 then Err(InvalidDevIdFormat)
      else InRangeOrError(CcwDevId(t.value.0, t.value.1, t.value.2))
  }

  /** ccw_devid_to_str. */
  function PrintCcw(d: CcwDevId): string {
    Dotted(Hex(d.cssid), Hex(d.ssid), HexPadded(d.devno, 4))
  }

  lemma CcwLengths(d: CcwDevId)
    requires d.InRange()
    ensures |Hex(d.cssid)| <= 2 && |Hex(d.ssid)| <= 1 && |HexPadded(d.devno, 4)| == 4
    ensures ValueOf(Hex(d.cssid), 16) == d.cssid && ValueOf(Hex(d.ssid), 16) == d.ssid && ValueOf(HexPadded(d.devno, 4), 16) == d.devno
  {
    assert Pow16(1) == 16 && Pow16(2) == 256 && Pow16(4) == 16 * Pow16(3) == 256 * Pow16(2);
    HexLength(d.cssid, 2);
    HexLength(d.ssid, 1);
    HexMeaning(d.cssid);
    HexMeaning(d.ssid);
    PaddedMeaning(d.devno, 4);
  }

  function Dotted(a: string, b: string, c: string): string {
    a + (['.'] + (b + (['.'] + c)))
  }

  lemma ScanDotted(a: string, b: string, c: string)
    requires AllDigits(a, 16) && AllDigits(b, 16) && AllDigits(c, 16) && 0 < |a| < 8 && 0 < |b| < 8 && 0 < |c| < 8
    ensures ScanTriple(Dotted(a, b, c)) == Some((ValueOf(a, 16), ValueOf(b, 16), ValueOf(c, 16)))
    ensures var one := ScanHex(Dotted(a, b, c), 8, UINT); one.Some? && !AtEnd(one.value.rest)
  {
    var rest2 := ['.'] + c;
    var rest1 := ['.'] + (b + rest2);
    ScanPrinted(a, rest1, 8, UINT);
    assert rest1[1..] == b + rest2 && rest2[1..] == c + [];
    ScanPrinted(b, rest2, 8, UINT);
    ScanPrinted(c, [], 8, UINT);
  }

  /** Parsing what was printed gives the same id. */
  lemma CcwRoundTrip(d: CcwDevId)
    requires d.InRange()
    ensures ParseCcw(PrintCcw(d)) == Ok(d)
  {
    CcwLengths(d);
    ScanDotted(Hex(d.cssid), Hex(d.ssid), HexPadded(d.devno, 4));
  }

  // ---------------------------------------------------------------------
  // LUN ids

  function Find(s: string, c: char): (k: nat)
    ensures k <= |s| && (k < |s| ==> s[k] == c) && forall i :: 0 <= i < k ==> s[i] != c
  {
    if s == [] || s[0] == c then 0 else 1 + Find(s[1..], c)
  }

  function Strip0x(s: string): string {
    if HasPrefix0x(s) then s[2..] else s
  }

  /** Sixteen characters that are one number. */
  function ParseNumber(s: string, badLength: Error, badNumber: Error): Result<nat> {
    var t := Strip0x(s);
    if |t| != 16 then Err(badLength)
    else
      var r := ScanHex(t, 16, UINT64);
      if r.None? || !AtEnd(r.value.rest) || r.value.value < 0 then Err(badNumber) else Ok(r.value.value)
  }

  /** zfcp_lun_parse_devid. */
  function ParseLun(id: string): Result<LunDevId> {
    var k := Find(id, ':');
    if k == |id| then Err(InvalidLunFormat) else ParseAfterCcw(ParseCcw(id[..k]), id[k + 1..])
  }

  function ParseAfterCcw(fcpDev: Result<CcwDevId>, rest: string): Result<LunDevId> {
    var m := Find(rest, ':');
    if fcpDev.Err? then Err(InvalidId)
    else if m == |rest| then Err(InvalidLunFormat)
    else
      LunFrom(fcpDev.value, ParseNumber(rest[..m], InvalidWwpnLength, InvalidWwpn),
              ParseNumber(rest[m + 1..], InvalidLunLength, InvalidLun))
  }

  function LunFrom(fcpDev: CcwDevId, wwpn: Result<nat>, lun: Result<nat>): Result<LunDevId> {
    if wwpn.Err? then Err(wwpn.error)
    else if lun.Err? then Err(lun.error)
    else Ok(LunDevId(fcpDev, wwpn.value, lun.value))
  }

  const NUL: char := '\0'

  lemma FindIs(text: string, k: nat)
    requires k <= |text| && (forall i :: 0 <= i < k ==> text[i] != ':') && (k < |text| ==> text[k] == ':')
    ensures Find(text, ':') == k
  {
  }

  /** strchr(curr, ':') and "*delim = 0" on the copy. */
  method CutAtColon(copy: array<char>, curr: nat, ghost text: string) returns (found: bool, delim: nat)
    requires NUL !in text && curr + |text| + 1 == copy.Length && copy[curr..] == text + [NUL]
    modifies copy
    ensures found <==> Find(text, ':') < |text|
    ensures delim == curr + Find(text, ':')
    ensures copy[curr..delim] == text[..Find(text, ':')] && copy[delim] == NUL
    ensures found ==> copy[delim + 1..] == text[Find(text, ':') + 1..] + [NUL]
  {
    delim := curr;
    ghost var k := 0;
    while copy[delim] != NUL && copy[delim] != ':'
      invariant delim == curr + k && 0 <= k <= |text|
      invariant forall i :: 0 <= i < k ==> text[i] != ':'
      decreases |text| - k
    {
      assert copy[delim] == copy[curr..][k] == (text + [NUL])[k];
      delim, k := delim + 1, k + 1;
    }
    assert copy[delim] == copy[curr..][k] == (text + [NUL])[k];
    FindIs(text, k);
    assert copy[curr..delim] == copy[curr..][..k] == text[..k] && copy[delim + 1..] == copy[curr..][k + 1..];
    found := copy[delim] == ':';
    copy[delim] := NUL;
  }

  /** zfcp_lun_parse_devid, cutting a copy of the id in place. */
  method ZfcpLunParse(id: string) returns (r: Result<LunDevId>)
    requires NUL !in id
    ensures r == ParseLun(id)
  {
    var copy := new char[|id| + 1](i requires 0 <= i <= |id| => if i < |id| then id[i] else NUL);
    var found, delim := CutAtColon(copy, 0, id);
    if !found {
      return Err(InvalidLunFormat);
    }
    var fcpDev := ParseCcw(copy[..delim]);
    if fcpDev.Err? {
      return Err(InvalidId);
    }
    var curr := delim + 1;
    ghost var rest := id[curr..];
    var found2, delim2 := CutAtColon(copy, curr, rest);
    if !found2 {
      return Err(InvalidLunFormat);
    }
    var wwpn := ParseNumber(copy[curr..delim2], InvalidWwpnLength, InvalidWwpn);
    if wwpn.Err? {
      return Err(wwpn.error);
    }
    assert copy[delim2 + 1..copy.Length - 1] == rest[Find(rest, ':') + 1..];
    var lun := ParseNumber(copy[delim2 + 1..copy.Length - 1], InvalidLunLength, InvalidLun);
    if lun.Err? {
      return Err(lun.error);
    }
    r := Ok(LunDevId(fcpDev.value, wwpn.value, lun.value));
  }

  function With0x(s: string): string {
    ['0', 'x'] + s
  }

  /** zfcp_lun_devid_to_str. */
  function PrintLun(d: LunDevId): string {
    PrintCcw(d.fcpDev) + ([':'] + (With0x(HexPadded(d.wwpn, 16)) + ([':'] + With0x(HexPadded(d.lun, 16)))))
  }

  lemma NumberRoundTrip(n: nat, badLength: Error, badNumber: Error)
    requires n < Pow16(16)
    ensures ParseNumber(With0x(HexPadded(n, 16)), badLength, badNumber) == Ok(n)
  {
    var ds := HexPadded(n, 16);
    PaddedMeaning(n, 16);
    assert Strip0x(With0x(ds)) == ds && ds == ds + [];
    ScanPrinted(ds, [], 16, UINT64);
  }

  lemma FindAfter(a: string, rest: string, c: char)
    requires c !in a
    ensures Find(a + [c] + rest, c) == |a|
  {
    assert (a + [c] + rest)[|a|] == c;
    assert forall i :: 0 <= i < |a| ==> (a + [c] + rest)[i] == a[i];
  }

  lemma NoColon(s: string)
    requires forall i :: 0 <= i < |s| ==> IsDigit(s[i], 16) || s[i] == '.' || s[i] == 'x'
    ensures ':' !in s
  {
  }

  lemma ParseFirstPiece(ccw: string, rest: string)
    requires ':' !in ccw
    ensures ParseLun(ccw + ([':'] + rest)) == ParseAfterCcw(ParseCcw(ccw), rest)
  {
    var id := ccw + ([':'] + rest);
    ColonPieces(ccw, rest);
    assert ParseLun(id) == ParseAfterCcw(ParseCcw(id[..|ccw|]), id[|ccw| + 1..]);
  }

  lemma ParseSecondPiece(fcpDev: CcwDevId, w: string, l: string)
    requires ':' !in w
    ensures ParseAfterCcw(Ok(fcpDev), w + ([':'] + l)) ==
            LunFrom(fcpDev, ParseNumber(w, InvalidWwpnLength, InvalidWwpn), ParseNumber(l, InvalidLunLength, InvalidLun))
  {
    ColonPieces(w, l);
  }

  lemma CcwHasNoColon(d: CcwDevId)
    ensures ':' !in PrintCcw(d)
  {
    NoColon(PrintCcw(d));
  }

  lemma NumberHasNoColon(n: nat)
    ensures ':' !in With0x(HexPadded(n, 16))
  {
    NoColon(HexPadded(n, 16));
  }

  /** Parsing what was printed gives the same LUN id, for every 64-bit number. */
  lemma LunRoundTrip(d: LunDevId)
    requires d.InRange()
    ensures ParseLun(PrintLun(d)) == Ok(d)
  {
    CcwRoundTrip(d.fcpDev);
    NumberRoundTrip(d.wwpn, InvalidWwpnLength, InvalidWwpn);
    NumberRoundTrip(d.lun, InvalidLunLength, InvalidLun);
    CcwHasNoColon(d.fcpDev);
    NumberHasNoColon(d.wwpn);
    var w, l := With0x(HexPadded(d.wwpn, 16)), With0x(HexPadded(d.lun, 16));
    ParseFirstPiece(PrintCcw(d.fcpDev), w + ([':'] + l));
    ParseSecondPiece(d.fcpDev, w, l);
  }

  lemma ColonPieces(a: string, b: string)
    requires ':' !in a
    ensures var s := a + ([':'] + b);
      Find(s, ':') == |a| < |s| && s[..|a|] == a && s[|a| + 1..] == b
  {
    assert a + ([':'] + b) == a + [':'] + b;
    FindAfter(a, b, ':');
  }

  // ---------------------------------------------------------------------
  // Byte order

  /** What swapping position by position makes of the bytes. */
  function Swapped(bytes: seq<nat>, pos: seq<nat>): (r: seq<nat>)
    requires |pos| <= |bytes| && forall i :: 0 <= i < |pos| ==> pos[i] < |bytes|
    ensures |r| == |bytes|
  {
    if pos == [] then bytes
    else
      var last := |pos| - 1;
      var b := Swapped(bytes, pos[..last]);
      b[last := b[pos[last]]][pos[last] := b[last]]
  }

  /** byte_swap. */
  method ByteSwap(addr: array<nat>, pos: seq<nat>)
    requires |pos| <= addr.Length && forall i :: 0 <= i < |pos| ==> pos[i] < addr.Length
    modifies addr
    ensures addr[..] == Swapped(old(addr[..]), pos)
  {
    for i := 0 to |pos|
      invariant addr[..] == Swapped(old(addr[..]), pos[..i])
    {
      assert pos[..i + 1][..i] == pos[..i];
      var s := addr[i];
      addr[i] := addr[pos[i]];
      addr[pos[i]] := s;
    }
    assert pos[..|pos|] == pos;
  }

  /** The first positions are exchanged with different ones behind them. */
  predicate Exchanges(pos: seq<nat>, n: nat) {
    && |pos| <= n
    && (forall i :: 0 <= i < |pos| ==> |pos| <= pos[i] < n)
    && (forall i, j :: 0 <= i < j < |pos| ==> pos[i] != pos[j])
  }

  lemma {:induction false} SwappedAt(b: seq<nat>, pos: seq<nat>)
    requires Exchanges(pos, |b|)
    ensures forall i :: 0 <= i < |pos| ==> Swapped(b, pos)[i] == b[pos[i]] && Swapped(b, pos)[pos[i]] == b[i]
    ensures forall k :: |pos| <= k < |b| && k !in pos ==> Swapped(b, pos)[k] == b[k]
  {
    if pos != [] {
      var last := |pos| - 1;
      var init := pos[..last];
      SwappedAt(b, init);
      assert last !in init && pos[last] !in init;
      var s := Swapped(b, init);
      assert s[last] == b[last] && s[pos[last]] == b[pos[last]];
      assert Swapped(b, pos) == s[last := b[pos[last]]][pos[last] := b[last]];
      assert forall i :: 0 <= i < last ==> init[i] == pos[i];
      forall k | |pos| <= k < |b| && k !in pos ensures Swapped(b, pos)[k] == b[k] {
        assert k != pos[last] && k !in init;
      }
    }
  }

  /** Such an exchange undoes itself. */
  lemma SwapTwice(b: seq<nat>, pos: seq<nat>)
    requires Exchanges(pos, |b|)
    ensures Swapped(Swapped(b, pos), pos) == b
  {
    var r := Swapped(b, pos);
    SwappedAt(b, pos);
    SwappedAt(r, pos);
    forall k | 0 <= k < |b| ensures Swapped(r, pos)[k] == b[k] {
      if k >= |pos| && k in pos {
        var i :| 0 <= i < |pos| && pos[i] == k;
        assert Swapped(r, pos)[pos[i]] == r[i];
      }
    }
  }

  /** lun_swap[] */
  predicate IsLunSwap(pos: seq<nat>) {
    |pos| == 4 && pos[0] == 6 && pos[1] == 7 && pos[2] == 4 && pos[3] == 5
  }

  function Word(b: seq<nat>, i: nat): (nat, nat)
    requires 2 * i + 1 < |b|
  {
    (b[2 * i], b[2 * i + 1])
  }

  lemma FourSwaps(b: seq<nat>, r: seq<nat>, pos: seq<nat>)
    requires |b| == |r| == 8 && IsLunSwap(pos)
    requires forall i :: 0 <= i < |pos| ==> r[i] == b[pos[i]] && r[pos[i]] == b[i]
    ensures forall i :: 0 <= i < 4 ==> Word(r, i) == Word(b, 3 - i)
  {
    assert r[pos[0]] == b[0] && r[pos[1]] == b[1] && r[pos[2]] == b[2] && r[pos[3]] == b[3];
    assert Word(r, 0) == Word(b, 3) && Word(r, 1) == Word(b, 2) && Word(r, 2) == Word(b, 1) && Word(r, 3) == Word(b, 0);
  }

  /** scsi_lun_to_fcp_lun reverses the four 16-bit words of a LUN, whatever the
      byte order inside a word, and so it undoes itself. */
  lemma LunSwapReversesWords(b: seq<nat>, pos: seq<nat>)
    requires |b| == 8 && IsLunSwap(pos)
    ensures forall i :: 0 <= i < 4 ==> Word(Swapped(b, pos), i) == Word(b, 3 - i)
    ensures Swapped(Swapped(b, pos), pos) == b
  {
    SwapTwice(b, pos);
    SwappedAt(b, pos);
    FourSwaps(b, Swapped(b, pos), pos);
  }
}
