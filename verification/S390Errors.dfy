/** Which ids the parsers of packages/s390-zfcp/s390-dev.c take, and how they refuse the
    others. */
module S390Errors {
  import opened Wrappers
  import opened CText
  import opened S390Ids

  // ---------------------------------------------------------------------
  // CCW ids

  predicate Number(s: string, most: nat) {
    0 < |s| <= most && AllDigits(s, 16)
  }

  /** Three hexadecimal numbers of up to seven digits are an id exactly when each is in its
      range; the first that is not is reported. */
  lemma CcwOfThree(a: string, b: string, c: string)
    requires Number(a, 7) && Number(b, 7) && Number(c, 7)
    ensures var d := CcwDevId(ValueOf(a, 16), ValueOf(b, 16), ValueOf(c, 16));
      ParseCcw(a + (['.'] + (b + (['.'] + c)))) ==
      if d.cssid > 0xff then Err(InvalidCssidRange)
      else if d.ssid > 0xf then Err(InvalidSsidRange)
      else if d.devno > 0xffff then Err(InvalidDevnoRange)
      else Ok(d)
  {
    ScanDotted(a, b, c);
    assert Dotted(a, b, c) == a + (['.'] + (b + (['.'] + c)));
  }

  /** A single number is a device number. */
  lemma CcwOfOne(s: string)
    requires Number(s, 8)
    ensures ParseCcw(s) == if ValueOf(s, 16) > 0xffff then Err(InvalidDevnoRange) else Ok(CcwDevId(0, 0, ValueOf(s, 16)))
  {
    assert s == s + [];
    ScanPrinted(s, [], 8, UINT);
    assert s != "0x" && s != "0X" by {
      assert IsDigit(s[|s| - 1], 16);
    }
  }

  /** Two numbers are none. */
  lemma CcwOfTwo(a: string, b: string)
    requires Number(a, 7) && Number(b, 7)
    ensures ParseCcw(a + (['.'] + b)) == Err(InvalidDevIdFormat)
  {
    var rest := ['.'] + b;
    ScanPrinted(a, rest, 8, UINT);
    assert rest[1..] == b + [];
    ScanPrinted(b, [], 8, UINT);
  }

  /** Nor is a text that does not begin like a number. */
  lemma CcwOfOther(s: string)
    requires SkipSpaces(s) == [] || var c := SkipSpaces(s)[0]; !IsDigit(c, 16) && c != '+' && c != '-'
    ensures ParseCcw(s) == Err(InvalidDevIdFormat)
  {
  }

  // ---------------------------------------------------------------------
  // LUN ids

  /** A number with or without its prefix. */
  function MaybePrefixed(s: string, prefixed: bool): string {
    if prefixed then With0x(s) else s
  }

  lemma Stripped(s: string, prefixed: bool)
    requires AllDigits(s, 16)
    ensures Strip0x(MaybePrefixed(s, prefixed)) == s
  {
    if prefixed {
      assert With0x(s)[2..] == s;
    } else if |s| >= 2 {
      assert IsDigit(s[1], 16);
    }
  }

  lemma NumberOfDigits(s: string, prefixed: bool, badLength: Error, badNumber: Error)
    requires AllDigits(s, 16)
    ensures ParseNumber(MaybePrefixed(s, prefixed), badLength, badNumber) == if |s| == 16 then Ok(ValueOf(s, 16)) else Err(badLength)
  {
    Stripped(s, prefixed);
    if |s| == 16 {
      assert s == s + [];
      ScanPrinted(s, [], 16, UINT64);
    }
  }

  lemma DigitsHaveNoColon(s: string, prefixed: bool)
    requires AllDigits(s, 16)
    ensures ':' !in MaybePrefixed(s, prefixed)
  {
    NoColon(s);
  }

  /** A LUN id of two hexadecimal numbers behind the device is one exactly when the device
      is and both numbers have sixteen digits; the first fault is reported. */
  lemma LunOfThree(ccw: string, w: string, l: string, prefixedW: bool, prefixedL: bool)
    requires ':' !in ccw && AllDigits(w, 16) && AllDigits(l, 16)
    ensures ParseLun(ccw + ([':'] + (MaybePrefixed(w, prefixedW) + ([':'] + MaybePrefixed(l, prefixedL))))) ==
      if ParseCcw(ccw).Err? then Err(InvalidId)
      else if |w| != 16 then Err(InvalidWwpnLength)
      else if |l| != 16 then Err(InvalidLunLength)
      else Ok(LunDevId(ParseCcw(ccw).value, ValueOf(w, 16), ValueOf(l, 16)))
  {
    var wwpn, lun := MaybePrefixed(w, prefixedW), MaybePrefixed(l, prefixedL);
    ParseFirstPiece(ccw, wwpn + ([':'] + lun));
    if ParseCcw(ccw).Ok? {
      DigitsHaveNoColon(w, prefixedW);
      ParseSecondPiece(ParseCcw(ccw).value, wwpn, lun);
      NumberOfDigits(w, prefixedW, InvalidWwpnLength, InvalidWwpn);
      NumberOfDigits(l, prefixedL, InvalidLunLength, InvalidLun);
    }
  }

  /** Without two colons it is none. */
  lemma LunOfTwo(ccw: string, rest: string)
    requires ':' !in ccw && ':' !in rest
    ensures ParseLun(ccw) == Err(InvalidLunFormat)
    ensures ParseLun(ccw + ([':'] + rest)) == if ParseCcw(ccw).Err? then Err(InvalidId) else Err(InvalidLunFormat)
  {
    ParseFirstPiece(ccw, rest);
    NoneFound(ccw);
    NoneFound(rest);
  }

  lemma NoneFound(s: string)
    requires ':' !in s
    ensures Find(s, ':') == |s|
  {
    FindIs(s, |s|);
  }
}
