/** Netmasks, networks and gateways of netcfg (packages/netcfg/netcfg-common.c,
    packages/netcfg/static.c). An address is the sequence of its bits, the most
    significant one first: 32 of them for IPv4 and 128 for IPv6. */
module NetcfgMask {
  import opened Wrappers

  type Bits = seq<bool>

  // ---------------------------------------------------------------------
  // Words of bits

  function And(a: Bits, b: Bits): (r: Bits)
    requires |a| == |b|
    ensures |r| == |a| && forall i :: 0 <= i < |r| ==> r[i] == (a[i] && b[i])
  {
    seq(|a|, i requires 0 <= i < |a| => a[i] && b[i])
  }

  function Or(a: Bits, b: Bits): (r: Bits)
    requires |a| == |b|
    ensures |r| == |a| && forall i :: 0 <= i < |r| ==> r[i] == (a[i] || b[i])
  {
    seq(|a|, i requires 0 <= i < |a| => a[i] || b[i])
  }

  function Not(a: Bits): (r: Bits)
    ensures |r| == |a| && forall i :: 0 <= i < |r| ==> r[i] == !a[i]
  {
    seq(|a|, i requires 0 <= i < |a| => !a[i])
  }

  function Const(width: nat, b: bool): (r: Bits)
    ensures |r| == width && forall i :: 0 <= i < width ==> r[i] == b
  {
    seq(width, _ => b)
  }

  /** 1 << k in a word of that width. */
  function OneShifted(width: nat, k: nat): (r: Bits)
    requires k < width
    ensures |r| == width && forall i :: 0 <= i < width ==> r[i] == (i == width - 1 - k)
  {
    seq(width, i => i == width - 1 - k)
  }

  /** The mask of the first n bits. */
  function Mask(width: nat, n: nat): (r: Bits)
    ensures |r| == width && forall i :: 0 <= i < width ==> r[i] == (i < n)
  {
    seq(width, i => i < n)
  }

  function Pow2(n: nat): (r: nat)
    ensures r > 0
  {
    if n == 0 then 1 else 2 * Pow2(n - 1)
  }

  /** The number a word stands for. */
  function Val(b: Bits): nat {
    if b == [] then 0 else 2 * Val(b[..|b| - 1]) + if b[|b| - 1] then 1 else 0
  }

  // ---------------------------------------------------------------------
  // Lengths and masks

  /** The number of ones at the front. */
  function LeadingOnes(b: Bits): (n: nat)
    ensures n <= |b|
    ensures forall i :: 0 <= i < n ==> b[i]
    ensures n < |b| ==> !b[n]
  {
    if b == [] || !b[0] then 0 else 1 + LeadingOnes(b[1..])
  }

  /** A mask: no one after a zero. */
  predicate Contiguous(b: Bits) {
    forall i, j :: 0 <= i < j < |b| && b[j] ==> b[i]
  }

  /** The scan from mask to length inverts the construction from length to mask. */
  lemma LengthOfMask(width: nat, n: nat)
    requires n <= width
    ensures LeadingOnes(Mask(width, n)) == n
  {
    var k := LeadingOnes(Mask(width, n));
    assert k < width ==> !Mask(width, n)[k];
    assert k > 0 ==> Mask(width, n)[k - 1];
  }

  /** The other way round it does so exactly for contiguous masks. */
  lemma MaskOfLengthIff(b: Bits)
    ensures Mask(|b|, LeadingOnes(b)) == b <==> Contiguous(b)
  {
    var n := LeadingOnes(b);
    if Contiguous(b) {
      assert forall i :: n < i < |b| ==> !b[i];
    }
  }

  /** count_bits. */
  method CountBits(num: Bits) returns (count: nat)
    requires |num| == 32
    ensures count == LeadingOnes(num)
  {
    var n := num;
    count := 0;
    while n[0]
      invariant |n| == 32 && count <= 32 && n == num[count..] + Const(count, false)
      invariant forall i :: 0 <= i < count ==> num[i]
      decreases 32 - count
    {
      count := count + 1;
      n := n[1..] + [false];
      assert n == num[count..] + Const(count, false);
    }
    assert count < 32 ==> !num[count];
  }

  /** inet_ptom on a parsed IPv6 mask: word by word, until one is not full. */
  method MaskLength6(addr: Bits) returns (dst: nat)
    requires |addr| == 128
    ensures dst == LeadingOnes(addr)
  {
    dst := 0;
    var i := 0;
    while i < 4
      invariant 0 <= i <= 4 && dst == 32 * i
      invariant forall k :: 0 <= k < dst ==> addr[k]
    {
      var word := addr[32 * i..32 * i + 32];
      var count := CountBits(word);
      forall k | dst <= k < dst + count ensures addr[k] {
        assert word[k - dst] == addr[k];
      }
      dst := dst + count;
      if count != 32 {
        assert !word[count];
        break;
      }
      i := i + 1;
    }
  }

  /** inet_mton for IPv4. */
  method MaskFromLength4(src: nat) returns (mask: Bits)
    requires src <= 32
    ensures mask == Mask(32, src)
  {
    mask := Const(32, false);
    var s := src;
    while s > 0
      invariant s <= src && |mask| == 32
      invariant forall i :: 0 <= i < 32 ==> mask[i] == (s <= i < src)
    {
      mask := Or(mask, OneShifted(32, 32 - s));
      s := s - 1;
    }
  }

  function Flatten(bytes: seq<Bits>): Bits {
    if bytes == [] then [] else bytes[0] + Flatten(bytes[1..])
  }

  lemma {:induction false} FlattenAt(bytes: seq<Bits>, i: nat)
    requires (forall k :: 0 <= k < |bytes| ==> |bytes[k]| == 8) && i < 8 * |bytes|
    ensures |Flatten(bytes)| == 8 * |bytes| && Flatten(bytes)[i] == bytes[i / 8][i % 8]
  {
    if |bytes| > 1 {
      FlattenAt(bytes[1..], if i < 8 then 0 else i - 8);
    } else {
      assert bytes[1..] == [];
    }
  }

  /** inet_mton for IPv6: whole bytes, then the bits of the next one. */
  method MaskFromLength6(src: nat) returns (bytes: seq<Bits>)
    requires src <= 128
    ensures |bytes| == 16 && Flatten(bytes) == Mask(128, src)
  {
    bytes := seq(16, _ => Const(8, false));
    var s, byte := src, 0;
    while s > 7
      invariant 0 <= s && s + 8 * byte == src && |bytes| == 16 && byte <= 16
      invariant forall k :: 0 <= k < 16 ==> bytes[k] == Const(8, k < byte)
    {
      bytes := bytes[byte := Const(8, true)];
      byte, s := byte + 1, s - 8;
    }
    var r := s;
    while s > 0
      invariant 0 <= s <= r < 8 && r + 8 * byte == src && |bytes| == 16 && byte <= 16 && (r > 0 ==> byte < 16)
      invariant forall k :: 0 <= k < 16 && k != byte ==> bytes[k] == Const(8, k < byte)
      invariant byte < 16 ==> bytes[byte] == Or(Const(8, false), seq(8, i => s <= i < r))
    {
      bytes := bytes[byte := Or(bytes[byte], OneShifted(8, 8 - s))];
      s := s - 1;
      assert bytes[byte] == Or(Const(8, false), seq(8, i => s <= i < r));
    }
    Mask6Flat(bytes, src);
  }

  lemma Mask6Flat(bytes: seq<Bits>, n: nat)
    requires |bytes| == 16 && (forall k :: 0 <= k < 16 ==> |bytes[k]| == 8)
    requires forall k, j :: 0 <= k < 16 && 0 <= j < 8 ==> bytes[k][j] == (8 * k + j < n)
    ensures Flatten(bytes) == Mask(128, n)
  {
    FlattenAt(bytes, 0);
    forall i | 0 <= i < 128 ensures Flatten(bytes)[i] == (i < n) {
      FlattenAt(bytes, i);
    }
  }

  // ---------------------------------------------------------------------
  // Networks

  function Network(ip: Bits, n: nat): Bits {
    And(ip, Mask(|ip|, n))
  }

  function Broadcast(ip: Bits, n: nat): Bits {
    Or(Network(ip, n), Not(Mask(|ip|, n)))
  }

  predicate IsZero(b: Bits) {
    forall i :: 0 <= i < |b| ==> !b[i]
  }

  /** The masked gateway is the network. */
  predicate SameNetwork(ip: Bits, n: nat, gw: Bits)
    requires |ip| == |gw|
  {
    And(gw, Mask(|ip|, n)) == Network(ip, n)
  }

  /** The last expression of netcfg_gateway_reachable for IPv4. */
  predicate Reachable4(ip: Bits, n: nat, gw: Bits)
    requires |ip| == |gw| == 32
  {
    !IsZero(gw) && SameNetwork(ip, n, gw)
  }

  /** fe80::/10, as the 16-bit swap of the first word reads it on a little-endian machine. */
  predicate LinkLocal(gw: Bits)
    requires |gw| == 128
  {
    gw[..10] == [true, true, true, true, true, true, true, false, true, false]
  }

  predicate Reachable6(ip: Bits, n: nat, gw: Bits)
    requires |ip| == |gw| == 128
  {
    LinkLocal(gw) || SameNetwork(ip, n, gw)
  }

  /** netcfg_gateway_reachable for IPv6: word by word. */
  method GatewayReachable6(ip: Bits, n: nat, gw: Bits) returns (r: bool)
    requires |ip| == |gw| == 128
    ensures r <==> Reachable6(ip, n, gw)
  {
    var mask := Mask(128, n);
    var net := And(ip, mask);
    if LinkLocal(gw) {
      return true;
    }
    for i := 0 to 4
      invariant forall k :: 0 <= k < 32 * i ==> (gw[k] && mask[k]) == net[k]
    {
      var word := And(gw[32 * i..32 * i + 32], mask[32 * i..32 * i + 32]);
      if word != net[32 * i..32 * i + 32] {
        assert And(gw, mask)[32 * i..32 * i + 32] == word;
        return false;
      }
      forall k | 32 * i <= k < 32 * i + 32 ensures (gw[k] && mask[k]) == net[k] {
        assert word[k - 32 * i] == net[32 * i..32 * i + 32][k - 32 * i];
      }
    }
    assert And(gw, mask) == net;
    return true;
  }

  // ---------------------------------------------------------------------
  // The integer view

  lemma {:induction false} ValConcat(a: Bits, b: Bits)
    ensures Val(a + b) == Val(a) * Pow2(|b|) + Val(b)
  {
    if b == [] {
      assert a + b == a;
    } else {
      var last := |b| - 1;
      ValConcat(a, b[..last]);
      assert (a + b)[..|a + b| - 1] == a + b[..last];
      assert Val(a) * Pow2(|b|) == 2 * (Val(a) * Pow2(last));
    }
  }

  lemma {:induction false} ValBound(b: Bits)
    ensures 0 <= Val(b) < Pow2(|b|)
    ensures IsZero(b) ==> Val(b) == 0
    ensures (forall i :: 0 <= i < |b| ==> b[i]) ==> Val(b) == Pow2(|b|) - 1
  {
    if b != [] {
      ValBound(b[..|b| - 1]);
    }
  }

  lemma {:induction false} ValInjective(a: Bits, b: Bits)
    requires |a| == |b| && Val(a) == Val(b)
    ensures a == b
  {
    if a != [] {
      var last := |a| - 1;
      ValInjective(a[..last], b[..last]);
      assert a == a[..last] + [a[last]] && b == b[..last] + [b[last]];
    }
  }

  lemma NetworkPieces(ip: Bits, n: nat)
    requires n <= |ip|
    ensures Network(ip, n) == ip[..n] + Const(|ip| - n, false)
    ensures Broadcast(ip, n) == ip[..n] + Const(|ip| - n, true)
  {
  }

  lemma IntervalOf(a: nat, b: nat, k: nat, s: nat)
    requires k > 0 && s < k
    ensures a == b <==> a * k <= b * k + s <= a * k + k - 1
  {
    if a < b {
      StepUp(a, b - a - 1, k);
    } else if b < a {
      StepUp(b, a - b - 1, k);
    }
  }

  lemma StepUp(a: nat, d: nat, k: nat)
    ensures (a + 1 + d) * k >= a * k + k
  {
    assert (a + 1 + d) * k == a * k + k + d * k;
  }

  lemma EndsOfSubnet(ip: Bits, n: nat)
    requires n <= |ip|
    ensures Val(Network(ip, n)) == Val(ip[..n]) * Pow2(|ip| - n)
    ensures Val(Broadcast(ip, n)) == Val(ip[..n]) * Pow2(|ip| - n) + Pow2(|ip| - n) - 1
  {
    var w := |ip| - n;
    NetworkPieces(ip, n);
    ValConcat(ip[..n], Const(w, false));
    ValConcat(ip[..n], Const(w, true));
    ValBound(Const(w, false));
    ValBound(Const(w, true));
  }

  lemma FrontAndBack(gw: Bits, n: nat)
    requires n <= |gw|
    ensures Val(gw) == Val(gw[..n]) * Pow2(|gw| - n) + Val(gw[n..]) && Val(gw[n..]) < Pow2(|gw| - n)
  {
    var front, back := gw[..n], gw[n..];
    assert gw == front + back;
    ValConcat(front, back);
    ValBound(back);
  }

  lemma SameFront(ip: Bits, n: nat, gw: Bits)
    requires |ip| == |gw| && n <= |ip|
    ensures SameNetwork(ip, n, gw) <==> Val(ip[..n]) == Val(gw[..n])
  {
    NetworkPieces(ip, n);
    NetworkPieces(gw, n);
    if Val(ip[..n]) == Val(gw[..n]) {
      ValInjective(ip[..n], gw[..n]);
    }
    if SameNetwork(ip, n, gw) {
      assert ip[..n] == Network(ip, n)[..n] && gw[..n] == Network(gw, n)[..n];
    }
  }

  /** A subnet is the interval from its network to its broadcast address: it has
      2^(w-n) addresses, and the bitwise test is membership in it. */
  lemma SubnetIsInterval(ip: Bits, n: nat, gw: Bits)
    requires |ip| == |gw| && n <= |ip|
    ensures Val(Broadcast(ip, n)) - Val(Network(ip, n)) + 1 == Pow2(|ip| - n)
    ensures SameNetwork(ip, n, gw) <==> Val(Network(ip, n)) <= Val(gw) <= Val(Broadcast(ip, n))
  {
    EndsOfSubnet(ip, n);
    FrontAndBack(gw, n);
    SameFront(ip, n, gw);
    IntervalOf(Val(ip[..n]), Val(gw[..n]), Pow2(|ip| - n), Val(gw[n..]));
  }

  /** netcfg_gateway_reachable for IPv4, in numbers. */
  lemma Reachable4IsInterval(ip: Bits, n: nat, gw: Bits)
    requires |ip| == |gw| == 32 && n <= 32
    ensures Reachable4(ip, n, gw) <==> Val(gw) != 0 && Val(Network(ip, n)) <= Val(gw) <= Val(Broadcast(ip, n))
  {
    SubnetIsInterval(ip, n, gw);
    ValBound(gw);
    ValBound(Const(32, false));
    if Val(gw) == 0 {
      ValInjective(gw, Const(32, false));
    }
  }

  lemma Reachable6IsInterval(ip: Bits, n: nat, gw: Bits)
    requires |ip| == |gw| == 128 && n <= 128
    ensures Reachable6(ip, n, gw) <==> LinkLocal(gw) || Val(Network(ip, n)) <= Val(gw) <= Val(Broadcast(ip, n))
  {
    SubnetIsInterval(ip, n, gw);
  }

  /** A gateway is link-local when its first sixteen bits are between fe80 and febf. */
  lemma LinkLocalIsInterval(gw: Bits)
    requires |gw| == 128
    ensures LinkLocal(gw) <==> 0xfe80 <= Val(gw[..16]) <= 0xfebf
  {
    var ten, six := gw[..10], gw[10..16];
    assert gw[..16] == ten + six;
    ValConcat(ten, six);
    ValBound(six);
    assert Pow2(6) == 64 by { assert Pow2(3) == 8; }
    assert 0xfe80 <= Val(gw[..16]) <= 0xfebf <==> Val(ten) == 1018;
    TenBits();
    if Val(ten) == 1018 {
      ValInjective(ten, [true, true, true, true, true, true, true, false, true, false]);
    }
  }

  lemma TenBits()
    ensures Val([true, true, true, true, true, true, true, false, true, false]) == 1018
  {
    var five := [true, true, true, true, true];
    var more := [true, true, false, true, false];
    ValBound(five);
    assert Pow2(5) == 32 by { assert Pow2(3) == 8; }
    ValConcat(five, more);
    FiveBits();
    assert five + more == [true, true, true, true, true, true, true, false, true, false];
  }

  lemma FiveBits()
    ensures Val([true, true, false, true, false]) == 26
  {
    assert [true, true, false, true, false][..4] == [true, true, false, true];
    assert [true, true, false, true][..3] == [true, true, false] && [true, true, false][..2] == [true, true];
    assert [true, true][..1] == [true] && [true][..0] == [];
    assert Val([true, true]) == 3;
  }

  // ---------------------------------------------------------------------
  // The proposed gateway

  /** The first address of the subnet. */
  function FirstAddress(ip: Bits, n: nat): Bits
    requires |ip| > 0
  {
    Or(Network(ip, n), OneShifted(|ip|, 0))
  }

  /** What netcfg_preseed_gateway works out: when that is the interface's own address
      the text is cut after its last separator, and what is left is no address. */
  function ProposedGateway(ip: Bits, n: nat): Option<Bits>
    requires |ip| > 0
  {
    if FirstAddress(ip, n) == ip then None else Some(FirstAddress(ip, n))
  }

  /** The text held by the gateway question: nothing, the word "none", an address, or
      anything else. */
  datatype Text = Empty | NoneWord | AddressText(address: Bits) | OtherText

  /** What the user is offered: the text that the question has, and a proposal only
      where it has none. */
  function Offered(current: Text, ip: Bits, n: nat): Text
    requires |ip| > 0
  {
    if !current.Empty? then current
    else if ProposedGateway(ip, n).Some? then AddressText(ProposedGateway(ip, n).value)
    else OtherText
  }

  predicate InSubnet(ip: Bits, n: nat, t: Text) {
    t.AddressText? && |t.address| == |ip| && SameNetwork(ip, n, t.address)
  }

  /** netcfg_preseed_gateway: one word for IPv4, four for IPv6. */
  method PreseedGateway(ip: Bits, mask: Bits, ghost n: nat, current: Text) returns (question: Text)
    requires |ip| == 32 || |ip| == 128
    requires mask == Mask(|ip|, n)
    ensures question == Offered(current, ip, n)
  {
    var gw: Bits := [];
    var w := 0;
    while w < |ip| / 32
      invariant 0 <= w <= |ip| / 32 && gw == Network(ip, n)[..32 * w]
    {
      gw := gw + And(ip[32 * w..32 * w + 32], mask[32 * w..32 * w + 32]);
      w := w + 1;
    }
    var last := |ip| - 32;
    gw := gw[..last] + Or(gw[last..], OneShifted(32, 0));
    assert gw == FirstAddress(ip, n);
    question := current;
    if current.Empty? {
      question := if gw == ip then OtherText else AddressText(gw);
    }
  }

  /** The interface has the first address of its subnet: its host part is 0...01. */
  lemma OwnAddressIff(ip: Bits, n: nat)
    requires |ip| > 0
    ensures FirstAddress(ip, n) == ip <==> ip[|ip| - 1] && forall i :: n <= i < |ip| - 1 ==> !ip[i]
  {
    var first := FirstAddress(ip, n);
    if ip[|ip| - 1] && forall i :: n <= i < |ip| - 1 ==> !ip[i] {
      assert forall i :: 0 <= i < |ip| ==> first[i] == ip[i];
    }
  }

  /** An address inside the subnet is proposed exactly for a mask shorter than the
      address on an interface that does not have the first address itself; what is
      proposed is never zero. */
  lemma ProposedGatewayIff(ip: Bits, n: nat)
    requires |ip| > 0 && n <= |ip|
    ensures var p := ProposedGateway(ip, n);
      && (p.Some? && SameNetwork(ip, n, p.value) <==> n < |ip| && FirstAddress(ip, n) != ip)
      && (p.Some? ==> !IsZero(p.value))
  {
    var last, gw := |ip| - 1, FirstAddress(ip, n);
    assert gw[last];
    if n < |ip| {
      assert And(gw, Mask(|ip|, n)) == Network(ip, n);
    } else if !ip[last] {
      assert And(gw, Mask(|ip|, n))[last] != Network(ip, n)[last];
    } else {
      OwnAddressIff(ip, n);
    }
  }

  /** The offer is an address in the subnet exactly when the question holds one already,
      or is empty and the proposal is one. */
  lemma OfferedIff(current: Text, ip: Bits, n: nat)
    requires |ip| > 0 && n <= |ip|
    ensures InSubnet(ip, n, Offered(current, ip, n)) <==>
            if current.Empty? then n < |ip| && FirstAddress(ip, n) != ip else InSubnet(ip, n, current)
  {
    ProposedGatewayIff(ip, n);
  }

  /** 192.168.1.1 with a mask of 24 bits: no address is proposed. */
  lemma FirstAddressGetsNone()
    ensures ProposedGateway(Ipv4(192, 168, 1, 1), 24) == None
    ensures ProposedGateway(Ipv4(192, 168, 1, 2), 24) == Some(Ipv4(192, 168, 1, 1))
  {
    Ipv4Bits();
    OwnAddressIff(Ipv4(192, 168, 1, 1), 24);
    assert FirstAddress(Ipv4(192, 168, 1, 2), 24) == Ipv4(192, 168, 1, 1);
    assert Ipv4(192, 168, 1, 2)[31] != Ipv4(192, 168, 1, 1)[31];
  }

  function Byte(b: nat): (r: Bits)
    ensures |r| == 8
  {
    [b / 128 % 2 == 1, b / 64 % 2 == 1, b / 32 % 2 == 1, b / 16 % 2 == 1, b / 8 % 2 == 1, b / 4 % 2 == 1, b / 2 % 2 == 1, b % 2 == 1]
  }

  /** Dotted notation. */
  function Ipv4(a: nat, b: nat, c: nat, d: nat): (r: Bits)
    ensures |r| == 32
  {
    Byte(a) + Byte(b) + Byte(c) + Byte(d)
  }

  lemma Ipv4Bits()
    ensures Ipv4(192, 168, 1, 1) == Ipv4(192, 168, 1, 0)[31 := true]
    ensures Ipv4(192, 168, 1, 2) == Ipv4(192, 168, 1, 0)[30 := true]
    ensures forall i :: 24 <= i < 32 ==> !Ipv4(192, 168, 1, 0)[i]
  {
    assert Byte(0) == [false, false, false, false, false, false, false, false];
    assert Byte(1) == Byte(0)[7 := true] && Byte(2) == Byte(0)[6 := true];
  }
}
