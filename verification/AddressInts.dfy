/** The allocator's conversions between addresses and unbounded integers. */
module AddressInts {
  import opened Prelude
  import opened Addresses

  const TWO_24: nat := 0x100_0000
  const TWO_32: nat := 0x1_0000_0000
  const TWO_96: nat := 0x1_0000_0000_0000_0000_0000_0000
  const TWO_128: nat := 0x1_0000_0000_0000_0000_0000_0000_0000_0000

  lemma {:induction false} Powers()
    ensures Pow2(24) == TWO_24 && Pow2(32) == TWO_32 && Pow2(96) == TWO_96 && Pow2(128) == TWO_128
  {
    assert Pow2(8) == 0x100;
    Pow2Add(8, 8);
    Pow2Add(8, 16);
    Pow2Add(16, 16);
    Pow2Add(32, 32);
    Pow2Add(32, 64);
    Pow2Add(64, 64);
  }

  /** The low `len` bytes of a number, most significant first. */
  function Fill(n: nat, len: nat): (ip: IP)
    ensures |ip| == len
  {
    if len == 0 then [] else Fill(n / 256, len - 1) + [n % 256]
  }

  /** The bytes of a number without leading zeros. */
  function MinBytes(n: nat): IP {
    if n == 0 then [] else MinBytes(n / 256) + [n % 256]
  }

  function To4(ip: IP): Option<IP> {
    if |ip| == 4 then Some(ip)
    else if |ip| == 16 && (forall i :: 0 <= i < 10 ==> ip[i] == 0) && ip[10] == 255 && ip[11] == 255 then Some(ip[12..])
    else None
  }

  function To16(ip: IP): Option<IP> {
    if |ip| == 4 then Some([0, 0, 0, 0, 0, 0, 0, 0, 0, 0, 255, 255] + ip)
    else if |ip| == 16 then Some(ip)
    else None
  }

  function IpToInt(ip: IP): nat {
    if To4(ip).Some? then Value(To4(ip).value)
    else if To16(ip).Some? then Value(To16(ip).value)
    else 0
  }

  /** `None` where filling 16 bytes would panic. */
  function IntToIP(n: nat): Option<IP> {
    var ip := MinBytes(n);
    if To4(ip).Some? then Some(ip)
    else if n < TWO_128 then Some(Fill(n, 16))
    else None
  }

  function IncrementIP(ip: IP, increment: nat): Option<IP> {
    IntToIP(IpToInt(ip) + increment)
  }

  lemma {:induction false} ValueAppend(ip: IP, b: byte)
    ensures Value(ip + [b]) == 256 * Value(ip) + b
    decreases |ip|
  {
    if ip == [] {
      assert Pow2(0) == 1;
    } else {
      assert (ip + [b])[1..] == ip[1..] + [b];
      ValueAppend(ip[1..], b);
      Pow2Eight(|ip|);
      assert ip[0] * (256 * Pow2(8 * (|ip| - 1))) == 256 * (ip[0] * Pow2(8 * (|ip| - 1)));
    }
  }

  lemma {:induction false} FillValue(n: nat, len: nat)
    requires n < Pow2(8 * len)
    ensures Value(Fill(n, len)) == n
    decreases len
  {
    if len > 0 {
      Pow2Eight(len);
      FillValue(n / 256, len - 1);
      ValueAppend(Fill(n / 256, len - 1), n % 256);
    }
  }

  /** Dropping leading zeros leaves `k` bytes or fewer exactly when the number fits in them. */
  lemma {:induction false} MinBytesLength(n: nat, k: nat)
    ensures |MinBytes(n)| <= k <==> n < Pow2(8 * k)
    decreases n
  {
    if n > 0 && k > 0 {
      Pow2Eight(k);
      MinBytesLength(n / 256, k - 1);
    }
  }

  lemma {:induction false} MinBytesIsFill(n: nat)
    ensures MinBytes(n) == Fill(n, |MinBytes(n)|)
    decreases n
  {
    if n > 0 {
      MinBytesIsFill(n / 256);
    }
  }

  /** Numbers of four significant bytes, and only they, come back as IPv4 addresses. */
  lemma {:induction false} IntToIPFour(n: nat)
    requires n < TWO_128
    ensures IntToIP(n) == Some(if TWO_24 <= n < TWO_32 then Fill(n, 4) else Fill(n, 16))
  {
    Powers();
    MinBytesLength(n, 3);
    MinBytesLength(n, 4);
    MinBytesLength(n, 16);
    MinBytesIsFill(n);
    if |MinBytes(n)| == 16 {
      MinBytesLength(n, 15);
      FirstByte(n, 15);
    }
  }

  /** A number that needs all its bytes has a non-zero first one. */
  lemma {:induction false} FirstByte(n: nat, len: nat)
    requires Pow2(8 * len) <= n < Pow2(8 * (len + 1))
    ensures Fill(n, len + 1)[0] != 0
  {
    var ip := Fill(n, len + 1);
    FillValue(n, len + 1);
    ValueBound(ip[1..]);
  }

  // ---------- the IPv4-mapped range ----------

  /** The bytes of hi * 2^(8b) + lo are those of `hi`, then those of `lo`. */
  lemma {:induction false} FillParts(hi: nat, lo: nat, a: nat, b: nat)
    requires lo < Pow2(8 * b)
    ensures Fill(hi * Pow2(8 * b) + lo, a + b) == Fill(hi, a) + Fill(lo, b)
    decreases b
  {
    if b == 0 {
      assert Pow2(0) == 1;
      assert Fill(hi, a) + [] == Fill(hi, a);
    } else {
      var p, n := Pow2(8 * (b - 1)), hi * Pow2(8 * b) + lo;
      Pow2Eight(b);
      SameProduct(hi, Pow2(8 * b), 256 * p);
      assert hi * (256 * p) == 256 * (hi * p);
      assert n / 256 == hi * p + lo / 256 && n % 256 == lo % 256;
      FillParts(hi, lo / 256, a, b - 1);
      assert Fill(hi, a) + Fill(lo / 256, b - 1) + [lo % 256] == Fill(hi, a) + (Fill(lo / 256, b - 1) + [lo % 256]);
    }
  }

  lemma {:induction false} FillZero(len: nat)
    ensures forall i :: 0 <= i < len ==> Fill(0, len)[i] == 0
    decreases len
  {
    if len > 0 {
      FillZero(len - 1);
    }
  }

  /** The bytes that mark a mapped address spell 0xffff. */
  lemma {:induction false} FillMarker()
    ensures forall i :: 0 <= i < 10 ==> Fill(0xffff, 12)[i] == 0
    ensures Fill(0xffff, 12)[10] == 255 && Fill(0xffff, 12)[11] == 255
  {
    FillZero(10);
    assert Fill(0xff, 11) == Fill(0, 10) + [255];
    assert Fill(0xffff, 12) == Fill(0xff, 11) + [255];
  }

  lemma {:induction false} FillInjective(m: nat, n: nat, len: nat)
    requires m < Pow2(8 * len) && n < Pow2(8 * len) && Fill(m, len) == Fill(n, len)
    ensures m == n
  {
    FillValue(m, len);
    FillValue(n, len);
  }

  /** Sixteen bytes are a mapped address exactly when the first twelve spell 0xffff. */
  lemma {:induction false} MappedParts(hi: IP, lo: IP)
    requires |hi| == 12 && |lo| == 4
    ensures To4(hi + lo) == if hi == Fill(0xffff, 12) then Some(lo) else None
  {
    FillMarker();
    assert (hi + lo)[12..] == lo;
    assert forall i :: 0 <= i < 12 ==> (hi + lo)[i] == hi[i];
  }

  lemma {:induction false} MappedIff(n: nat)
    requires n < TWO_128
    ensures To4(Fill(n, 16)) == if n / TWO_32 == 0xffff then Some(Fill(n % TWO_32, 4)) else None
  {
    var hi, lo := n / TWO_32, n % TWO_32;
    Powers();
    FillParts(hi, lo, 12, 4);
    MappedParts(Fill(hi, 12), Fill(lo, 4));
    if Fill(hi, 12) == Fill(0xffff, 12) {
      FillInjective(hi, 0xffff, 12);
    }
  }

  /** Converting a number to an address and back loses it exactly for the IPv4-mapped addresses
      of section 2.5.5.2 of RFC 4291. */
  lemma {:induction false} RoundTripIff(n: nat)
    requires n < TWO_128
    ensures IntToIP(n).Some?
    ensures IpToInt(IntToIP(n).value) == n <==> n / TWO_32 != 0xffff
  {
    Powers();
    IntToIPFour(n);
    if TWO_24 <= n < TWO_32 {
      FillValue(n, 4);
    } else {
      FillValue(n, 16);
      MappedIff(n);
      FillValue(n % TWO_32, 4);
    }
  }

  /** Stepping within the IPv4 range above 0.0.0.0/8 stays four bytes and adds exactly. */
  lemma {:induction false} IncrementExact(ip: IP, increment: nat)
    requires |ip| == 4 && TWO_24 <= Value(ip) + increment < TWO_32
    ensures IncrementIP(ip, increment) == Some(Fill(Value(ip) + increment, 4))
    ensures Value(Fill(Value(ip) + increment, 4)) == Value(ip) + increment
  {
    Powers();
    IntToIPFour(Value(ip) + increment);
    FillValue(Value(ip) + increment, 4);
  }

  // ---------- IPv4 addresses in either form ----------

  lemma {:induction false} FillStep(v: nat, b: byte, len: nat)
    ensures Fill(256 * v + b, len + 1) == Fill(v, len) + [b]
  {
    assert (256 * v + b) / 256 == v && (256 * v + b) % 256 == b;
  }

  lemma {:induction false} FillOfValue(ip: IP)
    ensures Fill(Value(ip), |ip|) == ip
    decreases |ip|
  {
    if ip != [] {
      var init, last := ip[..|ip| - 1], ip[|ip| - 1];
      ValueAppend(init, last);
      FillOfValue(init);
      FillStep(Value(init), last, |init|);
      assert ip == init + [last];
    }
  }

  /** Sixteen bytes are a mapped address exactly when the number is in the mapped range. */
  lemma {:induction false} MappedValue(ip: IP)
    requires |ip| == 16
    ensures To4(ip).Some? <==> Value(ip) / TWO_32 == 0xffff
    ensures To4(ip).Some? ==> |To4(ip).value| == 4 && Value(To4(ip).value) == Value(ip) % TWO_32
  {
    Powers();
    ValueBound(ip);
    FillOfValue(ip);
    MappedIff(Value(ip));
    FillValue(Value(ip) % TWO_32, 4);
  }

  /** The four bytes of an IPv4 address, however it is written. */
  function Unmapped(ip: IP): IP {
    if To4(ip).Some? then To4(ip).value else ip
  }

  /** A subnet as the net package looks at it, and as it prints. */
  function UnmappedNet(net: IPNet): IPNet {
    if |net.ip| == 16 && To4(net.ip).Some? then IPNet(To4(net.ip).value, if net.ones >= 96 then net.ones - 96 else 0)
    else net
  }

  /** net.IPNet.Contains. */
  predicate HasIP(net: IPNet, ip: IP) {
    Contains(UnmappedNet(net), Unmapped(ip))
  }

  lemma {:induction false} CoarseAligned(n: nat, m: nat, a: nat, k: nat)
    requires a > 0 && k > 0 && m == a * k && m > 0
    ensures n % m == 0 ==> n % a == 0
  {
    if n % m == 0 {
      var q := n / m;
      assert n == q * m;
      assert q * (a * k) == (q * k) * a;
      ModUnique(n, a, q * k, 0);
    }
  }

  /** An odd multiple of 2^32, and something below 2^32, is no multiple of a higher power. */
  lemma {:induction false} MappedMisaligned(n: nat, s: nat)
    requires n / TWO_32 == 0xffff && s > 32
    ensures n % Pow2(s) != 0
  {
    Powers();
    Pow2Product(33, s - 33, s);
    assert Pow2(33) == 2 * TWO_32;
    assert n % (2 * TWO_32) != 0;
    CoarseAligned(n, Pow2(s), Pow2(33), Pow2(s - 33));
  }

  lemma {:induction false} MappedAligned(n: nat, s: nat)
    requires n / TWO_32 == 0xffff && s <= 32 && n % Pow2(s) == 0
    ensures (n % TWO_32) % Pow2(s) == 0
  {
    Powers();
    Pow2Product(s, 32 - s, 32);
    SameProduct(0xffff, TWO_32, Pow2(s) * Pow2(32 - s));
    AlignedRest(0xffff, Pow2(s), Pow2(32 - s), n % TWO_32, n);
  }

  /** A mapped subnet is an IPv4 subnet with as many host bits. */
  lemma {:induction false} UnmappedParsed(net: IPNet)
    requires Parsed(net)
    ensures Parsed(UnmappedNet(net)) && HostBits(UnmappedNet(net)) == HostBits(net)
    ensures UnmappedNet(net) != net ==>
      |net.ip| == 16 && |UnmappedNet(net).ip| == 4 && Value(net.ip) == 0xffff * TWO_32 + Value(UnmappedNet(net).ip)
  {
    if |net.ip| == 16 && To4(net.ip).Some? {
      MappedValue(net.ip);
      if HostBits(net) > 32 {
        MappedMisaligned(Value(net.ip), HostBits(net));
        assert false;
      }
      MappedAligned(Value(net.ip), HostBits(net));
    }
  }
}
