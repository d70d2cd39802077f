/** IP addresses as byte strings: masks, containment and the last address of a subnet. */
module Addresses {

  type byte = b: int | 0 <= b < 256

  type IP = seq<byte>

  // ---------- powers of two and bits ----------

  function Pow2(n: nat): (r: nat)
    ensures r > 0
  {
    if n == 0 then 1 else 2 * Pow2(n - 1)
  }

  lemma {:induction false} Pow2Add(a: nat, b: nat)
    ensures Pow2(a + b) == Pow2(a) * Pow2(b)
    decreases a
  {
    if a > 0 {
      Pow2Add(a - 1, b);
      Twice(Pow2(a - 1), Pow2(b));
    }
  }

  lemma {:induction false} Twice(x: nat, y: nat)
    ensures 2 * (x * y) == (2 * x) * y
  {}

  lemma {:induction false} Pow2Split(w: nat, s: nat)
    requires s <= w
    ensures Pow2(w) == Pow2(s) * Pow2(w - s)
  {
    Pow2Add(s, w - s);
  }

  function BitAnd(a: nat, b: nat): nat {
    if a == 0 || b == 0 then 0
    else (if a % 2 == 1 && b % 2 == 1 then 1 else 0) + 2 * BitAnd(a / 2, b / 2)
  }

  function BitOr(a: nat, b: nat): nat {
    if a == 0 then b else if b == 0 then a
    else (if a % 2 == 1 || b % 2 == 1 then 1 else 0) + 2 * BitOr(a / 2, b / 2)
  }

  lemma {:induction false} ModDouble(a: nat, m: nat)
    requires m > 0
    ensures a % (2 * m) == 2 * ((a / 2) % m) + a % 2
  {
    var h := a / 2;
    var q, r := h / m, h % m;
    assert h == q * m + r;
    assert a == 2 * h + a % 2;
    assert 2 * (q * m) == q * (2 * m);
    assert a == q * (2 * m) + (2 * r + a % 2);
    ModUnique(a, 2 * m, q, 2 * r + a % 2);
  }

  lemma {:induction false} ModUnique(a: nat, m: nat, q: nat, r: nat)
    requires m > 0 && r < m && a == q * m + r
    ensures a / m == q && a % m == r
  {
    var q', r' := a / m, a % m;
    assert a == q' * m + r';
    assert (q' - q) * m == r - r';
    MulSign(q' - q, m);
  }

  lemma {:induction false} MulSign(d: int, m: int)
    requires m >= 0
    ensures d > 0 ==> d * m >= m
    ensures d < 0 ==> d * m <= -m
  {}

  lemma {:induction false} MulMono(a: nat, b: nat, m: nat)
    requires a <= b
    ensures a * m <= b * m
  {}

  lemma {:induction false} AndEven(a: nat, m: nat)
    ensures BitAnd(a, 2 * m) == 2 * BitAnd(a / 2, m)
  {}

  lemma {:induction false} AndMaskEven(a: nat, p: nat, h: nat)
    requires 0 < h <= p && BitAnd(a / 2, p - h) == a / 2 - (a / 2) % h
    ensures BitAnd(a, 2 * p - 2 * h) == a - a % (2 * h)
  {
    assert 2 * p - 2 * h == 2 * (p - h);
    AndEven(a, p - h);
    ModDouble(a, h);
  }

  lemma {:induction false} AndMaskOdd(a: nat, p: nat)
    requires 0 < p && BitAnd(a / 2, p - 1) == a / 2
    ensures BitAnd(a, 2 * p - 1) == a
  {}

  lemma {:induction false} AndOnes(a: nat, w: nat)
    requires a < Pow2(w)
    ensures BitAnd(a, Pow2(w) - 1) == a
    decreases w
  {
    if w > 0 {
      AndOnes(a / 2, w - 1);
      AndMaskOdd(a, Pow2(w - 1));
    }
  }

  /** Masking with `w - h` ones followed by `h` zeros clears the low `h` bits. */
  lemma {:induction false} AndMask(a: nat, w: nat, h: nat)
    requires h <= w && a < Pow2(w)
    ensures Pow2(h) <= Pow2(w)
    ensures BitAnd(a, Pow2(w) - Pow2(h)) == a - a % Pow2(h)
    decreases w
  {
    if h == 0 {
      AndOnes(a, w);
    } else {
      AndMask(a / 2, w - 1, h - 1);
      AndMaskEven(a, Pow2(w - 1), Pow2(h - 1));
    }
  }

  /** Setting the low `h` bits of a number in which they are clear adds 2^h - 1. */
  lemma {:induction false} OrLow(a: nat, h: nat)
    requires a % Pow2(h) == 0
    ensures BitOr(a, Pow2(h) - 1) == a + Pow2(h) - 1
    decreases h
  {
    if h > 0 && a > 0 {
      ModDouble(a, Pow2(h - 1));
      OrLow(a / 2, h - 1);
      var low := Pow2(h) - 1;
      assert low / 2 == Pow2(h - 1) - 1 && low % 2 == 1;
    }
  }

  // ---------- byte strings as numbers ----------

  /** The number a byte string stands for, most significant byte first. */
  function Value(ip: IP): nat {
    if ip == [] then 0 else ip[0] * Pow2(8 * (|ip| - 1)) + Value(ip[1..])
  }

  lemma {:induction false} Pow2Eight(n: nat)
    requires n > 0
    ensures Pow2(8 * n) == 256 * Pow2(8 * (n - 1))
  {
    Pow2Add(8, 8 * (n - 1));
    assert Pow2(8) == 256;
  }

  lemma {:induction false} ValueBound(ip: IP)
    ensures Value(ip) < Pow2(8 * |ip|)
    decreases |ip|
  {
    if ip != [] {
      ValueBound(ip[1..]);
      Pow2Eight(|ip|);
      MulMono(ip[0], 255, Pow2(8 * (|ip| - 1)));
    }
  }

  lemma {:induction false} DivOfSum(x: nat, m: nat, k: nat, y: nat)
    requires m > 0
    ensures (x * (m * k) + y) / m == x * k + y / m
  {
    assert x * (m * k) == (x * k) * m;
    assert y == (y / m) * m + y % m;
    assert (x * k + y / m) * m == (x * k) * m + (y / m) * m;
    ModUnique(x * (m * k) + y, m, x * k + y / m, y % m);
  }

  lemma {:induction false} DivBound(y: nat, m: nat, k: nat)
    requires m > 0 && y < m * k
    ensures y / m < k
  {}

  lemma {:induction false} DivDivParts(m: nat, k: nat, q: nat, r: nat, q': nat, r': nat)
    requires r < m && r' < k && q == q' * k + r'
    ensures q * m + r == q' * (m * k) + (r' * m + r)
    ensures r' * m + r < m * k
  {
    assert q * m == (q' * k) * m + r' * m;
    assert (q' * k) * m == q' * (m * k);
    MulMono(r' + 1, k, m);
    assert (r' + 1) * m == r' * m + m;
  }

  lemma {:induction false} DivDiv(a: nat, m: nat, k: nat)
    requires m > 0 && k > 0
    ensures m * k > 0 && a / (m * k) == (a / m) / k
  {
    var q, r := a / m, a % m;
    var q', r' := q / k, q % k;
    assert a == q * m + r;
    DivDivParts(m, k, q, r, q', r');
    ModUnique(a, m * k, q', r' * m + r);
  }

  // ---------- masks ----------

  /** A mask of `ones` leading one bits, `len` bytes long. */
  function CIDRMask(ones: nat, len: nat): (m: IP)
    ensures |m| == len
  {
    if len == 0 then []
    else if ones >= 8 then [255] + CIDRMask(ones - 8, len - 1)
    else
      assert Pow2(8 - ones) <= 256 by {
        Pow2Add(ones, 8 - ones);
        assert Pow2(8) == 256;
        MulMono(1, Pow2(ones), Pow2(8 - ones));
      }
      [256 - Pow2(8 - ones)] + CIDRMask(0, len - 1)
  }

  /** The comparison net.IPNet.Contains makes, byte by byte under the mask. */
  predicate MatchMasked(a: IP, b: IP, mask: IP)
    requires |a| == |b| == |mask|
  {
    forall i :: 0 <= i < |a| ==> BitAnd(a[i], mask[i]) == BitAnd(b[i], mask[i])
  }

  lemma {:induction false} MatchStep(a: IP, b: IP, mask: IP)
    requires |a| == |b| == |mask| && a != []
    ensures MatchMasked(a, b, mask) <==>
      BitAnd(a[0], mask[0]) == BitAnd(b[0], mask[0]) && MatchMasked(a[1..], b[1..], mask[1..])
  {}

  lemma {:induction false} MatchZeros(a: IP, b: IP)
    requires |a| == |b|
    ensures MatchMasked(a, b, CIDRMask(0, |a|))
    decreases |a|
  {
    if a != [] {
      MatchZeros(a[1..], b[1..]);
      MatchStep(a, b, CIDRMask(0, |a|));
      assert Pow2(8) == 256;
    }
  }

  /** A number splits in one way into a multiple of `k` and a rest. */
  lemma {:induction false} SplitEqual(x: nat, y: nat, k: nat, u: nat, v: nat)
    requires u < k && v < k
    ensures x * k + u == y * k + v <==> x == y && u == v
  {
    ModUnique(x * k + u, k, x, u);
    ModUnique(y * k + v, k, y, v);
  }

  /** Dividing a multiple of `p == m * k` and a rest by `m`. */
  lemma {:induction false} DivParts(x: nat, m: nat, k: nat, p: nat, u: nat, a: nat) returns (q: nat, r: nat)
    requires m > 0 && p == m * k && u < p && a == x * p + u
    ensures q == a / m && r == u / m && r < k && q == x * k + r
  {
    SameProduct(x, p, m * k);
    DivOfSum(x, m, k, u);
    DivBound(u, m, k);
    q, r := a / m, u / m;
  }

  lemma {:induction false} SplitDivValues(x: nat, y: nat, m: nat, k: nat, u: nat, v: nat, p: nat, a: nat, b: nat)
    requires m > 0 && p == m * k && u < p && v < p
    requires a == x * p + u && b == y * p + v
    ensures a / m == b / m <==> x == y && u / m == v / m
  {
    var q, r := DivParts(x, m, k, p, u, a);
    var q', r' := DivParts(y, m, k, p, v, b);
    SplitEqual(x, y, k, r, r');
  }

  lemma {:induction false} SameProduct(x: nat, p: nat, q: nat)
    requires p == q
    ensures x * p == x * q
  {}

  /** Whole leading bytes compared, the rest still to do. */
  lemma {:induction false} PrefixStep(a: IP, b: IP, s: nat)
    requires |a| == |b| && a != [] && s <= 8 * (|a| - 1)
    ensures Value(a) / Pow2(s) == Value(b) / Pow2(s) <==>
      a[0] == b[0] && Value(a[1..]) / Pow2(s) == Value(b[1..]) / Pow2(s)
  {
    var w := 8 * (|a| - 1);
    var m, k, p := Pow2(s), Pow2(w - s), Pow2(w);
    Pow2Split(w, s);
    ValueBound(a[1..]);
    ValueBound(b[1..]);
    SplitDivValues(a[0], b[0], m, k, Value(a[1..]), Value(b[1..]), p, Value(a), Value(b));
  }

  /** Only the top bits of the first byte compared. */
  lemma {:induction false} PrefixEnd(a: IP, ones: nat, s: nat)
    requires a != [] && ones <= 8 && ones + s == 8 * |a|
    ensures Value(a) / Pow2(s) == a[0] / Pow2(8 - ones)
  {
    var w := 8 * (|a| - 1);
    Pow2Add(w, 8 - ones);
    DivDiv(Value(a), Pow2(w), Pow2(8 - ones));
    ValueBound(a[1..]);
    ModUnique(Value(a), Pow2(w), a[0], Value(a[1..]));
  }

  lemma {:induction false} ClearedEqual(x: nat, y: nat, m: nat)
    requires m > 0
    ensures x - x % m == y - y % m <==> x / m == y / m
  {}

  lemma {:induction false} MaskedByte(x: byte, y: byte, h: nat)
    requires h <= 8
    ensures Pow2(h) <= 256
    ensures BitAnd(x, 256 - Pow2(h)) == BitAnd(y, 256 - Pow2(h)) <==> x / Pow2(h) == y / Pow2(h)
  {
    assert Pow2(8) == 256;
    AndMask(x, 8, h);
    AndMask(y, 8, h);
    ClearedEqual(x, y, Pow2(h));
  }

  lemma {:induction false} MaskParts(ones: nat, len: nat)
    requires len > 0
    ensures ones >= 8 ==> CIDRMask(ones, len)[0] == 255 && CIDRMask(ones, len)[1..] == CIDRMask(ones - 8, len - 1)
    ensures ones < 8 ==>
      CIDRMask(ones, len)[0] == 256 - Pow2(8 - ones) && CIDRMask(ones, len)[1..] == CIDRMask(0, len - 1)
  {}

  lemma {:induction false} MatchFirstByte(a: IP, b: IP, mask: IP, h: nat)
    requires |a| == |b| == |mask| && a != [] && h <= 8 && mask[0] == 256 - Pow2(h)
    ensures MatchMasked(a, b, mask) <==>
      a[0] / Pow2(h) == b[0] / Pow2(h) && MatchMasked(a[1..], b[1..], mask[1..])
  {
    MatchStep(a, b, mask);
    MaskedByte(a[0], b[0], h);
  }

  /** A mask that ends in the first byte. */
  lemma {:induction false} MatchTopBits(a: IP, b: IP, ones: nat)
    requires |a| == |b| && a != [] && ones < 8
    ensures MatchMasked(a, b, CIDRMask(ones, |a|)) <==> a[0] / Pow2(8 - ones) == b[0] / Pow2(8 - ones)
  {
    MaskParts(ones, |a|);
    MatchZeros(a[1..], b[1..]);
    MatchFirstByte(a, b, CIDRMask(ones, |a|), 8 - ones);
  }

  lemma {:induction false} MatchWholeByte(a: IP, b: IP, ones: nat)
    requires |a| == |b| && a != [] && ones >= 8
    ensures MatchMasked(a, b, CIDRMask(ones, |a|)) <==>
      a[0] == b[0] && MatchMasked(a[1..], b[1..], CIDRMask(ones - 8, |a| - 1))
  {
    MaskParts(ones, |a|);
    assert Pow2(0) == 1;
    MatchFirstByte(a, b, CIDRMask(ones, |a|), 0);
  }

  /** Two addresses match under a prefix mask exactly when their leading bits are the same. */
  lemma {:induction false} MatchIsPrefix(a: IP, b: IP, ones: nat, s: nat)
    requires |a| == |b| && ones + s == 8 * |a|
    ensures MatchMasked(a, b, CIDRMask(ones, |a|)) <==> Value(a) / Pow2(s) == Value(b) / Pow2(s)
    decreases |a|
  {
    if a != [] && ones >= 8 {
      MatchWholeByte(a, b, ones);
      MatchIsPrefix(a[1..], b[1..], ones - 8, s);
      PrefixStep(a, b, s);
    } else if a != [] {
      MatchTopBits(a, b, ones);
      PrefixEnd(a, ones, s);
      PrefixEnd(b, ones, s);
    }
  }

  // ---------- the last address of a subnet ----------

  /** `end` is `ip` with every bit outside the mask set. */
  ghost predicate IsFilled(end: IP, ip: IP, mask: IP) {
    && |end| == |ip| == |mask|
    && forall i :: 0 <= i < |ip| ==> end[i] == BitOr(ip[i], 255 - mask[i])
  }

  lemma {:induction false} FilledStep(end: IP, ip: IP, mask: IP)
    requires IsFilled(end, ip, mask) && ip != []
    ensures end[0] == BitOr(ip[0], 255 - mask[0]) && IsFilled(end[1..], ip[1..], mask[1..])
  {}

  lemma {:induction false} OrBound(a: nat, b: nat, w: nat)
    requires a < Pow2(w) && b < Pow2(w)
    ensures BitOr(a, b) < Pow2(w)
    decreases w
  {
    if a != 0 && b != 0 {
      OrBound(a / 2, b / 2, w - 1);
    }
  }

  /** A multiple of m*k splits into a multiple of k in front of a rest of 0. */
  lemma {:induction false} AlignedParts(x: nat, p: nat, u: nat, h: nat, a: nat)
    requires p > 0 && h > 0 && u < p && a == x * p + u && p * h > 0 && a % (p * h) == 0
    ensures u == 0 && x % h == 0
  {
    var q := a / (p * h);
    assert a == q * (p * h);
    assert q * (p * h) == (q * h) * p;
    SplitEqual(x, q * h, p, u, 0);
    ModUnique(x, h, q, 0);
  }

  /** A multiple of m, in front of a rest: the rest is a multiple of m too. */
  lemma {:induction false} AlignedRest(x: nat, m: nat, k: nat, u: nat, a: nat)
    requires m > 0 && a == x * (m * k) + u && a % m == 0
    ensures u % m == 0
  {
    var q := a / m;
    assert a == q * m;
    assert x * (m * k) == (x * k) * m;
    assert u == (q - x * k) * m;
    if q < x * k {
      MulMono(q, x * k, m);
      assert u == 0;
    } else {
      ModUnique(u, m, q - x * k, 0);
    }
  }

  lemma {:induction false} OrOnes(x: nat, h: nat)
    requires x < Pow2(h)
    ensures BitOr(x, Pow2(h) - 1) == Pow2(h) - 1
    decreases h
  {
    if x > 0 {
      OrOnes(x / 2, h - 1);
      var low := Pow2(h) - 1;
      assert low / 2 == Pow2(h - 1) - 1 && low % 2 == 1;
    }
  }

  lemma {:induction false} FilledZeros(end: IP, ip: IP)
    requires IsFilled(end, ip, CIDRMask(0, |ip|))
    ensures Value(end) == Pow2(8 * |ip|) - 1
    decreases |ip|
  {
    if ip != [] {
      FilledStep(end, ip, CIDRMask(0, |ip|));
      MaskParts(0, |ip|);
      assert Pow2(8) == 256;
      OrOnes(ip[0], 8);
      FilledZeros(end[1..], ip[1..]);
      Pow2Eight(|ip|);
    }
  }

  /** (x + h - 1) in front of p - 1 is x*p + p*h - 1. */
  lemma {:induction false} FilledSum(x: nat, p: nat, h: nat)
    requires h > 0 && p > 0
    ensures (x + h - 1) * p + (p - 1) == x * p + p * h - 1
  {}

  lemma {:induction false} FilledFirstByte(end: IP, ip: IP, mask: IP, ones: nat)
    requires ip != [] && ones < 8 && IsFilled(end, ip, mask) && mask[0] == 256 - Pow2(8 - ones)
    ensures ip[0] % Pow2(8 - ones) == 0 ==> end[0] == ip[0] + Pow2(8 - ones) - 1
  {
    OrLowIf(ip[0], 8 - ones);
  }

  lemma {:induction false} FilledFirst(end: IP, ip: IP, ones: nat)
    requires ip != [] && ones < 8 && IsFilled(end, ip, CIDRMask(ones, |ip|))
    ensures ip[0] % Pow2(8 - ones) == 0 ==> end[0] == ip[0] + Pow2(8 - ones) - 1
  {
    MaskParts(ones, |ip|);
    FilledFirstByte(end, ip, CIDRMask(ones, |ip|), ones);
  }

  lemma {:induction false} FilledRest(end: IP, ip: IP, ones: nat)
    requires ip != [] && ones < 8 && IsFilled(end, ip, CIDRMask(ones, |ip|))
    ensures Value(end[1..]) == Pow2(8 * (|ip| - 1)) - 1
  {
    MaskParts(ones, |ip|);
    FilledStep(end, ip, CIDRMask(ones, |ip|));
    FilledZeros(end[1..], ip[1..]);
  }

  /** The same, with the sizes as plain numbers. */
  lemma {:induction false} FilledTop(x: nat, u: nat, a: nat, y: nat, v: nat, b: nat, p: nat, h: nat, m: nat)
    requires p > 0 && h > 0 && m == p * h && u < p && a == x * p + u && b == y * p + v && m > 0 && a % m == 0
    requires x % h == 0 ==> y == x + h - 1
    requires v == p - 1
    ensures b == a + m - 1
  {
    AlignedParts(x, p, u, h, a);
    FilledSum(x, p, h);
    SameProduct(p, y, x + h - 1);
  }

  lemma {:induction false} OrLowIf(a: nat, h: nat)
    ensures a % Pow2(h) == 0 ==> BitOr(a, Pow2(h) - 1) == a + Pow2(h) - 1
  {
    if a % Pow2(h) == 0 {
      OrLow(a, h);
    }
  }

  lemma {:induction false} Pow2Product(w: nat, h: nat, s: nat)
    requires w + h == s
    ensures Pow2(s) == Pow2(w) * Pow2(h)
  {
    Pow2Add(w, h);
  }

  lemma {:induction false} FilledValue(end: IP, ip: IP, p: nat, h: nat, m: nat)
    requires ip != [] && |end| == |ip| && p == Pow2(8 * (|ip| - 1)) && h > 0 && m == p * h && m > 0
    requires Value(ip) % m == 0
    requires ip[0] % h == 0 ==> end[0] == ip[0] + h - 1
    requires Value(end[1..]) == p - 1
    ensures Value(end) == Value(ip) + m - 1
  {
    ValueBound(ip[1..]);
    FilledTop(ip[0], Value(ip[1..]), Value(ip), end[0], Value(end[1..]), Value(end), p, h, m);
  }

  lemma {:induction false} FilledTopByte(end: IP, ip: IP, ones: nat, s: nat)
    requires ip != [] && ones < 8 && ones + s == 8 * |ip|
    requires IsFilled(end, ip, CIDRMask(ones, |ip|)) && Value(ip) % Pow2(s) == 0
    ensures Value(end) == Value(ip) + Pow2(s) - 1
  {
    FilledFirst(end, ip, ones);
    FilledRest(end, ip, ones);
    Pow2Product(8 * (|ip| - 1), 8 - ones, s);
    FilledValue(end, ip, Pow2(8 * (|ip| - 1)), Pow2(8 - ones), Pow2(s));
  }

  lemma {:induction false} FilledWholeByte(end: IP, ip: IP, ones: nat)
    requires ip != [] && ones >= 8 && IsFilled(end, ip, CIDRMask(ones, |ip|))
    ensures end[0] == ip[0] && IsFilled(end[1..], ip[1..], CIDRMask(ones - 8, |ip| - 1))
  {}

  lemma {:induction false} RestAligned(ip: IP, s: nat)
    requires ip != [] && s <= 8 * (|ip| - 1) && Value(ip) % Pow2(s) == 0
    ensures Value(ip[1..]) % Pow2(s) == 0
  {
    var w := 8 * (|ip| - 1);
    Pow2Split(w, s);
    SameProduct(ip[0], Pow2(w), Pow2(s) * Pow2(w - s));
    AlignedRest(ip[0], Pow2(s), Pow2(w - s), Value(ip[1..]), Value(ip));
  }

  /** The last address is the first one plus 2^s - 1, with s the number of host bits. */
  lemma {:induction false} FilledIsLast(end: IP, ip: IP, ones: nat, s: nat)
    requires ones + s == 8 * |ip| && IsFilled(end, ip, CIDRMask(ones, |ip|)) && Value(ip) % Pow2(s) == 0
    ensures Value(end) == Value(ip) + Pow2(s) - 1
    decreases |ip|
  {
    if ip != [] && ones >= 8 {
      FilledWholeByte(end, ip, ones);
      RestAligned(ip, s);
      FilledIsLast(end[1..], ip[1..], ones - 8, s);
    } else if ip != [] {
      FilledTopByte(end, ip, ones, s);
    }
  }

  // ---------- subnets ----------

  datatype IPNet = IPNet(ip: IP, ones: nat)

  /** How many bits of an address are not fixed by the subnet. */
  function HostBits(net: IPNet): nat {
    if net.ones <= 8 * |net.ip| then 8 * |net.ip| - net.ones else 0
  }

  /** A subnet as net.ParseCIDR returns it: four or sixteen bytes, host bits clear. */
  ghost predicate Parsed(net: IPNet) {
    (|net.ip| == 4 || |net.ip| == 16) && net.ones <= 8 * |net.ip| && Value(net.ip) % Pow2(HostBits(net)) == 0
  }

  /** The bytes of the address match those of the subnet under its mask. */
  predicate Contains(net: IPNet, ip: IP) {
    |ip| == |net.ip| && MatchMasked(net.ip, ip, CIDRMask(net.ones, |net.ip|))
  }

  lemma {:induction false} LastOfParsed(end: IP, net: IPNet)
    requires IsFilled(end, net.ip, CIDRMask(net.ones, |net.ip|))
    ensures Parsed(net) ==> Value(end) == Value(net.ip) + Pow2(HostBits(net)) - 1
  {
    if Parsed(net) {
      FilledIsLast(end, net.ip, net.ones, HostBits(net));
    }
  }

  method LastIP(net: IPNet) returns (end: IP)
    ensures IsFilled(end, net.ip, CIDRMask(net.ones, |net.ip|))
    ensures Parsed(net) ==> Value(end) == Value(net.ip) + Pow2(HostBits(net)) - 1
  {
    var mask := CIDRMask(net.ones, |net.ip|);
    end := [];
    for i := 0 to |net.ip|
      invariant |end| == i
      invariant forall k :: 0 <= k < i ==> end[k] == BitOr(net.ip[k], 255 - mask[k])
    {
      assert Pow2(8) == 256;
      OrBound(net.ip[i], 255 - mask[i], 8);
      end := end + [BitOr(net.ip[i], 255 - mask[i])];
    }
    LastOfParsed(end, net);
  }

  /** A pool and an address in it, as numbers: same quotient by the pool's size. */
  lemma {:induction false} ContainsIff(pool: IPNet, ip: IP)
    requires Parsed(pool) && |ip| == |pool.ip|
    ensures Contains(pool, ip) <==> Value(pool.ip) <= Value(ip) < Value(pool.ip) + Pow2(HostBits(pool))
  {
    MatchIsPrefix(pool.ip, ip, pool.ones, HostBits(pool));
    SameQuotient(Value(pool.ip), Value(ip), Pow2(HostBits(pool)));
  }

  lemma {:induction false} SameQuotient(base: nat, x: nat, m: nat)
    requires m > 0 && base % m == 0
    ensures base / m == x / m <==> base <= x < base + m
  {
    var q := base / m;
    assert base == q * m && x == (x / m) * m + x % m;
    if base <= x < base + m {
      ModUnique(x, m, q, x - base);
    }
  }

  /** Every address of the subnet lies in the pool. */
  ghost predicate Covers(pool: IPNet, net: IPNet) {
    |net.ip| == |pool.ip| && forall ip: IP :: |ip| == |net.ip| && Contains(net, ip) ==> Contains(pool, ip)
  }

  /** Checking both ends of a subnet is enough: exactly then does every address of the subnet lie
      in the pool. */
  lemma {:induction false} EndsDecide(pool: IPNet, net: IPNet, end: IP)
    requires Parsed(pool) && Parsed(net) && |end| == |net.ip| && Value(end) == Value(net.ip) + Pow2(HostBits(net)) - 1
    ensures Contains(pool, net.ip) && Contains(pool, end) <==> Covers(pool, net)
  {
    if |pool.ip| == |net.ip| {
      ContainsIff(pool, net.ip);
      ContainsIff(pool, end);
      ContainsIff(net, net.ip);
      ContainsIff(net, end);
      if Contains(pool, net.ip) && Contains(pool, end) {
        forall ip: IP | |ip| == |net.ip| && Contains(net, ip)
          ensures Contains(pool, ip)
        {
          ContainsIff(net, ip);
          ContainsIff(pool, ip);
        }
      }
    }
  }
}
