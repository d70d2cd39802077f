/** The subnet allocator: /26 blocks handed out of a pool, starting anywhere and going once around. */
module Allocator {
  import opened Prelude
  import opened Addresses
  import opened AddressInts

  const BLOCK_ONES: nat := 26
  const BLOCK_SIZE: nat := 64

  /** The integer the generator counts from has four significant bytes. */
  predicate StartPrints(pool: IPNet) {
    TWO_24 <= IpToInt(pool.ip) < TWO_32
  }

  /** A pool the allocator supports: a parsed IPv4 subnet outside 0.0.0.0/8, in either notation. */
  ghost predicate PoolOk(pool: IPNet) {
    Parsed(pool) && To4(pool.ip).Some? && StartPrints(pool)
  }

  /** How many blocks fit; none if the pool is smaller than a block. */
  function NumBlocks(pool: IPNet): nat {
    Pow2(HostBits(pool)) / BLOCK_SIZE
  }

  /** How a net without an IPv4 address prints when its mask has four bytes. */
  const NIL_NET := IPNet([], 0)

  /** A block is known by how it prints: the allocator's cache, the node's annotation and the endpoint
      hold that. Its mask always has four bytes. */
  function Printed(ip: IP): IPNet {
    if To4(ip).Some? then IPNet(To4(ip).value, BLOCK_ONES) else NIL_NET
  }

  function Address(pool: IPNet, j: nat): Option<IP> {
    IncrementIP(pool.ip, j * BLOCK_SIZE)
  }

  /** Block number `j` of the pool. */
  function Block(pool: IPNet, j: nat): IPNet {
    if Address(pool, j).Some? then Printed(Address(pool, j).value) else NIL_NET
  }

  // ---------- the blocks of a pool ----------

  lemma NumBlocksIs(pool: IPNet)
    ensures HostBits(pool) >= 6 ==> NumBlocks(pool) == Pow2(HostBits(pool) - 6)
    ensures HostBits(pool) >= 6 ==> NumBlocks(pool) * BLOCK_SIZE == Pow2(HostBits(pool))
    ensures HostBits(pool) < 6 ==> NumBlocks(pool) == 0
  {
    var h := HostBits(pool);
    assert Pow2(6) == 64;
    if h >= 6 {
      Pow2Product(h - 6, 6, h);
    } else {
      Pow2Product(h, 6 - h, 6);
      Pow2More(6 - h);
      assert Pow2(h) * 2 <= Pow2(h) * Pow2(6 - h);
    }
  }

  lemma Pow2More(n: nat)
    requires n > 0
    ensures Pow2(n) >= 2
  {}

  /** A pool ends where the address space ends, at the latest. */
  lemma PoolEnds(pool: IPNet)
    requires Parsed(pool)
    ensures Value(pool.ip) + Pow2(HostBits(pool)) <= Pow2(8 * |pool.ip|)
  {
    ValueBound(pool.ip);
    Pow2Product(HostBits(pool), pool.ones, 8 * |pool.ip|);
    AlignedEnds(Value(pool.ip), Pow2(HostBits(pool)), Pow2(pool.ones));
  }

  lemma AlignedEnds(a: nat, m: nat, k: nat)
    requires m > 0 && a % m == 0 && a < m * k
    ensures a + m <= m * k
  {
    DivBound(a, m, k);
    MulMono(a / m + 1, k, m);
    assert (a / m + 1) * m == a + m;
  }

  lemma BlockSpan(pool: IPNet, j: nat)
    requires j < NumBlocks(pool)
    ensures j * BLOCK_SIZE + BLOCK_SIZE <= Pow2(HostBits(pool))
  {
    NumBlocksIs(pool);
    MulMono(j + 1, NumBlocks(pool), BLOCK_SIZE);
  }

  lemma BlockFits(pool: IPNet, j: nat)
    requires Parsed(pool) && j < NumBlocks(pool)
    ensures Value(pool.ip) + j * BLOCK_SIZE + BLOCK_SIZE <= Value(pool.ip) + Pow2(HostBits(pool)) <= Pow2(8 * |pool.ip|)
  {
    PoolEnds(pool);
    BlockSpan(pool, j);
  }

  /** A pool whose start prints is aligned and ends within the IPv4 numbers. */
  lemma PrintedEnds(pool: IPNet)
    requires Parsed(pool) && StartPrints(pool)
    ensures IpToInt(pool.ip) % Pow2(HostBits(pool)) == 0
    ensures IpToInt(pool.ip) + Pow2(HostBits(pool)) <= TWO_32
  {
    Powers();
    if To4(pool.ip).Some? {
      UnmappedParsed(pool);
      PoolEnds(UnmappedNet(pool));
    } else {
      LowEnds(Value(pool.ip), HostBits(pool));
    }
  }

  lemma LowEnds(a: nat, h: nat)
    requires 0 < a < TWO_32 && a % Pow2(h) == 0
    ensures a + Pow2(h) <= TWO_32
  {
    Pow32();
    NoLessThanUnit(a, Pow2(h));
    if h >= 32 {
      Pow2Mono(32, h);
      assert false;
    }
    Pow2Product(h, 32 - h, 32);
    AlignedEnds(a, Pow2(h), Pow2(32 - h));
  }

  lemma Pow32()
    ensures Pow2(32) == TWO_32
  {
    Powers();
  }

  lemma NoLessThanUnit(a: nat, m: nat)
    requires 0 < a && 0 < m && a % m == 0
    ensures m <= a
  {}

  lemma {:induction false} Pow2Mono(k: nat, h: nat)
    requires k <= h
    ensures Pow2(k) <= Pow2(h)
  {
    Pow2Product(k, h - k, h);
    MulMono(1, Pow2(h - k), Pow2(k));
  }

  lemma BlockValue(pool: IPNet, j: nat)
    requires Parsed(pool) && StartPrints(pool) && j < NumBlocks(pool)
    ensures |Block(pool, j).ip| == 4 && Block(pool, j).ones == BLOCK_ONES
    ensures Value(Block(pool, j).ip) == IpToInt(pool.ip) + j * BLOCK_SIZE
    ensures
      IpToInt(pool.ip) + j * BLOCK_SIZE + BLOCK_SIZE <= IpToInt(pool.ip) + Pow2(HostBits(pool)) <= TWO_32
  {
    PrintedEnds(pool);
    BlockSpan(pool, j);
    PrintedNumber(IpToInt(pool.ip) + j * BLOCK_SIZE);
  }

  lemma PrintedNumber(n: nat)
    requires TWO_24 <= n < TWO_32
    ensures IntToIP(n).Some? && |IntToIP(n).value| == 4 && Value(IntToIP(n).value) == n
  {
    Powers();
    IntToIPFour(n);
    FillValue(n, 4);
  }

  lemma BlockParsed(pool: IPNet, j: nat)
    requires Parsed(pool) && StartPrints(pool) && j < NumBlocks(pool)
    ensures Parsed(Block(pool, j))
  {
    BlockValue(pool, j);
    PrintedEnds(pool);
    NumBlocksIs(pool);
    assert Pow2(6) == 64;
    AlignedSum(IpToInt(pool.ip), j, NumBlocks(pool));
  }

  /** Every block of a supported pool is a parsed /26 that lies wholly in the pool. */
  lemma BlockInPool(pool: IPNet, j: nat)
    requires PoolOk(pool) && j < NumBlocks(pool)
    ensures Parsed(Block(pool, j))
    ensures InPool(pool, Block(pool, j))
  {
    BlockParsed(pool, j);
    BlockValue(pool, j);
    UnmappedParsed(pool);
    var p, b := UnmappedNet(pool), Block(pool, j);
    assert Pow2(6) == 64 && UnmappedNet(b) == b && |p.ip| == 4;
    forall ip: IP | |ip| == 4 && Contains(b, ip)
      ensures Contains(p, ip)
    {
      ContainsIff(b, ip);
      ContainsIff(p, ip);
    }
  }

  lemma AlignedSum(a: nat, j: nat, n: nat)
    requires n > 0 && a % (n * 64) == 0
    ensures (a + j * 64) % 64 == 0
  {
    var q := a / (n * 64);
    assert a == q * (n * 64) == (q * n) * 64;
    ModUnique(a + j * 64, 64, q * n + j, 0);
  }

  /** Different blocks share no address. */
  lemma BlocksDisjoint(pool: IPNet, i: nat, j: nat, ip: IP)
    requires Parsed(pool) && StartPrints(pool)
    requires i < NumBlocks(pool) && j < NumBlocks(pool) && i != j && |ip| == 4
    ensures !(Contains(Block(pool, i), ip) && Contains(Block(pool, j), ip))
    ensures Block(pool, i) != Block(pool, j)
  {
    BlockValue(pool, i);
    BlockValue(pool, j);
    BlockParsed(pool, i);
    BlockParsed(pool, j);
    ContainsIff(Block(pool, i), ip);
    ContainsIff(Block(pool, j), ip);
    assert Pow2(6) == 64;
  }

  // ---------- the block generator ----------

  /** The block number the generator is at after `k` calls. */
  function CircleIndex(start: nat, k: nat, n: nat): (j: nat)
    requires start < n
    ensures j < n
  {
    if k == 0 then start
    else var j := CircleIndex(start, k - 1, n); if j + 1 < n then j + 1 else 0
  }

  lemma {:induction false} CircleIndexIs(start: nat, k: nat, n: nat)
    requires start < n && k <= n
    ensures CircleIndex(start, k, n) == if start + k < n then start + k else start + k - n
    decreases k
  {
    if k > 0 {
      CircleIndexIs(start, k - 1, n);
    }
  }

  /** One full circle visits every block exactly once. */
  lemma FullCircle(start: nat, j: nat, n: nat)
    requires start < n && j < n
    ensures
      var k := if start <= j then j - start else j - start + n;
      && k < n && CircleIndex(start, k, n) == j
      && forall l :: 0 <= l < n && CircleIndex(start, l, n) == j ==> l == k
  {
    var k := if start <= j then j - start else j - start + n;
    CircleIndexIs(start, k, n);
    forall l | 0 <= l < n && CircleIndex(start, l, n) == j
      ensures l == k
    {
      CircleIndexIs(start, l, n);
    }
  }

  /** The generator's test for an address it can return. */
  predicate Usable(ip: Option<IP>) {
    ip.Some? && (To16(ip.value).Some? || To4(ip.value).Some?)
  }

  class BlockGenerator {
    const pool: IPNet
    const numBlocks: nat
    /** The pseudo-random starting point; any block number. */
    const start: nat
    var i: nat
    var numReturned: nat
    /** How often `Next` was called. */
    ghost var calls: nat

    ghost predicate Valid()
      reads this
    {
      && Parsed(pool) && numBlocks == NumBlocks(pool)
      && numReturned == (if calls < numBlocks then calls else numBlocks)
      && (numBlocks == 0 ==> i == 0)
      && (numBlocks > 0 ==> start < numBlocks && i == CircleIndex(start, calls, numBlocks))
    }

    constructor (pool: IPNet, start: nat)
      requires Parsed(pool) && (if NumBlocks(pool) == 0 then start == 0 else start < NumBlocks(pool))
      ensures Valid() && calls == 0 && this.pool == pool && this.start == start
    {
      this.pool, this.start, this.numBlocks := pool, start, NumBlocks(pool);
      i, numReturned, calls := start, 0, 0;
    }

    /** Call number k yields the k-th block around the circle, and nothing after a full circle. */
    method Next() returns (block: Option<IPNet>)
      requires Valid()
      modifies this
      ensures Valid() && calls == old(calls) + 1
      ensures block == if old(calls) < numBlocks then Some(Block(pool, CircleIndex(start, old(calls), numBlocks)))
                       else None
    {
      GeneratedAddress(pool, i, numBlocks);
      var ip := IncrementIP(pool.ip, i * BLOCK_SIZE);
      if !Usable(ip) {
        return None;
      }
      var ipNet := Printed(ip.value);
      calls := calls + 1;
      if numBlocks - i <= 1 {
        i := 0;
      } else {
        i := i + 1;
      }
      if numReturned >= numBlocks {
        return None;
      }
      numReturned := numReturned + 1;
      return Some(ipNet);
    }
  }

  lemma IntBound(ip: IP)
    requires |ip| == 4 || |ip| == 16
    ensures IpToInt(ip) <= Value(ip)
  {
    if |ip| == 16 {
      MappedValue(ip);
    }
  }

  /** The generator's address arithmetic never leaves the address space. */
  lemma GeneratedAddress(pool: IPNet, i: nat, n: nat)
    requires Parsed(pool) && n == NumBlocks(pool) && (if n == 0 then i == 0 else i < n)
    ensures Address(pool, i).Some? && Usable(Address(pool, i))
  {
    if n > 0 {
      NumberBound(pool, i);
    } else {
      Powers();
      IntBound(pool.ip);
      ValueBound(pool.ip);
    }
    IntToIPFour(IpToInt(pool.ip) + i * BLOCK_SIZE);
  }

  // ---------- allocation ----------

  /** A starting point the generator can have for this pool. */
  predicate StartOk(pool: IPNet, start: nat) {
    if NumBlocks(pool) == 0 then start == 0 else start < NumBlocks(pool)
  }

  /** The first block from call `k` of the generator on that is not recorded. */
  function FreeFrom(pool: IPNet, start: nat, k: nat, cache: set<IPNet>): (r: Option<nat>)
    requires StartOk(pool, start)
    ensures r.Some? ==> r.value < NumBlocks(pool) && Block(pool, r.value) !in cache
    decreases NumBlocks(pool) - k
  {
    if k >= NumBlocks(pool) then None else
    var j := CircleIndex(start, k, NumBlocks(pool));
    if Block(pool, j) !in cache then Some(j) else FreeFrom(pool, start, k + 1, cache)
  }

  function FreeBlock(pool: IPNet, start: nat, cache: set<IPNet>): Option<IPNet>
    requires StartOk(pool, start)
  {
    var r := FreeFrom(pool, start, 0, cache);
    if r.Some? then Some(Block(pool, r.value)) else None
  }

  lemma {:induction false} NoneFreeFrom(pool: IPNet, start: nat, k: nat, cache: set<IPNet>, l: nat)
    requires StartOk(pool, start) && FreeFrom(pool, start, k, cache).None? && k <= l < NumBlocks(pool)
    ensures Block(pool, CircleIndex(start, l, NumBlocks(pool))) in cache
    decreases l - k
  {
    if k < l {
      NoneFreeFrom(pool, start, k + 1, cache, l);
    }
  }

  /** Allocation fails exactly when every block of the pool is recorded. */
  lemma FailsIffFull(pool: IPNet, start: nat, cache: set<IPNet>)
    requires StartOk(pool, start)
    ensures FreeBlock(pool, start, cache).None? <==> forall j :: 0 <= j < NumBlocks(pool) ==> Block(pool, j) in cache
  {
    if FreeBlock(pool, start, cache).None? {
      forall j | 0 <= j < NumBlocks(pool)
        ensures Block(pool, j) in cache
      {
        FullCircle(start, j, NumBlocks(pool));
        NoneFreeFrom(pool, start, 0, cache, if start <= j then j - start else j - start + NumBlocks(pool));
      }
    }
  }

  lemma {:induction false} FreeFromIsFirst(pool: IPNet, start: nat, k: nat, cache: set<IPNet>, l: nat)
    requires StartOk(pool, start) && FreeFrom(pool, start, k, cache).Some? && k <= l < NumBlocks(pool)
    requires Block(pool, CircleIndex(start, l, NumBlocks(pool))) !in cache
    requires forall i :: k <= i < l ==> Block(pool, CircleIndex(start, i, NumBlocks(pool))) in cache
    ensures FreeFrom(pool, start, k, cache).value == CircleIndex(start, l, NumBlocks(pool))
    decreases l - k
  {
    if k < l {
      FreeFromIsFirst(pool, start, k + 1, cache, l);
    }
  }

  /** Allocation gives the first block around the circle that is not recorded. */
  lemma FreeBlockIsFirst(pool: IPNet, start: nat, cache: set<IPNet>, l: nat)
    requires StartOk(pool, start) && l < NumBlocks(pool)
    requires Block(pool, CircleIndex(start, l, NumBlocks(pool))) !in cache
    requires forall i :: 0 <= i < l ==> Block(pool, CircleIndex(start, i, NumBlocks(pool))) in cache
    ensures FreeBlock(pool, start, cache) == Some(Block(pool, CircleIndex(start, l, NumBlocks(pool))))
  {
    FailsIffFull(pool, start, cache);
    FreeFromIsFirst(pool, start, 0, cache, l);
  }

  /** The last address of an IPv6 subnet is an IPv4-mapped one. */
  predicate EndsMapped(net: IPNet) {
    |net.ip| == 16 && (Value(net.ip) + Pow2(HostBits(net)) - 1) / TWO_32 == 0xffff
  }

  /** Every address of the subnet lies in the pool, IPv4-mapped ones taken as IPv4. An IPv6 subnet that
      ends in the mapped range is never in a pool. */
  ghost predicate InPool(pool: IPNet, net: IPNet) {
    Covers(UnmappedNet(pool), UnmappedNet(net)) && !EndsMapped(UnmappedNet(net))
  }

  /** The last address of a subnet, taken as IPv4 if it is mapped, is the last of the subnet so taken. */
  lemma LastUnmapped(net: IPNet, last: IP)
    requires Parsed(net) && |last| == |net.ip| && Value(last) == Value(net.ip) + Pow2(HostBits(net)) - 1
    ensures Parsed(UnmappedNet(net))
    ensures |net.ip| == 16 && UnmappedNet(net) == net ==> (To4(last).Some? <==> EndsMapped(net))
    ensures !EndsMapped(UnmappedNet(net)) ==>
      var n := UnmappedNet(net);
      |Unmapped(last)| == |n.ip| && Value(Unmapped(last)) == Value(n.ip) + Pow2(HostBits(n)) - 1
  {
    UnmappedParsed(net);
    PoolEnds(UnmappedNet(net));
    Powers();
    if |net.ip| == 16 {
      MappedValue(last);
    }
  }

  lemma SelfUnmapped(net: IPNet)
    requires Parsed(net)
    ensures Unmapped(net.ip) == UnmappedNet(net).ip
  {}

  class SubnetAllocator {
    const pool: IPNet
    var subnetCache: set<IPNet>

    constructor (pool: IPNet)
      ensures this.pool == pool && subnetCache == {}
    {
      this.pool := pool;
      subnetCache := {};
    }

    method Record(net: IPNet)
      modifies this
      ensures subnetCache == old(subnetCache) + {UnmappedNet(net)}
    {
      subnetCache := subnetCache + {UnmappedNet(net)};
    }

    method Reclaim(net: IPNet)
      modifies this
      ensures subnetCache == old(subnetCache) - {UnmappedNet(net)}
    {
      subnetCache := subnetCache - {UnmappedNet(net)};
    }

    /** Both ends of the subnet are checked, and that decides for all its addresses. */
    method ContainsNet(net: IPNet) returns (r: bool)
      requires Parsed(pool) && Parsed(net)
      ensures r <==> InPool(pool, net)
    {
      var last := LastIP(net);
      LastUnmapped(net, last);
      SelfUnmapped(net);
      UnmappedParsed(pool);
      BothEnds(pool, net, last);
      r := HasIP(pool, net.ip) && HasIP(pool, last);
    }

    /** `start` is where the host's generator begins. */
    method GetFreeSubnetBlock(start: nat) returns (r: Option<IPNet>)
      requires Parsed(pool) && StartOk(pool, start)
      modifies this
      ensures r == FreeBlock(pool, start, old(subnetCache))
      ensures subnetCache == old(subnetCache) + (if r.Some? then {r.value} else {})
    {
      var generator := new BlockGenerator(pool, start);
      var block := generator.Next();
      while block.Some?
        invariant generator.Valid() && fresh(generator)
        invariant generator.pool == pool && generator.start == start && generator.calls > 0
        invariant generator.calls <= generator.numBlocks + 1
        invariant subnetCache == old(subnetCache)
        invariant block == if generator.calls <= generator.numBlocks
          then Some(Block(pool, CircleIndex(start, generator.calls - 1, generator.numBlocks))) else None
        invariant FreeFrom(pool, start, generator.calls - 1, subnetCache) == FreeFrom(pool, start, 0, subnetCache)
        decreases generator.numBlocks + 1 - generator.calls
      {
        if block.value !in subnetCache {
          subnetCache := subnetCache + {block.value};
          return block;
        }
        block := generator.Next();
      }
      return None;
    }
  }

  lemma BothEnds(pool: IPNet, net: IPNet, last: IP)
    requires Parsed(UnmappedNet(pool)) && Parsed(net) && |last| == |net.ip|
    requires Value(last) == Value(net.ip) + Pow2(HostBits(net)) - 1
    ensures HasIP(pool, net.ip) && HasIP(pool, last) <==> InPool(pool, net)
  {
    var p, n := UnmappedNet(pool), UnmappedNet(net);
    LastUnmapped(net, last);
    SelfUnmapped(net);
    if !EndsMapped(n) {
      EndsDecide(p, n, Unmapped(last));
    }
  }

  // ---------- whole runs ----------

  /** The first `n` blocks of a pool. */
  function Blocks(pool: IPNet, n: nat): set<IPNet> {
    set j | 0 <= j < n :: Block(pool, j)
  }

  function BlockSet(pool: IPNet): set<IPNet> {
    Blocks(pool, NumBlocks(pool))
  }

  lemma BlocksStep(pool: IPNet, n: nat)
    requires n > 0
    ensures Blocks(pool, n) == Blocks(pool, n - 1) + {Block(pool, n - 1)}
  {}

  lemma NewBlock(pool: IPNet, n: nat)
    requires Parsed(pool) && StartPrints(pool) && n < NumBlocks(pool)
    ensures Block(pool, n) !in Blocks(pool, n)
  {
    if Block(pool, n) in Blocks(pool, n) {
      var j :| 0 <= j < n && Block(pool, j) == Block(pool, n);
      BlocksDisjoint(pool, j, n, [0, 0, 0, 0]);
      assert false;
    }
  }

  lemma {:induction false} FirstBlocks(pool: IPNet, n: nat)
    requires Parsed(pool) && StartPrints(pool) && n <= NumBlocks(pool)
    ensures |Blocks(pool, n)| == n
    decreases n
  {
    if n > 0 {
      FirstBlocks(pool, n - 1);
      BlocksStep(pool, n);
      NewBlock(pool, n - 1);
    }
  }

  lemma TwoAlike(pool: IPNet)
    requires Block(pool, 0) == Block(pool, 1)
    ensures |Blocks(pool, 2)| < 2
  {
    BlocksStep(pool, 2);
    BlocksStep(pool, 1);
    assert Blocks(pool, 0) == {};
  }

  /** With two blocks that print alike there are fewer than the number suggests. */
  lemma {:induction false} FewerBlocks(pool: IPNet, n: nat)
    requires 2 <= n && Block(pool, 0) == Block(pool, 1)
    ensures |Blocks(pool, n)| < n
    decreases n
  {
    if n == 2 {
      TwoAlike(pool);
    } else {
      BlocksStep(pool, n);
      FewerBlocks(pool, n - 1);
    }
  }

  lemma {:induction false} AtMost(pool: IPNet, n: nat)
    ensures |Blocks(pool, n)| <= n
    decreases n
  {
    if n > 0 {
      AtMost(pool, n - 1);
      BlocksStep(pool, n);
    }
  }

  /** A number that is no IPv4 address, plain or mapped. */
  predicate Unprintable(n: nat) {
    !(TWO_24 <= n < TWO_32) && n / TWO_32 != 0xffff
  }

  lemma NilNumber(n: nat)
    requires n < TWO_128 && Unprintable(n)
    ensures IntToIP(n).Some? && Printed(IntToIP(n).value) == NIL_NET
  {
    IntToIPFour(n);
    MappedIff(n);
  }

  lemma StartUnprintable(pool: IPNet)
    requires Parsed(pool) && !StartPrints(pool)
    ensures Unprintable(IpToInt(pool.ip))
  {
    Powers();
    if To4(pool.ip).Some? {
      UnmappedParsed(pool);
      ValueBound(UnmappedNet(pool).ip);
    } else {
      MappedValue(pool.ip);
    }
  }

  lemma NextUnprintable(a: nat)
    requires Unprintable(a) && a % 128 == 0
    ensures Unprintable(a + BLOCK_SIZE)
  {}

  /** If the start does not print, neither does it one block further on. */
  lemma NilStart(pool: IPNet, j: nat)
    requires Parsed(pool) && !StartPrints(pool) && j < NumBlocks(pool) && j < 2
    ensures Block(pool, j) == NIL_NET
  {
    StartUnprintable(pool);
    if j == 1 {
      TwoBlocksAligned(pool);
      NextUnprintable(IpToInt(pool.ip));
    }
    NumberBound(pool, j);
    NilNumber(IpToInt(pool.ip) + j * BLOCK_SIZE);
  }

  lemma NumberBound(pool: IPNet, j: nat)
    requires Parsed(pool) && j < NumBlocks(pool)
    ensures IpToInt(pool.ip) + j * BLOCK_SIZE < TWO_128
  {
    Powers();
    IntBound(pool.ip);
    BlockFits(pool, j);
  }

  lemma TwoBlocksAligned(pool: IPNet)
    requires Parsed(pool) && NumBlocks(pool) >= 2
    ensures IpToInt(pool.ip) % 128 == 0
  {
    var h := HostBits(pool);
    UnmappedParsed(pool);
    NumBlocksIs(pool);
    assert Pow2(6) == 64 && Pow2(7) == 128;
    Pow2Product(7, h - 7, h);
    CoarseAligned(Value(UnmappedNet(pool).ip), Pow2(h), 128, Pow2(h - 7));
  }

  /** A pool has as many different blocks as fit if and only if at most one fits or its start prints. */
  lemma BlockCountIff(pool: IPNet)
    requires Parsed(pool)
    ensures |BlockSet(pool)| == NumBlocks(pool) <==> NumBlocks(pool) <= 1 || StartPrints(pool)
  {
    if StartPrints(pool) {
      FirstBlocks(pool, NumBlocks(pool));
    } else if NumBlocks(pool) >= 2 {
      NilStart(pool, 0);
      NilStart(pool, 1);
      FewerBlocks(pool, NumBlocks(pool));
    } else {
      assert NumBlocks(pool) == 1 ==> Blocks(pool, 1) == {Block(pool, 0)};
    }
  }

  /** All blocks of a pool are parsed subnets inside it if and only if none fits or the pool is
      supported: blocks are IPv4 subnets, also where the pool is not. */
  lemma BlocksInPoolIff(pool: IPNet)
    requires Parsed(pool)
    ensures
      (forall j :: 0 <= j < NumBlocks(pool) ==> Parsed(Block(pool, j)) && InPool(pool, Block(pool, j)))
      <==> NumBlocks(pool) == 0 || PoolOk(pool)
  {
    if PoolOk(pool) {
      forall j | 0 <= j < NumBlocks(pool)
        ensures Parsed(Block(pool, j)) && InPool(pool, Block(pool, j))
      {
        BlockInPool(pool, j);
      }
    } else if NumBlocks(pool) > 0 {
      if StartPrints(pool) {
        BlockValue(pool, 0);
        assert |UnmappedNet(pool).ip| == 16;
      } else {
        NilStart(pool, 0);
      }
      assert !(Parsed(Block(pool, 0)) && InPool(pool, Block(pool, 0)));
    }
  }

  lemma FullIffAll(pool: IPNet, cache: set<IPNet>)
    ensures BlockSet(pool) <= cache <==> forall j :: 0 <= j < NumBlocks(pool) ==> Block(pool, j) in cache
  {
    forall j | 0 <= j < NumBlocks(pool)
      ensures Block(pool, j) in BlockSet(pool)
    {}
  }

  lemma SmallerIfPart(a: set<IPNet>, b: set<IPNet>)
    requires a <= b && !(b <= a)
    ensures |a| < |b|
  {
    var x :| x in b && x !in a;
    SubsetSize(a, b - {x});
  }

  /** While blocks are left allocation succeeds with one of them; with none left it fails. */
  lemma ServeOne(pool: IPNet, start: nat, cache: set<IPNet>)
    requires StartOk(pool, start) && cache <= BlockSet(pool)
    ensures
      var r := FreeBlock(pool, start, cache);
      if |cache| < |BlockSet(pool)| then r.Some? && r.value in BlockSet(pool) - cache
      else |cache| == |BlockSet(pool)| && r.None?
  {
    FailsIffFull(pool, start, cache);
    FullIffAll(pool, cache);
    if FreeBlock(pool, start, cache).Some? {
      SmallerIfPart(cache, BlockSet(pool));
    } else {
      assert cache == BlockSet(pool);
    }
  }

  /** What is recorded after a series of allocations from a fresh allocator. */
  function Recorded(pool: IPNet, starts: seq<nat>): set<IPNet>
    requires forall i :: 0 <= i < |starts| ==> StartOk(pool, starts[i])
  {
    if starts == [] then {} else
    var init := starts[..|starts| - 1];
    var r := FreeBlock(pool, starts[|starts| - 1], Recorded(pool, init));
    Recorded(pool, init) + (if r.Some? then {r.value} else {})
  }

  /** What allocation number `i` of the series returns. */
  function Served(pool: IPNet, starts: seq<nat>, i: nat): Option<IPNet>
    requires i < |starts| && forall k :: 0 <= k < |starts| ==> StartOk(pool, starts[k])
  {
    FreeBlock(pool, starts[i], Recorded(pool, starts[..i]))
  }

  lemma {:induction false} RecordedSize(pool: IPNet, starts: seq<nat>)
    requires forall i :: 0 <= i < |starts| ==> StartOk(pool, starts[i])
    ensures Recorded(pool, starts) <= BlockSet(pool)
    ensures |Recorded(pool, starts)| == if |starts| < |BlockSet(pool)| then |starts| else |BlockSet(pool)|
    decreases |starts|
  {
    if starts != [] {
      var init := starts[..|starts| - 1];
      RecordedSize(pool, init);
      ServeOne(pool, starts[|starts| - 1], Recorded(pool, init));
    }
  }

  lemma {:induction false} RecordedGrows(pool: IPNet, starts: seq<nat>, i: nat)
    requires i < |starts| && forall k :: 0 <= k < |starts| ==> StartOk(pool, starts[k])
    ensures Served(pool, starts, i).Some? ==> Served(pool, starts, i).value in Recorded(pool, starts)
    decreases |starts|
  {
    var init := starts[..|starts| - 1];
    if i < |starts| - 1 {
      assert init[..i] == starts[..i];
      RecordedGrows(pool, init, i);
    }
  }

  /** A fresh pool, of whatever kind, serves exactly as many allocations as it has blocks that print
      differently, whatever the hosts' starting points, all different, and then none. */
  lemma PoolServes(pool: IPNet, starts: seq<nat>, i: nat)
    requires i < |starts| && forall k :: 0 <= k < |starts| ==> StartOk(pool, starts[k])
    ensures Served(pool, starts, i).Some? <==> i < |BlockSet(pool)|
    ensures Served(pool, starts, i).Some? ==> Served(pool, starts, i).value in BlockSet(pool)
    ensures forall k :: 0 <= k < i && Served(pool, starts, i).Some? ==>
      Served(pool, starts, k).Some? && Served(pool, starts, k).value != Served(pool, starts, i).value
  {
    RecordedSize(pool, starts[..i]);
    ServeOne(pool, starts[i], Recorded(pool, starts[..i]));
    forall k | 0 <= k < i && Served(pool, starts, i).Some?
      ensures Served(pool, starts, k).Some? && Served(pool, starts, k).value != Served(pool, starts, i).value
    {
      RecordedSize(pool, starts[..k]);
      ServeOne(pool, starts[k], Recorded(pool, starts[..k]));
      assert starts[..i][..k] == starts[..k];
      RecordedGrows(pool, starts[..i], k);
    }
  }

  /** As many allocations from a fresh pool as blocks fit in it all succeed, if and only if at most one
      fits or the pool's start prints. */
  lemma PoolServesIff(pool: IPNet, starts: seq<nat>)
    requires Parsed(pool) && |starts| == NumBlocks(pool)
    requires forall k :: 0 <= k < |starts| ==> StartOk(pool, starts[k])
    ensures
      (forall i :: 0 <= i < |starts| ==> Served(pool, starts, i).Some?) <==>
      NumBlocks(pool) <= 1 || StartPrints(pool)
  {
    BlockCountIff(pool);
    AtMost(pool, NumBlocks(pool));
    forall i | 0 <= i < |starts|
      ensures Served(pool, starts, i).Some? <==> i < |BlockSet(pool)|
    {
      PoolServes(pool, starts, i);
    }
    if |BlockSet(pool)| < |starts| {
      assert Served(pool, starts, |BlockSet(pool)|).None?;
    }
  }

  /** A fresh pool whose start prints serves 2^(h-6) allocations, with h its host bits, and no two of
      them share an address. */
  lemma PoolServesExactly(pool: IPNet, starts: seq<nat>, i: nat, k: nat, ip: IP)
    requires Parsed(pool) && StartPrints(pool) && i < |starts| && k < |starts|
    requires forall l :: 0 <= l < |starts| ==> StartOk(pool, starts[l])
    ensures Served(pool, starts, i).Some? <==> i < NumBlocks(pool)
    ensures NumBlocks(pool) == if HostBits(pool) >= 6 then Pow2(HostBits(pool) - 6) else 0
    ensures k != i && Served(pool, starts, i).Some? && Served(pool, starts, k).Some? ==>
      !(Contains(Served(pool, starts, k).value, ip) && Contains(Served(pool, starts, i).value, ip))
  {
    NumBlocksIs(pool);
    BlockCountIff(pool);
    PoolServes(pool, starts, i);
    PoolServes(pool, starts, k);
    if k != i && Served(pool, starts, i).Some? && Served(pool, starts, k).Some? {
      ApartInSet(pool, Served(pool, starts, k).value, Served(pool, starts, i).value, ip);
    }
  }

  lemma ApartInSet(pool: IPNet, a: IPNet, b: IPNet, ip: IP)
    requires Parsed(pool) && StartPrints(pool) && a in BlockSet(pool) && b in BlockSet(pool) && a != b
    ensures !(Contains(a, ip) && Contains(b, ip))
  {
    var i :| 0 <= i < NumBlocks(pool) && a == Block(pool, i);
    var j :| 0 <= j < NumBlocks(pool) && b == Block(pool, j);
    BlockValue(pool, i);
    if |ip| == 4 {
      BlocksDisjoint(pool, i, j, ip);
    }
  }

  /** An IPv6 pool that starts from ::100:0 on, below 2^32, such as ::100:0/104, counts through the IPv4
      addresses with the same numbers: its blocks are IPv4 subnets, none of them in the pool. */
  lemma ForeignBlocks(pool: IPNet, j: nat)
    requires Parsed(pool) && |pool.ip| == 16 && TWO_24 <= Value(pool.ip) < TWO_32 && j < NumBlocks(pool)
    ensures StartPrints(pool) && Parsed(Block(pool, j)) && |Block(pool, j).ip| == 4
    ensures Value(Block(pool, j).ip) == Value(pool.ip) + j * BLOCK_SIZE && !InPool(pool, Block(pool, j))
  {
    MappedValue(pool.ip);
    BlockValue(pool, j);
    BlockParsed(pool, j);
  }

  /** Every address of the pool is below 1.0.0.0, or beyond the IPv4-mapped range. */
  ghost predicate Unsupported(pool: IPNet) {
    || (|pool.ip| == 4 && Value(pool.ip) + Pow2(HostBits(pool)) <= TWO_24)
    || (|pool.ip| == 16 && Value(pool.ip) >= 0x1_0000 * TWO_32)
  }

  lemma UnsupportedBlock(pool: IPNet, j: nat)
    requires Parsed(pool) && Unsupported(pool) && j < NumBlocks(pool)
    ensures Block(pool, j) == NIL_NET
  {
    BlockFits(pool, j);
    if |pool.ip| == 16 {
      MappedValue(pool.ip);
    }
    NumberBound(pool, j);
    NilNumber(IpToInt(pool.ip) + j * BLOCK_SIZE);
  }

  /** Such a pool serves one allocation, of a block that does not print, and no more. */
  lemma UnsupportedServesOne(pool: IPNet, starts: seq<nat>, i: nat)
    requires Parsed(pool) && Unsupported(pool) && NumBlocks(pool) > 0
    requires i < |starts| && forall k :: 0 <= k < |starts| ==> StartOk(pool, starts[k])
    ensures Served(pool, starts, i) == if i == 0 then Some(NIL_NET) else None
  {
    assert BlockSet(pool) == {NIL_NET} by {
      forall j | 0 <= j < NumBlocks(pool)
        ensures Block(pool, j) == NIL_NET
      {
        UnsupportedBlock(pool, j);
      }
      assert Block(pool, 0) in BlockSet(pool);
    }
    PoolServes(pool, starts, i);
  }

  /** Once the pool is full, the only block that can be allocated again is one that was reclaimed. */
  lemma ReclaimReopens(pool: IPNet, start: nat, cache: set<IPNet>, j: nat)
    requires StartOk(pool, start) && j < NumBlocks(pool)
    requires forall l :: 0 <= l < NumBlocks(pool) ==> Block(pool, l) in cache
    ensures FreeBlock(pool, start, cache).None?
    ensures FreeBlock(pool, start, cache - {Block(pool, j)}) == Some(Block(pool, j))
  {
    FailsIffFull(pool, start, cache);
    FailsIffFull(pool, start, cache - {Block(pool, j)});
  }
}
