/** The agent controller's handler that gives each edge node its block. */
module PodCIDRsHandler {
  import opened Prelude
  import opened Addresses
  import opened AddressInts
  import opened Allocator
  import opened Subnets

  class AllocatablePodCIDRsHandler {
    const allocator: SubnetAllocator
    /** The subnets of each node's endpoint, in the shared store. */
    var store: map<Name, Cidrs>

    constructor (allocator: SubnetAllocator)
      ensures this.allocator == allocator && store == map[]
    {
      this.allocator := allocator;
      store := map[];
    }

    ghost function Current(): Memory
      reads this, allocator
    {
      Memory(allocator.subnetCache, store)
    }

    method IsValidSubnet(cidr: Option<IPNet>) returns (r: bool)
      requires Parsed(allocator.pool) && (cidr.Some? ==> Parsed(cidr.value))
      ensures r <==> ValidCidr(allocator.pool, cidr)
    {
      if cidr.None? {
        return false;
      }
      r := allocator.ContainsNet(cidr.value);
    }

    method IsValidSubnets(cidrs: Cidrs) returns (r: bool)
      requires Parsed(allocator.pool) && CidrsParsed(cidrs)
      ensures r <==> ValidCidrs(allocator.pool, cidrs)
      ensures r <==> cidrs != [] && forall c <- cidrs :: c.Some? && InPool(allocator.pool, c.value)
    {
      AllValidIff(allocator.pool, cidrs);
      if |cidrs| == 0 {
        return false;
      }
      for i := 0 to |cidrs|
        invariant AllValid(allocator.pool, cidrs[..i])
      {
        assert cidrs[..i + 1][..i] == cidrs[..i];
        var valid := IsValidSubnet(cidrs[i]);
        if !valid {
          InvalidPiece(allocator.pool, cidrs, i);
          return false;
        }
      }
      assert cidrs[..|cidrs|] == cidrs;
      return true;
    }

    /** `start` is where the generator begins for this host, `updated` whether the API server takes
        the annotated node. */
    method Do(n: Name, cidrs: Cidrs, start: nat, updated: bool) returns (ok: bool)
      requires Parsed(allocator.pool) && StartOk(allocator.pool, start) && CidrsParsed(cidrs)
      modifies this, allocator
      ensures Current() == DoMemory(allocator.pool, old(Current()), n, cidrs, start, updated)
      ensures ok <==>
        || ValidCidrs(allocator.pool, cidrs)
        || (updated && FreeBlock(allocator.pool, start, old(allocator.subnetCache)).Some?)
      ensures forall m | m != n :: Same(old(store), store, m)
      ensures !ok ==> store == old(store) && allocator.subnetCache == old(allocator.subnetCache)
      ensures ok ==> n in store
      ensures ValidCidrs(allocator.pool, cidrs) ==>
        store[n] == cidrs && allocator.subnetCache == old(allocator.subnetCache)
      ensures !ValidCidrs(allocator.pool, cidrs) && ok ==>
        exists block <- BlockSet(allocator.pool) ::
          && block !in old(allocator.subnetCache) && store[n] == [Saved(block)]
          && allocator.subnetCache == old(allocator.subnetCache) + {block}
    {
      var valid := IsValidSubnets(cidrs);
      if valid {
        store := store[n := cidrs];
        return true;
      }
      ok := AllocateSubnet(n, start, updated);
    }

    /** A block is recorded and saved only if the API server takes it, and rolled back if not. */
    method AllocateSubnet(n: Name, start: nat, updated: bool) returns (ok: bool)
      requires Parsed(allocator.pool) && StartOk(allocator.pool, start)
      modifies this, allocator
      ensures
        var block := FreeBlock(allocator.pool, start, old(allocator.subnetCache));
        && ok == (block.Some? && updated)
        && store == (if ok then old(store)[n := [Saved(block.value)]] else old(store))
        && allocator.subnetCache == old(allocator.subnetCache) + (if ok then {block.value} else {})
    {
      var block := allocator.GetFreeSubnetBlock(start);
      if block.None? {
        return false;
      }
      BlockPrints(allocator.pool, start, old(allocator.subnetCache));
      if !updated {
        allocator.Reclaim(block.value);
        return false;
      }
      store := store[n := [Saved(block.value)]];
      return true;
    }

    method Undo(n: Name)
      modifies this, allocator
      ensures Current() == UndoMemory(old(Current()), n)
      ensures n !in store && forall m | m != n :: Same(old(store), store, m)
      ensures forall b :: b in allocator.subnetCache <==>
        && b in old(allocator.subnetCache)
        && !(n in old(store) && exists c <- old(store)[n] :: c.Some? && UnmappedNet(c.value) == b)
    {
      if n !in store {
        return;
      }
      var cidrs := store[n];
      store := store - {n};
      for i := 0 to |cidrs|
        invariant allocator.subnetCache == old(allocator.subnetCache) - Nets(cidrs[..i])
        invariant store == old(store) - {n}
      {
        NetsStep(cidrs, i);
        if cidrs[i].Some? {
          allocator.Reclaim(cidrs[i].value);
        }
      }
      assert cidrs[..|cidrs|] == cidrs;
      NetsAre(cidrs);
    }
  }

  predicate Same(before: map<Name, Cidrs>, after: map<Name, Cidrs>, m: Name) {
    (m in before <==> m in after) && (m in before ==> after[m] == before[m])
  }

  lemma NetsAre(cidrs: Cidrs)
    ensures forall b :: b in Nets(cidrs) <==> exists c <- cidrs :: c.Some? && UnmappedNet(c.value) == b
  {}

  lemma {:induction false} AllValidIff(pool: IPNet, cidrs: Cidrs)
    ensures AllValid(pool, cidrs) <==> forall c <- cidrs :: c.Some? && InPool(pool, c.value)
    decreases |cidrs|
  {
    if cidrs != [] {
      var init, last := cidrs[..|cidrs| - 1], cidrs[|cidrs| - 1];
      AllValidIff(pool, init);
      assert cidrs == init + [last];
    }
  }

  /** A block that is handed out was not recorded, and is recorded as it prints. */
  lemma BlockPrints(pool: IPNet, start: nat, recorded: set<IPNet>)
    requires StartOk(pool, start) && FreeBlock(pool, start, recorded).Some?
    ensures
      var b := FreeBlock(pool, start, recorded).value;
      b !in recorded && UnmappedNet(b) == b && recorded + {b} - {b} == recorded
  {}

  lemma {:induction false} InvalidPiece(pool: IPNet, cidrs: Cidrs, i: nat)
    requires i < |cidrs| && !ValidCidr(pool, cidrs[i])
    ensures !AllValid(pool, cidrs)
    decreases |cidrs|
  {
    if i < |cidrs| - 1 {
      InvalidPiece(pool, cidrs[..|cidrs| - 1], i);
    }
  }

  /** The pieces of an annotation that parse have their host bits clear, as the parser leaves them. */
  ghost predicate CidrsParsed(cidrs: Cidrs) {
    forall i :: 0 <= i < |cidrs| && cidrs[i].Some? ==> Parsed(cidrs[i].value)
  }

  lemma NetsStep(cidrs: Cidrs, i: nat)
    requires i < |cidrs|
    ensures Nets(cidrs[..i + 1]) == Nets(cidrs[..i]) + (if cidrs[i].Some? then {UnmappedNet(cidrs[i].value)} else {})
  {}
}
