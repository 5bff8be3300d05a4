/**
 What the table of live allocations holds, told from the events alone: which allocation a record
 stems from, what it says of it, and when it is gone.
 */
module LiveRecords {
  import opened BpfMaps
  import opened PackedWord
  import opened Ledger
  import opened Accounting

  datatype Allocation = Allocation(ctx: Context, address: U64, size: U64)

  datatype Source = NoAllocation | AllocatedBy(x: Allocation)

  /** The allocation a tracepoint tells of. A page allocation has its frame number for address. */
  function AllocationOf(cfg: Config, ev: Event): Source {
    match ev
    case SlabAlloc(ctx, ptr, bytes) => AllocatedBy(Allocation(ctx, ptr, bytes))
    case PageAlloc(ctx, pfn, order) => AllocatedBy(Allocation(ctx, pfn, PageBytes(cfg, order)))
    case PercpuAlloc(ctx, ptr, bytes) => AllocatedBy(Allocation(ctx, ptr, bytes))
    case Free(_) => NoAllocation
  }

  /** The page size shifted left by the order, in 64 bits. */
  lemma PageBytesShift(cfg: Config, order: Order)
    ensures PageBytes(cfg, 0) == cfg.pageSize
    ensures order + 1 < 64 ==> PageBytes(cfg, order + 1) == (2 * PageBytes(cfg, order)) % 0x1_0000_0000_0000_0000
  {
    DoubleWraps(cfg.pageSize * Power2(order));
    if order + 1 < 64 {
      assert cfg.pageSize * Power2(order + 1) == 2 * (cfg.pageSize * Power2(order));
    }
  }

  lemma DoubleWraps(n: nat)
    ensures (2 * n) % TWO64 == (2 * (n % TWO64)) % TWO64
  {
    WholeTurns(2 * (n / TWO64), 2 * (n % TWO64));
  }

  lemma WholeTurns(turns: nat, rest: nat)
    ensures (turns * TWO64 + rest) % TWO64 == rest % TWO64
  {
  }

  /** A size within the limits, at a clock reading that is sampled, and an allocation that did not
      fail. */
  predicate Admitted(cfg: Config, x: Allocation) {
    && x.address != 0
    && cfg.minSize <= x.size <= cfg.maxSize
    && (cfg.sampleRate <= 1 || x.ctx.enterNs % cfg.sampleRate == 0)
    && cfg.sizesMax > 0
  }

  predicate Describes(info: AllocInfo, x: Allocation) {
    && info.size == x.size
    && info.pid == x.ctx.pid
    && info.comm == x.ctx.comm
    && info.stackId == x.ctx.stackId
    && info.timestampNs == x.ctx.exitNs
  }

  /** The event frees the address: a free does, and so does a slab allocation when frees are known
      to go missing. */
  predicate Frees(cfg: Config, ev: Event, address: U64) {
    ev == Free(address) || (cfg.waMissingFree && ev.SlabAlloc? && ev.ptr == address)
  }

  /** The event records its allocation at the address: in the place of a record there, or in a
      free place. */
  predicate RecordsAt(cfg: Config, allocs: map<U64, AllocInfo>, ev: Event, address: U64) {
    var source := AllocationOf(cfg, ev);
    && source.AllocatedBy?
    && source.x.address == address
    && Admitted(cfg, source.x)
    && (address in allocs || |allocs| < cfg.allocsMax)
  }

  ghost predicate StepAt(cfg: Config, before: map<U64, AllocInfo>, ev: Event, after: map<U64, AllocInfo>,
                         address: U64)
  {
    if RecordsAt(cfg, before, ev, address) then
      address in after && Describes(after[address], AllocationOf(cfg, ev).x)
    else if Frees(cfg, ev, address) then address !in after
    else (address in after <==> address in before) && (address in before ==> after[address] == before[address])
  }

  /** What one event does to the record at any address. */
  lemma HandledAt(cfg: Config, m: Maps, ev: Event, address: U64)
    requires m.sizes == map[] && |m.allocs| <= cfg.allocsMax
    ensures StepAt(cfg, m.allocs, ev, Handled(cfg, m, ev).allocs, address)
    ensures |Handled(cfg, m, ev).allocs| <= cfg.allocsMax
  {
    match ev
    case SlabAlloc(ctx, ptr, bytes) => SlabAt(cfg, m, ev, address);
    case PageAlloc(ctx, pfn, order) =>
      var x := Allocation(ctx, pfn, PageBytes(cfg, order));
      AllocatedAllocs(cfg, m, x);
      AfterAllocation(cfg, m.allocs, ev, x, m.allocs, Handled(cfg, m, ev).allocs, address);
    case PercpuAlloc(ctx, ptr, bytes) =>
      var x := Allocation(ctx, ptr, bytes);
      AllocatedAllocs(cfg, m, x);
      AfterAllocation(cfg, m.allocs, ev, x, m.allocs, Handled(cfg, m, ev).allocs, address);
    case Free(a) => FreedAllocs(m, a);
  }

  lemma SlabAt(cfg: Config, m: Maps, ev: Event, address: U64)
    requires m.sizes == map[] && |m.allocs| <= cfg.allocsMax && ev.SlabAlloc?
    ensures StepAt(cfg, m.allocs, ev, Handled(cfg, m, ev).allocs, address)
    ensures |Handled(cfg, m, ev).allocs| <= cfg.allocsMax
  {
    var x := Allocation(ev.ctx, ev.ptr, ev.bytes);
    if cfg.waMissingFree {
      SlabAfterFree(cfg, m, x);
      AfterAllocation(cfg, m.allocs, ev, x, m.allocs - {ev.ptr}, Handled(cfg, m, ev).allocs, address);
    } else {
      AllocatedAllocs(cfg, m, x);
      AfterAllocation(cfg, m.allocs, ev, x, m.allocs, Handled(cfg, m, ev).allocs, address);
    }
  }

  function RecordOf(x: Allocation): AllocInfo {
    AllocInfo(x.size, x.ctx.exitNs, x.ctx.stackId, x.ctx.pid, x.ctx.comm)
  }

  lemma AfterAllocation(cfg: Config, before: map<U64, AllocInfo>, ev: Event, x: Allocation,
                        base: map<U64, AllocInfo>, after: map<U64, AllocInfo>, address: U64)
    requires AllocationOf(cfg, ev) == AllocatedBy(x)
    requires base == if Frees(cfg, ev, x.address) then before - {x.address} else before
    requires after == if Admitted(cfg, x) && (x.address in before || |before| < cfg.allocsMax)
                      then base[x.address := RecordOf(x)] else base
    ensures StepAt(cfg, before, ev, after, address)
  {
  }

  lemma FreedAllocs(m: Maps, address: U64)
    ensures FreeEntered(m, address).allocs == m.allocs - {address} && FreeEntered(m, address).sizes == m.sizes
    ensures |FreeEntered(m, address).allocs| == if address in m.allocs then |m.allocs| - 1 else |m.allocs|
  {
    var left := m.allocs - {address};
    assert left.Keys == m.allocs.Keys - {address};
    assert |left| == |left.Keys| && |m.allocs| == |m.allocs.Keys|;
  }

  lemma AllocatedAllocs(cfg: Config, m: Maps, x: Allocation)
    requires m.sizes == map[] && |m.allocs| <= cfg.allocsMax
    ensures
      var allocs := Allocated(cfg, m, x.ctx, x.address, x.size).allocs;
      && |allocs| <= cfg.allocsMax
      && (if Admitted(cfg, x) && (x.address in m.allocs || |m.allocs| < cfg.allocsMax)
          then allocs == m.allocs[x.address := RecordOf(x)]
          else allocs == m.allocs)
  {
    var info := RecordOf(x);
    AllocationEffect(cfg, Account(m, []), x.ctx, x.address, x.size);
    assert Allocated(cfg, m, x.ctx, x.address, x.size)
        == AllocatedAccount(cfg, Account(m, []), x.ctx, x.address, x.size).maps;
    assert InfoOf(x.ctx, x.size) == info;
    StoredWithinBounds(m.allocs, cfg.allocsMax, x.address, info);
  }

  /** A slab allocation that first frees its address. */
  lemma SlabAfterFree(cfg: Config, m: Maps, x: Allocation)
    requires m.sizes == map[] && |m.allocs| <= cfg.allocsMax
    ensures
      var allocs := Allocated(cfg, FreeEntered(m, x.address), x.ctx, x.address, x.size).allocs;
      && |allocs| <= cfg.allocsMax
      && allocs == if Admitted(cfg, x) && (x.address in m.allocs || |m.allocs| < cfg.allocsMax)
                   then (m.allocs - {x.address})[x.address := RecordOf(x)] else m.allocs - {x.address}
  {
    FreedAllocs(m, x.address);
    AllocatedAllocs(cfg, FreeEntered(m, x.address), x);
  }

  lemma StoredWithinBounds(allocs: map<U64, AllocInfo>, max: nat, address: U64, info: AllocInfo)
    requires |allocs| <= max
    ensures var after := Updated(allocs, max, address, info, BpfAny);
      && |after| <= max
      && after == if address in allocs || |allocs| < max then allocs[address := info] else allocs
  {
    var more := allocs[address := info];
    assert more.Keys == allocs.Keys + {address};
    assert |more| == |more.Keys| && |allocs| == |allocs.Keys|;
  }

  lemma {:induction false} AllocsWithinBounds(cfg: Config, events: seq<Event>)
    ensures |Run(cfg, events).maps.allocs| <= cfg.allocsMax && Run(cfg, events).maps.sizes == map[]
    decreases |events|
  {
    SizesEmptyBetweenHandlers(cfg, events);
    if events != [] {
      var before, ev := events[..|events| - 1], events[|events| - 1];
      AllocsWithinBounds(cfg, before);
      StepHandles(cfg, Run(cfg, before), ev);
      HandledAt(cfg, Run(cfg, before).maps, ev, 0);
    }
  }

  ghost predicate RecordedBy(cfg: Config, events: seq<Event>, address: U64, i: nat)
    requires i < |events|
  {
    RecordsAt(cfg, Run(cfg, events[..i]).maps.allocs, events[i], address)
  }

  /** Event `i` of the run recorded its allocation at the address, and no later event freed the
      address or recorded another one there. */
  ghost predicate LiveSince(cfg: Config, events: seq<Event>, address: U64, i: nat) {
    && i < |events|
    && RecordedBy(cfg, events, address, i)
    && forall j :: i < j < |events| ==> !Frees(cfg, events[j], address) && !RecordedBy(cfg, events, address, j)
  }

  lemma RecordedByPrefix(cfg: Config, before: seq<Event>, ev: Event, address: U64, i: nat)
    requires i <= |before|
    ensures RecordedBy(cfg, before + [ev], address, i) <==>
      if i < |before| then RecordedBy(cfg, before, address, i)
      else RecordsAt(cfg, Run(cfg, before).maps.allocs, ev, address)
  {
    assert (before + [ev])[..i] == before[..i];
    assert before[..|before|] == before;
  }

  lemma LiveSinceStep(cfg: Config, before: seq<Event>, ev: Event, address: U64, i: nat)
    ensures LiveSince(cfg, before + [ev], address, i) <==>
      if i < |before| then
        && LiveSince(cfg, before, address, i)
        && !Frees(cfg, ev, address) && !RecordsAt(cfg, Run(cfg, before).maps.allocs, ev, address)
      else i == |before| && RecordsAt(cfg, Run(cfg, before).maps.allocs, ev, address)
  {
    var events := before + [ev];
    assert events[|before|] == ev && forall j :: 0 <= j < |before| ==> events[j] == before[j];
    forall j: nat | j <= |before|
      ensures RecordedBy(cfg, events, address, j) <==>
        if j < |before| then RecordedBy(cfg, before, address, j)
        else RecordsAt(cfg, Run(cfg, before).maps.allocs, ev, address)
    {
      RecordedByPrefix(cfg, before, ev, address, j);
    }
  }

  /** Over any run: an address is in the table if and only if some event recorded an allocation
      there that no later event freed or replaced; and the record then has the size, process,
      command, stack and time of that very allocation. */
  lemma {:induction false} LiveIffRecordedAndNotFreed(cfg: Config, events: seq<Event>,
                                                      allocs: map<U64, AllocInfo>, address: U64)
    requires allocs == Run(cfg, events).maps.allocs
    ensures address in allocs <==> exists i: nat :: LiveSince(cfg, events, address, i)
    ensures forall i: nat :: LiveSince(cfg, events, address, i) ==>
      address in allocs && AllocationOf(cfg, events[i]).AllocatedBy?
      && Describes(allocs[address], AllocationOf(cfg, events[i]).x)
    decreases |events|
  {
    if events != [] {
      var before, ev := events[..|events| - 1], events[|events| - 1];
      var was := Run(cfg, before).maps.allocs;
      assert events == before + [ev];
      LiveIffRecordedAndNotFreed(cfg, before, was, address);
      RunStep(cfg, before, ev);
      AllocsWithinBounds(cfg, before);
      StepHandles(cfg, Run(cfg, before), ev);
      HandledAt(cfg, Run(cfg, before).maps, ev, address);
      LiveAfterStep(cfg, before, ev, was, allocs, address);
    }
  }

  lemma LiveAfterStep(cfg: Config, before: seq<Event>, ev: Event, was: map<U64, AllocInfo>,
                      allocs: map<U64, AllocInfo>, address: U64)
    requires was == Run(cfg, before).maps.allocs && StepAt(cfg, was, ev, allocs, address)
    requires address in was <==> exists i: nat :: LiveSince(cfg, before, address, i)
    requires forall i: nat :: LiveSince(cfg, before, address, i) ==>
      address in was && AllocationOf(cfg, before[i]).AllocatedBy?
      && Describes(was[address], AllocationOf(cfg, before[i]).x)
    ensures address in allocs <==> exists i: nat :: LiveSince(cfg, before + [ev], address, i)
    ensures forall i: nat :: LiveSince(cfg, before + [ev], address, i) ==>
      address in allocs && AllocationOf(cfg, (before + [ev])[i]).AllocatedBy?
      && Describes(allocs[address], AllocationOf(cfg, (before + [ev])[i]).x)
  {
    forall i: nat
      ensures LiveSince(cfg, before + [ev], address, i) ==>
        address in allocs && AllocationOf(cfg, (before + [ev])[i]).AllocatedBy?
        && Describes(allocs[address], AllocationOf(cfg, (before + [ev])[i]).x)
    {
      LiveSinceStep(cfg, before, ev, address, i);
    }
    if address in allocs {
      if RecordsAt(cfg, was, ev, address) {
        LiveSinceStep(cfg, before, ev, address, |before|);
      } else {
        var i: nat :| LiveSince(cfg, before, address, i);
        LiveSinceStep(cfg, before, ev, address, i);
      }
    }
  }

  // ---- The key of the statistics ----

  /** The 32-bit identifier as a 64-bit key: congruent to it modulo 2^64, so equal to it unless it
      is negative, and different for different identifiers. */
  lemma StackKeyIsSignExtension(a: Int32, b: Int32)
    ensures (StackKey(a) - a) % 0x1_0000_0000_0000_0000 == 0
    ensures StackKey(a) == a <==> a >= 0
    ensures StackKey(a) == StackKey(b) ==> a == b
  {
  }
}
