/**
 The allocation ledger kept by the memleak tracepoint handlers: pending sizes by process,
 live allocations by address, and one packed statistics word per stack.
 */
module Ledger {
  import opened BpfMaps
  import opened PackedWord

  type U32 = x: nat | x < 0x1_0000_0000
  type Int32 = x: int | -0x8000_0000 <= x < 0x8000_0000

  datatype AllocInfo = AllocInfo(size: U64, timestampNs: U64, stackId: Int32, pid: U32, comm: string)

  datatype Config = Config(
    minSize: U64, maxSize: U64, sampleRate: U64, pageSize: U64, waMissingFree: bool,
    sizesMax: nat, allocsMax: nat, combinedMax: nat)

  /** What a handler learns from its environment: the process, its command name, the stack
      identifier (negative when the stack could not be captured) and the two clock readings. */
  datatype Context = Context(pid: U32, comm: string, stackId: Int32, enterNs: U64, exitNs: U64)

  datatype Maps = Maps(sizes: map<U32, U64>, allocs: map<U64, AllocInfo>, combined: map<U64, U64>)

  const EMPTY: Maps := Maps(map[], map[], map[])

  /** The statistics map is keyed by u64, so a negative identifier is sign-extended. */
  function StackKey(stackId: Int32): U64 {
    if stackId < 0 then stackId + TWO64 else stackId
  }

  predicate Passes(cfg: Config, ctx: Context, size: U64) {
    && cfg.minSize <= size <= cfg.maxSize
    && (cfg.sampleRate > 1 ==> ctx.enterNs % cfg.sampleRate == 0)
  }

  function InfoOf(ctx: Context, size: U64): AllocInfo {
    AllocInfo(size, ctx.exitNs, ctx.stackId, ctx.pid, ctx.comm)
  }

  function StatisticsAdded(cfg: Config, combined: map<U64, U64>, info: AllocInfo): map<U64, U64> {
    var key := StackKey(info.stackId);
    if key in combined then combined[key := FetchAdd(combined[key], info.size)]
    else if |combined| < cfg.combinedMax then combined[key := FetchAdd(0, info.size)]
    else combined
  }

  function StatisticsDeleted(combined: map<U64, U64>, info: AllocInfo): map<U64, U64> {
    var key := StackKey(info.stackId);
    if key in combined then combined[key := FetchSub(combined[key], info.size)] else combined
  }

  function AllocEntered(cfg: Config, m: Maps, ctx: Context, size: U64): Maps {
    if Passes(cfg, ctx, size) then m.(sizes := Updated(m.sizes, cfg.sizesMax, ctx.pid, size, BpfAny))
    else m
  }

  function Recorded(cfg: Config, m: Maps, address: U64, info: AllocInfo): Maps {
    m.(allocs := Updated(m.allocs, cfg.allocsMax, address, info, BpfAny),
       combined := StatisticsAdded(cfg, m.combined, info))
  }

  function AllocExited(cfg: Config, m: Maps, ctx: Context, address: U64): Maps {
    if ctx.pid !in m.sizes then m
    else
      var taken := m.(sizes := m.sizes - {ctx.pid});
      if address == 0 then taken
      else Recorded(cfg, taken, address, InfoOf(ctx, m.sizes[ctx.pid]))
  }

  function FreeEntered(m: Maps, address: U64): Maps {
    if address !in m.allocs then m
    else m.(allocs := m.allocs - {address},
            combined := StatisticsDeleted(m.combined, m.allocs[address]))
  }

  function Allocated(cfg: Config, m: Maps, ctx: Context, address: U64, size: U64): Maps {
    AllocExited(cfg, AllocEntered(cfg, m, ctx, size), ctx, address)
  }

  function SlabAllocated(cfg: Config, m: Maps, ctx: Context, address: U64, size: U64): Maps {
    Allocated(cfg, if cfg.waMissingFree then FreeEntered(m, address) else m, ctx, address, size)
  }

  function Power2(n: nat): (p: nat)
    ensures p > 0
  {
    if n == 0 then 1 else 2 * Power2(n - 1)
  }

  type Order = n: nat | n < 64

  /** The left shift of a 64-bit page size; the shift count of a u64 is below 64. */
  function PageBytes(cfg: Config, order: Order): U64 {
    (cfg.pageSize * Power2(order)) % TWO64
  }

  /** One firing of a tracepoint, with the arguments its handler reads. */
  datatype Event =
    | SlabAlloc(ctx: Context, ptr: U64, bytes: U64)
    | PageAlloc(ctx: Context, pfn: U64, order: Order)
    | PercpuAlloc(ctx: Context, ptr: U64, bytes: U64)
    | Free(address: U64)

  function Handled(cfg: Config, m: Maps, ev: Event): Maps {
    match ev
    case SlabAlloc(ctx, ptr, bytes) => SlabAllocated(cfg, m, ctx, ptr, bytes)
    case PageAlloc(ctx, pfn, order) => Allocated(cfg, m, ctx, pfn, PageBytes(cfg, order))
    case PercpuAlloc(ctx, ptr, bytes) => Allocated(cfg, m, ctx, ptr, bytes)
    case Free(address) => FreeEntered(m, address)
  }

  /** The probe: its operations follow the tracepoint programs one for one, and
      each is specified by the function above on the values of the three maps. */
  class Probe {
    const cfg: Config
    const sizes: BpfHash<U32, U64>
    const allocs: BpfHash<U64, AllocInfo>
    const combined: BpfHash<U64, U64>

    ghost predicate Valid() {
      && sizes.maxEntries == cfg.sizesMax
      && allocs.maxEntries == cfg.allocsMax
      && combined.maxEntries == cfg.combinedMax
      && sizes as object != allocs && sizes as object != combined && allocs as object != combined
    }

    ghost function Contents(): Maps
      reads sizes, allocs, combined
    {
      Maps(sizes.entries, allocs.entries, combined.entries)
    }

    constructor (cfg: Config)
      ensures Valid() && this.cfg == cfg && Contents() == EMPTY
      ensures fresh(sizes) && fresh(allocs) && fresh(combined)
    {
      this.cfg := cfg;
      sizes := new BpfHash(cfg.sizesMax);
      allocs := new BpfHash(cfg.allocsMax);
      combined := new BpfHash(cfg.combinedMax);
    }

    method UpdateStatisticsAdd(info: AllocInfo)
      requires Valid()
      modifies combined
      ensures combined.entries == StatisticsAdded(cfg, old(combined.entries), info)
    {
      var key := StackKey(info.stackId);
      var found := combined.LookupOrTryInit(key, 0);
      if !found {
        return;
      }
      combined.entries := combined.entries[key := FetchAdd(combined.entries[key], info.size)];
    }

    method UpdateStatisticsDel(info: AllocInfo)
      requires Valid()
      modifies combined
      ensures combined.entries == StatisticsDeleted(old(combined.entries), info)
    {
      var key := StackKey(info.stackId);
      var existing := combined.Lookup(key);
      if existing.None? {
        return;
      }
      combined.entries := combined.entries[key := FetchSub(existing.value, info.size)];
    }

    method GenAllocEnter(ctx: Context, size: U64)
      requires Valid()
      modifies sizes
      ensures Contents() == AllocEntered(cfg, old(Contents()), ctx, size)
      ensures sizes.entries ==
        if cfg.minSize <= size <= cfg.maxSize && (cfg.sampleRate <= 1 || ctx.enterNs % cfg.sampleRate == 0)
           && (ctx.pid in old(sizes.entries) || |old(sizes.entries)| < cfg.sizesMax)
        then old(sizes.entries)[ctx.pid := size]
        else old(sizes.entries)
    {
      if size < cfg.minSize || size > cfg.maxSize {
        return;
      }
      if cfg.sampleRate > 1 {
        if ctx.enterNs % cfg.sampleRate != 0 {
          return;
        }
      }
      var _ := sizes.Update(ctx.pid, size, BpfAny);
    }

    method GenAllocExit2(ctx: Context, address: U64)
      requires Valid()
      modifies sizes, allocs, combined
      ensures Contents() == AllocExited(cfg, old(Contents()), ctx, address)
      ensures
        var found := ctx.pid in old(sizes.entries);
        if found && address != 0 && (address in old(allocs.entries) || |old(allocs.entries)| < cfg.allocsMax) then
          && address in allocs.entries && allocs.entries - {address} == old(allocs.entries) - {address}
          && var info := allocs.entries[address];
             && info.size == old(sizes.entries)[ctx.pid] && info.timestampNs == ctx.exitNs
             && info.stackId == ctx.stackId && info.pid == ctx.pid && info.comm == ctx.comm
        else allocs.entries == old(allocs.entries)
    {
      var size := sizes.Lookup(ctx.pid);
      if size.None? {
        return;
      }
      var info := AllocInfo(size.value, 0, 0, 0, "");
      var _ := sizes.Delete(ctx.pid);
      if address != 0 {
        info := info.(timestampNs := ctx.exitNs);
        info := info.(stackId := ctx.stackId);
        info := info.(pid := ctx.pid);
        info := info.(comm := ctx.comm);
        var _ := allocs.Update(address, info, BpfAny);
        UpdateStatisticsAdd(info);
      }
    }

    method GenFreeEnter(address: U64)
      requires Valid()
      modifies allocs, combined
      ensures Contents() == FreeEntered(old(Contents()), address)
    {
      var info := allocs.Lookup(address);
      if info.None? {
        return;
      }
      var _ := allocs.Delete(address);
      UpdateStatisticsDel(info.value);
    }

    /** Frees (kfree, kmem_cache_free, page and per-cpu frees) only look at the address. The
        slab allocations (kmalloc, kmem_cache_alloc and their _node forms) first free the
        address when frees are known to go missing. */
    method Handle(ev: Event)
      requires Valid()
      modifies sizes, allocs, combined
      ensures Contents() == Handled(cfg, old(Contents()), ev)
    {
      match ev {
        case SlabAlloc(ctx, ptr, bytes) =>
          if cfg.waMissingFree {
            GenFreeEnter(ptr);
          }
          GenAllocEnter(ctx, bytes);
          GenAllocExit2(ctx, ptr);
        case PageAlloc(ctx, pfn, order) =>
          GenAllocEnter(ctx, PageBytes(cfg, order));
          GenAllocExit2(ctx, pfn);
        case PercpuAlloc(ctx, ptr, bytes) =>
          GenAllocEnter(ctx, bytes);
          GenAllocExit2(ctx, ptr);
        case Free(address) =>
          GenFreeEnter(address);
      }
    }
  }
}
