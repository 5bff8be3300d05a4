/**
 The packed statistics of every stack against the thing they summarise, over every run of
 the handlers. A record leaves the live table without being subtracted in exactly two ways:
 its address is allocated again before a free was seen, or it never got in because the table
 was full. The account keeps those records, and with them the statistics balance always.
 */
module Accounting {
  import opened BpfMaps
  import opened PackedWord
  import opened Sums
  import opened Ledger

  datatype Account = Account(maps: Maps, lost: seq<AllocInfo>)

  /** What one live record of the stack `key` contributes to its word. */
  function BitsOf(key: U64): AllocInfo -> nat {
    (info: AllocInfo) => if StackKey(info.stackId) == key then Pack(info.size) else 0
  }

  ghost function Live(m: Maps, key: U64): nat {
    SumMap(m.allocs, BitsOf(key))
  }

  ghost function Counted(a: Account, key: U64): nat {
    Live(a.maps, key) + SumSeq(a.lost, BitsOf(key))
  }

  /** The record that an allocation at `address` makes unsubtractable. */
  function LostAt(cfg: Config, allocs: map<U64, AllocInfo>, address: U64, info: AllocInfo): seq<AllocInfo> {
    if address in allocs then [allocs[address]]
    else if |allocs| < cfg.allocsMax then []
    else [info]
  }

  function RecordedAccount(cfg: Config, a: Account, address: U64, info: AllocInfo): Account {
    Account(Recorded(cfg, a.maps, address, info), a.lost + LostAt(cfg, a.maps.allocs, address, info))
  }

  function AllocatedAccount(cfg: Config, a: Account, ctx: Context, address: U64, size: U64): Account {
    var entered := AllocEntered(cfg, a.maps, ctx, size);
    if ctx.pid !in entered.sizes then Account(entered, a.lost)
    else
      var taken := Account(entered.(sizes := entered.sizes - {ctx.pid}), a.lost);
      if address == 0 then taken
      else RecordedAccount(cfg, taken, address, InfoOf(ctx, entered.sizes[ctx.pid]))
  }

  function FreedAccount(a: Account, address: U64): Account {
    a.(maps := FreeEntered(a.maps, address))
  }

  function Step(cfg: Config, a: Account, ev: Event): Account {
    match ev
    case SlabAlloc(ctx, ptr, bytes) =>
      AllocatedAccount(cfg, if cfg.waMissingFree then FreedAccount(a, ptr) else a, ctx, ptr, bytes)
    case PageAlloc(ctx, pfn, order) => AllocatedAccount(cfg, a, ctx, pfn, PageBytes(cfg, order))
    case PercpuAlloc(ctx, ptr, bytes) => AllocatedAccount(cfg, a, ctx, ptr, bytes)
    case Free(address) => FreedAccount(a, address)
  }

  function Run(cfg: Config, events: seq<Event>): Account {
    if events == [] then Account(EMPTY, [])
    else Step(cfg, Run(cfg, events[..|events| - 1]), events[|events| - 1])
  }

  /** The account only watches: the maps go through the handlers unchanged. */
  lemma StepHandles(cfg: Config, a: Account, ev: Event)
    ensures Step(cfg, a, ev).maps == Handled(cfg, a.maps, ev)
  {
  }

  /** Every tracked stack balances; a stack that is not tracked has never had a record unless
      the statistics map is full, in which case it will never be tracked. */
  ghost predicate Balanced(cfg: Config, a: Account) {
    forall key: U64 :: BalancedAt(cfg, a, key)
  }

  /** A word against the balance it should show. */
  predicate WordMatches(cfg: Config, combined: map<U64, U64>, key: U64, balance: int) {
    if key in combined then combined[key] == balance % TWO64
    else |combined| < cfg.combinedMax ==> balance == 0
  }

  ghost predicate BalancedAt(cfg: Config, a: Account, key: U64) {
    WordMatches(cfg, a.maps.combined, key, Counted(a, key))
  }

  lemma AddingMatches(cfg: Config, combined: map<U64, U64>, info: AllocInfo, key: U64, balance: int)
    requires WordMatches(cfg, combined, key, balance)
    ensures WordMatches(cfg, StatisticsAdded(cfg, combined, info), key, balance + BitsOf(key)(info))
  {
    if key == StackKey(info.stackId) {
      if key in combined {
        ApplyWraps(combined[key], balance, Add(info.size));
      } else if |combined| < cfg.combinedMax {
        ApplyWraps(0, 0, Add(info.size));
      }
    } else {
      assert |combined| <= |StatisticsAdded(cfg, combined, info)|;
    }
  }

  /** A record that was counted can be taken out: its stack is tracked, or never will be. */
  lemma SubtractingMatches(cfg: Config, combined: map<U64, U64>, info: AllocInfo, key: U64, balance: int)
    requires WordMatches(cfg, combined, key, balance)
    requires balance >= BitsOf(key)(info)
    ensures WordMatches(cfg, StatisticsDeleted(combined, info), key, balance - BitsOf(key)(info))
  {
    DeletingKeepsKeys(combined, info);
    if key == StackKey(info.stackId) && key in combined {
      ApplyWraps(combined[key], balance, Sub(info.size));
    }
  }

  /** A stored record is in the table, and whatever did not stay in the table is lost. */
  lemma StoringKeepsSum(cfg: Config, allocs: map<U64, AllocInfo>, address: U64, info: AllocInfo, w: AllocInfo -> nat)
    ensures SumMap(Updated(allocs, cfg.allocsMax, address, info, BpfAny), w)
            + SumSeq(LostAt(cfg, allocs, address, info), w)
         == SumMap(allocs, w) + w(info)
  {
    if address in allocs {
      SumMapReplace(allocs, address, info, w);
      SumSeqOne(allocs[address], w);
    } else if |allocs| < cfg.allocsMax {
      SumMapInsert(allocs, address, info, w);
    } else {
      SumSeqOne(info, w);
    }
  }

  /** Recording adds the new record to what is counted, whatever happens to the table. */
  lemma RecordingCounts(cfg: Config, a: Account, address: U64, info: AllocInfo, key: U64)
    ensures Counted(RecordedAccount(cfg, a, address, info), key) == Counted(a, key) + BitsOf(key)(info)
  {
    StoringKeepsSum(cfg, a.maps.allocs, address, info, BitsOf(key));
    SumSeqAppend(a.lost, LostAt(cfg, a.maps.allocs, address, info), BitsOf(key));
  }

  lemma RecordingBalancesAt(cfg: Config, a: Account, address: U64, info: AllocInfo, key: U64)
    requires BalancedAt(cfg, a, key)
    ensures BalancedAt(cfg, RecordedAccount(cfg, a, address, info), key)
  {
    RecordingCounts(cfg, a, address, info, key);
    AddingMatches(cfg, a.maps.combined, info, key, Counted(a, key));
  }

  lemma RecordingBalances(cfg: Config, a: Account, address: U64, info: AllocInfo)
    requires Balanced(cfg, a)
    ensures Balanced(cfg, RecordedAccount(cfg, a, address, info))
  {
    forall key: U64
      ensures BalancedAt(cfg, RecordedAccount(cfg, a, address, info), key)
    {
      assert BalancedAt(cfg, a, key);
      RecordingBalancesAt(cfg, a, address, info, key);
    }
  }

  lemma FreeingBalancesAt(cfg: Config, a: Account, address: U64, key: U64)
    requires BalancedAt(cfg, a, key) && address in a.maps.allocs
    ensures BalancedAt(cfg, FreedAccount(a, address), key)
  {
    SumMapRemove(a.maps.allocs, address, BitsOf(key));
    SubtractingMatches(cfg, a.maps.combined, a.maps.allocs[address], key, Counted(a, key));
  }

  lemma FreeingBalances(cfg: Config, a: Account, address: U64)
    requires Balanced(cfg, a)
    ensures Balanced(cfg, FreedAccount(a, address))
  {
    if address in a.maps.allocs {
      forall key: U64
        ensures BalancedAt(cfg, FreedAccount(a, address), key)
      {
        assert BalancedAt(cfg, a, key);
        FreeingBalancesAt(cfg, a, address, key);
      }
    }
  }

  lemma StepBalances(cfg: Config, a: Account, ev: Event)
    requires Balanced(cfg, a)
    ensures Balanced(cfg, Step(cfg, a, ev))
  {
    match ev
    case SlabAlloc(ctx, ptr, bytes) =>
      if cfg.waMissingFree {
        FreeingBalances(cfg, a, ptr);
      }
      AllocatingBalances(cfg, if cfg.waMissingFree then FreedAccount(a, ptr) else a, ctx, ptr, bytes);
    case PageAlloc(ctx, pfn, order) => AllocatingBalances(cfg, a, ctx, pfn, PageBytes(cfg, order));
    case PercpuAlloc(ctx, ptr, bytes) => AllocatingBalances(cfg, a, ctx, ptr, bytes);
    case Free(address) => FreeingBalances(cfg, a, address);
  }

  lemma AllocatingBalances(cfg: Config, a: Account, ctx: Context, address: U64, size: U64)
    requires Balanced(cfg, a)
    ensures Balanced(cfg, AllocatedAccount(cfg, a, ctx, address, size))
  {
    var entered := AllocEntered(cfg, a.maps, ctx, size);
    SizesDoNotMatter(cfg, a, Account(entered, a.lost));
    if ctx.pid in entered.sizes {
      var taken := Account(entered.(sizes := entered.sizes - {ctx.pid}), a.lost);
      SizesDoNotMatter(cfg, a, taken);
      if address != 0 {
        RecordingBalances(cfg, taken, address, InfoOf(ctx, entered.sizes[ctx.pid]));
      }
    }
  }

  lemma SizesDoNotMatter(cfg: Config, a: Account, a': Account)
    requires Balanced(cfg, a)
    requires a'.maps.allocs == a.maps.allocs && a'.maps.combined == a.maps.combined && a'.lost == a.lost
    ensures Balanced(cfg, a')
  {
    forall key: U64 ensures BalancedAt(cfg, a', key) {
      assert BalancedAt(cfg, a, key);
    }
  }

  /** The statistics are right in every reachable state, for any capacities and any events:
      the word of a tracked stack is the packed sum of its live records and of the records of
      that stack that were overwritten or found no room. */
  lemma {:induction false} StatisticsBalance(cfg: Config, events: seq<Event>, a: Account)
    requires a == Run(cfg, events)
    ensures Balanced(cfg, a)
    decreases |events|
  {
    if events != [] {
      var before := Run(cfg, events[..|events| - 1]);
      StatisticsBalance(cfg, events[..|events| - 1], before);
      StepBalances(cfg, before, events[|events| - 1]);
    } else {
      forall key: U64 ensures BalancedAt(cfg, a, key) {
        SumMapZero(EMPTY.allocs, BitsOf(key));
      }
    }
  }

  // ---- Tracked from the first record on, or never ----

  ghost predicate Grows(max: nat, m: map<U64, U64>, m': map<U64, U64>) {
    && m.Keys <= m'.Keys
    && |m'| <= max
    && (|m| == max ==> m.Keys == m'.Keys)
  }

  lemma AddingGrows(cfg: Config, m: map<U64, U64>, info: AllocInfo)
    requires |m| <= cfg.combinedMax
    ensures Grows(cfg.combinedMax, m, StatisticsAdded(cfg, m, info))
  {
    var key, m' := StackKey(info.stackId), StatisticsAdded(cfg, m, info);
    assert |m'.Keys| == |m'| && |m.Keys| == |m|;
    assert m'.Keys == m.Keys || (m'.Keys == m.Keys + {key} && key !in m.Keys && |m| < cfg.combinedMax);
  }

  lemma KeysOnlyGrow(cfg: Config, a: Account, ev: Event)
    requires |a.maps.combined| <= cfg.combinedMax
    ensures Grows(cfg.combinedMax, a.maps.combined, Step(cfg, a, ev).maps.combined)
  {
    match ev
    case SlabAlloc(ctx, ptr, bytes) =>
      if cfg.waMissingFree && ptr in a.maps.allocs {
        DeletingKeepsKeys(a.maps.combined, a.maps.allocs[ptr]);
      }
      AllocatingGrows(cfg, if cfg.waMissingFree then FreedAccount(a, ptr) else a, ctx, ptr, bytes);
    case PageAlloc(ctx, pfn, order) => AllocatingGrows(cfg, a, ctx, pfn, PageBytes(cfg, order));
    case PercpuAlloc(ctx, ptr, bytes) => AllocatingGrows(cfg, a, ctx, ptr, bytes);
    case Free(address) =>
      if address in a.maps.allocs {
        DeletingKeepsKeys(a.maps.combined, a.maps.allocs[address]);
      }
  }

  lemma AllocatingGrows(cfg: Config, a: Account, ctx: Context, address: U64, size: U64)
    requires |a.maps.combined| <= cfg.combinedMax
    ensures Grows(cfg.combinedMax, a.maps.combined, AllocatedAccount(cfg, a, ctx, address, size).maps.combined)
  {
    var entered := AllocEntered(cfg, a.maps, ctx, size);
    if ctx.pid in entered.sizes && address != 0 {
      AddingGrows(cfg, a.maps.combined, InfoOf(ctx, entered.sizes[ctx.pid]));
    }
  }

  lemma DeletingKeepsKeys(m: map<U64, U64>, info: AllocInfo)
    ensures StatisticsDeleted(m, info).Keys == m.Keys && |StatisticsDeleted(m, info)| == |m|
  {
    var m' := StatisticsDeleted(m, info);
    assert |m'.Keys| == |m'| && |m.Keys| == |m|;
  }

  lemma GrowsTransitive(max: nat, m: map<U64, U64>, m': map<U64, U64>, m'': map<U64, U64>)
    requires Grows(max, m, m') && Grows(max, m', m'')
    ensures Grows(max, m, m'')
  {
    assert |m| == |m.Keys| && |m'| == |m'.Keys|;
  }

  lemma {:induction false} CombinedWithinBounds(cfg: Config, events: seq<Event>)
    ensures |Run(cfg, events).maps.combined| <= cfg.combinedMax
    decreases |events|
  {
    if events != [] {
      CombinedWithinBounds(cfg, events[..|events| - 1]);
      KeysOnlyGrow(cfg, Run(cfg, events[..|events| - 1]), events[|events| - 1]);
    }
  }

  /** From the state after the first `n` events on. */
  lemma {:induction false} KeysOnlyGrowOverRuns(cfg: Config, events: seq<Event>, n: nat)
    requires n <= |events|
    ensures Grows(cfg.combinedMax, Run(cfg, events[..n]).maps.combined, Run(cfg, events).maps.combined)
    decreases |events|
  {
    if n == |events| {
      CombinedWithinBounds(cfg, events);
      assert events[..n] == events;
    } else {
      var before, ev := events[..|events| - 1], events[|events| - 1];
      assert before[..n] == events[..n] && before + [ev] == events;
      KeysOnlyGrowOverRuns(cfg, before, n);
      RunStep(cfg, before, ev);
      GrowsByOneMore(cfg, Run(cfg, events[..n]), Run(cfg, before), ev);
    }
  }

  lemma GrowsByOneMore(cfg: Config, a: Account, mid: Account, ev: Event)
    requires Grows(cfg.combinedMax, a.maps.combined, mid.maps.combined)
    ensures Grows(cfg.combinedMax, a.maps.combined, Step(cfg, mid, ev).maps.combined)
  {
    KeysOnlyGrow(cfg, mid, ev);
    GrowsTransitive(cfg.combinedMax, a.maps.combined, mid.maps.combined, Step(cfg, mid, ev).maps.combined);
  }

  /** A live record whose stack is not tracked: the statistics were full when it came, so the
      stack is never tracked in any continuation of the run, and neither its adds nor its
      subtracts ever reach a word. */
  lemma {:induction false} TrackedFromFirstOrNever(cfg: Config, events: seq<Event>, n: nat, address: U64)
    requires n <= |events| && address in Run(cfg, events[..n]).maps.allocs
    ensures var key := StackKey(Run(cfg, events[..n]).maps.allocs[address].stackId);
      key in Run(cfg, events[..n]).maps.combined <==> key in Run(cfg, events).maps.combined
  {
    var a := Run(cfg, events[..n]);
    var key := StackKey(a.maps.allocs[address].stackId);
    KeysOnlyGrowOverRuns(cfg, events, n);
    CombinedWithinBounds(cfg, events[..n]);
    if key !in a.maps.combined {
      StatisticsBalance(cfg, events[..n], a);
      assert BalancedAt(cfg, a, key);
      SumMapAtLeast(a.maps.allocs, address, BitsOf(key));
    }
  }

  // ---- When nothing is lost ----

  /** The event records nothing, or records it at a free address with room in the table. */
  predicate Keeps(cfg: Config, m: Maps, ev: Event) {
    match ev
    case Free(_) => true
    case SlabAlloc(ctx, ptr, bytes) =>
      Fits(cfg, (if cfg.waMissingFree then FreeEntered(m, ptr) else m).allocs, ctx, ptr, bytes)
    case PageAlloc(ctx, pfn, order) => Fits(cfg, m.allocs, ctx, pfn, PageBytes(cfg, order))
    case PercpuAlloc(ctx, ptr, bytes) => Fits(cfg, m.allocs, ctx, ptr, bytes)
  }

  predicate Records(cfg: Config, ctx: Context, address: U64, size: U64) {
    address != 0 && Passes(cfg, ctx, size) && cfg.sizesMax > 0
  }

  predicate Fits(cfg: Config, allocs: map<U64, AllocInfo>, ctx: Context, address: U64, size: U64) {
    Records(cfg, ctx, address, size) ==> address !in allocs && |allocs| < cfg.allocsMax
  }

  /** With no pending size around, an allocation is recorded exactly when it passes the size
      and sampling filters, at a non-null address, and with its own size. */
  lemma AllocationEffect(cfg: Config, a: Account, ctx: Context, address: U64, size: U64)
    requires a.maps.sizes == map[]
    ensures AllocatedAccount(cfg, a, ctx, address, size)
         == if Records(cfg, ctx, address, size) then RecordedAccount(cfg, a, address, InfoOf(ctx, size)) else a
  {
    var pending := AllocEntered(cfg, a.maps, ctx, size).sizes;
    assert Passes(cfg, ctx, size) && cfg.sizesMax > 0 ==> pending == map[ctx.pid := size];
    assert pending - {ctx.pid} == map[];
  }

  /** The pending-size table is empty between handlers. */
  lemma {:induction false} SizesEmptyBetweenHandlers(cfg: Config, events: seq<Event>)
    ensures Run(cfg, events).maps.sizes == map[]
    decreases |events|
  {
    if events != [] {
      var a, ev := Run(cfg, events[..|events| - 1]), events[|events| - 1];
      SizesEmptyBetweenHandlers(cfg, events[..|events| - 1]);
      match ev
      case SlabAlloc(ctx, ptr, bytes) =>
        AllocationEffect(cfg, if cfg.waMissingFree then FreedAccount(a, ptr) else a, ctx, ptr, bytes);
      case PageAlloc(ctx, pfn, order) => AllocationEffect(cfg, a, ctx, pfn, PageBytes(cfg, order));
      case PercpuAlloc(ctx, ptr, bytes) => AllocationEffect(cfg, a, ctx, ptr, bytes);
      case Free(_) =>
    }
  }

  lemma StepLosesUnlessItKeeps(cfg: Config, a: Account, ev: Event)
    requires a.maps.sizes == map[]
    ensures a.lost <= Step(cfg, a, ev).lost
    ensures Step(cfg, a, ev).lost == a.lost <==> Keeps(cfg, a.maps, ev)
  {
    match ev
    case SlabAlloc(ctx, ptr, bytes) =>
      AllocationEffect(cfg, if cfg.waMissingFree then FreedAccount(a, ptr) else a, ctx, ptr, bytes);
    case PageAlloc(ctx, pfn, order) => AllocationEffect(cfg, a, ctx, pfn, PageBytes(cfg, order));
    case PercpuAlloc(ctx, ptr, bytes) => AllocationEffect(cfg, a, ctx, ptr, bytes);
    case Free(_) =>
  }

  ghost predicate KeepsAll(cfg: Config, events: seq<Event>) {
    forall i :: 0 <= i < |events| ==> Keeps(cfg, Run(cfg, events[..i]).maps, events[i])
  }

  lemma KeepsAllStep(cfg: Config, before: seq<Event>, ev: Event)
    ensures KeepsAll(cfg, before + [ev]) <==> KeepsAll(cfg, before) && Keeps(cfg, Run(cfg, before).maps, ev)
  {
    var events := before + [ev];
    assert forall i :: 0 <= i <= |before| ==> events[..i] == before[..i];
    assert before[..|before|] == before && events[|before|] == ev;
  }

  /** Nothing is lost exactly when every recording found a free address and a free slot. */
  lemma {:induction false} NothingLostIff(cfg: Config, events: seq<Event>)
    ensures Run(cfg, events).lost == [] <==> KeepsAll(cfg, events)
    decreases |events|
  {
    if events != [] {
      var before, ev := events[..|events| - 1], events[|events| - 1];
      assert events == before + [ev];
      NothingLostIff(cfg, before);
      KeepsAllStep(cfg, before, ev);
      RunStep(cfg, before, ev);
      SizesEmptyBetweenHandlers(cfg, before);
      StepLosesUnlessItKeeps(cfg, Run(cfg, before), ev);
    }
  }

  /** With the missing-free workaround a slab allocation never overwrites a record: it only
      needs room, and only if the address was not live already. */
  lemma WorkaroundKeeps(cfg: Config, m: Maps, ctx: Context, ptr: U64, bytes: U64)
    requires cfg.waMissingFree
    requires |m.allocs| < cfg.allocsMax || (ptr in m.allocs && |m.allocs| == cfg.allocsMax)
    ensures Keeps(cfg, m, SlabAlloc(ctx, ptr, bytes))
  {
    if ptr in m.allocs {
      assert (m.allocs - {ptr}).Keys == m.allocs.Keys - {ptr};
      assert |m.allocs - {ptr}| == |(m.allocs - {ptr}).Keys| && |m.allocs.Keys| == |m.allocs|;
    }
  }

  /** So with the workaround on, slab allocations and frees alone lose nothing as long as the
      table has room: no assumption on the addresses is needed. */
  lemma WorkaroundLosesNothing(cfg: Config, events: seq<Event>, a: Account)
    requires a == Run(cfg, events) && cfg.waMissingFree
    requires forall i :: 0 <= i < |events| ==> events[i].SlabAlloc? || events[i].Free?
    requires forall i :: 0 <= i < |events| ==> |Run(cfg, events[..i]).maps.allocs| < cfg.allocsMax
    ensures a.lost == []
  {
    forall i | 0 <= i < |events|
      ensures Keeps(cfg, Run(cfg, events[..i]).maps, events[i])
    {
      if events[i].SlabAlloc? {
        WorkaroundKeeps(cfg, Run(cfg, events[..i]).maps, events[i].ctx, events[i].ptr, events[i].bytes);
      }
    }
    NothingLostIff(cfg, events);
  }

  // ---- Exactly when the statistics of one stack are right ----

  predicate OfStack(key: U64, info: AllocInfo) { StackKey(info.stackId) == key }

  function LostOf(lost: seq<AllocInfo>, key: U64): (r: seq<AllocInfo>) {
    if lost == [] then []
    else
      var info := lost[|lost| - 1];
      LostOf(lost[..|lost| - 1], key) + if OfStack(key, info) then [info] else []
  }

  lemma {:induction false} LostOfAppend(a: seq<AllocInfo>, b: seq<AllocInfo>, key: U64)
    ensures LostOf(a + b, key) == LostOf(a, key) + LostOf(b, key)
    decreases |b|
  {
    if b == [] {
      assert a + b == a;
    } else {
      var n := |b| - 1;
      LostOfAppend(a, b[..n], key);
      assert (a + b)[..|a| + n] == a + b[..n];
    }
  }

  lemma LostOfOne(info: AllocInfo, key: U64)
    ensures LostOf([info], key) == if OfStack(key, info) then [info] else []
  {
    assert [info][..0] == [];
  }

  lemma {:induction false} LostBits(lost: seq<AllocInfo>, key: U64)
    ensures |LostOf(lost, key)| * TWO40 <= SumSeq(lost, BitsOf(key)) <= |LostOf(lost, key)| * (2 * TWO40 - 1)
    decreases |lost|
  {
    if lost != [] {
      LostBits(lost[..|lost| - 1], key);
    }
  }

  /** Storing a record at this address costs the stack `key` nothing: an overwritten record is
      of another stack, and so is one that finds no room. */
  predicate StoresFor(cfg: Config, allocs: map<U64, AllocInfo>, address: U64, stackId: Int32, key: U64) {
    if address in allocs then !OfStack(key, allocs[address])
    else |allocs| < cfg.allocsMax || StackKey(stackId) != key
  }

  predicate FitsFor(cfg: Config, allocs: map<U64, AllocInfo>, ctx: Context, address: U64, size: U64, key: U64) {
    Records(cfg, ctx, address, size) ==> StoresFor(cfg, allocs, address, ctx.stackId, key)
  }

  /** The event costs the stack `key` no record. */
  predicate KeepsFor(cfg: Config, m: Maps, ev: Event, key: U64) {
    match ev
    case Free(_) => true
    case SlabAlloc(ctx, ptr, bytes) =>
      FitsFor(cfg, (if cfg.waMissingFree then FreeEntered(m, ptr) else m).allocs, ctx, ptr, bytes, key)
    case PageAlloc(ctx, pfn, order) => FitsFor(cfg, m.allocs, ctx, pfn, PageBytes(cfg, order), key)
    case PercpuAlloc(ctx, ptr, bytes) => FitsFor(cfg, m.allocs, ctx, ptr, bytes, key)
  }

  ghost predicate KeepsAllFor(cfg: Config, events: seq<Event>, key: U64) {
    forall i :: 0 <= i < |events| ==> KeepsFor(cfg, Run(cfg, events[..i]).maps, events[i], key)
  }

  lemma KeepsAllForStep(cfg: Config, before: seq<Event>, ev: Event, key: U64)
    ensures KeepsAllFor(cfg, before + [ev], key)
       <==> KeepsAllFor(cfg, before, key) && KeepsFor(cfg, Run(cfg, before).maps, ev, key)
  {
    var events := before + [ev];
    assert forall i :: 0 <= i <= |before| ==> events[..i] == before[..i];
    assert before[..|before|] == before && events[|before|] == ev;
  }

  /** What a store loses, seen from one stack. */
  lemma StoreLosesFor(cfg: Config, allocs: map<U64, AllocInfo>, address: U64, info: AllocInfo, key: U64)
    ensures LostOf(LostAt(cfg, allocs, address, info), key) == []
       <==> StoresFor(cfg, allocs, address, info.stackId, key)
  {
    if address in allocs {
      LostOfOne(allocs[address], key);
    } else {
      LostOfOne(info, key);
    }
  }

  lemma AllocationLosesFor(cfg: Config, a: Account, ctx: Context, address: U64, size: U64, key: U64)
    requires a.maps.sizes == map[]
    ensures LostOf(AllocatedAccount(cfg, a, ctx, address, size).lost, key) == LostOf(a.lost, key)
       <==> FitsFor(cfg, a.maps.allocs, ctx, address, size, key)
    ensures LostOf(a.lost, key) <= LostOf(AllocatedAccount(cfg, a, ctx, address, size).lost, key)
    ensures |AllocatedAccount(cfg, a, ctx, address, size).lost| <= |a.lost| + 1
  {
    AllocationEffect(cfg, a, ctx, address, size);
    if Records(cfg, ctx, address, size) {
      var info := InfoOf(ctx, size);
      StoreLosesFor(cfg, a.maps.allocs, address, info, key);
      LostOfAppend(a.lost, LostAt(cfg, a.maps.allocs, address, info), key);
    }
  }

  lemma StepLosesFor(cfg: Config, a: Account, ev: Event, key: U64)
    requires a.maps.sizes == map[]
    ensures LostOf(Step(cfg, a, ev).lost, key) == LostOf(a.lost, key) <==> KeepsFor(cfg, a.maps, ev, key)
    ensures LostOf(a.lost, key) <= LostOf(Step(cfg, a, ev).lost, key)
    ensures |Step(cfg, a, ev).lost| <= |a.lost| + 1
  {
    match ev
    case SlabAlloc(ctx, ptr, bytes) =>
      AllocationLosesFor(cfg, if cfg.waMissingFree then FreedAccount(a, ptr) else a, ctx, ptr, bytes, key);
    case PageAlloc(ctx, pfn, order) => AllocationLosesFor(cfg, a, ctx, pfn, PageBytes(cfg, order), key);
    case PercpuAlloc(ctx, ptr, bytes) => AllocationLosesFor(cfg, a, ctx, ptr, bytes, key);
    case Free(_) =>
  }

  /** A stack loses no record in a run exactly when no recording overwrote a record of it, or
      found no room for one. What happens to other stacks does not matter. */
  lemma {:induction false} StackLosesNothingIff(cfg: Config, events: seq<Event>, key: U64)
    ensures LostOf(Run(cfg, events).lost, key) == [] <==> KeepsAllFor(cfg, events, key)
    decreases |events|
  {
    if events != [] {
      var before, ev := events[..|events| - 1], events[|events| - 1];
      assert events == before + [ev];
      StackLosesNothingIff(cfg, before, key);
      KeepsAllForStep(cfg, before, ev, key);
      RunStep(cfg, before, ev);
      SizesEmptyBetweenHandlers(cfg, before);
      StepLosesFor(cfg, Run(cfg, before), ev, key);
    }
  }

  /** A run loses at most one record per event. */
  lemma {:induction false} LosesAtMostOnePerEvent(cfg: Config, events: seq<Event>, key: U64)
    ensures |LostOf(Run(cfg, events).lost, key)| <= |Run(cfg, events).lost| <= |events|
    decreases |events|
  {
    if events != [] {
      var before, ev := events[..|events| - 1], events[|events| - 1];
      assert events == before + [ev];
      LosesAtMostOnePerEvent(cfg, before, key);
      RunStep(cfg, before, ev);
      SizesEmptyBetweenHandlers(cfg, before);
      StepLosesFor(cfg, Run(cfg, before), ev, key);
    }
    LostOfShorter(Run(cfg, events).lost, key);
  }

  lemma {:induction false} LostOfShorter(lost: seq<AllocInfo>, key: U64)
    ensures |LostOf(lost, key)| <= |lost|
    decreases |lost|
  {
    if lost != [] {
      LostOfShorter(lost[..|lost| - 1], key);
    }
  }

  /** On a run that costs a tracked stack no record, its word is the packed sum of its live
      records and of nothing else. */
  lemma {:induction false} StatisticsAreTheLiveFold(cfg: Config, events: seq<Event>, a: Account, key: U64)
    requires a == Run(cfg, events) && key in a.maps.combined
    ensures KeepsAllFor(cfg, events, key) ==> a.maps.combined[key] == Live(a.maps, key) % TWO64
  {
    StackLosesNothingIff(cfg, events, key);
    StatisticsBalance(cfg, events, a);
    if KeepsAllFor(cfg, events, key) {
      ExactWhenBalanced(cfg, a, key);
    }
  }

  /** And only then: as long as a stack has lost at most 2^23 records (and so on every run of up
      to 2^23 events), its word is the live fold if and only if no event cost it a record. The
      discrepancy never wraps back to zero. */
  lemma {:induction false} ExactIffKept(cfg: Config, events: seq<Event>, a: Account, key: U64)
    requires a == Run(cfg, events) && key in a.maps.combined
    requires |LostOf(a.lost, key)| <= TWO24 / 2 || |events| <= TWO24 / 2
    ensures a.maps.combined[key] == Live(a.maps, key) % TWO64 <==> KeepsAllFor(cfg, events, key)
  {
    LosesAtMostOnePerEvent(cfg, events, key);
    StackLosesNothingIff(cfg, events, key);
    StatisticsBalance(cfg, events, a);
    ExactWhenBalanced(cfg, a, key);
  }

  lemma ExactWhenBalanced(cfg: Config, a: Account, key: U64)
    requires Balanced(cfg, a) && key in a.maps.combined
    requires |LostOf(a.lost, key)| <= TWO24 / 2
    ensures a.maps.combined[key] == Live(a.maps, key) % TWO64 <==> LostOf(a.lost, key) == []
  {
    assert BalancedAt(cfg, a, key);
    LostBits(a.lost, key);
    NoWrapBack(Live(a.maps, key), SumSeq(a.lost, BitsOf(key)));
  }

  lemma NoWrapBack(live: nat, lost: nat)
    requires lost < TWO64
    ensures (live + lost) % TWO64 == live % TWO64 <==> lost == 0
  {
  }

  lemma RunStep(cfg: Config, events: seq<Event>, ev: Event)
    ensures Run(cfg, events + [ev]) == Step(cfg, Run(cfg, events), ev)
  {
    assert (events + [ev])[..|events|] == events;
  }

  /** Allocating an address twice without a free in between leaves the first record in the
      word for good: after the one free that follows, nothing is live and one allocation is
      still counted. */
  lemma {:induction false} OverwrittenRecordStaysCounted(cfg: Config, ctx: Context, ptr: U64, size: U64)
    requires !cfg.waMissingFree && cfg.allocsMax > 0 && cfg.combinedMax > 0
    requires Records(cfg, ctx, ptr, size) && size < TWO40
    ensures
      var alloc := SlabAlloc(ctx, ptr, size);
      var m := Run(cfg, [] + [alloc] + [alloc] + [Free(ptr)]).maps;
      var key := StackKey(ctx.stackId);
      && m.allocs == map[]
      && key in m.combined
      && TotalSize(m.combined[key]) == size && NumberOfAllocs(m.combined[key]) == 1
  {
    var alloc, info := SlabAlloc(ctx, ptr, size), InfoOf(ctx, size);
    RunStep(cfg, [], alloc);
    RunStep(cfg, [] + [alloc], alloc);
    RunStep(cfg, [] + [alloc] + [alloc], Free(ptr));
    var a0 := Account(EMPTY, []);
    var a1 := RecordedAccount(cfg, a0, ptr, info);
    AllocationEffect(cfg, a0, ctx, ptr, size);
    AllocationEffect(cfg, a1, ctx, ptr, size);
    RecordedTwiceFreedOnce(cfg, ptr, info);
  }

  lemma RecordedTwiceFreedOnce(cfg: Config, ptr: U64, info: AllocInfo)
    requires cfg.allocsMax > 0 && cfg.combinedMax > 0 && info.size < TWO40
    ensures
      var a1 := RecordedAccount(cfg, Account(EMPTY, []), ptr, info);
      var m := FreedAccount(RecordedAccount(cfg, a1, ptr, info), ptr).maps;
      var key := StackKey(info.stackId);
      && m.allocs == map[]
      && m.combined == map[key := Pack(info.size)]
      && TotalSize(Pack(info.size)) == info.size && NumberOfAllocs(Pack(info.size)) == 1
  {
    var key, size := StackKey(info.stackId), info.size;
    var a1 := RecordedAccount(cfg, Account(EMPTY, []), ptr, info);
    assert a1.maps.combined == map[key := FetchAdd(0, size)];
    var word := FetchAdd(FetchAdd(0, size), size);
    var a2 := RecordedAccount(cfg, a1, ptr, info);
    assert a2.maps.combined == map[key := word];
    assert a2.maps.allocs == map[ptr := info];
    AddAddSub(size);
  }

  lemma AddAddSub(size: nat)
    requires size < TWO40
    ensures FetchSub(FetchAdd(FetchAdd(0, size), size), size) == Pack(size)
    ensures TotalSize(Pack(size)) == size && NumberOfAllocs(Pack(size)) == 1
  {
  }
}
