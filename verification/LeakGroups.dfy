/**
 The user-space side of the leak check: live records are read from the kernel in whatever
 order the hash map yields them and grouped by process and stack.
 */
module LeakGroups {
  import opened PackedWord
  import opened Sums
  import opened Ledger
  import opened Accounting

  datatype LeakKey = LeakKey(pid: U32, stackId: Int32)

  datatype StackAllocs = StackAllocs(stackId: Int32, size: U64, count: U64, pid: U32, comm: string)

  type Entry = (U64, AllocInfo)

  function KeyOf(e: Entry): LeakKey {
    LeakKey(e.1.pid, e.1.stackId)
  }

  predicate InGroup(k: LeakKey, e: Entry) {
    k.stackId >= 0 && KeyOf(e) == k
  }

  function GroupSize(k: LeakKey): Entry -> nat {
    (e: Entry) => if InGroup(k, e) then e.1.size else 0
  }

  function GroupCount(k: LeakKey): Entry -> nat {
    (e: Entry) => if InGroup(k, e) then 1 else 0
  }

  /** The command name up to its terminating zero. */
  function CommOf(comm: string): (r: string)
    ensures r <= comm && '\0' !in r
    ensures r == comm || comm[|r|] == '\0'
  {
    if comm == "" || comm[0] == '\0' then "" else [comm[0]] + CommOf(comm[1..])
  }

  /** The grouping, independent of how it is computed: a group exists for every key that
      occurs, it holds the sums of its members modulo 2^64, and it is labelled with the
      command of the member that was read first. */
  ghost predicate IsGrouping(groups: map<LeakKey, StackAllocs>, entries: seq<Entry>) {
    forall k: LeakKey :: GroupedAt(groups, entries, k)
  }

  ghost predicate IsGroup(g: StackAllocs, k: LeakKey, entries: seq<Entry>) {
    && g.pid == k.pid && g.stackId == k.stackId
    && g.size == SumSeq(entries, GroupSize(k)) % TWO64
    && g.count == SumSeq(entries, GroupCount(k)) % TWO64
    && exists i: nat :: FirstMember(i, entries, k) && g.comm == CommOf(entries[i].1.comm)
  }

  /** The group an entry belongs to, before and after the entry is added to it. */
  function GroupFor(groups: map<LeakKey, StackAllocs>, e: Entry): StackAllocs {
    if KeyOf(e) in groups then groups[KeyOf(e)]
    else StackAllocs(e.1.stackId, 0, 0, e.1.pid, CommOf(e.1.comm))
  }

  function Enlarged(g: StackAllocs, e: Entry): StackAllocs {
    g.(size := (g.size + e.1.size) % TWO64, count := (g.count + 1) % TWO64)
  }

  function Absorbed(groups: map<LeakKey, StackAllocs>, e: Entry): map<LeakKey, StackAllocs> {
    if e.1.stackId < 0 then groups
    else groups[KeyOf(e) := Enlarged(GroupFor(groups, e), e)]
  }

  function Grouped(entries: seq<Entry>): map<LeakKey, StackAllocs> {
    if entries == [] then map[]
    else Absorbed(Grouped(entries[..|entries| - 1]), entries[|entries| - 1])
  }

  lemma SumWraps(all: nat, x: nat)
    ensures (all % TWO64 + x) % TWO64 == (all + x) % TWO64
  {
  }

  ghost predicate FirstMember(i: nat, entries: seq<Entry>, k: LeakKey) {
    i < |entries| && InGroup(k, entries[i]) && forall j :: 0 <= j < i ==> !InGroup(k, entries[j])
  }

  lemma AbsorbedGroup(entries: seq<Entry>, e: Entry, g: StackAllocs, k: LeakKey)
    requires IsGroup(g, k, entries)
    ensures IsGroup(if InGroup(k, e) then Enlarged(g, e) else g, k, entries + [e])
  {
    var more := entries + [e];
    assert more[..|entries|] == entries;
    SumWraps(SumSeq(entries, GroupSize(k)), e.1.size);
    SumWraps(SumSeq(entries, GroupCount(k)), 1);
    var i: nat :| FirstMember(i, entries, k) && g.comm == CommOf(entries[i].1.comm);
    assert FirstMember(i, more, k) && more[i] == entries[i];
  }

  lemma FirstGroup(entries: seq<Entry>, e: Entry, k: LeakKey)
    requires InGroup(k, e) && forall i :: 0 <= i < |entries| ==> !InGroup(k, entries[i])
    ensures IsGroup(StackAllocs(k.stackId, e.1.size % TWO64, 1, k.pid, CommOf(e.1.comm)), k, entries + [e])
  {
    var more := entries + [e];
    assert more[..|entries|] == entries;
    NoneOutside(entries, k);
    assert FirstMember(|entries|, more, k);
  }

  lemma {:induction false} NoneOutside(entries: seq<Entry>, k: LeakKey)
    requires forall i :: 0 <= i < |entries| ==> !InGroup(k, entries[i])
    ensures SumSeq(entries, GroupSize(k)) == 0 && SumSeq(entries, GroupCount(k)) == 0
    decreases |entries|
  {
    if entries != [] {
      NoneOutside(entries[..|entries| - 1], k);
    }
  }

  ghost predicate GroupedAt(groups: map<LeakKey, StackAllocs>, entries: seq<Entry>, k: LeakKey) {
    && (k in groups <==> exists i :: 0 <= i < |entries| && InGroup(k, entries[i]))
    && (k in groups ==> IsGroup(groups[k], k, entries))
  }

  lemma AbsorbedAt(groups: map<LeakKey, StackAllocs>, before: seq<Entry>, e: Entry, k: LeakKey)
    requires GroupedAt(groups, before, k)
    ensures GroupedAt(Absorbed(groups, e), before + [e], k)
  {
    var entries := before + [e];
    if k in groups {
      AbsorbedGroup(before, e, groups[k], k);
      var i :| 0 <= i < |before| && InGroup(k, before[i]);
      assert InGroup(k, entries[i]);
    } else if InGroup(k, e) {
      FirstGroup(before, e, k);
      assert InGroup(k, entries[|before|]);
    } else {
      forall i | 0 <= i < |entries| ensures !InGroup(k, entries[i]) {
        assert i < |before| ==> entries[i] == before[i];
      }
    }
  }

  lemma {:induction false} GroupedIsGrouping(entries: seq<Entry>)
    ensures IsGrouping(Grouped(entries), entries)
    decreases |entries|
  {
    if entries != [] {
      var before, e := entries[..|entries| - 1], entries[|entries| - 1];
      assert entries == before + [e];
      GroupedIsGrouping(before);
      forall k: LeakKey
        ensures GroupedAt(Grouped(entries), entries, k)
      {
        assert GroupedAt(Grouped(before), before, k);
        AbsorbedAt(Grouped(before), before, e, k);
      }
    }
  }

  /** The grouping loop of the leak check. */
  method GroupLeaks(entries: seq<Entry>) returns (leakMap: map<LeakKey, StackAllocs>)
    ensures leakMap == Grouped(entries)
    ensures IsGrouping(leakMap, entries)
  {
    leakMap := map[];
    for i := 0 to |entries|
      invariant leakMap == Grouped(entries[..i])
    {
      assert entries[..i + 1][..i] == entries[..i];
      var info := entries[i].1;
      if info.stackId < 0 {
        continue;
      }
      var key := LeakKey(info.pid, info.stackId);
      if key !in leakMap {
        leakMap := leakMap[key := StackAllocs(info.stackId, 0, 0, info.pid, CommOf(info.comm))];
      }
      var leak := leakMap[key];
      leakMap := leakMap[key := leak.(size := (leak.size + info.size) % TWO64)];
      leak := leakMap[key];
      leakMap := leakMap[key := leak.(count := (leak.count + 1) % TWO64)];
    }
    assert entries[..|entries|] == entries;
    GroupedIsGrouping(entries);
  }

  /** Sizes and counts do not depend on the order in which the map was read. */
  lemma GroupingIgnoresOrder(a: seq<Entry>, b: seq<Entry>)
    requires multiset(a) == multiset(b)
    ensures Grouped(a).Keys == Grouped(b).Keys
    ensures forall k :: k in Grouped(a) ==>
      Grouped(a)[k].size == Grouped(b)[k].size && Grouped(a)[k].count == Grouped(b)[k].count
  {
    GroupedIsGrouping(a);
    GroupedIsGrouping(b);
    forall k: LeakKey
      ensures k in Grouped(a) <==> k in Grouped(b)
      ensures k in Grouped(a) && k in Grouped(b) ==>
        Grouped(a)[k].size == Grouped(b)[k].size && Grouped(a)[k].count == Grouped(b)[k].count
    {
      assert GroupedAt(Grouped(a), a, k) && GroupedAt(Grouped(b), b, k);
      SumSeqPermutation(a, b, GroupSize(k));
      SumSeqPermutation(a, b, GroupCount(k));
      if k in Grouped(a) {
        OccursToo(a, b, k);
      }
      if k in Grouped(b) {
        OccursToo(b, a, k);
      }
    }
  }

  lemma OccursToo(a: seq<Entry>, b: seq<Entry>, k: LeakKey)
    requires multiset(a) == multiset(b)
    requires exists i :: 0 <= i < |a| && InGroup(k, a[i])
    ensures exists j :: 0 <= j < |b| && InGroup(k, b[j])
  {
    var i :| 0 <= i < |a| && InGroup(k, a[i]);
    assert a[i] in multiset(b);
    var j :| 0 <= j < |b| && b[j] == a[i];
  }

  // ---- The recount agrees with the kernel's statistics ----

  function StackSize(stackId: Int32): Entry -> nat {
    (e: Entry) => if e.1.stackId == stackId then e.1.size else 0
  }

  function StackCount(stackId: Int32): Entry -> nat {
    (e: Entry) => if e.1.stackId == stackId then 1 else 0
  }

  function SizeAt(stackId: Int32): StackAllocs -> nat {
    (g: StackAllocs) => if g.stackId == stackId then g.size else 0
  }

  function CountAt(stackId: Int32): StackAllocs -> nat {
    (g: StackAllocs) => if g.stackId == stackId then g.count else 0
  }

  lemma AddModulo(total: nat, g: nat, x: nat, total': nat, all: nat)
    requires total % TWO64 == all % TWO64
    requires total' + g == total + (g + x) % TWO64
    ensures total' % TWO64 == (all + x) % TWO64
  {
  }

  /** Adding up the groups of one stack over all processes gives the sum over its records,
      even if single groups wrapped around. */
  lemma {:induction false} GroupsSumToStack(entries: seq<Entry>, stackId: Int32)
    requires stackId >= 0
    ensures SumMap(Grouped(entries), SizeAt(stackId)) % TWO64 == SumSeq(entries, StackSize(stackId)) % TWO64
    ensures SumMap(Grouped(entries), CountAt(stackId)) % TWO64 == SumSeq(entries, StackCount(stackId)) % TWO64
    decreases |entries|
  {
    if entries != [] {
      var before, e := entries[..|entries| - 1], entries[|entries| - 1];
      GroupsSumToStack(before, stackId);
      if e.1.stackId >= 0 {
        SameStack(before, e);
        var g := GroupFor(Grouped(before), e);
        EnlargedWeight(g, e, stackId);
        AbsorbedModulo(Grouped(before), KeyOf(e), g, Enlarged(g, e), SizeAt(stackId),
                       SumSeq(before, StackSize(stackId)), StackSize(stackId)(e));
        AbsorbedModulo(Grouped(before), KeyOf(e), g, Enlarged(g, e), CountAt(stackId),
                       SumSeq(before, StackCount(stackId)), StackCount(stackId)(e));
      }
    }
  }

  lemma SameStack(before: seq<Entry>, e: Entry)
    requires e.1.stackId >= 0
    ensures GroupFor(Grouped(before), e).stackId == e.1.stackId
  {
    GroupedIsGrouping(before);
    assert GroupedAt(Grouped(before), before, KeyOf(e));
  }

  lemma EnlargedWeight(g: StackAllocs, e: Entry, stackId: Int32)
    requires g.stackId == e.1.stackId
    ensures SizeAt(stackId)(Enlarged(g, e)) == (SizeAt(stackId)(g) + StackSize(stackId)(e)) % TWO64
    ensures CountAt(stackId)(Enlarged(g, e)) == (CountAt(stackId)(g) + StackCount(stackId)(e)) % TWO64
  {
  }

  lemma AbsorbedModulo(groups: map<LeakKey, StackAllocs>, k: LeakKey, g: StackAllocs, g': StackAllocs,
                       w: StackAllocs -> nat, all: nat, x: nat)
    requires if k in groups then groups[k] == g else w(g) == 0
    requires SumMap(groups, w) % TWO64 == all % TWO64
    requires w(g') == (w(g) + x) % TWO64
    ensures SumMap(groups[k := g'], w) % TWO64 == (all + x) % TWO64
  {
    AbsorbedWeight(groups, k, g, g', w);
    AddModulo(SumMap(groups, w), w(g), x, SumMap(groups[k := g'], w), all);
  }

  lemma AbsorbedWeight(groups: map<LeakKey, StackAllocs>, k: LeakKey, g: StackAllocs, g': StackAllocs,
                       w: StackAllocs -> nat)
    requires if k in groups then groups[k] == g else w(g) == 0
    ensures SumMap(groups[k := g'], w) + w(g) == SumMap(groups, w) + w(g')
  {
    if k in groups {
      SumMapReplace(groups, k, g', w);
    } else {
      SumMapInsert(groups, k, g', w);
    }
  }

  /** The sizes of the records of one stack, in reading order. */
  function SizesOfStack(entries: seq<Entry>, stackId: Int32): seq<nat> {
    if entries == [] then []
    else
      var e := entries[|entries| - 1];
      SizesOfStack(entries[..|entries| - 1], stackId) + if e.1.stackId == stackId then [e.1.size as nat] else []
  }

  function EntryBits(key: U64): Entry -> nat {
    (e: Entry) => BitsOf(key)(e.1)
  }

  lemma {:induction false} SizesOfStackSums(entries: seq<Entry>, stackId: Int32)
    requires stackId >= 0
    ensures var sizes := SizesOfStack(entries, stackId);
      && PackedSum(sizes) == SumSeq(entries, EntryBits(StackKey(stackId)))
      && SumSeq(sizes, Identity) == SumSeq(entries, StackSize(stackId))
      && |sizes| == SumSeq(entries, StackCount(stackId))
    decreases |entries|
  {
    if entries != [] {
      var before, e := entries[..|entries| - 1], entries[|entries| - 1];
      SizesOfStackSums(before, stackId);
      var sizes := SizesOfStack(before, stackId);
      assert OfStack(StackKey(stackId), e.1) <==> e.1.stackId == stackId;
      var size: nat := e.1.size;
      assert PackedSum(sizes + [size]) == PackedSum(sizes) + Pack(size) by {
        SumSeqAppend(sizes, [size], Pack);
        SumSeqOne(size, Pack);
      }
      assert SumSeq(sizes + [size], Identity) == SumSeq(sizes, Identity) + size by {
        SumSeqAppend(sizes, [size], Identity);
        SumSeqOne(size, Identity);
      }
      assert sizes + [] == sizes;
      assert EntryBits(StackKey(stackId))(e) == BitsOf(StackKey(stackId))(e.1);
    }
  }

  lemma DropTurns40(turns: nat, word: nat)
    ensures (turns * TWO64 + word) % TWO40 == word % TWO40
  {
  }

  lemma ModuloOfModulo(a: nat)
    ensures a % TWO64 % TWO40 == a % TWO40
  {
    DropTurns40(a / TWO64, a % TWO64);
  }

  /** The kernel's word against the groups of one stack, added up over all processes: the
      byte totals agree modulo 2^40, and when the bytes and records of the stack fit their
      fields, both totals and both counts are exact. */
  ghost predicate RecountAgrees(word: U64, entries: seq<Entry>, stackId: Int32) {
    var groups := Grouped(entries);
    var bytes, records := SumSeq(entries, StackSize(stackId)), SumSeq(entries, StackCount(stackId));
    && TotalSize(word) == SumMap(groups, SizeAt(stackId)) % TWO40
    && (bytes < TWO40 && records < TWO24 ==>
          && TotalSize(word) == SumMap(groups, SizeAt(stackId)) % TWO64 == bytes
          && NumberOfAllocs(word) == SumMap(groups, CountAt(stackId)) % TWO64 == records)
  }

  /** Reading the live table in any order and adding up the groups of one stack agrees with
      the kernel's packed statistics, in every reachable state that lost none of its records. */
  lemma {:induction false} RecountMatchesStatistics(cfg: Config, events: seq<Event>, a: Account,
                                                    entries: seq<Entry>, stackId: Int32)
    requires a == Run(cfg, events)
    requires stackId >= 0 && StackKey(stackId) in a.maps.combined
    requires Enumerates(entries, a.maps.allocs)
    ensures KeepsAllFor(cfg, events, StackKey(stackId)) ==>
      RecountAgrees(a.maps.combined[StackKey(stackId)], entries, stackId)
  {
    StatisticsAreTheLiveFold(cfg, events, a, StackKey(stackId));
    if KeepsAllFor(cfg, events, StackKey(stackId)) {
      RecountOfFold(a.maps, entries, stackId);
    }
  }

  lemma WordOfEntries(m: Maps, entries: seq<Entry>, stackId: Int32)
    requires stackId >= 0 && Enumerates(entries, m.allocs)
    ensures Live(m, StackKey(stackId)) == PackedSum(SizesOfStack(entries, stackId))
  {
    SizesOfStackSums(entries, stackId);
    SumEnumeration(entries, m.allocs, BitsOf(StackKey(stackId)), EntryBits(StackKey(stackId)));
  }

  lemma GroupsDecode(entries: seq<Entry>, stackId: Int32)
    requires stackId >= 0
    ensures var sizes := SizesOfStack(entries, stackId);
      && TotalSize(PackedSum(sizes) % TWO64) == SumMap(Grouped(entries), SizeAt(stackId)) % TWO40
  {
    var sizes, sum := SizesOfStack(entries, stackId), SumMap(Grouped(entries), SizeAt(stackId));
    SizesOfStackSums(entries, stackId);
    DecodePackedSum(sizes, PackedSum(sizes) % TWO64);
    GroupsSumToStack(entries, stackId);
    ModuloOfModulo(sum);
    ModuloOfModulo(SumSeq(sizes, Identity));
  }

  lemma GroupsDecodeExactly(entries: seq<Entry>, stackId: Int32)
    requires stackId >= 0
    requires SumSeq(entries, StackSize(stackId)) < TWO40 && SumSeq(entries, StackCount(stackId)) < TWO24
    ensures var word := PackedSum(SizesOfStack(entries, stackId)) % TWO64;
      && TotalSize(word) == SumMap(Grouped(entries), SizeAt(stackId)) % TWO64 == SumSeq(entries, StackSize(stackId))
      && NumberOfAllocs(word) == SumMap(Grouped(entries), CountAt(stackId)) % TWO64
                              == SumSeq(entries, StackCount(stackId))
  {
    var sizes := SizesOfStack(entries, stackId);
    SizesOfStackSums(entries, stackId);
    assert TotalSize(PackedSum(sizes) % TWO64) == SumSeq(sizes, Identity)
           && NumberOfAllocs(PackedSum(sizes) % TWO64) == |sizes| by {
      DecodesExactlyIff(sizes, PackedSum(sizes) % TWO64);
    }
    GroupsSumToStack(entries, stackId);
    FitsUnwrapped(SumSeq(entries, StackSize(stackId)));
    FitsUnwrapped(SumSeq(entries, StackCount(stackId)));
  }

  lemma FitsUnwrapped(n: nat)
    requires n < TWO40
    ensures n % TWO64 == n
  {
  }

  lemma RecountOfFold(m: Maps, entries: seq<Entry>, stackId: Int32)
    requires stackId >= 0 && StackKey(stackId) in m.combined
    requires m.combined[StackKey(stackId)] == Live(m, StackKey(stackId)) % TWO64
    requires Enumerates(entries, m.allocs)
    ensures RecountAgrees(m.combined[StackKey(stackId)], entries, stackId)
  {
    WordOfEntries(m, entries, stackId);
    GroupsDecode(entries, stackId);
    if SumSeq(entries, StackSize(stackId)) < TWO40 && SumSeq(entries, StackCount(stackId)) < TWO24 {
      GroupsDecodeExactly(entries, stackId);
    }
  }
}
