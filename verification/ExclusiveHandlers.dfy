/**
 When interleaving does no harm: if no two handlers are ever at work on the same address, and
 records are only stored at free addresses while there is room, then nothing is ever subtracted
 twice, nothing is lost except of stacks that can never be tracked, and the statistics of a
 quiet system are exact.
 */
module ExclusiveHandlers {
  import opened PackedWord
  import opened Sums
  import opened Ledger
  import opened Accounting
  import opened Interleaving
  import opened ConcurrentAccounting

  function AddrOf(pc: Pc): U64 {
    match pc
    case Idle => 0
    case FreeLookup(addr, _) => addr
    case FreeDelete(addr, _, _) => addr
    case StatLookup(addr, _, _) => addr
    case StatSub(addr, _, _) => addr
    case Enter(call) => call.address
    case TakeLookup(call) => call.address
    case TakeDelete(call, _) => call.address
    case Record(call, _) => call.address
    case AddLookup(addr, _) => addr
    case AddInit(addr, _) => addr
    case AddRelookup(addr, _) => addr
    case AddAdd(addr, _) => addr
  }

  function EventAddress(ev: Event): U64 {
    match ev
    case SlabAlloc(_, ptr, _) => ptr
    case PageAlloc(_, pfn, _) => pfn
    case PercpuAlloc(_, ptr, _) => ptr
    case Free(address) => address
  }

  /** A handler for a non-null address starts only when no other handler in flight is at work
      on that address, and a record is stored only at a free address with room for it. */
  ghost predicate Disciplined(cfg: Config, s: State, a: Action) {
    match a
    case Begin(t, ev) =>
      EventAddress(ev) != 0 ==> forall u: nat :: u != t ==> AddrOf(PcOf(s, u)) != EventAddress(ev)
    case Resume(t) =>
      var pc := PcOf(s, t);
      pc.Record? ==> pc.call.address !in s.maps.allocs && |s.maps.allocs| < cfg.allocsMax
  }

  ghost predicate DisciplinedRun(cfg: Config, actions: seq<Action>) {
    forall i :: 0 <= i < |actions| ==> Disciplined(cfg, Reached(cfg, actions[..i]), actions[i])
  }

  // ---- The invariant of disciplined runs ----

  predicate Full(cfg: Config, m: Maps) {
    |m.combined| >= cfg.combinedMax
  }

  predicate Settled(cfg: Config, m: Maps, info: AllocInfo) {
    Tracked(m, info) || Full(cfg, m)
  }

  predicate Dead(cfg: Config, m: Maps, info: AllocInfo) {
    !Tracked(m, info) && Full(cfg, m)
  }

  /** What each handler may rely on about its own address. */
  predicate Local(cfg: Config, m: Maps, pc: Pc) {
    && (pc.FreeDelete? || Adding(pc) ==> pc.addr != 0 && pc.addr in m.allocs && m.allocs[pc.addr] == pc.info)
    && (Subbing(pc) ==> Settled(cfg, m, pc.info))
    && (pc.Record? ==> pc.call.address != 0)
    && (Freeing(pc) && pc.next.Some? ==> pc.next.value.address == pc.addr)
    && PointerValid(m, pc)
  }

  ghost predicate AddingAt(s: State, a: U64) {
    exists t: nat :: Adding(PcOf(s, t)) && PcOf(s, t).addr == a
  }

  ghost predicate Exclusive(s: State) {
    forall t: nat, u: nat :: t != u && AddrOf(PcOf(s, t)) != 0 ==> AddrOf(PcOf(s, t)) != AddrOf(PcOf(s, u))
  }

  ghost predicate Locals(cfg: Config, s: State) {
    forall t: nat :: Local(cfg, s.maps, PcOf(s, t))
  }

  ghost predicate Pending(cfg: Config, s: State) {
    forall a :: a in s.maps.allocs ==> Settled(cfg, s.maps, s.maps.allocs[a]) || AddingAt(s, a)
  }

  predicate OnlyDeadLost(cfg: Config, s: State) {
    && s.excess == []
    && forall i :: 0 <= i < |s.lost| ==> Dead(cfg, s.maps, s.lost[i])
  }

  ghost predicate Clean(cfg: Config, s: State) {
    && 0 !in s.maps.allocs
    && Exclusive(s)
    && Locals(cfg, s)
    && Pending(cfg, s)
    && OnlyDeadLost(cfg, s)
  }

  // ---- What one operation can change ----

  predicate SameBut(m: map<U64, AllocInfo>, m': map<U64, AllocInfo>, a: U64) {
    m - {a} == m' - {a}
  }

  ghost predicate Extends(cfg: Config, m: Maps, m': Maps) {
    && m.combined.Keys <= m'.combined.Keys
    && (Full(cfg, m) ==> m.combined.Keys == m'.combined.Keys)
  }

  lemma FullStays(cfg: Config, m: Maps, m': Maps)
    requires Extends(cfg, m, m') && Full(cfg, m)
    ensures Full(cfg, m')
  {
    assert |m.combined| == |m.combined.Keys| && |m'.combined| == |m'.combined.Keys|;
  }

  /** An operation touches the live table at its own address only, and never takes a word
      away; the handler stays on its address until it returns. */
  ghost predicate Footprint(cfg: Config, s: State, s': State, t: nat) {
    && SameBut(s.maps.allocs, s'.maps.allocs, AddrOf(PcOf(s, t)))
    && Extends(cfg, s.maps, s'.maps)
    && (AddrOf(PcOf(s', t)) == AddrOf(PcOf(s, t)) || PcOf(s', t) == Idle)
  }

  lemma FreeFootprint(cfg: Config, s: State, t: nat)
    requires Freeing(PcOf(s, t)) && Local(cfg, s.maps, PcOf(s, t))
    ensures Footprint(cfg, s, FreeResumed(s, t), t)
  {
    var pc, m, s' := PcOf(s, t), s.maps, FreeResumed(s, t);
    if pc.FreeDelete? {
      assert s'.maps.allocs == m.allocs - {pc.addr};
      assert SameBut(m.allocs, m.allocs - {pc.addr}, pc.addr);
    } else {
      assert s'.maps.allocs == m.allocs;
      if pc.StatSub? {
        assert s'.maps.combined.Keys == m.combined.Keys;
      }
    }
  }

  lemma AllocFootprint(cfg: Config, s: State, t: nat)
    requires Allocating(PcOf(s, t))
    ensures Footprint(cfg, s, AllocResumed(cfg, s, t), t)
  {
    var pc, m, s' := PcOf(s, t), s.maps, AllocResumed(cfg, s, t);
    if pc.Record? {
      assert SameBut(m.allocs, m.allocs[pc.call.address := pc.info], pc.call.address);
    } else {
      assert s'.maps.allocs == m.allocs;
    }
  }

  lemma AddFootprint(cfg: Config, s: State, t: nat)
    requires Adding(PcOf(s, t)) && Local(cfg, s.maps, PcOf(s, t))
    ensures Footprint(cfg, s, AddResumed(cfg, s, t), t)
  {
    var pc, m, s' := PcOf(s, t), s.maps, AddResumed(cfg, s, t);
    assert s'.maps.allocs == m.allocs;
    if pc.AddAdd? {
      assert s'.maps.combined.Keys == m.combined.Keys;
    }
  }

  lemma OperationFootprint(cfg: Config, s: State, t: nat)
    requires Local(cfg, s.maps, PcOf(s, t))
    ensures Footprint(cfg, s, Resumed(cfg, s, t), t)
  {
    var pc := PcOf(s, t);
    if Freeing(pc) {
      FreeFootprint(cfg, s, t);
    } else if Allocating(pc) {
      AllocFootprint(cfg, s, t);
    } else if Adding(pc) {
      AddFootprint(cfg, s, t);
    }
  }

  lemma LocalOfOthers(cfg: Config, m: Maps, m': Maps, pc: Pc, a: U64)
    requires Local(cfg, m, pc) && SameBut(m.allocs, m'.allocs, a) && Extends(cfg, m, m')
    requires AddrOf(pc) != 0 ==> AddrOf(pc) != a
    ensures Local(cfg, m', pc)
  {
    if pc.FreeDelete? || Adding(pc) {
      assert pc.addr in m.allocs - {a};
      assert pc.addr in m'.allocs - {a};
    }
    if Full(cfg, m) {
      FullStays(cfg, m, m');
    }
  }

  lemma NobodyElseAdds(s: State, t: nat)
    requires Exclusive(s) && AddrOf(PcOf(s, t)) != 0 && !Adding(PcOf(s, t))
    ensures !AddingAt(s, AddrOf(PcOf(s, t)))
  {
    forall u: nat | Adding(PcOf(s, u))
      ensures PcOf(s, u).addr != AddrOf(PcOf(s, t))
    {
      assert AddrOf(PcOf(s, u)) == PcOf(s, u).addr;
      assert u != t;
    }
  }

  /** The record a free has just taken out was stored by a handler that has returned, so its
      stack is tracked already or never will be. */
  lemma FreedIsSettled(cfg: Config, s: State, t: nat)
    requires Clean(cfg, s) && PcOf(s, t).FreeDelete?
    ensures Settled(cfg, s.maps, PcOf(s, t).info)
  {
    assert Local(cfg, s.maps, PcOf(s, t));
    NobodyElseAdds(s, t);
  }

  lemma LocalOfSelf(cfg: Config, s: State, t: nat)
    requires Clean(cfg, s) && Disciplined(cfg, s, Resume(t))
    ensures Local(cfg, Resumed(cfg, s, t).maps, PcOf(Resumed(cfg, s, t), t))
  {
    var pc := PcOf(s, t);
    if Freeing(pc) {
      if pc.FreeDelete? {
        FreedIsSettled(cfg, s, t);
      }
      LocalAfterFree(cfg, s, t);
    } else if Allocating(pc) {
      LocalAfterAlloc(cfg, s, t);
    } else if Adding(pc) {
      LocalAfterAdd(cfg, s, t);
    }
  }

  lemma LocalAfterFree(cfg: Config, s: State, t: nat)
    requires Freeing(PcOf(s, t)) && Local(cfg, s.maps, PcOf(s, t)) && 0 !in s.maps.allocs
    requires PcOf(s, t).FreeDelete? ==> Settled(cfg, s.maps, PcOf(s, t).info)
    ensures Local(cfg, FreeResumed(s, t).maps, PcOf(FreeResumed(s, t), t))
  {
  }

  lemma LocalAfterAlloc(cfg: Config, s: State, t: nat)
    requires Allocating(PcOf(s, t)) && Local(cfg, s.maps, PcOf(s, t)) && Disciplined(cfg, s, Resume(t))
    ensures Local(cfg, AllocResumed(cfg, s, t).maps, PcOf(AllocResumed(cfg, s, t), t))
  {
  }

  lemma LocalAfterAdd(cfg: Config, s: State, t: nat)
    requires Adding(PcOf(s, t)) && Local(cfg, s.maps, PcOf(s, t))
    ensures Local(cfg, AddResumed(cfg, s, t).maps, PcOf(AddResumed(cfg, s, t), t))
  {
  }

  lemma LocalsStay(cfg: Config, s: State, t: nat)
    requires Clean(cfg, s) && Disciplined(cfg, s, Resume(t))
    ensures Locals(cfg, Resumed(cfg, s, t)) && Exclusive(Resumed(cfg, s, t))
  {
    var s' := Resumed(cfg, s, t);
    OperationFootprint(cfg, s, t);
    forall u: nat
      ensures Local(cfg, s'.maps, PcOf(s', u))
    {
      if u == t {
        LocalOfSelf(cfg, s, t);
      } else {
        OthersStay(cfg, s, t, u);
        assert AddrOf(PcOf(s, u)) != 0 ==> AddrOf(PcOf(s, u)) != AddrOf(PcOf(s, t));
        LocalOfOthers(cfg, s.maps, s'.maps, PcOf(s, u), AddrOf(PcOf(s, t)));
      }
    }
    forall u: nat, v: nat | u != v && AddrOf(PcOf(s', u)) != 0
      ensures AddrOf(PcOf(s', u)) != AddrOf(PcOf(s', v))
    {
      AddressBefore(cfg, s, t, u);
      AddressBefore(cfg, s, t, v);
      assert AddrOf(PcOf(s, u)) != AddrOf(PcOf(s, v));
    }
  }

  lemma AddressBefore(cfg: Config, s: State, t: nat, u: nat)
    requires Footprint(cfg, s, Resumed(cfg, s, t), t)
    ensures AddrOf(PcOf(Resumed(cfg, s, t), u)) in {0, AddrOf(PcOf(s, u))}
  {
    if u != t {
      OthersStay(cfg, s, t, u);
    }
  }

  /** A handler that stops adding leaves a settled record behind. */
  lemma SettledWhenAdded(cfg: Config, s: State, t: nat)
    requires Adding(PcOf(s, t)) && Local(cfg, s.maps, PcOf(s, t))
    ensures var s' := AddResumed(cfg, s, t);
      (Adding(PcOf(s', t)) && PcOf(s', t).addr == PcOf(s, t).addr) || Settled(cfg, s'.maps, PcOf(s, t).info)
  {
  }

  lemma PendingStays(cfg: Config, s: State, t: nat)
    requires Clean(cfg, s) && Disciplined(cfg, s, Resume(t))
    ensures Pending(cfg, Resumed(cfg, s, t))
  {
    var s', pc := Resumed(cfg, s, t), PcOf(s, t);
    OperationFootprint(cfg, s, t);
    forall a | a in s'.maps.allocs
      ensures Settled(cfg, s'.maps, s'.maps.allocs[a]) || AddingAt(s', a)
    {
      if pc.Record? && a == pc.call.address {
        assert Adding(PcOf(s', t)) && PcOf(s', t).addr == a;
      } else {
        RecordUnchanged(cfg, s, t, a);
        if Settled(cfg, s.maps, s.maps.allocs[a]) {
          SettledStays(cfg, s.maps, s'.maps, s.maps.allocs[a]);
        } else {
          assert AddingAt(s, a);
          var u: nat :| Adding(PcOf(s, u)) && PcOf(s, u).addr == a;
          assert Local(cfg, s.maps, PcOf(s, u));
          if u == t {
            SettledWhenAdded(cfg, s, t);
          } else {
            OthersStay(cfg, s, t, u);
          }
        }
      }
    }
  }

  lemma RecordUnchanged(cfg: Config, s: State, t: nat, a: U64)
    requires a in Resumed(cfg, s, t).maps.allocs
    requires PcOf(s, t).Record? ==> a != PcOf(s, t).call.address
    ensures a in s.maps.allocs && Resumed(cfg, s, t).maps.allocs[a] == s.maps.allocs[a]
  {
    var pc := PcOf(s, t);
    if !TouchesRecords(pc) && pc != Idle {
      TableUntouched(cfg, s, t);
    }
  }

  lemma SettledStays(cfg: Config, m: Maps, m': Maps, info: AllocInfo)
    requires Extends(cfg, m, m') && Settled(cfg, m, info)
    ensures Settled(cfg, m', info)
    ensures Dead(cfg, m, info) ==> Dead(cfg, m', info)
  {
    if Full(cfg, m) {
      FullStays(cfg, m, m');
    }
  }

  /** What the operation adds to the lost records: at most a record whose stack is untracked
      for good. */
  lemma LostStep(cfg: Config, s: State, t: nat)
    requires Clean(cfg, s) && Disciplined(cfg, s, Resume(t))
    ensures var s' := Resumed(cfg, s, t);
      && s'.excess == s.excess
      && (s'.lost == s.lost
          || exists info: AllocInfo :: Dead(cfg, s.maps, info) && s'.lost == s.lost + [info])
  {
    var pc, s' := PcOf(s, t), Resumed(cfg, s, t);
    assert Local(cfg, s.maps, pc);
    if pc.FreeDelete? {
      assert s' == Goto(Deleted(s, pc.addr, pc.info), t, StatLookup(pc.addr, pc.info, pc.next));
    } else if pc.StatLookup? {
      assert !Tracked(s.maps, pc.info) ==> s'.lost == s.lost + [pc.info];
    } else if pc.Record? {
      assert LostAt(cfg, s.maps.allocs, pc.call.address, pc.info) == [];
    } else if pc != Idle {
      TableUntouched(cfg, s, t);
    }
  }

  lemma OnlyDeadStays(cfg: Config, s: State, t: nat)
    requires Clean(cfg, s) && Disciplined(cfg, s, Resume(t))
    ensures OnlyDeadLost(cfg, Resumed(cfg, s, t))
  {
    var s' := Resumed(cfg, s, t);
    OperationFootprint(cfg, s, t);
    LostStep(cfg, s, t);
    forall i | 0 <= i < |s'.lost|
      ensures Dead(cfg, s'.maps, s'.lost[i])
    {
      SettledStays(cfg, s.maps, s'.maps, s'.lost[i]);
    }
  }

  lemma ResumedClean(cfg: Config, s: State, t: nat)
    requires Clean(cfg, s) && Disciplined(cfg, s, Resume(t))
    ensures Clean(cfg, Resumed(cfg, s, t))
  {
    LocalsStay(cfg, s, t);
    PendingStays(cfg, s, t);
    OnlyDeadStays(cfg, s, t);
    assert Local(cfg, s.maps, PcOf(s, t));
    if 0 in Resumed(cfg, s, t).maps.allocs {
      RecordUnchanged(cfg, s, t, 0);
    }
  }

  lemma BegunClean(cfg: Config, s: State, t: nat, ev: Event)
    requires Clean(cfg, s) && Disciplined(cfg, s, Begin(t, ev))
    ensures Clean(cfg, Taken(cfg, s, Begin(t, ev)))
  {
    if PcOf(s, t) == Idle {
      var pc := First(cfg, ev);
      var s' := Goto(s, t, pc);
      assert AddrOf(pc) == EventAddress(ev);
      assert forall u: nat :: PcOf(s', u) == if u == t then pc else PcOf(s, u);
      assert Local(cfg, s.maps, pc);
      forall a | AddingAt(s, a)
        ensures AddingAt(s', a)
      {
        var u: nat :| Adding(PcOf(s, u)) && PcOf(s, u).addr == a;
        assert Adding(PcOf(s', u)) && PcOf(s', u).addr == a;
      }
    }
  }

  lemma {:induction false} DisciplinedRunsAreClean(cfg: Config, actions: seq<Action>)
    requires DisciplinedRun(cfg, actions)
    ensures Clean(cfg, Reached(cfg, actions))
    decreases |actions|
  {
    if actions != [] {
      var n := |actions| - 1;
      assert forall i :: 0 <= i < n ==> actions[..n][..i] == actions[..i];
      DisciplinedRunsAreClean(cfg, actions[..n]);
      match actions[n]
      case Begin(t, ev) => BegunClean(cfg, Reached(cfg, actions[..n]), t, ev);
      case Resume(t) => ResumedClean(cfg, Reached(cfg, actions[..n]), t);
    }
  }

  lemma {:induction false} DeadWeighNothing(cfg: Config, m: Maps, lost: seq<AllocInfo>, key: U64)
    requires key in m.combined
    requires forall i :: 0 <= i < |lost| ==> Dead(cfg, m, lost[i])
    ensures SumSeq(lost, BitsOf(key)) == 0
    decreases |lost|
  {
    if lost != [] {
      DeadWeighNothing(cfg, m, lost[..|lost| - 1], key);
    }
  }

  /** The word of a stack differs from its live fold by the handlers in flight, and by
      nothing at all when there are none. */
  ghost predicate ExactUpToPending(s: State, key: U64)
    requires key in s.maps.combined
  {
    && s.maps.combined[key]
       == (Live(s.maps, key) + SumMap(s.pcs, PendingSub(key)) - SumMap(s.pcs, PendingAdd(key))) % TWO64
    && (Quiescent(s) ==> s.maps.combined[key] == Live(s.maps, key) % TWO64)
  }

  /** At any instant of a disciplined run, the statistics of every tracked stack are exact up
      to the handlers in flight. */
  lemma StatisticsExactWhenQuiet(cfg: Config, actions: seq<Action>, s: State)
    requires s == Reached(cfg, actions) && DisciplinedRun(cfg, actions)
    ensures forall key :: key in s.maps.combined ==> ExactUpToPending(s, key)
  {
    EveryInterleavingBalances(cfg, actions, s);
    DisciplinedRunsAreClean(cfg, actions);
    forall key | key in s.maps.combined
      ensures ExactUpToPending(s, key)
    {
      ExactWhenClean(cfg, s, key);
    }
  }

  lemma ExactWhenClean(cfg: Config, s: State, key: U64)
    requires Clean(cfg, s) && NetBalanced(cfg, s) && key in s.maps.combined
    ensures ExactUpToPending(s, key)
  {
    assert NetBalancedAt(cfg, s, key);
    DeadWeighNothing(cfg, s.maps, s.lost, key);
    if Quiescent(s) {
      SumMapZero(s.pcs, PendingAdd(key));
      SumMapZero(s.pcs, PendingSub(key));
    }
  }
}
