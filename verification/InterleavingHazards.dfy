/**
 When interleaving does harm, exactly. The operations at which a handler can go wrong are the
 deletion of a record it looked up earlier, the lookup of a word that is not there yet, and the
 storing of a record; each has a guard, and a word is exact when its guards held.
 */
module InterleavingHazards {
  import opened Options
  import opened PackedWord
  import opened Sums
  import opened Ledger
  import opened Accounting
  import opened Interleaving
  import opened ConcurrentAccounting

  // ---- The guards ----

  /** A free deletes the very record it looked up. */
  predicate FindsItsRecord(m: Maps, pc: Pc)
    requires pc.FreeDelete?
  {
    pc.addr in m.allocs && m.allocs[pc.addr] == pc.info
  }

  /** The operation goes as it would undisturbed: a free still finds its own record and then the
      word of its stack, and a record is stored at a free address with room for it. */
  predicate Harmless(cfg: Config, s: State, a: Action) {
    a.Resume? ==>
      var pc := PcOf(s, a.t);
      && (pc.FreeDelete? ==> FindsItsRecord(s.maps, pc))
      && (pc.StatLookup? ==> Tracked(s.maps, pc.info))
      && (pc.Record? ==> pc.call.address !in s.maps.allocs && |s.maps.allocs| < cfg.allocsMax)
  }

  /** The operation makes no record of the stack `key` unsubtractable. */
  predicate KeptFor(cfg: Config, s: State, a: Action, key: U64) {
    a.Resume? ==>
      var pc, allocs := PcOf(s, a.t), s.maps.allocs;
      && (pc.FreeDelete? && pc.addr in allocs && OfStack(key, allocs[pc.addr]) ==> FindsItsRecord(s.maps, pc))
      && (pc.StatLookup? && OfStack(key, pc.info) ==> Tracked(s.maps, pc.info))
      && (pc.Record? ==> StoresFor(cfg, allocs, pc.call.address, pc.info.stackId, key))
  }

  /** The operation does not commit a free of the stack `key` to a second subtraction. */
  predicate MatchedFor(s: State, a: Action, key: U64) {
    a.Resume? ==>
      var pc := PcOf(s, a.t);
      pc.FreeDelete? && OfStack(key, pc.info) ==> FindsItsRecord(s.maps, pc)
  }

  ghost predicate AllHarmless(cfg: Config, actions: seq<Action>) {
    forall i :: 0 <= i < |actions| ==> Harmless(cfg, Reached(cfg, actions[..i]), actions[i])
  }

  ghost predicate AllKeptFor(cfg: Config, actions: seq<Action>, key: U64) {
    forall i :: 0 <= i < |actions| ==> KeptFor(cfg, Reached(cfg, actions[..i]), actions[i], key)
  }

  ghost predicate AllMatchedFor(cfg: Config, actions: seq<Action>, key: U64) {
    forall i :: 0 <= i < |actions| ==> MatchedFor(Reached(cfg, actions[..i]), actions[i], key)
  }

  // ---- What one action loses ----

  function LostNow(cfg: Config, s: State, a: Action): seq<AllocInfo> {
    if a.Begin? then []
    else
      var pc, m := PcOf(s, a.t), s.maps;
      if pc.FreeDelete? then
        if pc.addr in m.allocs && m.allocs[pc.addr] != pc.info then [m.allocs[pc.addr]] else []
      else if pc.StatLookup? then if Tracked(m, pc.info) then [] else [pc.info]
      else if pc.Record? then LostAt(cfg, m.allocs, pc.call.address, pc.info)
      else []
  }

  function ExcessNow(s: State, a: Action): seq<AllocInfo> {
    if a.Begin? then []
    else
      var pc := PcOf(s, a.t);
      if pc.FreeDelete? && !FindsItsRecord(s.maps, pc) then [pc.info] else []
  }

  lemma ActionLoses(cfg: Config, s: State, a: Action)
    ensures Taken(cfg, s, a).lost == s.lost + LostNow(cfg, s, a)
    ensures Taken(cfg, s, a).excess == s.excess + ExcessNow(s, a)
  {
    if a.Resume? {
      var pc := PcOf(s, a.t);
      if !TouchesRecords(pc) && pc != Idle {
        TableUntouched(cfg, s, a.t);
      }
    }
  }

  lemma HarmlessIff(cfg: Config, s: State, a: Action)
    ensures LostNow(cfg, s, a) == [] && ExcessNow(s, a) == [] <==> Harmless(cfg, s, a)
  {
  }

  lemma KeptIff(cfg: Config, s: State, a: Action, key: U64)
    ensures LostOf(LostNow(cfg, s, a), key) == [] <==> KeptFor(cfg, s, a, key)
    ensures LostOf(ExcessNow(s, a), key) == [] <==> MatchedFor(s, a, key)
    ensures |LostNow(cfg, s, a)| <= 1 && |ExcessNow(s, a)| <= 1
  {
    if a.Resume? {
      var pc, allocs := PcOf(s, a.t), s.maps.allocs;
      if pc.FreeDelete? {
        LostOfOne(pc.info, key);
        if pc.addr in allocs {
          LostOfOne(allocs[pc.addr], key);
        }
      } else if pc.StatLookup? {
        LostOfOne(pc.info, key);
      } else if pc.Record? {
        StoreLosesFor(cfg, allocs, pc.call.address, pc.info, key);
      }
    }
  }

  lemma Prefixes(before: seq<Action>, a: Action)
    ensures forall i :: 0 <= i <= |before| ==> (before + [a])[..i] == before[..i]
    ensures before[..|before|] == before && (before + [a])[|before|] == a
  {
  }

  /** A run is free of mistakes if and only if every operation met its guard. */
  lemma {:induction false} NoMistakeIff(cfg: Config, actions: seq<Action>)
    ensures Reached(cfg, actions).lost == [] && Reached(cfg, actions).excess == [] <==> AllHarmless(cfg, actions)
    decreases |actions|
  {
    if actions != [] {
      var before, a := actions[..|actions| - 1], actions[|actions| - 1];
      assert actions == before + [a];
      NoMistakeIff(cfg, before);
      Prefixes(before, a);
      assert AllHarmless(cfg, actions) <==> AllHarmless(cfg, before) && Harmless(cfg, Reached(cfg, before), a);
      ReachedNext(cfg, before, a);
      ActionLoses(cfg, Reached(cfg, before), a);
      HarmlessIff(cfg, Reached(cfg, before), a);
    }
  }

  /** Seen from one stack, whatever happens to the others: it has lost no record, respectively
      suffered no unmatched subtraction, if and only if every operation met the guard for it. */
  lemma {:induction false} NoMistakeForIff(cfg: Config, actions: seq<Action>, s: State, key: U64)
    requires s == Reached(cfg, actions)
    ensures LostOf(s.lost, key) == [] <==> AllKeptFor(cfg, actions, key)
    ensures LostOf(s.excess, key) == [] <==> AllMatchedFor(cfg, actions, key)
    ensures |s.lost| <= |actions| && |s.excess| <= |actions|
    decreases |actions|
  {
    if actions != [] {
      var before, a := actions[..|actions| - 1], actions[|actions| - 1];
      assert actions == before + [a];
      NoMistakeForIff(cfg, before, Reached(cfg, before), key);
      KeptAllStep(cfg, before, a, key);
      MistakesGrow(cfg, before, a, key);
      KeptIff(cfg, Reached(cfg, before), a, key);
    }
  }

  lemma KeptAllStep(cfg: Config, before: seq<Action>, a: Action, key: U64)
    ensures AllKeptFor(cfg, before + [a], key)
       <==> AllKeptFor(cfg, before, key) && KeptFor(cfg, Reached(cfg, before), a, key)
    ensures AllMatchedFor(cfg, before + [a], key)
       <==> AllMatchedFor(cfg, before, key) && MatchedFor(Reached(cfg, before), a, key)
  {
    Prefixes(before, a);
  }

  lemma MistakesGrow(cfg: Config, before: seq<Action>, a: Action, key: U64)
    ensures var s, s' := Reached(cfg, before), Reached(cfg, before + [a]);
      && s'.lost == s.lost + LostNow(cfg, s, a) && s'.excess == s.excess + ExcessNow(s, a)
      && LostOf(s'.lost, key) == LostOf(s.lost, key) + LostOf(LostNow(cfg, s, a), key)
      && LostOf(s'.excess, key) == LostOf(s.excess, key) + LostOf(ExcessNow(s, a), key)
  {
    var s := Reached(cfg, before);
    ReachedNext(cfg, before, a);
    ActionLoses(cfg, s, a);
    LostOfAppend(s.lost, LostNow(cfg, s, a), key);
    LostOfAppend(s.excess, ExcessNow(s, a), key);
  }

  // ---- When a word is exact once all handlers have returned ----

  /** With every handler returned, a word is exact precisely when the records it should have
      subtracted and did not weigh as much as the subtractions that had no record. */
  lemma {:induction false} QuietExactIff(cfg: Config, actions: seq<Action>, s: State, key: U64)
    requires s == Reached(cfg, actions)
    requires Quiescent(s) && key in s.maps.combined
    ensures s.maps.combined[key] == Live(s.maps, key) % TWO64
       <==> (SumSeq(s.lost, BitsOf(key)) - SumSeq(s.excess, BitsOf(key))) % TWO64 == 0
  {
    EveryInterleavingBalances(cfg, actions, s);
    QuietExactIffBalanced(cfg, s, key);
  }

  lemma QuietExactIffBalanced(cfg: Config, s: State, key: U64)
    requires NetBalanced(cfg, s) && Quiescent(s) && key in s.maps.combined
    ensures s.maps.combined[key] == Live(s.maps, key) % TWO64
       <==> (SumSeq(s.lost, BitsOf(key)) - SumSeq(s.excess, BitsOf(key))) % TWO64 == 0
  {
    assert NetBalancedAt(cfg, s, key);
    SumMapZero(s.pcs, PendingAdd(key));
    SumMapZero(s.pcs, PendingSub(key));
    SameResidue(Live(s.maps, key), SumSeq(s.lost, BitsOf(key)) - SumSeq(s.excess, BitsOf(key)));
  }

  lemma SameResidue(live: int, drift: int)
    ensures (live + drift) % TWO64 == live % TWO64 <==> drift % TWO64 == 0
  {
  }

  /** Two frees of one address that both looked the record up before either deleted it: both
      subtract it, although it was counted once. */
  lemma {:induction false} RacingFreesSubtractTwice(cfg: Config, s: State, t: nat, u: nat)
    requires t != u && PcOf(s, t).FreeDelete? && PcOf(s, u).FreeDelete?
    requires PcOf(s, t).addr == PcOf(s, u).addr && PcOf(s, t).info == PcOf(s, u).info
    requires Tracked(s.maps, PcOf(s, t).info)
    ensures
      var info, addr := PcOf(s, t).info, PcOf(s, t).addr;
      var m := ResumedTimes(cfg, ResumedTimes(cfg, Resumed(cfg, Resumed(cfg, s, t), u), t, 2), u, 2).maps;
      && m.allocs == s.maps.allocs - {addr}
      && Tracked(m, info)
      && Word(m, info) == FetchSub(FetchSub(Word(s.maps, info), info.size), info.size)
    ensures ResumedTimes(cfg, ResumedTimes(cfg, Resumed(cfg, Resumed(cfg, s, t), u), t, 2), u, 2).pcs
         == s.pcs[t := After(PcOf(s, t).next)][u := After(PcOf(s, u).next)]
  {
    BothDelete(cfg, s, t, u);
    var s2 := Resumed(cfg, Resumed(cfg, s, t), u);
    SubtractTwoSteps(cfg, s2, t);
    var s4 := ResumedTimes(cfg, s2, t, 2);
    SubtractTwoSteps(cfg, s4, u);
  }

  lemma BothDelete(cfg: Config, s: State, t: nat, u: nat)
    requires t != u && PcOf(s, t).FreeDelete? && PcOf(s, u).FreeDelete? && PcOf(s, t).addr == PcOf(s, u).addr
    ensures var s', x, y := Resumed(cfg, Resumed(cfg, s, t), u), PcOf(s, t), PcOf(s, u);
      && s'.maps.allocs == s.maps.allocs - {x.addr} && s'.maps.combined == s.maps.combined
      && s'.pcs == s.pcs[t := StatLookup(x.addr, x.info, x.next)][u := StatLookup(y.addr, y.info, y.next)]
  {
    var s1 := Resumed(cfg, s, t);
    assert s1.maps.allocs == s.maps.allocs - {PcOf(s, t).addr} && PcOf(s1, u) == PcOf(s, u);
    assert s1.maps.allocs - {PcOf(s, t).addr} == s1.maps.allocs;
  }

  lemma SubtractTwoSteps(cfg: Config, s: State, t: nat)
    requires PcOf(s, t).StatLookup? && Tracked(s.maps, PcOf(s, t).info)
    ensures
      var s', info := ResumedTimes(cfg, s, t, 2), PcOf(s, t).info;
      && s'.maps.allocs == s.maps.allocs
      && s'.maps.combined == s.maps.combined[StackKey(info.stackId) := FetchSub(Word(s.maps, info), info.size)]
      && s'.pcs == s.pcs[t := After(PcOf(s, t).next)]
  {
    var s1 := Resumed(cfg, s, t);
    var s2 := Resumed(cfg, s1, t);
    assert ResumedTimes(cfg, s1, t, 1) == s2;
  }

  /** The exact condition in terms of the guards. Whenever only one kind of mistake is made with
      a stack (records that stay counted, or subtractions without a record), and at most 2^23
      times, its word is exact in a quiet state if and only if every operation met its guard for
      the stack. With both kinds the two can cancel, and only their weights decide. */
  lemma {:induction false} QuietExactIffHarmless(cfg: Config, actions: seq<Action>, s: State, key: U64)
    requires s == Reached(cfg, actions)
    requires Quiescent(s) && key in s.maps.combined
    requires AllKeptFor(cfg, actions, key) || AllMatchedFor(cfg, actions, key)
    requires (|LostOf(s.lost, key)| <= TWO24 / 2 && |LostOf(s.excess, key)| <= TWO24 / 2) || |actions| <= TWO24 / 2
    ensures s.maps.combined[key] == Live(s.maps, key) % TWO64
       <==> AllKeptFor(cfg, actions, key) && AllMatchedFor(cfg, actions, key)
  {
    NoMistakeForIff(cfg, actions, s, key);
    LostOfShorter(s.lost, key);
    LostOfShorter(s.excess, key);
    EveryInterleavingBalances(cfg, actions, s);
    ExactIffNoMistake(cfg, s, key);
  }

  lemma ExactIffNoMistake(cfg: Config, s: State, key: U64)
    requires NetBalanced(cfg, s) && Quiescent(s) && key in s.maps.combined
    requires LostOf(s.lost, key) == [] || LostOf(s.excess, key) == []
    requires |LostOf(s.lost, key)| <= TWO24 / 2 && |LostOf(s.excess, key)| <= TWO24 / 2
    ensures s.maps.combined[key] == Live(s.maps, key) % TWO64
       <==> LostOf(s.lost, key) == [] && LostOf(s.excess, key) == []
  {
    QuietExactIffBalanced(cfg, s, key);
    OneSided(s.lost, s.excess, key);
  }

  lemma OneSided(lost: seq<AllocInfo>, excess: seq<AllocInfo>, key: U64)
    requires LostOf(lost, key) == [] || LostOf(excess, key) == []
    requires |LostOf(lost, key)| <= TWO24 / 2 && |LostOf(excess, key)| <= TWO24 / 2
    ensures (SumSeq(lost, BitsOf(key)) - SumSeq(excess, BitsOf(key))) % TWO64 == 0
       <==> LostOf(lost, key) == [] && LostOf(excess, key) == []
  {
    LostBits(lost, key);
    LostBits(excess, key);
    OneSidedSums(SumSeq(lost, BitsOf(key)), SumSeq(excess, BitsOf(key)));
  }

  lemma OneSidedSums(lost: nat, excess: nat)
    requires lost < TWO64 && excess < TWO64 && (lost == 0 || excess == 0)
    ensures (lost - excess) % TWO64 == 0 <==> lost == 0 && excess == 0
  {
  }

  // ---- Concrete interleavings, from the empty maps ----

  /** A slab allocation that is recorded, at a free address. */
  lemma HandledRecord(cfg: Config, m: Maps, ctx: Context, addr: U64, size: U64)
    requires m.sizes == map[] && addr !in m.allocs && Records(cfg, ctx, addr, size)
    ensures Handled(cfg, m, SlabAlloc(ctx, addr, size)) == Recorded(cfg, m, addr, InfoOf(ctx, size))
  {
    AllocationEffect(cfg, Account(m, []), ctx, addr, size);
    StepHandles(cfg, Account(m, []), SlabAlloc(ctx, addr, size));
  }

  /** One allocation on processor 0, from start to finish. */
  lemma OneAllocation(cfg: Config, ctx: Context, addr: U64, size: U64) returns (actions: seq<Action>)
    requires Records(cfg, ctx, addr, size) && cfg.allocsMax > 0 && cfg.combinedMax > 0
    ensures var s := Reached(cfg, actions);
      && s.maps == Maps(map[], map[addr := InfoOf(ctx, size)], map[StackKey(ctx.stackId) := FetchAdd(0, size)])
      && Quiescent(s)
  {
    actions := ReachedHandler(cfg, [], 0, SlabAlloc(ctx, addr, size));
    HandledRecord(cfg, EMPTY, ctx, addr, size);
    assert Recorded(cfg, EMPTY, addr, InfoOf(ctx, size)).combined == map[StackKey(ctx.stackId) := FetchAdd(0, size)];
  }

  /** A free that has looked its record up and not yet deleted it. */
  lemma FreeLooksUp(cfg: Config, actions: seq<Action>, t: nat, addr: U64) returns (more: seq<Action>)
    requires var s := Reached(cfg, actions); PcOf(s, t) == Idle && addr in s.maps.allocs
    ensures more == actions + [Begin(t, Free(addr))] + [Resume(t)]
    ensures var s := Reached(cfg, actions);
      Becomes(s, Reached(cfg, more), t, s.maps, FreeDelete(addr, s.maps.allocs[addr], None))
  {
    ReachedNext(cfg, actions, Begin(t, Free(addr)));
    ReachedNext(cfg, actions + [Begin(t, Free(addr))], Resume(t));
    more := actions + [Begin(t, Free(addr))] + [Resume(t)];
  }

  /** The race happens: after one recorded allocation two frees of its address reach the point
      between lookup and deletion, and when both have run to the end nothing is live and the
      word of the stack has wrapped below zero. */
  lemma {:induction false} RaceFromEmptyMaps(cfg: Config, ctx: Context, addr: U64, size: U64)
    returns (racing: seq<Action>, finished: seq<Action>)
    requires Records(cfg, ctx, addr, size) && cfg.allocsMax > 0 && cfg.combinedMax > 0
    ensures var r := Reached(cfg, racing);
      && PcOf(r, 0) == PcOf(r, 1) == FreeDelete(addr, InfoOf(ctx, size), None)
      && r.maps.allocs == map[addr := InfoOf(ctx, size)] && Tracked(r.maps, InfoOf(ctx, size))
    ensures racing <= finished
    ensures var s, key := Reached(cfg, finished), StackKey(ctx.stackId);
      && Quiescent(s) && s.maps.allocs == map[] && key in s.maps.combined
      && s.maps.combined[key] == TWO64 - Pack(size) && Live(s.maps, key) == 0
  {
    var info := InfoOf(ctx, size);
    var one := OneAllocation(cfg, ctx, addr, size);
    var two := FreeLooksUp(cfg, one, 0, addr);
    racing := FreeLooksUp(cfg, two, 1, addr);
    var r := Reached(cfg, racing);
    ReachedNext(cfg, racing, Resume(0));
    ReachedNext(cfg, racing + [Resume(0)], Resume(1));
    var deleted := racing + [Resume(0)] + [Resume(1)];
    ReachedResumes(cfg, deleted, 0, 2);
    ReachedResumes(cfg, deleted + Resumes(0, 2), 1, 2);
    finished := deleted + Resumes(0, 2) + Resumes(1, 2);
    RacingFreesSubtractTwice(cfg, r, 0, 1);
    TwiceSubtracted(size);
    var s := Reached(cfg, finished);
    assert s.maps.allocs == map[];
    SumMapZero(s.maps.allocs, BitsOf(StackKey(ctx.stackId)));
  }

  lemma TwiceSubtracted(size: nat)
    ensures FetchSub(FetchSub(FetchAdd(0, size), size), size) == TWO64 - Pack(size)
    ensures FetchSub(FetchAdd(0, size), size) == 0
  {
  }

  /** A free looks its record up and is then overtaken by another free of the address and a new
      allocation there. */
  lemma Overtaken(cfg: Config, ctx: Context, later: Context, addr: U64, size: U64) returns (actions: seq<Action>)
    requires cfg.allocsMax > 0 && cfg.combinedMax > 0
    requires Records(cfg, ctx, addr, size) && Records(cfg, later, addr, size) && later.stackId == ctx.stackId
    ensures var s := Reached(cfg, actions);
      && s.maps == Maps(map[], map[addr := InfoOf(later, size)], map[StackKey(ctx.stackId) := FetchAdd(0, size)])
      && PcOf(s, 0) == FreeDelete(addr, InfoOf(ctx, size), None)
      && forall t: nat :: t != 0 ==> PcOf(s, t) == Idle
  {
    var key := StackKey(ctx.stackId);
    var one := OneAllocation(cfg, ctx, addr, size);
    var slow := FreeLooksUp(cfg, one, 0, addr);
    var freed := ReachedHandler(cfg, slow, 1, Free(addr));
    TwiceSubtracted(size);
    assert Reached(cfg, freed).maps == Maps(map[], map[], map[key := 0]) by {
      assert map[addr := InfoOf(ctx, size)] - {addr} == map[];
    }
    actions := ReachedHandler(cfg, freed, 1, SlabAlloc(later, addr, size));
    HandledRecord(cfg, Reached(cfg, freed).maps, later, addr, size);
  }

  /** The two kinds of mistake can cancel: the overtaken free deletes the new record and
      subtracts the old one. If the two weigh the same, the word is exact although neither guard
      was met. */
  lemma {:induction false} MistakesCanCancel(cfg: Config, ctx: Context, later: Context, addr: U64, size: U64)
    returns (actions: seq<Action>)
    requires cfg.allocsMax > 0 && cfg.combinedMax > 0
    requires Records(cfg, ctx, addr, size) && Records(cfg, later, addr, size)
    requires later.stackId == ctx.stackId && InfoOf(later, size) != InfoOf(ctx, size)
    ensures var s, key := Reached(cfg, actions), StackKey(ctx.stackId);
      && Quiescent(s) && s.maps.allocs == map[] && s.maps.combined == map[key := 0] && Live(s.maps, key) == 0
    ensures !AllKeptFor(cfg, actions, StackKey(ctx.stackId)) && !AllMatchedFor(cfg, actions, StackKey(ctx.stackId))
  {
    var key := StackKey(ctx.stackId);
    var before := Overtaken(cfg, ctx, later, addr, size);
    var s := Reached(cfg, before);
    ReachedNext(cfg, before, Resume(0));
    ReachedResumes(cfg, before + [Resume(0)], 0, 2);
    actions := before + [Resume(0)] + Resumes(0, 2);
    assert actions[..|before|] == before && actions[|before|] == Resume(0);
    assert !KeptFor(cfg, s, Resume(0), key) && !MatchedFor(s, Resume(0), key);
    OvertakenFreeEnds(cfg, s, addr, InfoOf(ctx, size));
    SumMapZero(Reached(cfg, actions).maps.allocs, BitsOf(key));
  }

  lemma OvertakenFreeEnds(cfg: Config, s: State, addr: U64, info: AllocInfo)
    requires PcOf(s, 0) == FreeDelete(addr, info, None) && s.maps.allocs.Keys == {addr}
    requires s.maps.combined == map[StackKey(info.stackId) := FetchAdd(0, info.size)]
    requires forall t: nat :: t != 0 ==> PcOf(s, t) == Idle
    ensures var s' := ResumedTimes(cfg, Resumed(cfg, s, 0), 0, 2);
      Quiescent(s') && s'.maps.allocs == map[] && s'.maps.combined == map[StackKey(info.stackId) := 0]
  {
    var s1 := Resumed(cfg, s, 0);
    assert s1.maps.allocs == map[];
    SubtractTwoSteps(cfg, s1, 0);
    TwiceSubtracted(info.size);
    var s' := ResumedTimes(cfg, s1, 0, 2);
    assert s'.pcs == s.pcs[0 := StatLookup(addr, info, None)][0 := Idle];
    forall t | t in s'.pcs
      ensures s'.pcs[t] == Idle
    {
      assert t != 0 ==> PcOf(s, t) == Idle;
    }
  }
}
