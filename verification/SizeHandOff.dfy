/**
 The hand-off of an allocation size from the enter half of a handler to its exit half through
 the `sizes` map. The map is keyed by process, not by thread, so of two threads of
 one process one can take the other's size; what survives that, and what does not need to.
 */
module SizeHandOff {
  import opened Options
  import opened PackedWord
  import opened Ledger
  import opened Accounting
  import opened Interleaving
  import opened ConcurrentAccounting

  // ---- Any interleaving at all: only sizes within the limits are ever recorded ----

  predicate InLimits(cfg: Config, size: U64) {
    cfg.minSize <= size <= cfg.maxSize
  }

  predicate HoldsInLimits(cfg: Config, pc: Pc) {
    && (pc.TakeDelete? ==> InLimits(cfg, pc.size))
    && (pc.Record? || Adding(pc) || pc.FreeDelete? || Subbing(pc) ==> InLimits(cfg, pc.info.size))
  }

  ghost predicate AllInLimits(cfg: Config, s: State) {
    && (forall pid :: pid in s.maps.sizes ==> InLimits(cfg, s.maps.sizes[pid]))
    && (forall a :: a in s.maps.allocs ==> InLimits(cfg, s.maps.allocs[a].size))
    && (forall t: nat :: HoldsInLimits(cfg, PcOf(s, t)))
  }

  lemma ResumedInLimits(cfg: Config, s: State, t: nat)
    requires AllInLimits(cfg, s)
    ensures AllInLimits(cfg, Resumed(cfg, s, t))
  {
    var s' := Resumed(cfg, s, t);
    assert HoldsInLimits(cfg, PcOf(s, t));
    forall u: nat
      ensures HoldsInLimits(cfg, PcOf(s', u))
    {
      if u != t {
        OthersStay(cfg, s, t, u);
        assert HoldsInLimits(cfg, PcOf(s, u));
      } else {
        SelfInLimits(cfg, s, t);
      }
    }
    MapsInLimits(cfg, s, t);
  }

  lemma SelfInLimits(cfg: Config, s: State, t: nat)
    requires AllInLimits(cfg, s) && HoldsInLimits(cfg, PcOf(s, t))
    ensures HoldsInLimits(cfg, PcOf(Resumed(cfg, s, t), t))
  {
  }

  lemma MapsInLimits(cfg: Config, s: State, t: nat)
    requires AllInLimits(cfg, s) && HoldsInLimits(cfg, PcOf(s, t))
    ensures var m := Resumed(cfg, s, t).maps;
      && (forall pid :: pid in m.sizes ==> InLimits(cfg, m.sizes[pid]))
      && (forall a :: a in m.allocs ==> InLimits(cfg, m.allocs[a].size))
  {
    var pc := PcOf(s, t);
    if !TouchesRecords(pc) && pc != Idle {
      TableUntouched(cfg, s, t);
    }
  }

  /** However the handlers interleave, and whoever takes whose size, every record in the live
      table has a size within the configured limits. */
  lemma {:induction false} RecordedSizesInLimits(cfg: Config, actions: seq<Action>)
    ensures AllInLimits(cfg, Reached(cfg, actions))
    decreases |actions|
  {
    if actions != [] {
      var s, a := Reached(cfg, actions[..|actions| - 1]), actions[|actions| - 1];
      RecordedSizesInLimits(cfg, actions[..|actions| - 1]);
      match a
      case Begin(t, ev) =>
        var s' := Taken(cfg, s, a);
        forall u: nat
          ensures HoldsInLimits(cfg, PcOf(s', u))
        {
          assert HoldsInLimits(cfg, PcOf(s, u));
        }
      case Resume(t) => ResumedInLimits(cfg, s, t);
    }
  }

  // ---- Handlers of different processes do not disturb each other ----

  /** The process an allocation in flight will look its size up under. */
  function AllocPid(pc: Pc): Option<U32> {
    match pc
    case Enter(call) => Some(call.ctx.pid)
    case TakeLookup(call) => Some(call.ctx.pid)
    case TakeDelete(call, _) => Some(call.ctx.pid)
    case _ => None
  }

  ghost predicate DistinctPids(s: State) {
    forall t: nat, u: nat :: t != u && AllocPid(PcOf(s, t)).Some? ==> AllocPid(PcOf(s, t)) != AllocPid(PcOf(s, u))
  }

  predicate RoomForSize(cfg: Config, s: State, t: nat) {
    PcOf(s, t).Enter? ==> |s.maps.sizes| < cfg.sizesMax
  }

  /** Allocations in flight belong to different processes, and the size table has room
      whenever an allocation enters. */
  ghost predicate Undisturbed(cfg: Config, actions: seq<Action>) {
    forall i :: 0 <= i <= |actions| ==>
      var s := Reached(cfg, actions[..i]);
      DistinctPids(s) && (i < |actions| && actions[i].Resume? ==> RoomForSize(cfg, s, actions[i].t))
  }

  /** A handler finds under its process exactly its own size, and only if it passed the
      filter; what it records is its own allocation. */
  predicate OwnSize(cfg: Config, m: Maps, pc: Pc) {
    match pc
    case Enter(call) => call.ctx.pid !in m.sizes
    case TakeLookup(call) =>
      if Passes(cfg, call.ctx, call.size) then call.ctx.pid in m.sizes && m.sizes[call.ctx.pid] == call.size
      else call.ctx.pid !in m.sizes
    case TakeDelete(call, size) =>
      && Passes(cfg, call.ctx, call.size) && size == call.size
      && call.ctx.pid in m.sizes && m.sizes[call.ctx.pid] == size
    case Record(call, info) =>
      Passes(cfg, call.ctx, call.size) && info == InfoOf(call.ctx, call.size)
    case _ => true
  }

  ghost predicate HeldFor(s: State, pid: U32) {
    exists t: nat :: AllocPid(PcOf(s, t)) == Some(pid)
  }

  ghost predicate OwnSizes(cfg: Config, s: State) {
    && (forall t: nat :: OwnSize(cfg, s.maps, PcOf(s, t)))
    && (forall pid :: pid in s.maps.sizes ==> HeldFor(s, pid))
  }

  /** An operation changes the pending size of its own process only. */
  lemma SizesFootprint(cfg: Config, s: State, t: nat, pid: U32)
    requires AllocPid(PcOf(s, t)) != Some(pid)
    ensures var m' := Resumed(cfg, s, t).maps;
      && (pid in m'.sizes <==> pid in s.maps.sizes)
      && (pid in m'.sizes ==> m'.sizes[pid] == s.maps.sizes[pid])
  {
    if Freeing(PcOf(s, t)) {
      assert FreeResumed(s, t).maps.sizes == s.maps.sizes;
    } else if Adding(PcOf(s, t)) {
      assert AddResumed(cfg, s, t).maps.sizes == s.maps.sizes;
    }
  }

  lemma NobodyElseHolds(s: State, s': State, t: nat)
    requires DistinctPids(s') && PcOf(s', t).Enter? && AllocPid(PcOf(s, t)).None?
    requires forall u: nat :: u != t ==> PcOf(s', u) == PcOf(s, u)
    ensures !HeldFor(s, PcOf(s', t).call.ctx.pid)
  {
    forall u: nat
      ensures AllocPid(PcOf(s, u)) != AllocPid(PcOf(s', t))
    {
      assert u != t ==> AllocPid(PcOf(s', t)) != AllocPid(PcOf(s', u));
    }
  }

  lemma OwnSizeOfSelf(cfg: Config, s: State, t: nat)
    requires OwnSizes(cfg, s) && DistinctPids(Resumed(cfg, s, t)) && RoomForSize(cfg, s, t)
    ensures OwnSize(cfg, Resumed(cfg, s, t).maps, PcOf(Resumed(cfg, s, t), t))
  {
    var pc, s' := PcOf(s, t), Resumed(cfg, s, t);
    assert OwnSize(cfg, s.maps, pc);
    if PcOf(s', t).Enter? {
      assert s'.maps.sizes == s.maps.sizes;
      assert !HeldFor(s, PcOf(s', t).call.ctx.pid) by {
        forall u: nat
          ensures u != t ==> PcOf(s', u) == PcOf(s, u)
        {
          if u != t {
            OthersStay(cfg, s, t, u);
          }
        }
        NobodyElseHolds(s, s', t);
      }
    } else if Allocating(pc) {
      OwnSizeWhileAllocating(cfg, s, t);
    }
  }

  lemma OwnSizeWhileAllocating(cfg: Config, s: State, t: nat)
    requires Allocating(PcOf(s, t)) && OwnSize(cfg, s.maps, PcOf(s, t)) && RoomForSize(cfg, s, t)
    ensures OwnSize(cfg, AllocResumed(cfg, s, t).maps, PcOf(AllocResumed(cfg, s, t), t))
  {
  }

  lemma HeldStays(cfg: Config, s: State, t: nat, pid: U32)
    requires OwnSizes(cfg, s) && pid in Resumed(cfg, s, t).maps.sizes
    ensures HeldFor(Resumed(cfg, s, t), pid)
  {
    var pc, s' := PcOf(s, t), Resumed(cfg, s, t);
    assert OwnSize(cfg, s.maps, pc);
    if AllocPid(pc) == Some(pid) {
      assert AllocPid(PcOf(s', t)) == Some(pid);
    } else {
      SizesFootprint(cfg, s, t, pid);
      assert HeldFor(s, pid);
      var u: nat :| AllocPid(PcOf(s, u)) == Some(pid);
      OthersStay(cfg, s, t, u);
      assert AllocPid(PcOf(s', u)) == Some(pid);
    }
  }

  lemma ResumedOwnSizes(cfg: Config, s: State, t: nat)
    requires OwnSizes(cfg, s) && RoomForSize(cfg, s, t)
    requires DistinctPids(s) && DistinctPids(Resumed(cfg, s, t))
    ensures OwnSizes(cfg, Resumed(cfg, s, t))
  {
    var s' := Resumed(cfg, s, t);
    forall u: nat
      ensures OwnSize(cfg, s'.maps, PcOf(s', u))
    {
      if u == t {
        OwnSizeOfSelf(cfg, s, t);
      } else {
        OthersStay(cfg, s, t, u);
        assert OwnSize(cfg, s.maps, PcOf(s, u));
        if AllocPid(PcOf(s, u)).Some? {
          SizesFootprint(cfg, s, t, AllocPid(PcOf(s, u)).value);
        }
      }
    }
    forall pid | pid in s'.maps.sizes
      ensures HeldFor(s', pid)
    {
      HeldStays(cfg, s, t, pid);
    }
  }

  lemma BegunOwnSizes(cfg: Config, s: State, t: nat, ev: Event)
    requires OwnSizes(cfg, s) && DistinctPids(Taken(cfg, s, Begin(t, ev)))
    ensures OwnSizes(cfg, Taken(cfg, s, Begin(t, ev)))
  {
    var s' := Taken(cfg, s, Begin(t, ev));
    if PcOf(s, t) == Idle {
      assert forall u: nat :: u != t ==> PcOf(s', u) == PcOf(s, u);
      forall pid | pid in s'.maps.sizes
        ensures HeldFor(s', pid)
      {
        assert HeldFor(s, pid);
        var u: nat :| AllocPid(PcOf(s, u)) == Some(pid);
        assert AllocPid(PcOf(s', u)) == Some(pid);
      }
      if PcOf(s', t).Enter? {
        NobodyElseHolds(s, s', t);
      }
      assert forall u: nat :: OwnSize(cfg, s.maps, PcOf(s, u));
    }
  }

  /** As long as the allocations in flight belong to different processes, interleaving cannot
      mix up sizes: whatever is about to be recorded is the handler's own allocation, with its
      own size, and it passed the filter. */
  lemma {:induction false} DistinctProcessesKeepTheirSizes(cfg: Config, actions: seq<Action>)
    requires Undisturbed(cfg, actions)
    ensures OwnSizes(cfg, Reached(cfg, actions))
    decreases |actions|
  {
    if actions != [] {
      var n := |actions| - 1;
      var before := actions[..n];
      assert forall i :: 0 <= i <= n ==> before[..i] == actions[..i];
      assert actions[..n + 1] == actions;
      DistinctProcessesKeepTheirSizes(cfg, before);
      assert before[..n] == before;
      match actions[n]
      case Begin(t, ev) => BegunOwnSizes(cfg, Reached(cfg, before), t, ev);
      case Resume(t) => ResumedOwnSizes(cfg, Reached(cfg, before), t);
    }
  }

  /** Two threads of one process: the second to enter overwrites the pending size of the first,
      which then takes it for its own and leaves nothing for the second. */
  lemma SameProcessTakesTheOtherSize(cfg: Config, s: State, t: nat, u: nat)
    requires t != u && PcOf(s, t).Enter? && PcOf(s, u).Enter? && s.maps.sizes == map[] && cfg.sizesMax > 0
    requires var c, d := PcOf(s, t).call, PcOf(s, u).call;
      && c.ctx.pid == d.ctx.pid && c.address != 0
      && Passes(cfg, c.ctx, c.size) && Passes(cfg, d.ctx, d.size)
    ensures
      var c, d := PcOf(s, t).call, PcOf(s, u).call;
      var s' := Resumed(cfg, Resumed(cfg, Resumed(cfg, Resumed(cfg, Resumed(cfg, s, t), u), t), t), u);
      && s'.maps == s.maps && s'.pcs == s.pcs[t := Record(c, InfoOf(c.ctx, d.size))][u := Idle]
  {
    var c, d := PcOf(s, t).call, PcOf(s, u).call;
    var s1 := Resumed(cfg, s, t);
    assert s1.maps.sizes == map[c.ctx.pid := c.size] && s1.pcs == s.pcs[t := TakeLookup(c)];
    var s2 := Resumed(cfg, s1, u);
    assert s2.maps.sizes == map[c.ctx.pid := d.size] && s2.pcs == s.pcs[t := TakeLookup(c)][u := TakeLookup(d)];
    var s3 := Resumed(cfg, s2, t);
    assert s3.maps == s2.maps && PcOf(s3, t) == TakeDelete(c, d.size);
    var s4 := Resumed(cfg, s3, t);
    assert s4.maps.sizes == map[] && PcOf(s4, u) == TakeLookup(d);
    var s5 := Resumed(cfg, s4, u);
    assert s5.pcs == s.pcs[t := Record(c, InfoOf(c.ctx, d.size))][u := Idle];
  }

  /** From the empty maps: two allocations of one process interleave, and in the end the first
      address is recorded with the size of the second allocation, and the second allocation is
      not recorded at all. */
  lemma WrongSizeFromEmptyMaps(cfg: Config, c: Call, d: Call) returns (actions: seq<Action>)
    requires !cfg.waMissingFree && cfg.allocsMax > 0
    requires Records(cfg, c.ctx, c.address, c.size) && Records(cfg, d.ctx, d.address, d.size)
    requires c.ctx.pid == d.ctx.pid && c.address != d.address
    ensures var s := Reached(cfg, actions);
      && Quiescent(s) && s.maps.sizes == map[]
      && s.maps.allocs == map[c.address := InfoOf(c.ctx, d.size)]
      && d.address !in s.maps.allocs
  {
    var begun := BothBegun(cfg, c, d);
    var s := Reached(cfg, begun);
    SameProcessTakesTheOtherSize(cfg, s, 0, 1);
    var swapped := FiveMore(cfg, begun);
    actions := RecordsWrongSize(cfg, swapped, c, InfoOf(c.ctx, d.size));
  }

  lemma BothBegun(cfg: Config, c: Call, d: Call) returns (actions: seq<Action>)
    requires !cfg.waMissingFree
    ensures Reached(cfg, actions).maps == EMPTY
    ensures Reached(cfg, actions).pcs == map[0 := Enter(c), 1 := Enter(d)]
    ensures forall i :: 0 <= i < |actions| ==> actions[i].Begin?
  {
    var first := Begin(0, SlabAlloc(c.ctx, c.address, c.size));
    var second := Begin(1, SlabAlloc(d.ctx, d.address, d.size));
    ReachedNext(cfg, [], first);
    ReachedNext(cfg, [] + [first], second);
    actions := [] + [first] + [second];
    assert Reached(cfg, []) == INITIAL;
    assert Reached(cfg, [] + [first]) == Goto(INITIAL, 0, Enter(c));
  }

  lemma RecordsWrongSize(cfg: Config, actions: seq<Action>, c: Call, info: AllocInfo) returns (more: seq<Action>)
    requires Reached(cfg, actions).maps == EMPTY && cfg.allocsMax > 0
    requires Reached(cfg, actions).pcs == map[0 := Record(c, info), 1 := Idle]
    ensures Quiescent(Reached(cfg, more)) && Reached(cfg, more).maps.sizes == map[]
    ensures Reached(cfg, more).maps.allocs == map[c.address := info]
  {
    var n := RecordAlone(cfg, Reached(cfg, actions), 0);
    ReachedResumes(cfg, actions, 0, n);
    more := actions + Resumes(0, n);
  }

  /** First thread, second thread, first twice, second. */
  lemma FiveMore(cfg: Config, actions: seq<Action>) returns (more: seq<Action>)
    ensures Reached(cfg, more)
         == Resumed(cfg, Resumed(cfg, Resumed(cfg, Resumed(cfg, Resumed(cfg, Reached(cfg, actions), 0), 1), 0), 0), 1)
  {
    var one := actions + [Resume(0)];
    var two := one + [Resume(1)];
    var three := two + [Resume(0)];
    var four := three + [Resume(0)];
    more := four + [Resume(1)];
    ReachedNext(cfg, actions, Resume(0));
    ReachedNext(cfg, one, Resume(1));
    ReachedNext(cfg, two, Resume(0));
    ReachedNext(cfg, three, Resume(0));
    ReachedNext(cfg, four, Resume(1));
  }
}
