/**
 When an allocation keeps its own size, exactly. Of the operations on the pending sizes three can
 go wrong: an entry that overwrites the pending size of another handler, the deletion of a
 pending size that another handler has not looked up yet, and the lookup of an allocation that
 was filtered out and should find nothing. Each has a guard.
 */
module SizeHazards {
  import opened Ledger
  import opened Interleaving
  import opened ConcurrentAccounting
  import opened SizeHandOff

  // ---- The property ----

  predicate OwnPending(m: Maps, call: Call) {
    call.ctx.pid in m.sizes && m.sizes[call.ctx.pid] == call.size
  }

  /** An allocation that looks its size up finds its own, or nothing if it was filtered out. */
  predicate TakesOwn(cfg: Config, s: State, a: Action) {
    a.Resume? && PcOf(s, a.t).TakeLookup? ==>
      var call := PcOf(s, a.t).call;
      if Passes(cfg, call.ctx, call.size) then OwnPending(s.maps, call) else call.ctx.pid !in s.maps.sizes
  }

  ghost predicate AllTakeOwn(cfg: Config, actions: seq<Action>) {
    forall i :: 0 <= i < |actions| ==> TakesOwn(cfg, Reached(cfg, actions[..i]), actions[i])
  }

  // ---- The guards ----

  /** The handler passed the filter and has yet to look its size up. */
  predicate Waits(cfg: Config, pc: Pc, pid: U32) {
    pc.TakeLookup? && pc.call.ctx.pid == pid && Passes(cfg, pc.call.ctx, pc.call.size)
  }

  ghost predicate SomeoneWaits(cfg: Config, s: State, pid: U32) {
    exists t: nat :: Waits(cfg, PcOf(s, t), pid)
  }

  /** A size is stored with room for it, and neither stored nor deleted while another handler of
      the process has yet to look its own up; a filtered allocation finds no pending size. */
  ghost predicate Careful(cfg: Config, s: State, a: Action) {
    a.Resume? ==>
      var pc, sizes := PcOf(s, a.t), s.maps.sizes;
      && (pc.Enter? && Passes(cfg, pc.call.ctx, pc.call.size) ==>
            !SomeoneWaits(cfg, s, pc.call.ctx.pid) && (pc.call.ctx.pid in sizes || |sizes| < cfg.sizesMax))
      && (pc.TakeDelete? ==> !SomeoneWaits(cfg, s, pc.call.ctx.pid))
      && (pc.TakeLookup? && !Passes(cfg, pc.call.ctx, pc.call.size) ==> pc.call.ctx.pid !in sizes)
  }

  ghost predicate AllCareful(cfg: Config, actions: seq<Action>) {
    forall i :: 0 <= i < |actions| ==> Careful(cfg, Reached(cfg, actions[..i]), actions[i])
  }

  /** No allocation enters with the size of one of its process that has yet to look its own up. */
  ghost predicate NoTwin(cfg: Config, s: State, a: Action) {
    a.Resume? && PcOf(s, a.t).Enter? ==>
      var call := PcOf(s, a.t).call;
      forall u: nat :: Passes(cfg, call.ctx, call.size) && Waits(cfg, PcOf(s, u), call.ctx.pid) ==>
        PcOf(s, u).call.size != call.size
  }

  ghost predicate NoTwins(cfg: Config, actions: seq<Action>) {
    forall i :: 0 <= i < |actions| ==> NoTwin(cfg, Reached(cfg, actions[..i]), actions[i])
  }

  // ---- One operation ----

  predicate Endangered(cfg: Config, s: State, t: nat) {
    PcOf(s, t).TakeLookup? && Waits(cfg, PcOf(s, t), PcOf(s, t).call.ctx.pid) && !OwnPending(s.maps, PcOf(s, t).call)
  }

  /** Every handler that has yet to look its size up would find its own now. */
  ghost predicate WaitersOwn(cfg: Config, s: State) {
    forall t: nat :: !Endangered(cfg, s, t)
  }

  /** What an operation does to the pending size of the process `pid`. */
  lemma SizesAfter(cfg: Config, s: State, t: nat, pid: U32)
    ensures var pc, sizes, sizes' := PcOf(s, t), s.maps.sizes, Resumed(cfg, s, t).maps.sizes;
      if pc.Enter? && pc.call.ctx.pid == pid && Passes(cfg, pc.call.ctx, pc.call.size)
         && (pid in sizes || |sizes| < cfg.sizesMax)
      then pid in sizes' && sizes'[pid] == pc.call.size
      else if pc.TakeDelete? && pc.call.ctx.pid == pid then pid !in sizes'
      else (pid in sizes' <==> pid in sizes) && (pid in sizes ==> sizes'[pid] == sizes[pid])
  {
    var pc := PcOf(s, t);
    if !Allocating(pc) {
      SizesFootprint(cfg, s, t, pid);
    }
  }

  lemma CarefulKeeps(cfg: Config, s: State, t: nat)
    requires WaitersOwn(cfg, s) && Careful(cfg, s, Resume(t))
    ensures WaitersOwn(cfg, Resumed(cfg, s, t))
  {
    var s' := Resumed(cfg, s, t);
    forall u: nat
      ensures !Endangered(cfg, s', u)
    {
      assert !Endangered(cfg, s, u);
      if PcOf(s', u).TakeLookup? {
        var pid := PcOf(s', u).call.ctx.pid;
        SizesAfter(cfg, s, t, pid);
        if u != t {
          OthersStay(cfg, s, t, u);
          assert Waits(cfg, PcOf(s, u), pid) ==> SomeoneWaits(cfg, s, pid);
        }
      }
    }
  }

  /** A handler that would not find its own size either does not find it now, or still would not. */
  lemma NothingHeals(cfg: Config, s: State, a: Action, u: nat)
    requires Endangered(cfg, s, u) && NoTwin(cfg, s, a) && TakesOwn(cfg, s, a)
    ensures Endangered(cfg, Taken(cfg, s, a), u)
  {
    if a.Resume? {
      OthersStay(cfg, s, a.t, u);
      SizesAfter(cfg, s, a.t, PcOf(s, u).call.ctx.pid);
    }
  }

  lemma CarelessEndangers(cfg: Config, s: State, a: Action) returns (u: nat)
    requires WaitersOwn(cfg, s) && NoTwin(cfg, s, a) && TakesOwn(cfg, s, a) && !Careful(cfg, s, a)
    ensures Endangered(cfg, Taken(cfg, s, a), u)
  {
    var pid := PcOf(s, a.t).call.ctx.pid;
    SizesAfter(cfg, s, a.t, pid);
    if SomeoneWaits(cfg, s, pid) {
      u :| Waits(cfg, PcOf(s, u), pid);
      assert !Endangered(cfg, s, u);
      OthersStay(cfg, s, a.t, u);
    } else {
      u := a.t;
    }
  }

  lemma BegunWaiters(cfg: Config, s: State, t: nat, ev: Event)
    requires WaitersOwn(cfg, s)
    ensures WaitersOwn(cfg, Taken(cfg, s, Begin(t, ev)))
  {
    var s' := Taken(cfg, s, Begin(t, ev));
    forall u: nat
      ensures !Endangered(cfg, s', u)
    {
      assert !Endangered(cfg, s, u);
    }
  }

  // ---- Whole runs ----

  lemma OneMoreAction(cfg: Config, before: seq<Action>, a: Action)
    ensures AllTakeOwn(cfg, before + [a]) <==> AllTakeOwn(cfg, before) && TakesOwn(cfg, Reached(cfg, before), a)
    ensures AllCareful(cfg, before + [a]) <==> AllCareful(cfg, before) && Careful(cfg, Reached(cfg, before), a)
    ensures NoTwins(cfg, before + [a]) <==> NoTwins(cfg, before) && NoTwin(cfg, Reached(cfg, before), a)
    ensures Reached(cfg, before + [a]) == Taken(cfg, Reached(cfg, before), a)
  {
    var actions := before + [a];
    assert forall i :: 0 <= i <= |before| ==> actions[..i] == before[..i];
    assert before[..|before|] == before && actions[|before|] == a;
    ReachedNext(cfg, before, a);
  }

  /** Whatever the sizes: if every operation met its guard, every allocation took its own size,
      and those that have yet to look it up would find it. */
  lemma {:induction false} CarefulTakeOwn(cfg: Config, actions: seq<Action>, s: State)
    requires s == Reached(cfg, actions) && AllCareful(cfg, actions)
    ensures AllTakeOwn(cfg, actions) && WaitersOwn(cfg, s)
    decreases |actions|
  {
    if actions != [] {
      var before, a := actions[..|actions| - 1], actions[|actions| - 1];
      var was := Reached(cfg, before);
      assert actions == before + [a];
      OneMoreAction(cfg, before, a);
      CarefulTakeOwn(cfg, before, was);
      CarefulStep(cfg, was, a);
    }
  }

  lemma CarefulStep(cfg: Config, s: State, a: Action)
    requires WaitersOwn(cfg, s) && Careful(cfg, s, a)
    ensures TakesOwn(cfg, s, a) && WaitersOwn(cfg, Taken(cfg, s, a))
  {
    assert a.Resume? ==> !Endangered(cfg, s, a.t);
    match a
    case Begin(t, ev) => BegunWaiters(cfg, s, t, ev);
    case Resume(t) => CarefulKeeps(cfg, s, t);
  }

  lemma CarelessRun(cfg: Config, s: State, a: Action)
    requires NoTwin(cfg, s, a) && TakesOwn(cfg, s, a) && WaitersOwn(cfg, Taken(cfg, s, a))
    ensures WaitersOwn(cfg, s) && Careful(cfg, s, a)
  {
    forall u: nat
      ensures !Endangered(cfg, s, u)
    {
      if Endangered(cfg, s, u) {
        NothingHeals(cfg, s, a, u);
        assert false;
      }
    }
    if !Careful(cfg, s, a) {
      var u := CarelessEndangers(cfg, s, a);
      assert false;
    }
  }

  /** As long as no allocation enters with the very size that another one of its process has yet
      to look up, the guards are exact: every allocation has taken its own size, and those that
      have yet to look it up would find it, if and only if every operation met its guard. */
  lemma {:induction false} TakeOwnIffCareful(cfg: Config, actions: seq<Action>, s: State)
    requires s == Reached(cfg, actions) && NoTwins(cfg, actions)
    ensures AllTakeOwn(cfg, actions) && WaitersOwn(cfg, s) <==> AllCareful(cfg, actions)
    decreases |actions|
  {
    if AllCareful(cfg, actions) {
      CarefulTakeOwn(cfg, actions, s);
    } else if AllTakeOwn(cfg, actions) && WaitersOwn(cfg, s) {
      TakeOwnAreCareful(cfg, actions, s);
    }
  }

  lemma {:induction false} TakeOwnAreCareful(cfg: Config, actions: seq<Action>, s: State)
    requires s == Reached(cfg, actions) && NoTwins(cfg, actions)
    requires AllTakeOwn(cfg, actions) && WaitersOwn(cfg, s)
    ensures AllCareful(cfg, actions)
    decreases |actions|
  {
    if actions != [] {
      var before, a := actions[..|actions| - 1], actions[|actions| - 1];
      assert actions == before + [a];
      OneMoreAction(cfg, before, a);
      CarelessRun(cfg, Reached(cfg, before), a);
      TakeOwnAreCareful(cfg, before, Reached(cfg, before));
    }
  }

  /** So once all handlers have returned, every allocation took its own size if and only if every
      operation met its guard. */
  lemma {:induction false} QuietTakeOwnIffCareful(cfg: Config, actions: seq<Action>, s: State)
    requires s == Reached(cfg, actions) && Quiescent(s) && NoTwins(cfg, actions)
    ensures AllTakeOwn(cfg, actions) <==> AllCareful(cfg, actions)
  {
    assert WaitersOwn(cfg, s) by {
      forall t: nat
        ensures !Endangered(cfg, s, t)
      {
        assert PcOf(s, t) == Idle;
      }
    }
    TakeOwnIffCareful(cfg, actions, s);
  }

  /** The premise on sizes is needed: with equal sizes an overwritten pending size looks like
      one's own, and two allocations of one process take their own although one was careless. */
  lemma {:induction false} EqualSizesHideCarelessness(cfg: Config, c: Call, d: Call) returns (actions: seq<Action>)
    requires !cfg.waMissingFree && cfg.sizesMax > 0
    requires Passes(cfg, c.ctx, c.size) && Passes(cfg, d.ctx, d.size)
    requires c.ctx.pid == d.ctx.pid && c.size == d.size
    ensures AllTakeOwn(cfg, actions) && !AllCareful(cfg, actions)
    ensures Reached(cfg, actions).pcs == map[0 := TakeDelete(c, c.size), 1 := TakeDelete(d, d.size)]
  {
    var begun := BothBegun(cfg, c, d);
    var entered := begun + [Resume(0)];
    var both := entered + [Resume(1)];
    var found := both + [Resume(0)];
    actions := found + [Resume(1)];
    OneMoreAction(cfg, begun, Resume(0));
    OneMoreAction(cfg, entered, Resume(1));
    OneMoreAction(cfg, both, Resume(0));
    OneMoreAction(cfg, found, Resume(1));
    BothEntered(cfg, Reached(cfg, begun), c, d);
    assert AllTakeOwn(cfg, begun);
  }

  lemma BothEntered(cfg: Config, s: State, c: Call, d: Call)
    requires s.maps == EMPTY && s.pcs == map[0 := Enter(c), 1 := Enter(d)] && cfg.sizesMax > 0
    requires Passes(cfg, c.ctx, c.size) && Passes(cfg, d.ctx, d.size)
    requires c.ctx.pid == d.ctx.pid && c.size == d.size
    ensures var s1 := Resumed(cfg, s, 0);
      var s2 := Resumed(cfg, s1, 1);
      var s3 := Resumed(cfg, s2, 0);
      && TakesOwn(cfg, s, Resume(0)) && TakesOwn(cfg, s1, Resume(1))
      && TakesOwn(cfg, s2, Resume(0)) && TakesOwn(cfg, s3, Resume(1))
      && !Careful(cfg, s1, Resume(1))
      && Resumed(cfg, s3, 1).pcs == map[0 := TakeDelete(c, c.size), 1 := TakeDelete(d, d.size)]
  {
    var s1 := Resumed(cfg, s, 0);
    assert s1.maps.sizes == map[c.ctx.pid := c.size] && s1.pcs == map[0 := TakeLookup(c), 1 := Enter(d)];
    assert Waits(cfg, PcOf(s1, 0), d.ctx.pid);
    var s2 := Resumed(cfg, s1, 1);
    assert s2.maps.sizes == map[c.ctx.pid := d.size] && s2.pcs == map[0 := TakeLookup(c), 1 := TakeLookup(d)];
  }

  // ---- What taking one's own size comes to ----

  /** A lookup is right exactly when a handler that passed goes on with its own size and one that
      was filtered out returns. */
  lemma TakesOwnIff(cfg: Config, s: State, t: nat)
    requires PcOf(s, t).TakeLookup?
    ensures var call := PcOf(s, t).call;
      TakesOwn(cfg, s, Resume(t)) <==>
        PcOf(Resumed(cfg, s, t), t) == if Passes(cfg, call.ctx, call.size) then TakeDelete(call, call.size) else Idle
  {
  }

  /** The handler is about to record its own allocation, which passed the filter. */
  predicate HoldsOwn(cfg: Config, pc: Pc) {
    && (pc.TakeDelete? ==> Passes(cfg, pc.call.ctx, pc.call.size) && pc.size == pc.call.size)
    && (pc.Record? ==> Passes(cfg, pc.call.ctx, pc.call.size) && pc.info == InfoOf(pc.call.ctx, pc.call.size))
  }

  lemma OneHoldsOwn(cfg: Config, s: State, a: Action, u: nat)
    requires HoldsOwn(cfg, PcOf(s, u)) && TakesOwn(cfg, s, a)
    ensures HoldsOwn(cfg, PcOf(Taken(cfg, s, a), u))
  {
    if a.Resume? && a.t != u {
      OthersStay(cfg, s, a.t, u);
    } else if a.Resume? && PcOf(s, u).TakeLookup? {
      TakesOwnIff(cfg, s, u);
    }
  }

  /** If every allocation took its own size, every record that is ever stored is that of the
      storing handler's own allocation, with its own size. */
  lemma {:induction false} TakenIsRecorded(cfg: Config, actions: seq<Action>, s: State)
    requires s == Reached(cfg, actions) && AllTakeOwn(cfg, actions)
    ensures forall t: nat :: HoldsOwn(cfg, PcOf(s, t))
    decreases |actions|
  {
    if actions != [] {
      var before, a := actions[..|actions| - 1], actions[|actions| - 1];
      assert actions == before + [a];
      OneMoreAction(cfg, before, a);
      TakenIsRecorded(cfg, before, Reached(cfg, before));
      forall t: nat
        ensures HoldsOwn(cfg, PcOf(s, t))
      {
        OneHoldsOwn(cfg, Reached(cfg, before), a, t);
      }
    }
  }

  /** Allocations of different processes, with room for their sizes, meet every guard. */
  lemma {:induction false} DistinctProcessesAreCareful(cfg: Config, actions: seq<Action>)
    requires Undisturbed(cfg, actions)
    ensures AllCareful(cfg, actions) && AllTakeOwn(cfg, actions)
  {
    forall i | 0 <= i < |actions|
      ensures Careful(cfg, Reached(cfg, actions[..i]), actions[i])
    {
      var before := actions[..i];
      assert forall j :: 0 <= j <= i ==> before[..j] == actions[..j];
      DistinctProcessesKeepTheirSizes(cfg, before);
      UndisturbedStep(cfg, Reached(cfg, before), actions[i]);
    }
    CarefulTakeOwn(cfg, actions, Reached(cfg, actions));
  }

  lemma UndisturbedStep(cfg: Config, s: State, a: Action)
    requires OwnSizes(cfg, s) && DistinctPids(s) && (a.Resume? ==> RoomForSize(cfg, s, a.t))
    ensures Careful(cfg, s, a)
  {
    if a.Resume? && AllocPid(PcOf(s, a.t)).Some? {
      var pc := PcOf(s, a.t);
      assert OwnSize(cfg, s.maps, pc);
      forall u: nat | u != a.t
        ensures !Waits(cfg, PcOf(s, u), pc.call.ctx.pid)
      {
        assert AllocPid(PcOf(s, a.t)) != AllocPid(PcOf(s, u));
      }
    }
  }
}
