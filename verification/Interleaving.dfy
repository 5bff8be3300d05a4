/**
 The same handlers, one map operation at a time. Handlers run on many processors at once, so
 between any two operations of one handler any operations of the others can happen; the only
 atomic things are single map operations and the fetch-and-add on a statistics word.
 */
module Interleaving {
  import opened BpfMaps
  import opened Options
  import opened PackedWord
  import opened Ledger
  import opened Accounting

  datatype Call = Call(ctx: Context, address: U64, size: U64)

  /** What a handler is about to do next. A free that precedes an allocation (the missing-free
      workaround) carries the allocation it continues with. */
  datatype Pc =
    | Idle
    | FreeLookup(addr: U64, next: Option<Call>)
    | FreeDelete(addr: U64, info: AllocInfo, next: Option<Call>)
    | StatLookup(addr: U64, info: AllocInfo, next: Option<Call>)
    | StatSub(addr: U64, info: AllocInfo, next: Option<Call>)
    | Enter(call: Call)
    | TakeLookup(call: Call)
    | TakeDelete(call: Call, size: U64)
    | Record(call: Call, info: AllocInfo)
    | AddLookup(addr: U64, info: AllocInfo)
    | AddInit(addr: U64, info: AllocInfo)
    | AddRelookup(addr: U64, info: AllocInfo)
    | AddAdd(addr: U64, info: AllocInfo)

  /** Besides the maps and the handlers in flight, two lists for the accounts only: records
      that were counted (or are about to be) and will never be subtracted, and subtractions
      that matched no live record. */
  datatype State = State(maps: Maps, pcs: map<nat, Pc>, lost: seq<AllocInfo>, excess: seq<AllocInfo>)

  const INITIAL: State := State(EMPTY, map[], [], [])

  datatype Action = Begin(t: nat, ev: Event) | Resume(t: nat)

  function PcOf(s: State, t: nat): Pc {
    if t in s.pcs then s.pcs[t] else Idle
  }

  function First(cfg: Config, ev: Event): Pc {
    match ev
    case SlabAlloc(ctx, ptr, bytes) =>
      if cfg.waMissingFree then FreeLookup(ptr, Some(Call(ctx, ptr, bytes))) else Enter(Call(ctx, ptr, bytes))
    case PageAlloc(ctx, pfn, order) => Enter(Call(ctx, pfn, PageBytes(cfg, order)))
    case PercpuAlloc(ctx, ptr, bytes) => Enter(Call(ctx, ptr, bytes))
    case Free(address) => FreeLookup(address, None)
  }

  function After(next: Option<Call>): Pc {
    if next.Some? then Enter(next.value) else Idle
  }

  function Goto(s: State, t: nat, pc: Pc): State {
    s.(pcs := s.pcs[t := pc])
  }

  predicate Tracked(m: Maps, info: AllocInfo) {
    StackKey(info.stackId) in m.combined
  }

  /** The word behind a pointer obtained earlier. Words are never deleted, so it is there
      whenever a handler uses it. */
  function Word(m: Maps, info: AllocInfo): U64 {
    if Tracked(m, info) then m.combined[StackKey(info.stackId)] else 0
  }

  /** Deleting the address of a record that was looked up earlier: by now the address may be
      gone or hold another record. */
  function Deleted(s: State, addr: U64, info: AllocInfo): State {
    var allocs := s.maps.allocs;
    var s' := s.(maps := s.maps.(allocs := allocs - {addr}));
    if addr !in allocs then s'.(excess := s.excess + [info])
    else if allocs[addr] != info then s'.(excess := s.excess + [info], lost := s.lost + [allocs[addr]])
    else s'
  }

  function Stored(cfg: Config, s: State, addr: U64, info: AllocInfo): State {
    s.(maps := s.maps.(allocs := Updated(s.maps.allocs, cfg.allocsMax, addr, info, BpfAny)),
       lost := s.lost + LostAt(cfg, s.maps.allocs, addr, info))
  }

  function WithWord(s: State, key: U64, word: U64): State {
    s.(maps := s.maps.(combined := s.maps.combined[key := word]))
  }

  predicate Freeing(pc: Pc) {
    pc.FreeLookup? || pc.FreeDelete? || pc.StatLookup? || pc.StatSub?
  }

  predicate Allocating(pc: Pc) {
    pc.Enter? || pc.TakeLookup? || pc.TakeDelete? || pc.Record?
  }

  predicate Adding(pc: Pc) {
    pc.AddLookup? || pc.AddInit? || pc.AddRelookup? || pc.AddAdd?
  }

  /** The next operation of a free. */
  function FreeResumed(s: State, t: nat): State
    requires Freeing(PcOf(s, t))
  {
    var m := s.maps;
    match PcOf(s, t)
    case FreeLookup(addr, next) =>
      Goto(s, t, if addr in m.allocs then FreeDelete(addr, m.allocs[addr], next) else After(next))
    case FreeDelete(addr, info, next) =>
      Goto(Deleted(s, addr, info), t, StatLookup(addr, info, next))
    case StatLookup(addr, info, next) =>
      if Tracked(m, info) then Goto(s, t, StatSub(addr, info, next))
      else Goto(s.(lost := s.lost + [info]), t, After(next))
    case StatSub(addr, info, next) =>
      Goto(WithWord(s, StackKey(info.stackId), FetchSub(Word(m, info), info.size)), t, After(next))
  }

  /** The next operation of an allocation, up to the point where its record is stored. */
  function AllocResumed(cfg: Config, s: State, t: nat): State
    requires Allocating(PcOf(s, t))
  {
    var m := s.maps;
    match PcOf(s, t)
    case Enter(call) =>
      Goto(s.(maps := AllocEntered(cfg, m, call.ctx, call.size)), t, TakeLookup(call))
    case TakeLookup(call) =>
      Goto(s, t, if call.ctx.pid in m.sizes then TakeDelete(call, m.sizes[call.ctx.pid]) else Idle)
    case TakeDelete(call, size) =>
      Goto(s.(maps := m.(sizes := m.sizes - {call.ctx.pid})), t,
           if call.address == 0 then Idle else Record(call, InfoOf(call.ctx, size)))
    case Record(call, info) =>
      Goto(Stored(cfg, s, call.address, info), t, AddLookup(call.address, info))
  }

  /** The next operation of the statistics update of a stored record: look up, insert if
      missing, look up again, add. */
  function AddResumed(cfg: Config, s: State, t: nat): State
    requires Adding(PcOf(s, t))
  {
    var m := s.maps;
    match PcOf(s, t)
    case AddLookup(addr, info) =>
      Goto(s, t, if Tracked(m, info) then AddAdd(addr, info) else AddInit(addr, info))
    case AddInit(addr, info) =>
      (match UpdateError(m.combined, cfg.combinedMax, StackKey(info.stackId), BpfNoExist)
       case Ok => Goto(WithWord(s, StackKey(info.stackId), 0), t, AddRelookup(addr, info))
       case Exists => Goto(s, t, AddRelookup(addr, info))
       case _ => Goto(s, t, Idle))
    case AddRelookup(addr, info) =>
      Goto(s, t, if Tracked(m, info) then AddAdd(addr, info) else Idle)
    case AddAdd(addr, info) =>
      Goto(WithWord(s, StackKey(info.stackId), FetchAdd(Word(m, info), info.size)), t, Idle)
  }

  /** One operation of the handler on processor `t`. */
  function Resumed(cfg: Config, s: State, t: nat): State {
    var pc := PcOf(s, t);
    if Freeing(pc) then FreeResumed(s, t)
    else if Allocating(pc) then AllocResumed(cfg, s, t)
    else if Adding(pc) then AddResumed(cfg, s, t)
    else s
  }

  /** A processor starts its next handler only when its last one has returned. */
  function Taken(cfg: Config, s: State, a: Action): State {
    match a
    case Begin(t, ev) => if PcOf(s, t) == Idle then Goto(s, t, First(cfg, ev)) else s
    case Resume(t) => Resumed(cfg, s, t)
  }

  /** Any interleaving is a sequence of actions. */
  function Reached(cfg: Config, actions: seq<Action>): State {
    if actions == [] then INITIAL
    else Taken(cfg, Reached(cfg, actions[..|actions| - 1]), actions[|actions| - 1])
  }

  predicate Quiescent(s: State) {
    forall t :: t in s.pcs ==> s.pcs[t] == Idle
  }

  // ---- A handler that is not disturbed is the atomic handler ----

  function ResumedTimes(cfg: Config, s: State, t: nat, n: nat): State
    decreases n
  {
    if n == 0 then s else ResumedTimes(cfg, Resumed(cfg, s, t), t, n - 1)
  }

  lemma {:induction false} ResumedPlus(cfg: Config, s: State, t: nat, m: nat, n: nat)
    ensures ResumedTimes(cfg, s, t, m + n) == ResumedTimes(cfg, ResumedTimes(cfg, s, t, m), t, n)
    decreases m
  {
    if m != 0 {
      ResumedPlus(cfg, Resumed(cfg, s, t), t, m - 1, n);
    }
  }

  predicate Becomes(s: State, s': State, t: nat, maps: Maps, pc: Pc) {
    s'.maps == maps && s'.pcs == s.pcs[t := pc]
  }

  lemma FreeAlone(cfg: Config, s: State, t: nat) returns (n: nat)
    requires PcOf(s, t).FreeLookup?
    ensures Becomes(s, ResumedTimes(cfg, s, t, n), t, FreeEntered(s.maps, PcOf(s, t).addr), After(PcOf(s, t).next))
  {
    var pc, m := PcOf(s, t), s.maps;
    if pc.addr !in m.allocs {
      n := 1;
      ResumedPlus(cfg, s, t, 1, 0);
    } else {
      var info := m.allocs[pc.addr];
      var s1 := Resumed(cfg, s, t);
      var s2 := Resumed(cfg, s1, t);
      var s3 := Resumed(cfg, s2, t);
      if Tracked(m, info) {
        var s4 := Resumed(cfg, s3, t);
        assert Becomes(s, s4, t, FreeEntered(m, pc.addr), After(pc.next));
        n := 4;
        assert ResumedTimes(cfg, s3, t, 1) == s4;
        assert ResumedTimes(cfg, s2, t, 2) == s4;
        assert ResumedTimes(cfg, s1, t, 3) == s4;
      } else {
        assert Becomes(s, s3, t, FreeEntered(m, pc.addr), After(pc.next));
        n := 3;
        assert ResumedTimes(cfg, s2, t, 1) == s3;
        assert ResumedTimes(cfg, s1, t, 2) == s3;
      }
    }
  }

  lemma StatisticsAddAlone(cfg: Config, s: State, t: nat) returns (n: nat)
    requires PcOf(s, t).AddLookup?
    ensures var info := PcOf(s, t).info;
      Becomes(s, ResumedTimes(cfg, s, t, n), t,
              s.maps.(combined := StatisticsAdded(cfg, s.maps.combined, info)), Idle)
  {
    var m, info := s.maps, PcOf(s, t).info;
    var s1 := Resumed(cfg, s, t);
    var s2 := Resumed(cfg, s1, t);
    if Tracked(m, info) || |m.combined| >= cfg.combinedMax {
      n := 2;
      assert ResumedTimes(cfg, s1, t, 1) == s2;
    } else {
      InitAlone(cfg, s1, t);
      n := 4;
      assert ResumedTimes(cfg, s, t, n) == ResumedTimes(cfg, s1, t, 3);
    }
  }

  lemma InitAlone(cfg: Config, s: State, t: nat)
    requires PcOf(s, t).AddInit? && !Tracked(s.maps, PcOf(s, t).info) && |s.maps.combined| < cfg.combinedMax
    ensures var info := PcOf(s, t).info;
      Becomes(s, ResumedTimes(cfg, s, t, 3), t,
              s.maps.(combined := s.maps.combined[StackKey(info.stackId) := FetchAdd(0, info.size)]), Idle)
  {
    var s1 := Resumed(cfg, s, t);
    var s2 := Resumed(cfg, s1, t);
    var s3 := Resumed(cfg, s2, t);
    assert ResumedTimes(cfg, s2, t, 1) == s3;
    assert ResumedTimes(cfg, s1, t, 2) == s3;
  }

  /** From the start of an allocation to the point where its record is about to be stored. */
  lemma TakeAlone(cfg: Config, s: State, t: nat) returns (n: nat)
    requires PcOf(s, t).Enter?
    ensures
      var call := PcOf(s, t).call;
      var entered := AllocEntered(cfg, s.maps, call.ctx, call.size);
      var s' := ResumedTimes(cfg, s, t, n);
      if call.ctx.pid !in entered.sizes then Becomes(s, s', t, entered, Idle)
      else
        Becomes(s, s', t, entered.(sizes := entered.sizes - {call.ctx.pid}),
                if call.address == 0 then Idle else Record(call, InfoOf(call.ctx, entered.sizes[call.ctx.pid])))
  {
    var s1 := Resumed(cfg, s, t);
    var s2 := Resumed(cfg, s1, t);
    if PcOf(s2, t) == Idle {
      n := 2;
      assert ResumedTimes(cfg, s1, t, 1) == s2;
    } else {
      var s3 := Resumed(cfg, s2, t);
      n := 3;
      assert ResumedTimes(cfg, s2, t, 1) == s3;
      assert ResumedTimes(cfg, s1, t, 2) == s3;
    }
  }

  lemma RecordAlone(cfg: Config, s: State, t: nat) returns (n: nat)
    requires PcOf(s, t).Record?
    ensures var pc := PcOf(s, t);
      Becomes(s, ResumedTimes(cfg, s, t, n), t, Recorded(cfg, s.maps, pc.call.address, pc.info), Idle)
  {
    var s1 := Resumed(cfg, s, t);
    var k := StatisticsAddAlone(cfg, s1, t);
    n := 1 + k;
    assert ResumedTimes(cfg, s, t, n) == ResumedTimes(cfg, s1, t, k);
  }

  lemma AllocAlone(cfg: Config, s: State, t: nat) returns (n: nat)
    requires PcOf(s, t).Enter?
    ensures var call := PcOf(s, t).call;
      Becomes(s, ResumedTimes(cfg, s, t, n), t, Allocated(cfg, s.maps, call.ctx, call.address, call.size), Idle)
  {
    var call := PcOf(s, t).call;
    var k := TakeAlone(cfg, s, t);
    n := k;
    var s1 := ResumedTimes(cfg, s, t, k);
    if PcOf(s1, t).Record? {
      var j := RecordAlone(cfg, s1, t);
      ResumedPlus(cfg, s, t, k, j);
      n := k + j;
      var s2 := ResumedTimes(cfg, s1, t, j);
      assert s2.maps == Allocated(cfg, s.maps, call.ctx, call.address, call.size);
      assert s2.pcs == s.pcs[t := Idle];
    }
  }

  /** Running a handler from start to finish with nothing in between is the atomic handler. */
  lemma HandlerAlone(cfg: Config, s: State, t: nat, ev: Event) returns (n: nat)
    requires PcOf(s, t) == Idle
    ensures Becomes(s, ResumedTimes(cfg, Taken(cfg, s, Begin(t, ev)), t, n), t, Handled(cfg, s.maps, ev), Idle)
  {
    var s0 := Taken(cfg, s, Begin(t, ev));
    if PcOf(s0, t).Enter? {
      n := AllocAlone(cfg, s0, t);
    } else {
      n := FreeAlone(cfg, s0, t);
      if ev.SlabAlloc? {
        var s1 := ResumedTimes(cfg, s0, t, n);
        assert PcOf(s1, t) == Enter(Call(ev.ctx, ev.ptr, ev.bytes));
        var j := AllocAlone(cfg, s1, t);
        ResumedPlus(cfg, s0, t, n, j);
        n := n + j;
      }
    }
  }

  // ---- Building interleavings ----

  function Resumes(t: nat, n: nat): (actions: seq<Action>)
    ensures |actions| == n
  {
    if n == 0 then [] else Resumes(t, n - 1) + [Resume(t)]
  }

  lemma ReachedNext(cfg: Config, actions: seq<Action>, a: Action)
    ensures Reached(cfg, actions + [a]) == Taken(cfg, Reached(cfg, actions), a)
  {
    assert (actions + [a])[..|actions|] == actions;
  }

  lemma {:induction false} ReachedResumes(cfg: Config, actions: seq<Action>, t: nat, n: nat)
    ensures Reached(cfg, actions + Resumes(t, n)) == ResumedTimes(cfg, Reached(cfg, actions), t, n)
    decreases n
  {
    if n == 0 {
      assert actions + Resumes(t, n) == actions;
    } else {
      ReachedResumes(cfg, actions, t, n - 1);
      assert actions + Resumes(t, n) == (actions + Resumes(t, n - 1)) + [Resume(t)];
      ReachedNext(cfg, actions + Resumes(t, n - 1), Resume(t));
      ResumedOnceMore(cfg, Reached(cfg, actions), t, n - 1);
    }
  }

  lemma {:induction false} ResumedOnceMore(cfg: Config, s: State, t: nat, n: nat)
    ensures ResumedTimes(cfg, s, t, n + 1) == Resumed(cfg, ResumedTimes(cfg, s, t, n), t)
    decreases n
  {
    if n > 0 {
      ResumedOnceMore(cfg, Resumed(cfg, s, t), t, n - 1);
    }
  }

  /** One whole handler appended to an interleaving, on an idle processor. */
  lemma ReachedHandler(cfg: Config, actions: seq<Action>, t: nat, ev: Event) returns (more: seq<Action>)
    requires PcOf(Reached(cfg, actions), t) == Idle
    ensures actions <= more
    ensures Becomes(Reached(cfg, actions), Reached(cfg, more), t, Handled(cfg, Reached(cfg, actions).maps, ev), Idle)
  {
    var n := HandlerAlone(cfg, Reached(cfg, actions), t, ev);
    ReachedNext(cfg, actions, Begin(t, ev));
    ReachedResumes(cfg, actions + [Begin(t, ev)], t, n);
    more := actions + [Begin(t, ev)] + Resumes(t, n);
  }

  /** Every run of atomic handlers is one of the interleavings. */
  lemma {:induction false} AtomicRunIsAnInterleaving(cfg: Config, events: seq<Event>) returns (actions: seq<Action>)
    ensures Reached(cfg, actions).maps == Run(cfg, events).maps && Quiescent(Reached(cfg, actions))
    decreases |events|
  {
    if events == [] {
      actions := [];
    } else {
      var before, ev := events[..|events| - 1], events[|events| - 1];
      var most := AtomicRunIsAnInterleaving(cfg, before);
      actions := ReachedHandler(cfg, most, 0, ev);
      StepHandles(cfg, Run(cfg, before), ev);
      assert events == before + [ev];
      RunStep(cfg, before, ev);
    }
  }
}
