/**
 The statistics under arbitrary interleaving. At any instant a word differs from the fold over
 the live table by exactly three things: the handlers that have changed the table and not yet
 the word, the records that will never be subtracted, and the subtractions that had no record.
 */
module ConcurrentAccounting {
  import opened PackedWord
  import opened Sums
  import opened Ledger
  import opened Accounting
  import opened Interleaving

  // ---- The balance that every single operation keeps ----

  predicate Subbing(pc: Pc) {
    pc.StatLookup? || pc.StatSub?
  }

  /** What a handler in flight still has to add to (respectively subtract from) the word. */
  function StillToAdd(key: U64, pc: Pc): nat {
    if Adding(pc) then BitsOf(key)(pc.info) else 0
  }

  function StillToSub(key: U64, pc: Pc): nat {
    if Subbing(pc) then BitsOf(key)(pc.info) else 0
  }

  function PendingAdd(key: U64): Pc -> nat {
    (pc: Pc) => StillToAdd(key, pc)
  }

  function PendingSub(key: U64): Pc -> nat {
    (pc: Pc) => StillToSub(key, pc)
  }

  ghost function Net(s: State, key: U64): int {
    (Live(s.maps, key) + SumSeq(s.lost, BitsOf(key)) + SumMap(s.pcs, PendingSub(key)))
    - (SumSeq(s.excess, BitsOf(key)) + SumMap(s.pcs, PendingAdd(key)))
  }

  ghost predicate NetBalancedAt(cfg: Config, s: State, key: U64) {
    WordMatches(cfg, s.maps.combined, key, Net(s, key))
  }

  /** A handler that holds a pointer to a word holds it to a word that exists. */
  ghost predicate PointersValid(s: State) {
    forall t: nat :: PointerValid(s.maps, PcOf(s, t))
  }

  ghost predicate NetBalanced(cfg: Config, s: State) {
    PointersValid(s) && forall key: U64 :: NetBalancedAt(cfg, s, key)
  }

  lemma Moved(s: State, t: nat, pc: Pc, w: Pc -> nat)
    requires w(Idle) == 0
    ensures SumMap(s.pcs[t := pc], w) + w(PcOf(s, t)) == SumMap(s.pcs, w) + w(pc)
  {
    if t in s.pcs {
      SumMapReplace(s.pcs, t, pc, w);
    } else {
      SumMapInsert(s.pcs, t, pc, w);
    }
  }

  lemma MovedNet(s: State, t: nat, pc: Pc, key: U64)
    ensures Net(Goto(s, t, pc), key)
         == Net(s, key) + PendingSub(key)(pc) - PendingSub(key)(PcOf(s, t))
                        - PendingAdd(key)(pc) + PendingAdd(key)(PcOf(s, t))
  {
    Moved(s, t, pc, PendingSub(key));
    Moved(s, t, pc, PendingAdd(key));
  }

  lemma StoredNet(cfg: Config, s: State, addr: U64, info: AllocInfo, key: U64)
    ensures Net(Stored(cfg, s, addr, info), key) == Net(s, key) + BitsOf(key)(info)
  {
    StoringKeepsSum(cfg, s.maps.allocs, addr, info, BitsOf(key));
    SumSeqAppend(s.lost, LostAt(cfg, s.maps.allocs, addr, info), BitsOf(key));
  }

  lemma DeletedNet(s: State, addr: U64, info: AllocInfo, key: U64)
    ensures Net(Deleted(s, addr, info), key) == Net(s, key) - BitsOf(key)(info)
  {
    var w := BitsOf(key);
    SumSeqAppend(s.excess, [info], w);
    SumSeqOne(info, w);
    if addr in s.maps.allocs {
      var found := s.maps.allocs[addr];
      SumMapRemove(s.maps.allocs, addr, w);
      SumSeqAppend(s.lost, [found], w);
      SumSeqOne(found, w);
    } else {
      assert s.maps.allocs - {addr} == s.maps.allocs;
    }
  }

  lemma SkippedNet(s: State, info: AllocInfo, key: U64)
    ensures Net(s.(lost := s.lost + [info]), key) == Net(s, key) + BitsOf(key)(info)
  {
    SumSeqAppend(s.lost, [info], BitsOf(key));
    SumSeqOne(info, BitsOf(key));
  }

  /** Only the two fetch operations and an add that is given up change the net balance. */
  function NetChange(cfg: Config, s: State, t: nat, key: U64): int {
    var pc := PcOf(s, t);
    if pc.AddAdd? then BitsOf(key)(pc.info)
    else if pc.StatSub? then -1 * BitsOf(key)(pc.info)
    else if pc.AddInit? && !Tracked(s.maps, pc.info) && |s.maps.combined| >= cfg.combinedMax then BitsOf(key)(pc.info)
    else if pc.AddRelookup? && !Tracked(s.maps, pc.info) then BitsOf(key)(pc.info)
    else 0
  }

  predicate TouchesRecords(pc: Pc) {
    pc.FreeDelete? || pc.StatLookup? || pc.Record?
  }

  lemma TableUntouched(cfg: Config, s: State, t: nat)
    requires !TouchesRecords(PcOf(s, t)) && PcOf(s, t) != Idle
    ensures var s' := Resumed(cfg, s, t);
      && s'.maps.allocs == s.maps.allocs && s'.lost == s.lost && s'.excess == s.excess
      && s'.pcs == s.pcs[t := PcOf(s', t)]
  {
    var pc := PcOf(s, t);
    if Freeing(pc) {
      assert pc.FreeLookup? || pc.StatSub?;
    } else if Allocating(pc) {
      assert !pc.Record?;
    }
  }

  lemma PendingMoves(cfg: Config, s: State, t: nat, key: U64)
    requires !TouchesRecords(PcOf(s, t)) && PcOf(s, t) != Idle
    ensures var pc, pc' := PcOf(s, t), PcOf(Resumed(cfg, s, t), t);
      StillToSub(key, pc') - StillToSub(key, pc) - StillToAdd(key, pc') + StillToAdd(key, pc)
      == NetChange(cfg, s, t, key)
  {
  }

  lemma FreeDeleteNet(cfg: Config, s: State, t: nat, key: U64)
    requires PcOf(s, t).FreeDelete?
    ensures Net(Resumed(cfg, s, t), key) == Net(s, key)
  {
    var FreeDelete(addr, info, next) := PcOf(s, t);
    var mid := Deleted(s, addr, info);
    DeletedNet(s, addr, info, key);
    MovedNet(mid, t, StatLookup(addr, info, next), key);
    assert PcOf(mid, t) == PcOf(s, t);
    assert StillToSub(key, StatLookup(addr, info, next)) == BitsOf(key)(info);
  }

  lemma StatFoundNet(cfg: Config, s: State, t: nat, key: U64)
    requires PcOf(s, t).StatLookup? && Tracked(s.maps, PcOf(s, t).info)
    ensures Net(Resumed(cfg, s, t), key) == Net(s, key)
  {
    var pc := PcOf(s, t);
    MovedNet(s, t, StatSub(pc.addr, pc.info, pc.next), key);
  }

  lemma StatMissingNet(cfg: Config, s: State, t: nat, key: U64)
    requires PcOf(s, t).StatLookup? && !Tracked(s.maps, PcOf(s, t).info)
    ensures Net(Resumed(cfg, s, t), key) == Net(s, key)
  {
    var pc := PcOf(s, t);
    var skipped := s.(lost := s.lost + [pc.info]);
    SkippedNet(s, pc.info, key);
    MovedNet(skipped, t, After(pc.next), key);
    assert PcOf(skipped, t) == pc;
    assert StillToSub(key, pc) == BitsOf(key)(pc.info);
    assert !Adding(After(pc.next)) && !Subbing(After(pc.next)) && !Adding(pc);
  }

  lemma RecordNet(cfg: Config, s: State, t: nat, key: U64)
    requires PcOf(s, t).Record?
    ensures Net(Resumed(cfg, s, t), key) == Net(s, key)
  {
    var Record(call, info) := PcOf(s, t);
    var mid := Stored(cfg, s, call.address, info);
    StoredNet(cfg, s, call.address, info, key);
    MovedNet(mid, t, AddLookup(call.address, info), key);
    assert PcOf(mid, t) == PcOf(s, t);
    assert StillToAdd(key, AddLookup(call.address, info)) == BitsOf(key)(info);
  }

  lemma ResumedNet(cfg: Config, s: State, t: nat, key: U64)
    ensures Net(Resumed(cfg, s, t), key) == Net(s, key) + NetChange(cfg, s, t, key)
  {
    var pc := PcOf(s, t);
    if pc.FreeDelete? {
      FreeDeleteNet(cfg, s, t, key);
    } else if pc.StatLookup? && Tracked(s.maps, pc.info) {
      StatFoundNet(cfg, s, t, key);
    } else if pc.StatLookup? {
      StatMissingNet(cfg, s, t, key);
    } else if pc.Record? {
      RecordNet(cfg, s, t, key);
    } else if pc != Idle {
      TableUntouched(cfg, s, t);
      PendingMoves(cfg, s, t, key);
      MovedNet(s, t, PcOf(Resumed(cfg, s, t), t), key);
    }
  }

  lemma ResumedBalancesAt(cfg: Config, s: State, t: nat, key: U64)
    requires PointerValid(s.maps, PcOf(s, t)) && NetBalancedAt(cfg, s, key)
    ensures NetBalancedAt(cfg, Resumed(cfg, s, t), key)
  {
    ResumedNet(cfg, s, t, key);
    WordStep(cfg, s, t, key, Net(s, key), Net(Resumed(cfg, s, t), key));
  }

  lemma ResumedBalances(cfg: Config, s: State, t: nat)
    requires NetBalanced(cfg, s)
    ensures NetBalanced(cfg, Resumed(cfg, s, t))
  {
    PointersStayValid(cfg, s, t);
    forall key: U64
      ensures NetBalancedAt(cfg, Resumed(cfg, s, t), key)
    {
      assert NetBalancedAt(cfg, s, key);
      ResumedBalancesAt(cfg, s, t, key);
    }
  }

  predicate PointerValid(m: Maps, pc: Pc) {
    pc.StatSub? || pc.AddRelookup? || pc.AddAdd? ==> Tracked(m, pc.info)
  }

  lemma KeysStay(cfg: Config, s: State, t: nat)
    requires PointerValid(s.maps, PcOf(s, t))
    ensures s.maps.combined.Keys <= Resumed(cfg, s, t).maps.combined.Keys
    ensures PointerValid(Resumed(cfg, s, t).maps, PcOf(Resumed(cfg, s, t), t))
  {
    if Adding(PcOf(s, t)) {
      KeysStayAdding(cfg, s, t);
    } else if Allocating(PcOf(s, t)) {
      assert Resumed(cfg, s, t).maps.combined == s.maps.combined;
    } else if Freeing(PcOf(s, t)) {
      KeysStayFreeing(s, t);
    }
  }

  lemma KeysStayFreeing(s: State, t: nat)
    requires Freeing(PcOf(s, t)) && PointerValid(s.maps, PcOf(s, t))
    ensures var s' := FreeResumed(s, t);
      s.maps.combined.Keys <= s'.maps.combined.Keys && PointerValid(s'.maps, PcOf(s', t))
  {
  }

  lemma KeysStayAdding(cfg: Config, s: State, t: nat)
    requires Adding(PcOf(s, t)) && PointerValid(s.maps, PcOf(s, t))
    ensures var s' := AddResumed(cfg, s, t);
      s.maps.combined.Keys <= s'.maps.combined.Keys && PointerValid(s'.maps, PcOf(s', t))
  {
  }

  lemma OthersStay(cfg: Config, s: State, t: nat, u: nat)
    requires u != t
    ensures PcOf(Resumed(cfg, s, t), u) == PcOf(s, u)
  {
  }

  lemma PointersStayValid(cfg: Config, s: State, t: nat)
    requires PointersValid(s)
    ensures PointersValid(Resumed(cfg, s, t))
  {
    KeysStay(cfg, s, t);
    forall u: nat
      ensures PointerValid(Resumed(cfg, s, t).maps, PcOf(Resumed(cfg, s, t), u))
    {
      if u != t {
        OthersStay(cfg, s, t, u);
      }
    }
  }

  lemma WordStep(cfg: Config, s: State, t: nat, key: U64, net: int, after: int)
    requires PointerValid(s.maps, PcOf(s, t)) && WordMatches(cfg, s.maps.combined, key, net)
    requires after == net + NetChange(cfg, s, t, key)
    ensures WordMatches(cfg, Resumed(cfg, s, t).maps.combined, key, after)
  {
    var pc := PcOf(s, t);
    if Adding(pc) {
      WordStepAdding(cfg, s, t, key, net);
    } else if pc.StatSub? {
      assert FreeResumed(s, t).maps.combined
          == s.maps.combined[StackKey(pc.info.stackId) := Apply(Word(s.maps, pc.info), Sub(pc.info.size))];
      FetchStep(cfg, s.maps.combined, key, pc.info, Sub(pc.info.size), net);
    } else {
      WordsUntouched(cfg, s, t);
    }
  }

  lemma WordsUntouched(cfg: Config, s: State, t: nat)
    requires !Adding(PcOf(s, t)) && !PcOf(s, t).StatSub?
    ensures Resumed(cfg, s, t).maps.combined == s.maps.combined
  {
    if Freeing(PcOf(s, t)) {
      assert FreeResumed(s, t).maps.combined == s.maps.combined;
    }
  }

  lemma WordStepAdding(cfg: Config, s: State, t: nat, key: U64, net: int)
    requires Adding(PcOf(s, t)) && PointerValid(s.maps, PcOf(s, t))
    requires WordMatches(cfg, s.maps.combined, key, net)
    ensures WordMatches(cfg, AddResumed(cfg, s, t).maps.combined, key, net + NetChange(cfg, s, t, key))
  {
    var pc := PcOf(s, t);
    if pc.AddAdd? {
      FetchStep(cfg, s.maps.combined, key, pc.info, Add(pc.info.size), net);
    } else if pc.AddInit? {
      InitStep(cfg, s.maps.combined, StackKey(pc.info.stackId), key, net);
    }
  }

  lemma FetchStep(cfg: Config, combined: map<U64, U64>, key: U64, info: AllocInfo, u: Update, net: int)
    requires WordMatches(cfg, combined, key, net)
    requires StackKey(info.stackId) in combined && u.size == info.size
    ensures
      var changed := combined[StackKey(info.stackId) := Apply(combined[StackKey(info.stackId)], u)];
      WordMatches(cfg, changed, key, if StackKey(info.stackId) == key then net + Signed(u) else net)
  {
    var changed := combined[StackKey(info.stackId) := Apply(combined[StackKey(info.stackId)], u)];
    if StackKey(info.stackId) == key {
      ApplyWraps(combined[key], net, u);
    } else {
      assert changed.Keys == combined.Keys;
      assert |combined| == |combined.Keys| && |changed| == |changed.Keys|;
    }
  }

  lemma InitStep(cfg: Config, combined: map<U64, U64>, added: U64, key: U64, net: int)
    requires WordMatches(cfg, combined, key, net)
    ensures added !in combined && |combined| < cfg.combinedMax ==> WordMatches(cfg, combined[added := 0], key, net)
  {
    if added !in combined && |combined| < cfg.combinedMax && key != added {
      assert |combined[added := 0]| == |combined| + 1;
    }
  }

  lemma TakenBalances(cfg: Config, s: State, a: Action)
    requires NetBalanced(cfg, s)
    ensures NetBalanced(cfg, Taken(cfg, s, a))
  {
    match a
    case Begin(t, ev) =>
      if PcOf(s, t) == Idle {
        var s' := Goto(s, t, First(cfg, ev));
        assert forall u: nat :: PcOf(s', u) == if u == t then First(cfg, ev) else PcOf(s, u);
        forall key: U64
          ensures NetBalancedAt(cfg, Taken(cfg, s, a), key)
        {
          assert NetBalancedAt(cfg, s, key);
          MovedNet(s, t, First(cfg, ev), key);
        }
      }
    case Resume(t) => ResumedBalances(cfg, s, t);
  }

  /** Every reachable state of every interleaving balances. */
  lemma {:induction false} EveryInterleavingBalances(cfg: Config, actions: seq<Action>, s: State)
    requires s == Reached(cfg, actions)
    ensures NetBalanced(cfg, s)
    decreases |actions|
  {
    if actions != [] {
      var before := Reached(cfg, actions[..|actions| - 1]);
      EveryInterleavingBalances(cfg, actions[..|actions| - 1], before);
      TakenBalances(cfg, before, actions[|actions| - 1]);
    } else {
      forall key: U64 ensures NetBalancedAt(cfg, INITIAL, key) {
        SumMapZero(EMPTY.allocs, BitsOf(key));
        SumMapZero(INITIAL.pcs, PendingAdd(key));
        SumMapZero(INITIAL.pcs, PendingSub(key));
      }
    }
  }
}
