/**
 The program's main loop around the pipeline. What the select yields, and what the producers add
 while it waits and while it flushes, are given for each turn.
 */
module MainLoop {
  import opened Telemetry
  import opened PipelineBuffer
  import P = FlushProtocol

  /** The case of the select that is taken. */
  datatype Wake = Done | Interrupt | Tick | Token

  /** The producers add `waiting` before the loop wakes, `locking` after that but before the flush
      has its lock, and `flushing` in the course of the flush. */
  datatype Turn = Turn(waiting: seq<P.Entry>, wake: Wake, locking: seq<P.Entry>,
                       flushing: nat -> nat -> seq<P.Entry>)

  function Woken(kinds: seq<set<Kind>>, s: P.State, turn: Turn, final: bool): (s': P.State)
    requires |s.writes| == |kinds|
    ensures |s'.writes| == |kinds|
  {
    Flushed(kinds, P.Extended(s.(consumer := P.Committed(final)), turn.locking), turn.flushing)
  }

  /** A case that is not ready cannot be taken, and the loop goes on waiting. */
  function AfterCase(kinds: seq<set<Kind>>, s: P.State, turn: Turn): (s': P.State)
    requires |s.writes| == |kinds|
    ensures |s'.writes| == |kinds|
  {
    match turn.wake
    case Done => if s.cancelled then Woken(kinds, s, turn, true) else s
    case Interrupt => s.(cancelled := true)
    case Tick => Woken(kinds, s, turn, false)
    case Token => if s.token then Woken(kinds, s.(token := false), turn, false) else s
  }

  /** The turns up to the one that returns. */
  function AfterTurns(kinds: seq<set<Kind>>, s: P.State, turns: seq<Turn>): (s': P.State)
    requires |s.writes| == |kinds|
    ensures |s'.writes| == |kinds|
  {
    if turns == [] then s
    else
      var before := AfterTurns(kinds, s, turns[..|turns| - 1]);
      var turn := turns[|turns| - 1];
      if before.consumer.Stopped? then before
      else AfterCase(kinds, P.Extended(before, turn.waiting), turn)
  }

  // ---- What a turn does, in terms of the buffer and the writes ----

  /** The select yields a case that flushes: a tick, the token if it is in the channel, or the
      cancellation after a signal. */
  predicate Flushes(s: P.State, turn: Turn) {
    || turn.wake.Tick?
    || (turn.wake.Token? && (s.token || (turn.waiting != [] && |s.buffer + turn.waiting| >= 100)))
    || (turn.wake.Done? && s.cancelled)
  }

  /** What is added in the course of a flush that takes `n` items. */
  function Arriving(turn: Turn, outputs: nat, n: nat): seq<P.Entry> {
    AllOf((i: nat) => AllOf(turn.flushing(i), n + 1), outputs) + turn.flushing(outputs)(0)
  }

  /** A turn that flushes takes everything added before its lock as one batch, unless there is
      nothing, and writes to each output what it supports of it; what is added later stays in the
      buffer. The token is there afterwards exactly if it was and was not taken, or some later item
      brought the buffer to a hundred. */
  ghost predicate FlushEffect(kinds: seq<set<Kind>>, b: P.State, turn: Turn, s': P.State) {
    var batch := b.buffer + turn.waiting + turn.locking;
    && |b.writes| == |s'.writes| == |kinds|
    && s'.taken == b.taken + (if batch == [] then [] else [batch])
    && s'.buffer == (if batch == [] then [] else Arriving(turn, |kinds|, |batch|))
    && s'.added == b.added + turn.waiting + turn.locking + s'.buffer
    && (forall i :: 0 <= i < |kinds| ==>
          var part := Supported(kinds[i], P.Items(batch));
          s'.writes[i] == b.writes[i] + if part == [] then [] else [part])
    && s'.consumer == (if turn.wake.Done? then P.Stopped else P.Waiting)
    && (s'.token <==>
          || (!turn.wake.Token? && (b.token || (turn.waiting != [] && |b.buffer + turn.waiting| >= 100)))
          || (turn.locking != [] && |batch| >= 100)
          || |s'.buffer| >= 100)
    && s'.cancelled == b.cancelled
  }

  lemma {:induction false} TurnFlushes(kinds: seq<set<Kind>>, s: P.State, turns: seq<Turn>, turn: Turn,
                                       b: P.State, s': P.State)
    requires |s.writes| == |kinds| && b == AfterTurns(kinds, s, turns) && b.consumer.Waiting?
    requires s' == AfterTurns(kinds, s, turns + [turn]) && Flushes(b, turn)
    ensures FlushEffect(kinds, b, turn, s')
  {
    TurnsSnoc(kinds, s, turns, turn);
    CaseFlushes(kinds, b, turn);
  }

  lemma {:induction false} TurnsSnoc(kinds: seq<set<Kind>>, s: P.State, turns: seq<Turn>, turn: Turn)
    requires |s.writes| == |kinds|
    ensures var b := AfterTurns(kinds, s, turns);
      !b.consumer.Stopped? ==>
        AfterTurns(kinds, s, turns + [turn]) == AfterCase(kinds, P.Extended(b, turn.waiting), turn)
  {
    assert (turns + [turn])[..|turns|] == turns;
  }

  lemma CaseFlushes(kinds: seq<set<Kind>>, b: P.State, turn: Turn)
    requires |b.writes| == |kinds| && b.consumer.Waiting? && Flushes(b, turn)
    ensures FlushEffect(kinds, b, turn, AfterCase(kinds, P.Extended(b, turn.waiting), turn))
  {
    var ready := P.Extended(b, turn.waiting);
    WokenEffect(kinds, if turn.wake.Token? then ready.(token := false) else ready, turn, turn.wake.Done?);
  }

  /** Any other turn only adds, and a signal is remembered. */
  lemma {:induction false} TurnAdds(kinds: seq<set<Kind>>, s: P.State, turns: seq<Turn>, turn: Turn,
                                    b: P.State, s': P.State)
    requires |s.writes| == |kinds| && b == AfterTurns(kinds, s, turns) && b.consumer.Waiting?
    requires s' == AfterTurns(kinds, s, turns + [turn]) && !Flushes(b, turn)
    ensures s' == b.(
      buffer := b.buffer + turn.waiting, added := b.added + turn.waiting,
      token := b.token || (turn.waiting != [] && |b.buffer + turn.waiting| >= 100),
      cancelled := b.cancelled || turn.wake.Interrupt?)
  {
    TurnsSnoc(kinds, s, turns, turn);
    CaseAdds(kinds, b, turn);
  }

  lemma CaseAdds(kinds: seq<set<Kind>>, b: P.State, turn: Turn)
    requires |b.writes| == |kinds| && b.consumer.Waiting? && !Flushes(b, turn)
    ensures AfterCase(kinds, P.Extended(b, turn.waiting), turn) == b.(
      buffer := b.buffer + turn.waiting, added := b.added + turn.waiting,
      token := b.token || (turn.waiting != [] && |b.buffer + turn.waiting| >= 100),
      cancelled := b.cancelled || turn.wake.Interrupt?)
  {
  }

  lemma WokenEffect(kinds: seq<set<Kind>>, s: P.State, turn: Turn, final: bool)
    requires |s.writes| == |kinds|
    ensures
      var s', batch := Woken(kinds, s, turn, final), s.buffer + turn.locking;
      && s'.taken == s.taken + (if batch == [] then [] else [batch])
      && s'.buffer == (if batch == [] then [] else Arriving(turn, |kinds|, |batch|))
      && s'.added == s.added + turn.locking + s'.buffer
      && (forall i :: 0 <= i < |kinds| ==>
            var part := Supported(kinds[i], P.Items(batch));
            s'.writes[i] == s.writes[i] + if part == [] then [] else [part])
      && s'.consumer == (if final then P.Stopped else P.Waiting) && s'.cancelled == s.cancelled
      && (s'.token <==> s.token || (turn.locking != [] && |batch| >= 100) || |s'.buffer| >= 100)
  {
    var batch := s.buffer + turn.locking;
    ArrivedIsAll(turn.flushing, (i: nat) => AllOf(turn.flushing(i), |batch| + 1), |kinds|, |batch|);
    if batch == [] {
      assert P.Items(batch) == [];
    }
  }

  /** A flush, with items added before it has the lock. Every output has then been handed what it
      supports of everything that was added before the lock. */
  method FlushNow(pipe: Pipeline, turn: Turn)
    requires pipe.Valid() && pipe.state.consumer.Committed?
    modifies pipe, pipe.backing, pipe.outputs
    ensures pipe.Valid() && (pipe.backing == old(pipe.backing) || fresh(pipe.backing))
    ensures pipe.state == Flushed(pipe.Kinds(), P.Extended(old(pipe.state), turn.locking), turn.flushing)
    ensures forall i :: 0 <= i < |pipe.outputs| ==>
      Flatten(pipe.outputs[i].writes)
      == Supported(pipe.outputs[i].kinds, P.Items(old(pipe.state).added + turn.locking))
  {
    pipe.AddAll(turn.locking);
    pipe.Flush(turn.flushing);
    HandedOver(pipe, old(pipe.state).added + turn.locking);
  }

  /** One case of the select. */
  method TakeCase(pipe: Pipeline, turn: Turn, cancelled: bool) returns (cancelled': bool, stopped: bool)
    requires pipe.Valid() && pipe.state.consumer.Waiting? && cancelled == pipe.state.cancelled
    modifies pipe, pipe.backing, pipe.outputs
    ensures pipe.Valid() && (pipe.backing == old(pipe.backing) || fresh(pipe.backing))
    ensures pipe.state == AfterCase(pipe.Kinds(), old(pipe.state), turn)
    ensures cancelled' == pipe.state.cancelled && stopped == pipe.state.consumer.Stopped?
    ensures !stopped ==> pipe.state.consumer.Waiting?
    ensures turn.wake.Tick? || (turn.wake.Token? && old(pipe.token)) || (turn.wake.Done? && cancelled) ==>
      forall i :: 0 <= i < |pipe.outputs| ==>
        Flatten(pipe.outputs[i].writes)
        == Supported(pipe.outputs[i].kinds, P.Items(old(pipe.state).added + turn.locking))
  {
    cancelled', stopped := cancelled, false;
    match turn.wake
    case Done =>
      if cancelled {
        pipe.Perform(P.Done);
        FlushNow(pipe, turn);
        stopped := true;
      }
    case Interrupt =>
      cancelled' := true;
      pipe.Perform(P.Shutdown);
    case Tick =>
      pipe.Perform(P.Tick);
      FlushNow(pipe, turn);
    case Token =>
      if pipe.token {
        pipe.ReceiveToken();
        FlushNow(pipe, turn);
      }
  }

  lemma HandedOver(pipe: Pipeline, before: seq<P.Entry>)
    requires pipe.Valid() && (pipe.state.consumer.Waiting? || pipe.state.consumer.Stopped?)
    ensures pipe.state.added == before + pipe.state.buffer ==>
      forall i :: 0 <= i < |pipe.outputs| ==>
        Flatten(pipe.outputs[i].writes) == Supported(pipe.outputs[i].kinds, P.Items(before))
  {
    if pipe.state.added == before + pipe.state.buffer {
      QuietIsExact(pipe);
      P.ItemsAppend(before, pipe.state.buffer);
      P.ItemsLength(pipe.state.added);
      P.ItemsLength(pipe.state.buffer);
      P.ItemsLength(before);
    }
  }

  /** The loop takes its turns as described, and whether it returns or is still waiting, the
      pipeline is exact. */
  method Run(pipe: Pipeline, turns: seq<Turn>) returns (stopped: bool)
    requires pipe.Valid() && pipe.state.consumer.Waiting? && !pipe.state.cancelled
    modifies pipe, pipe.backing, pipe.outputs
    ensures pipe.Valid() && pipe.state == AfterTurns(pipe.Kinds(), old(pipe.state), turns)
    ensures stopped == pipe.state.consumer.Stopped? && (!stopped ==> pipe.state.consumer.Waiting?)
    ensures Exact(pipe)
  {
    var cancelled := false;
    stopped := false;
    for k := 0 to |turns|
      invariant pipe.Valid() && (pipe.backing == old(pipe.backing) || fresh(pipe.backing))
      invariant pipe.state.consumer.Waiting? && cancelled == pipe.state.cancelled && !stopped
      invariant pipe.state == AfterTurns(pipe.Kinds(), old(pipe.state), turns[..k])
    {
      assert turns[..k + 1][..k] == turns[..k];
      pipe.AddAll(turns[k].waiting);
      cancelled, stopped := TakeCase(pipe, turns[k], cancelled);
      if stopped {
        StoppedForGood(pipe.Kinds(), old(pipe.state), turns, k + 1);
        QuietIsExact(pipe);
        return;
      }
    }
    assert turns[..|turns|] == turns;
    QuietIsExact(pipe);
  }

  lemma {:induction false} StoppedForGood(kinds: seq<set<Kind>>, s: P.State, turns: seq<Turn>, k: nat)
    requires |s.writes| == |kinds| && k <= |turns|
    requires AfterTurns(kinds, s, turns[..k]).consumer.Stopped?
    ensures AfterTurns(kinds, s, turns) == AfterTurns(kinds, s, turns[..k])
    decreases |turns|
  {
    if k == |turns| {
      assert turns[..k] == turns;
    } else {
      assert turns[..|turns| - 1][..k] == turns[..k];
      StoppedForGood(kinds, s, turns[..|turns| - 1], k);
    }
  }

  predicate Signalled(turns: seq<Turn>) {
    exists i :: 0 <= i < |turns| && turns[i].wake.Interrupt?
  }

  lemma CaseStops(kinds: seq<set<Kind>>, s: P.State, turn: Turn)
    requires |s.writes| == |kinds| && s.consumer.Waiting?
    ensures var s' := AfterCase(kinds, P.Extended(s, turn.waiting), turn);
      && (s'.consumer.Waiting? || s'.consumer.Stopped?)
      && (s'.consumer.Stopped? <==> turn.wake.Done? && s.cancelled)
      && (s'.cancelled <==> s.cancelled || turn.wake.Interrupt?)
  {
  }

  lemma SignalledSnoc(before: seq<Turn>, turn: Turn)
    ensures Signalled(before + [turn]) <==> Signalled(before) || turn.wake.Interrupt?
    ensures SignalThenDone(before + [turn]) <==> SignalThenDone(before) || (turn.wake.Done? && Signalled(before))
  {
    var turns, n := before + [turn], |before|;
    assert turns[..n] == before && turns[n] == turn;
    assert forall j :: 0 <= j < n ==> before[j] == turns[j] && before[..j] == turns[..j];
  }

  predicate SignalThenDone(turns: seq<Turn>) {
    exists j :: 0 <= j < |turns| && turns[j].wake.Done? && Signalled(turns[..j])
  }

  /** The loop returns if and only if it sees the cancellation in a turn after one with a signal. */
  lemma {:induction false} StopsIff(kinds: seq<set<Kind>>, s: P.State, turns: seq<Turn>, s': P.State)
    requires |s.writes| == |kinds| && s.consumer.Waiting? && !s.cancelled
    requires s' == AfterTurns(kinds, s, turns)
    ensures s'.consumer.Waiting? || s'.consumer.Stopped?
    ensures s'.consumer.Stopped? <==> SignalThenDone(turns)
    ensures s'.consumer.Waiting? ==> (s'.cancelled <==> Signalled(turns))
    decreases |turns|
  {
    if turns != [] {
      var before, turn := turns[..|turns| - 1], turns[|turns| - 1];
      StopsIff(kinds, s, before, AfterTurns(kinds, s, before));
      assert turns == before + [turn];
      SignalledSnoc(before, turn);
      if AfterTurns(kinds, s, before).consumer.Waiting? {
        CaseStops(kinds, AfterTurns(kinds, s, before), turn);
      }
    }
  }
}
