/**
 Many producers and one flusher. A producer appends under the lock, unlocks, and only then
 signals a channel that holds one token; the main loop takes a tick, a token or the shutdown
 and flushes. Lock sections are single steps here, and everything between them interleaves.
 */
module FlushProtocol {
  import opened Telemetry

  const FLUSH_THRESHOLD: nat := 100

  /** An item and the producer it came from. */
  datatype Entry = Entry(source: nat, item: Item)

  /** The main loop waits in its select; or has taken a case that flushes and is about to lock;
      or is handing the batch it took to its outputs; or has returned. */
  datatype Consumer =
    | Waiting
    | Committed(final: bool)
    | Writing(batch: seq<Entry>, served: nat, final: bool)
    | Stopped

  /** `signalling` are the producers between unlock and send whose append made the buffer reach
      the threshold. `added`, `taken` and `writes` are histories: items in lock order, batches
      in flush order, and the arguments of each output's Write calls. */
  datatype State = State(
    buffer: seq<Entry>, token: bool, signalling: set<nat>, consumer: Consumer, cancelled: bool,
    added: seq<Entry>, taken: seq<seq<Entry>>, writes: seq<seq<seq<Item>>>)

  datatype Step =
    | Append(producer: nat, item: Item)
    | Signal(producer: nat)
    | ReceiveToken
    | Tick
    | Shutdown
    | Done
    | Lock
    | Serve

  function Start(outputs: seq<set<Kind>>): State {
    State([], false, {}, Waiting, false, [], [], seq(|outputs|, _ => []))
  }

  function Items(entries: seq<Entry>): seq<Item> {
    if entries == [] then [] else Items(entries[..|entries| - 1]) + [entries[|entries| - 1].item]
  }

  function AfterFlush(final: bool): Consumer {
    if final then Stopped else Waiting
  }

  /** A step that is not possible in the state leaves it as it is. */
  function Next(outputs: seq<set<Kind>>, s: State, step: Step): (s': State)
    requires |s.writes| == |outputs|
    ensures |s'.writes| == |outputs|
  {
    match step
    case Append(p, item) =>
      if p in s.signalling then s
      else
        var buffer := s.buffer + [Entry(p, item)];
        s.(buffer := buffer, added := s.added + [Entry(p, item)],
           signalling := if |buffer| >= FLUSH_THRESHOLD then s.signalling + {p} else s.signalling)
    case Signal(p) =>
      if p in s.signalling then s.(token := true, signalling := s.signalling - {p}) else s
    case ReceiveToken =>
      if s.consumer.Waiting? && s.token then s.(token := false, consumer := Committed(false)) else s
    case Tick => if s.consumer.Waiting? then s.(consumer := Committed(false)) else s
    case Shutdown => if s.consumer.Waiting? then s.(cancelled := true) else s
    case Done => if s.consumer.Waiting? && s.cancelled then s.(consumer := Committed(true)) else s
    case Lock =>
      if !s.consumer.Committed? then s
      else if s.buffer == [] then s.(consumer := AfterFlush(s.consumer.final))
      else s.(buffer := [], taken := s.taken + [s.buffer], consumer := Writing(s.buffer, 0, s.consumer.final))
    case Serve =>
      if !s.consumer.Writing? then s
      else if s.consumer.served >= |outputs| then s.(consumer := AfterFlush(s.consumer.final))
      else
        var i := s.consumer.served;
        s.(writes := s.writes[i := Delivered(outputs[i], s.writes[i], Items(s.consumer.batch))],
           consumer := s.consumer.(served := i + 1))
  }

  function Reached(outputs: seq<set<Kind>>, steps: seq<Step>): (s: State)
    ensures |s.writes| == |outputs|
  {
    if steps == [] then Start(outputs)
    else Next(outputs, Reached(outputs, steps[..|steps| - 1]), steps[|steps| - 1])
  }

  /** The states along a run, the first and the last included. */
  ghost predicate IsRun(outputs: seq<set<Kind>>, steps: seq<Step>, states: seq<State>) {
    && |states| == |steps| + 1 && states[0] == Start(outputs)
    && (forall k :: 0 <= k < |states| ==> |states[k].writes| == |outputs|)
    && forall k :: 0 <= k < |steps| ==> states[k + 1] == Next(outputs, states[k], steps[k])
  }

  lemma {:induction false} RunIsReached(outputs: seq<set<Kind>>, steps: seq<Step>, states: seq<State>)
    requires IsRun(outputs, steps, states)
    ensures states[|steps|] == Reached(outputs, steps)
    decreases |steps|
  {
    if steps != [] {
      RunIsReached(outputs, steps[..|steps| - 1], states[..|steps|]);
    }
  }

  lemma RunExtends(outputs: seq<set<Kind>>, steps: seq<Step>, states: seq<State>, step: Step)
    requires IsRun(outputs, steps, states)
    ensures IsRun(outputs, steps + [step], states + [Next(outputs, states[|steps|], step)])
  {
  }

  /** The state after more items, each appended and signalled at once: the token is there if it
      was, or if some append reached the threshold. */
  function Extended(s: State, entries: seq<Entry>): State {
    var buffer := s.buffer + entries;
    s.(buffer := buffer, added := s.added + entries,
       token := s.token || (entries != [] && |buffer| >= FLUSH_THRESHOLD))
  }

  lemma ExtendedTwice(s: State, a: seq<Entry>, b: seq<Entry>)
    ensures Extended(Extended(s, a), b) == Extended(s, a + b)
  {
    assert (s.buffer + a) + b == s.buffer + (a + b) && (s.added + a) + b == s.added + (a + b);
  }

  lemma AppendAndSignal(outputs: seq<set<Kind>>, s: State, e: Entry)
    requires |s.writes| == |outputs| && s.signalling == {}
    ensures Next(outputs, Next(outputs, s, Append(e.source, e.item)), Signal(e.source)) == Extended(s, [e])
  {
    assert {e.source} - {e.source} == {};
  }

  /** The state once the first `i` outputs have been served the batch being written, with
      `entries` arriving meanwhile. */
  function Serving(outputs: seq<set<Kind>>, s: State, entries: seq<Entry>, i: nat): State
    requires |s.writes| == |outputs| && s.consumer.Writing?
  {
    var batch := Items(s.consumer.batch);
    Extended(s, entries).(
      writes := seq(|outputs|, j requires 0 <= j < |outputs| =>
        if j < i then Delivered(outputs[j], s.writes[j], batch) else s.writes[j]),
      consumer := s.consumer.(served := i))
  }

  lemma ServeOne(outputs: seq<set<Kind>>, s: State, a: seq<Entry>, b: seq<Entry>, i: nat)
    requires |s.writes| == |outputs| && s.consumer.Writing? && i < |outputs|
    ensures Next(outputs, Extended(Serving(outputs, s, a, i), b), Serve) == Serving(outputs, s, a + b, i + 1)
  {
    ExtendedTwice(s, a, b);
    var s' := Next(outputs, Extended(Serving(outputs, s, a, i), b), Serve);
    assert s'.writes == Serving(outputs, s, a + b, i + 1).writes;
  }

  lemma ServingStarts(outputs: seq<set<Kind>>, s: State)
    requires |s.writes| == |outputs| && s.consumer.Writing? && s.consumer.served == 0
    ensures Serving(outputs, s, [], 0) == s
  {
    assert s.buffer + [] == s.buffer && s.added + [] == s.added;
    assert Serving(outputs, s, [], 0).writes == s.writes;
  }

  // ---- No lost wake-up ----

  predicate WakeUpPending(s: State) {
    |s.buffer| >= 100 ==> s.token || s.signalling != {} || s.consumer.Committed?
  }

  /** In every interleaving, a buffer that has reached the threshold is about to be flushed:
      the token is in the channel, or a producer is about to put it there, or the main loop has
      already committed to a flush that will see the buffer. */
  lemma {:induction false} NoLostWakeUp(outputs: seq<set<Kind>>, steps: seq<Step>)
    ensures WakeUpPending(Reached(outputs, steps))
    decreases |steps|
  {
    if steps != [] {
      NoLostWakeUp(outputs, steps[..|steps| - 1]);
    }
  }

  /** So when the producers are quiet and the main loop is waiting, receiving the token and
      locking hands the whole buffer over. */
  lemma FullBufferIsTaken(outputs: seq<set<Kind>>, steps: seq<Step>)
    requires var s := Reached(outputs, steps);
      |s.buffer| >= 100 && s.signalling == {} && s.consumer.Waiting?
    ensures var s := Reached(outputs, steps);
      Next(outputs, Next(outputs, s, ReceiveToken), Lock).consumer == Writing(s.buffer, 0, false)
  {
    NoLostWakeUp(outputs, steps);
  }

  // ---- Exactly-once, in-order hand-off ----

  /** The batches that output `i` has been served. */
  function Served(s: State, i: int): seq<seq<Entry>> {
    if s.consumer.Writing? && i >= s.consumer.served && s.taken != [] then s.taken[..|s.taken| - 1] else s.taken
  }

  /** What an output is handed for a list of batches: one write per batch with something it
      supports, and none otherwise. */
  function WritesFor(kinds: set<Kind>, batches: seq<seq<Entry>>): seq<seq<Item>> {
    if batches == [] then []
    else Delivered(kinds, WritesFor(kinds, batches[..|batches| - 1]), Items(batches[|batches| - 1]))
  }

  /** The items in lock order are the batches taken, none of them empty, and then the buffer;
      the batch being written is the last one taken. */
  ghost predicate Conserved(s: State) {
    && s.added == Flatten(s.taken) + s.buffer
    && (forall k :: 0 <= k < |s.taken| ==> s.taken[k] != [])
    && (s.consumer.Writing? ==> s.taken != [] && s.taken[|s.taken| - 1] == s.consumer.batch)
  }

  ghost predicate WritesMatch(outputs: seq<set<Kind>>, s: State)
    requires |s.writes| == |outputs|
  {
    forall i :: 0 <= i < |outputs| ==> s.writes[i] == WritesFor(outputs[i], Served(s, i))
  }

  ghost predicate HandedOff(outputs: seq<set<Kind>>, s: State) {
    |s.writes| == |outputs| && Conserved(s) && WritesMatch(outputs, s)
  }

  lemma AppendConserves(outputs: seq<set<Kind>>, s: State, p: nat, item: Item)
    requires |s.writes| == |outputs| && Conserved(s)
    ensures Conserved(Next(outputs, s, Append(p, item)))
  {
    var e := Entry(p, item);
    assert s.added + [e] == Flatten(s.taken) + (s.buffer + [e]);
  }

  lemma LockConserves(outputs: seq<set<Kind>>, s: State)
    requires |s.writes| == |outputs| && Conserved(s)
    ensures Conserved(Next(outputs, s, Lock))
    ensures s.consumer.Committed? && s.buffer != [] ==>
      Next(outputs, s, Lock).taken[..|s.taken|] == s.taken
  {
    FlattenSnoc(s.taken, s.buffer);
    assert (s.taken + [s.buffer])[..|s.taken|] == s.taken;
    assert s.added == (Flatten(s.taken) + s.buffer) + [];
  }

  lemma OtherStepsKeepItems(outputs: seq<set<Kind>>, s: State, step: Step)
    requires |s.writes| == |outputs| && !step.Append? && !step.Lock?
    ensures var s' := Next(outputs, s, step);
      && s'.added == s.added && s'.taken == s.taken && s'.buffer == s.buffer
      && (s'.consumer.Writing? ==> s.consumer.Writing? && s'.consumer.batch == s.consumer.batch)
  {
  }

  lemma NextConserves(outputs: seq<set<Kind>>, s: State, step: Step)
    requires |s.writes| == |outputs| && Conserved(s)
    ensures Conserved(Next(outputs, s, step))
  {
    if step.Append? {
      AppendConserves(outputs, s, step.producer, step.item);
    } else if step.Lock? {
      LockConserves(outputs, s);
    } else {
      OtherStepsKeepItems(outputs, s, step);
    }
  }

  lemma ServedUnchanged(outputs: seq<set<Kind>>, s: State, step: Step, i: nat)
    requires |s.writes| == |outputs| && Conserved(s) && i < |outputs| && !step.Serve?
    ensures Served(Next(outputs, s, step), i) == Served(s, i)
  {
    if step.Lock? {
      LockConserves(outputs, s);
    }
  }

  lemma ServeMatches(outputs: seq<set<Kind>>, s: State, i: nat)
    requires HandedOff(outputs, s) && i < |outputs|
    ensures var s' := Next(outputs, s, Serve); s'.writes[i] == WritesFor(outputs[i], Served(s', i))
  {
    var s' := Next(outputs, s, Serve);
    assert s.writes[i] == WritesFor(outputs[i], Served(s, i));
    if s.consumer.Writing? && s.consumer.served == i {
      var n := |s.taken| - 1;
      assert Served(s, i) == s.taken[..n] && Served(s', i) == s.taken;
      assert s'.writes[i] == Delivered(outputs[i], s.writes[i], Items(s.taken[n]));
    } else {
      assert Served(s', i) == Served(s, i) && s'.writes[i] == s.writes[i];
    }
  }

  lemma NextHandsOff(outputs: seq<set<Kind>>, s: State, step: Step)
    requires HandedOff(outputs, s)
    ensures HandedOff(outputs, Next(outputs, s, step))
  {
    NextConserves(outputs, s, step);
    forall i | 0 <= i < |outputs|
      ensures var s' := Next(outputs, s, step); s'.writes[i] == WritesFor(outputs[i], Served(s', i))
    {
      if step.Serve? {
        ServeMatches(outputs, s, i);
      } else {
        ServedUnchanged(outputs, s, step, i);
        assert s.writes[i] == WritesFor(outputs[i], Served(s, i));
      }
    }
  }

  /** At every step of every interleaving: the items in lock order are the batches taken so far
      followed by the buffer, and every output has been handed exactly the batches it has been
      served, filtered to the kinds it supports, one non-empty write each. */
  lemma {:induction false} HandOffIsExact(outputs: seq<set<Kind>>, steps: seq<Step>)
    ensures HandedOff(outputs, Reached(outputs, steps))
    decreases |steps|
  {
    if steps != [] {
      HandOffIsExact(outputs, steps[..|steps| - 1]);
      NextHandsOff(outputs, Reached(outputs, steps[..|steps| - 1]), steps[|steps| - 1]);
    }
  }

  lemma {:induction false} ItemsAppend(a: seq<Entry>, b: seq<Entry>)
    ensures Items(a + b) == Items(a) + Items(b)
    decreases |b|
  {
    if b == [] {
      assert a + b == a;
    } else {
      var n := |b| - 1;
      ItemsAppend(a, b[..n]);
      assert (a + b)[..|a| + n] == a + b[..n];
    }
  }

  lemma ItemsSnoc(entries: seq<Entry>, e: Entry)
    ensures Items(entries + [e]) == Items(entries) + [e.item]
  {
    assert (entries + [e])[..|entries|] == entries;
  }

  lemma {:induction false} ItemsLength(entries: seq<Entry>)
    ensures |Items(entries)| == |entries|
    decreases |entries|
  {
    if entries != [] {
      ItemsLength(entries[..|entries| - 1]);
    }
  }

  /** The concatenated writes of an output are the supported items of its batches, in order,
      and no write is empty. */
  lemma {:induction false} WritesConcatenate(kinds: set<Kind>, batches: seq<seq<Entry>>)
    ensures Flatten(WritesFor(kinds, batches)) == Supported(kinds, Items(Flatten(batches)))
    ensures forall w :: w in WritesFor(kinds, batches) ==> w != []
    decreases |batches|
  {
    if batches != [] {
      var before, batch := batches[..|batches| - 1], batches[|batches| - 1];
      WritesConcatenate(kinds, before);
      OneMoreWrite(kinds, WritesFor(kinds, before), Flatten(before), batch);
    }
  }

  lemma OneMoreWrite(kinds: set<Kind>, writes: seq<seq<Item>>, earlier: seq<Entry>, batch: seq<Entry>)
    requires Flatten(writes) == Supported(kinds, Items(earlier))
    requires forall w :: w in writes ==> w != []
    ensures var more := Delivered(kinds, writes, Items(batch));
      && Flatten(more) == Supported(kinds, Items(earlier + batch))
      && forall w :: w in more ==> w != []
  {
    ItemsAppend(earlier, batch);
    SupportedAppend(kinds, Items(earlier), Items(batch));
    FlattenSnoc(writes, Supported(kinds, Items(batch)));
  }

  function NotEmpty(writes: seq<seq<Item>>): seq<seq<Item>> {
    if writes == [] then []
    else
      var last := writes[|writes| - 1];
      NotEmpty(writes[..|writes| - 1]) + if last == [] then [] else [last]
  }

  /** There is one write for every batch with something the output supports: all of that. */
  lemma {:induction false} OneWritePerBatch(kinds: set<Kind>, batches: seq<seq<Entry>>, parts: seq<seq<Item>>)
    requires |parts| == |batches|
    requires forall k :: 0 <= k < |batches| ==> parts[k] == Supported(kinds, Items(batches[k]))
    ensures WritesFor(kinds, batches) == NotEmpty(parts)
    decreases |batches|
  {
    if batches != [] {
      OneWritePerBatch(kinds, batches[..|batches| - 1], parts[..|batches| - 1]);
    }
  }

  lemma {:induction false} FlattenIsPrefix(batches: seq<seq<Entry>>, n: nat)
    requires n <= |batches|
    ensures Flatten(batches[..n]) <= Flatten(batches)
    decreases |batches|
  {
    if n < |batches| {
      FlattenIsPrefix(batches[..|batches| - 1], n);
      assert batches[..|batches| - 1][..n] == batches[..n];
    } else {
      assert batches[..n] == batches;
    }
  }

  /** Whatever has been written to an output is, in order, the supported part of the items up to
      some point, in non-empty writes; and unless a batch is being written, all items after that
      point are still in the buffer. */
  lemma ServedPrefix(outputs: seq<set<Kind>>, s: State, i: nat) returns (n: nat)
    requires HandedOff(outputs, s) && i < |outputs|
    ensures n <= |s.added| && Flatten(s.writes[i]) == Supported(outputs[i], Items(s.added[..n]))
    ensures !s.consumer.Writing? ==> s.added[n..] == s.buffer
    ensures forall w :: w in s.writes[i] ==> w != []
  {
    var served := Served(s, i);
    WritesConcatenate(outputs[i], served);
    FlattenIsPrefix(s.taken, |served|);
    assert s.taken[..|served|] == served;
    n := |Flatten(served)|;
    assert s.added[..n] == Flatten(served);
  }

  /** So in every interleaving; after the final flush, an output misses only what was appended
      after the last lock. */
  lemma OutputsReceiveAPrefix(outputs: seq<set<Kind>>, steps: seq<Step>, i: nat) returns (n: nat)
    requires i < |outputs|
    ensures var s := Reached(outputs, steps);
      && n <= |s.added|
      && Flatten(s.writes[i]) == Supported(outputs[i], Items(s.added[..n]))
      && (s.consumer.Stopped? || s.consumer.Waiting? ==> s.added[n..] == s.buffer)
      && (forall w :: w in s.writes[i] ==> w != [])
  {
    HandOffIsExact(outputs, steps);
    n := ServedPrefix(outputs, Reached(outputs, steps), i);
  }
}
