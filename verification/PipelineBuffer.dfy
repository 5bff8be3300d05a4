/**
 The pipeline's buffer as it lies in memory: a slice of a backing array that every flush
 empties by cutting its length to zero, so that later additions overwrite the elements of the
 previous batch in place. A flush therefore writes from a copy. The class carries out the steps
 of the flush protocol: `Valid` ties its fields to the protocol's state after `steps`.
 */
module PipelineBuffer {
  import opened Telemetry
  import P = FlushProtocol

  const INITIAL_CAPACITY: nat := 10000

  /** An output, recording the arguments of its Write calls. A failed write is only logged, so
      it makes no difference here. */
  class Output {
    const kinds: set<Kind>
    var writes: seq<seq<Item>>

    constructor (kinds: set<Kind>)
      ensures this.kinds == kinds && writes == []
    {
      this.kinds := kinds;
      writes := [];
    }

    method Write(items: seq<Item>)
      modifies this
      ensures writes == old(writes) + [items]
    {
      writes := writes + [items];
    }
  }

  /** What arrives at the first `n` of a sequence of moments. */
  function Moments(arrivals: nat -> seq<P.Entry>, n: nat): seq<P.Entry> {
    if n == 0 then [] else Moments(arrivals, n - 1) + arrivals(n - 1)
  }

  /** What arrives while a batch of `n` items is written to the first `m` outputs: for each output
      there is a moment before each item is looked at, and one before the write. */
  function Arrived(arrivals: nat -> nat -> seq<P.Entry>, m: nat, n: nat): seq<P.Entry> {
    if m == 0 then [] else Arrived(arrivals, m - 1, n) + Moments(arrivals(m - 1), n + 1)
  }

  /** The state after a flush that took a buffer with items in it. */
  function HandedOver(kinds: seq<set<Kind>>, s: P.State, arrived: seq<P.Entry>): P.State
    requires |s.writes| == |kinds| && s.consumer.Committed?
  {
    s.(buffer := arrived, added := s.added + arrived, taken := s.taken + [s.buffer],
       token := s.token || |arrived| >= P.FLUSH_THRESHOLD,
       writes := seq(|kinds|, i requires 0 <= i < |kinds| => Delivered(kinds[i], s.writes[i], P.Items(s.buffer))),
       consumer := P.AfterFlush(s.consumer.final))
  }

  /** The state after a flush with these arrivals: nothing happens to an empty buffer. */
  function Flushed(kinds: seq<set<Kind>>, s: P.State, arrivals: nat -> nat -> seq<P.Entry>): P.State
    requires |s.writes| == |kinds| && s.consumer.Committed?
  {
    if s.buffer == [] then s.(consumer := P.AfterFlush(s.consumer.final))
    else HandedOver(kinds, s, Arrived(arrivals, |kinds|, |s.buffer|) + arrivals(|kinds|)(0))
  }

  lemma HandOverState(kinds: seq<set<Kind>>, s: P.State, a: seq<P.Entry>, b: seq<P.Entry>)
    requires |s.writes| == |kinds| && s.consumer.Committed? && s.buffer != []
    ensures P.Next(kinds, P.Extended(P.Serving(kinds, P.Next(kinds, s, P.Lock), a, |kinds|), b), P.Serve)
         == HandedOver(kinds, s, a + b)
  {
    P.ExtendedTwice(P.Next(kinds, s, P.Lock), a, b);
    assert P.Serving(kinds, P.Next(kinds, s, P.Lock), a, |kinds|).writes == HandedOver(kinds, s, a + b).writes;
  }

  function AllOf(arrivals: nat -> seq<P.Entry>, n: nat): seq<P.Entry> {
    Flatten(seq(n, j requires 0 <= j < n => arrivals(j)))
  }

  lemma AllOfStep(arrivals: nat -> seq<P.Entry>, n: nat)
    ensures AllOf(arrivals, n + 1) == AllOf(arrivals, n) + arrivals(n)
  {
    var all := seq(n + 1, j requires 0 <= j < n + 1 => arrivals(j));
    assert all[..n] == seq(n, j requires 0 <= j < n => arrivals(j));
  }

  /** Everything that arrives, moment by moment and output by output. */
  lemma {:induction false} MomentsAreAll(arrivals: nat -> seq<P.Entry>, n: nat)
    ensures Moments(arrivals, n) == AllOf(arrivals, n)
    decreases n
  {
    if n > 0 {
      MomentsAreAll(arrivals, n - 1);
      AllOfStep(arrivals, n - 1);
    }
  }

  lemma {:induction false} ArrivedIsAll(arrivals: nat -> nat -> seq<P.Entry>, perOutput: nat -> seq<P.Entry>,
                                        m: nat, n: nat)
    requires forall i: nat :: perOutput(i) == AllOf(arrivals(i), n + 1)
    ensures Arrived(arrivals, m, n) == AllOf(perOutput, m)
    decreases m
  {
    if m > 0 {
      ArrivedIsAll(arrivals, perOutput, m - 1, n);
      MomentsAreAll(arrivals(m - 1), n + 1);
      AllOfStep(perOutput, m - 1);
    }
  }

  class Pipeline {
    const outputs: seq<Output>
    var backing: array<Item>
    var len: nat
    var token: bool

    /** The steps of the flush protocol carried out so far, the states they led through, and the
        last of these. */
    ghost var steps: seq<P.Step>
    ghost var states: seq<P.State>
    ghost var state: P.State

    ghost function Kinds(): seq<set<Kind>> {
      seq(|outputs|, i requires 0 <= i < |outputs| => outputs[i].kinds)
    }

    ghost function Buffer(): seq<Item>
      requires len <= backing.Length
      reads this, backing
    {
      backing[..len]
    }

    /** The fields are those of the protocol's state, with no producer between unlock and send. */
    ghost predicate Valid()
      reads this, backing, outputs
    {
      && len <= backing.Length
      && (forall i, j :: 0 <= i < j < |outputs| ==> outputs[i] != outputs[j])
      && P.IsRun(Kinds(), steps, states) && state == states[|steps|]
      && Buffer() == P.Items(state.buffer) && token == state.token && state.signalling == {}
      && forall i :: 0 <= i < |outputs| ==> outputs[i].writes == state.writes[i]
    }

    constructor (outputs: seq<Output>)
      requires forall i, j :: 0 <= i < j < |outputs| ==> outputs[i] != outputs[j]
      requires forall i :: 0 <= i < |outputs| ==> outputs[i].writes == []
      ensures Valid() && this.outputs == outputs && state == P.Start(Kinds())
      ensures fresh(backing) && backing.Length == 10000
    {
      this.outputs := outputs;
      backing := new Item[INITIAL_CAPACITY];
      len := 0;
      token := false;
      steps := [];
      new;
      state := P.Start(Kinds());
      states := [state];
    }

    /** One more step of the protocol. */
    ghost method Perform(step: P.Step)
      requires P.IsRun(Kinds(), steps, states) && state == states[|steps|]
      modifies this`steps, this`states, this`state
      ensures P.IsRun(Kinds(), steps, states) && state == states[|steps|]
      ensures state == P.Next(Kinds(), old(state), step) && steps == old(steps) + [step]
    {
      P.RunExtends(Kinds(), steps, states, step);
      state := P.Next(Kinds(), state, step);
      steps, states := steps + [step], states + [state];
    }

    /** Appending to the slice: in place while there is capacity, else into a new and larger
        array whose size is up to the runtime. */
    method Append(t: Item)
      requires len <= backing.Length
      modifies this`backing, this`len, backing
      ensures len <= backing.Length && Buffer() == old(Buffer()) + [t]
      ensures backing == old(backing) || fresh(backing)
      ensures old(len) < old(backing.Length) ==> backing == old(backing)
    {
      if len == backing.Length {
        var capacity: nat :| capacity > len;
        var grown := new Item[capacity];
        forall i | 0 <= i < len {
          grown[i] := backing[i];
        }
        backing := grown;
      }
      backing[len] := t;
      len := len + 1;
    }

    /** Adds an item and, from the hundredth buffered item on, leaves a token in the
        one-place channel unless one is there already: the protocol's append and signal. */
    method Add(e: P.Entry)
      requires Valid()
      modifies this`backing, this`len, this`token, this`steps, this`states, this`state, backing
      ensures Valid() && Buffer() == old(Buffer()) + [e.item]
      ensures backing == old(backing) || fresh(backing)
      ensures token == (old(token) || |Buffer()| >= 100)
      ensures steps == old(steps) + [P.Append(e.source, e.item)] + [P.Signal(e.source)]
      ensures state == P.Extended(old(state), [e])
    {
      P.AppendAndSignal(Kinds(), state, e);
      P.ItemsSnoc(state.buffer, e);
      P.ItemsLength(state.buffer);
      Append(e.item);
      Perform(P.Append(e.source, e.item));
      var shouldFlush := len >= P.FLUSH_THRESHOLD;
      if shouldFlush && !token {
        token := true;
      }
      Perform(P.Signal(e.source));
    }

    method AddAll(entries: seq<P.Entry>)
      requires Valid()
      modifies this`backing, this`len, this`token, this`steps, this`states, this`state, backing
      ensures Valid() && (backing == old(backing) || fresh(backing))
      ensures state == P.Extended(old(state), entries)
    {
      for i := 0 to |entries|
        invariant Valid() && (backing == old(backing) || fresh(backing))
        invariant state == P.Extended(old(state), entries[..i])
      {
        Add(entries[i]);
        P.ExtendedTwice(old(state), entries[..i], [entries[i]]);
        assert entries[..i + 1] == entries[..i] + [entries[i]];
      }
      assert entries[..|entries|] == entries;
    }

    /** The locked part of a flush: copies the buffer out and empties it, keeping the backing
        array. */
    method Snapshot() returns (toFlush: array<Item>)
      requires Valid() && state.consumer.Committed? && Buffer() != []
      modifies this`len, this`steps, this`states, this`state
      ensures Valid() && Buffer() == []
      ensures steps == old(steps) + [P.Lock] && state == P.Next(Kinds(), old(state), P.Lock)
      ensures fresh(toFlush) && toFlush[..] == old(Buffer())
    {
      toFlush := new Item[len];
      forall i | 0 <= i < len {
        toFlush[i] := backing[i];
      }
      len := 0;
      Perform(P.Lock);
    }

    /** Selects the supported items of a batch. `arrivals(j)` are added (and may overwrite the
        backing array) just before item `j` is looked at, and those of the moment after the last
        item before the selection is returned. */
    method Select(kinds: set<Kind>, toFlush: array<Item>, arrivals: nat -> seq<P.Entry>) returns (filtered: seq<Item>)
      requires Valid() && toFlush != backing
      modifies this`backing, this`len, this`token, this`steps, this`states, this`state, backing
      ensures Valid() && (backing == old(backing) || fresh(backing))
      ensures filtered == Supported(kinds, old(toFlush[..])) && toFlush[..] == old(toFlush[..])
      ensures state == P.Extended(old(state), Moments(arrivals, toFlush.Length + 1))
    {
      ghost var batch := toFlush[..];
      filtered := [];
      for j := 0 to toFlush.Length
        invariant Valid() && (backing == old(backing) || fresh(backing)) && toFlush[..] == batch
        invariant filtered == Supported(kinds, batch[..j])
        invariant state == P.Extended(old(state), Moments(arrivals, j))
      {
        AddAll(arrivals(j));
        P.ExtendedTwice(old(state), Moments(arrivals, j), arrivals(j));
        assert batch[..j + 1][..j] == batch[..j];
        if KindOf(toFlush[j]) in kinds {
          filtered := filtered + [toFlush[j]];
        }
      }
      AddAll(arrivals(toFlush.Length));
      P.ExtendedTwice(old(state), Moments(arrivals, toFlush.Length), arrivals(toFlush.Length));
      assert batch[..toFlush.Length] == batch;
    }

    /** Serves one output: the supported items of the batch are written, if there are any. */
    method WriteTo(i: nat, toFlush: array<Item>, arrivals: nat -> seq<P.Entry>)
      requires Valid() && toFlush != backing && i < |outputs|
      requires state.consumer.Writing? && state.consumer.served == i && toFlush[..] == P.Items(state.consumer.batch)
      modifies this`backing, this`len, this`token, this`steps, this`states, this`state, backing, outputs[i]
      ensures Valid() && (backing == old(backing) || fresh(backing)) && toFlush[..] == old(toFlush[..])
      ensures outputs[i].writes == Delivered(outputs[i].kinds, old(outputs[i].writes), toFlush[..])
      ensures state == P.Next(Kinds(), P.Extended(old(state), Moments(arrivals, toFlush.Length + 1)), P.Serve)
    {
      var filtered := Select(outputs[i].kinds, toFlush, arrivals);
      if |filtered| > 0 {
        outputs[i].Write(filtered);
      }
      Perform(P.Serve);
    }

    /** Serves output `i`, after the `i` before it, of a batch whose writing began at `taken`. */
    method ServeNext(i: nat, toFlush: array<Item>, arrivals: nat -> seq<P.Entry>,
                     ghost taken: P.State, ghost arrived: seq<P.Entry>)
      requires Valid() && toFlush != backing && i < |outputs| && |taken.writes| == |outputs|
      requires taken.consumer.Writing? && toFlush[..] == P.Items(taken.consumer.batch)
      requires state == P.Serving(Kinds(), taken, arrived, i)
      modifies this`backing, this`len, this`token, this`steps, this`states, this`state, backing, outputs[i]
      ensures Valid() && (backing == old(backing) || fresh(backing)) && toFlush[..] == old(toFlush[..])
      ensures state == P.Serving(Kinds(), taken, arrived + Moments(arrivals, toFlush.Length + 1), i + 1)
    {
      P.ServeOne(Kinds(), taken, arrived, Moments(arrivals, toFlush.Length + 1), i);
      WriteTo(i, toFlush, arrivals);
    }

    /** Serves all outputs one after the other. */
    method WriteAll(toFlush: array<Item>, arrivals: nat -> nat -> seq<P.Entry>)
      requires Valid() && toFlush != backing && state.consumer.Writing? && state.consumer.served == 0
      requires toFlush[..] == P.Items(state.consumer.batch)
      modifies this`backing, this`len, this`token, this`steps, this`states, this`state, backing, outputs
      ensures Valid() && (backing == old(backing) || fresh(backing))
      ensures state == P.Serving(Kinds(), old(state), Arrived(arrivals, |outputs|, toFlush.Length), |outputs|)
    {
      ghost var taken := state;
      P.ServingStarts(Kinds(), taken);
      for i := 0 to |outputs|
        invariant Valid() && (backing == old(backing) || fresh(backing)) && toFlush[..] == old(toFlush[..])
        invariant state == P.Serving(Kinds(), taken, Arrived(arrivals, i, toFlush.Length), i)
      {
        ServeNext(i, toFlush, arrivals(i), taken, Arrived(arrivals, i, toFlush.Length));
      }
    }

    /** The flush of a buffer that is not empty. */
    method HandOver(arrivals: nat -> nat -> seq<P.Entry>)
      requires Valid() && state.consumer.Committed? && Buffer() != []
      modifies this`backing, this`len, this`token, this`steps, this`states, this`state, backing, outputs
      ensures Valid() && (backing == old(backing) || fresh(backing))
      ensures state == HandedOver(Kinds(), old(state), Arrived(arrivals, |outputs|, old(len)) + arrivals(|outputs|)(0))
    {
      HandOverState(Kinds(), state, Arrived(arrivals, |outputs|, len), arrivals(|outputs|)(0));
      var toFlush := Snapshot();
      WriteAll(toFlush, arrivals);
      AddAll(arrivals(|outputs|)(0));
      Perform(P.Serve);
    }

    /** A flush with producers at work all through its write phase, and once more between the
        last write and its return. Every output is handed the batch as it was when it was taken,
        although the backing array is overwritten meanwhile, and nothing added is lost. */
    method Flush(arrivals: nat -> nat -> seq<P.Entry>)
      requires Valid() && state.consumer.Committed?
      modifies this`backing, this`len, this`token, this`steps, this`states, this`state, backing, outputs
      ensures Valid() && (backing == old(backing) || fresh(backing))
      ensures forall i :: 0 <= i < |outputs| ==>
        var part := Supported(outputs[i].kinds, old(Buffer()));
        outputs[i].writes == old(outputs[i].writes) + if part == [] then [] else [part]
      ensures state == Flushed(Kinds(), old(state), arrivals)
    {
      P.ItemsLength(state.buffer);
      if len == 0 {
        Perform(P.Lock);
        return;
      }
      HandOver(arrivals);
    }

    /** The main loop takes the token from the channel. */
    method ReceiveToken()
      requires Valid() && state.consumer.Waiting? && token
      modifies this`token, this`steps, this`states, this`state
      ensures Valid() && state == P.Next(Kinds(), old(state), P.ReceiveToken)
    {
      token := false;
      Perform(P.ReceiveToken);
    }
  }

  /** Between flushes everything that was added is either still buffered or was handed to the
      outputs, to each the items it supports, in order; and a buffer of a hundred items has its
      token in the channel. */
  ghost predicate Exact(pipe: Pipeline)
    requires pipe.Valid()
    reads pipe, pipe.backing, pipe.outputs
  {
    var added, n := P.Items(pipe.state.added), |pipe.state.added| - pipe.len;
    && 0 <= n <= |added| && added[n..] == pipe.Buffer()
    && (forall i :: 0 <= i < |pipe.outputs| ==>
      Flatten(pipe.outputs[i].writes) == Supported(pipe.outputs[i].kinds, added[..n]))
    && (pipe.len >= 100 ==> pipe.token)
  }

  lemma QuietIsExact(pipe: Pipeline)
    requires pipe.Valid() && (pipe.state.consumer.Waiting? || pipe.state.consumer.Stopped?)
    ensures Exact(pipe)
  {
    var kinds, s := pipe.Kinds(), pipe.state;
    P.RunIsReached(kinds, pipe.steps, pipe.states);
    P.HandOffIsExact(kinds, pipe.steps);
    P.NoLostWakeUp(kinds, pipe.steps);
    P.ItemsLength(s.buffer);
    P.ItemsLength(s.added);
    var n := |s.added| - |s.buffer|;
    assert s.added == s.added[..n] + s.buffer;
    P.ItemsAppend(s.added[..n], s.buffer);
    P.ItemsLength(s.added[..n]);
    forall i | 0 <= i < |pipe.outputs|
      ensures Flatten(pipe.outputs[i].writes) == Supported(pipe.outputs[i].kinds, P.Items(s.added)[..n])
    {
      var m := P.ServedPrefix(kinds, s, i);
      assert m == n;
    }
  }
}
