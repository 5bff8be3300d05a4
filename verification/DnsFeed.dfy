/**
 Getting events from the kernel ring to the pipeline: a reader that never waits, a bounded
 channel, and a processor. Every interleaving of the two is a sequence of the steps below.
 */
module DnsFeed {

  const CHANNEL_SIZE: nat := 10000

  /** The reader holds a decoded event it is about to offer, or an error it is about to send,
      or is back at the ring, or has returned. */
  datatype Reader<E> = AtRing | Offering(event: E) | Failing | ReaderDone

  /** The processor is about to test whether it should go on, or blocked in its select, or
      handling the event it took, or has returned. */
  datatype Processor<E> = AtHead | Selecting | Processing(event: E) | ProcessorDone

  /** `decoded`, `delivered` and `dropped` are the histories of the run, and `kept` says of each
      event that was offered whether the channel took it. */
  datatype Feed<E> = Feed(
    reader: Reader<E>, processor: Processor<E>, queue: seq<E>, errorSent: bool, running: bool,
    decoded: seq<E>, delivered: seq<E>, dropped: seq<E>, kept: seq<bool>)

  datatype Step<E> =
    | ReadEvent(event: E)
    | ReadGarbage
    | ReadError
    | RingClosed
    | Offer
    | SendError
    | CheckRunning
    | Take
    | Deliver
    | Stop
    | Cancelled
    | ErrorReceived

  function Start<E>(): Feed<E> {
    Feed(AtRing, AtHead, [], false, true, [], [], [], [])
  }

  /** Sending on the error channel would block if an error were still in it. The running flag is
      tested only at the head of the loop: a processor already in its select does not see it. */
  predicate Enabled<E(==)>(s: Feed<E>, step: Step<E>) {
    match step
    case ReadEvent(_) => s.reader.AtRing?
    case ReadGarbage => s.reader.AtRing?
    case ReadError => s.reader.AtRing?
    case RingClosed => s.reader.AtRing?
    case Offer => s.reader.Offering?
    case SendError => s.reader.Failing? && !s.errorSent
    case CheckRunning => s.processor.AtHead?
    case Take => s.processor.Selecting? && s.queue != []
    case Deliver => s.processor.Processing?
    case Stop => true
    case Cancelled => s.processor.Selecting?
    case ErrorReceived => s.processor.Selecting? && s.errorSent
  }

  function Next<E(==)>(s: Feed<E>, step: Step<E>): Feed<E> {
    if !Enabled(s, step) then s
    else
      match step
      case ReadEvent(event) => s.(reader := Offering(event), decoded := s.decoded + [event])
      case ReadGarbage => s
      case ReadError => s.(reader := Failing)
      case RingClosed => s.(reader := ReaderDone)
      case Offer =>
        if |s.queue| < CHANNEL_SIZE
        then s.(reader := AtRing, queue := s.queue + [s.reader.event], kept := s.kept + [true])
        else s.(reader := AtRing, dropped := s.dropped + [s.reader.event], kept := s.kept + [false])
      case SendError => s.(reader := ReaderDone, errorSent := true)
      case CheckRunning => s.(processor := if s.running then Selecting else ProcessorDone)
      case Take => s.(processor := Processing(s.queue[0]), queue := s.queue[1..])
      case Deliver =>
        s.(processor := AtHead, delivered := s.delivered + [s.processor.event])
      case Stop => s.(running := false)
      case Cancelled => s.(processor := ProcessorDone)
      case ErrorReceived => s.(processor := ProcessorDone, errorSent := false)
  }

  function Reached<E(==)>(steps: seq<Step<E>>): Feed<E> {
    if steps == [] then Start() else Next(Reached(steps[..|steps| - 1]), steps[|steps| - 1])
  }

  function InProcess<E>(s: Feed<E>): seq<E> {
    if s.processor.Processing? then [s.processor.event] else []
  }

  function OnOffer<E>(s: Feed<E>): seq<E> {
    if s.reader.Offering? then [s.reader.event] else []
  }

  /** The events that made it into the channel, oldest first, wherever they are by now. */
  function Accepted<E>(s: Feed<E>): seq<E> {
    s.delivered + InProcess(s) + s.queue
  }

  /** The elements of `all` marked with `mark`, in order. */
  function Pick<E>(all: seq<E>, kept: seq<bool>, mark: bool): seq<E>
    requires |kept| == |all|
  {
    if all == [] then []
    else
      var n := |all| - 1;
      Pick(all[..n], kept[..n], mark) + if kept[n] == mark then [all[n]] else []
  }

  lemma PickSnoc<E>(all: seq<E>, kept: seq<bool>, mark: bool, e: E, k: bool)
    requires |kept| == |all|
    ensures Pick(all + [e], kept + [k], mark) == Pick(all, kept, mark) + if k == mark then [e] else []
  {
    assert (all + [e])[..|all|] == all && (kept + [k])[..|all|] == kept;
  }

  /** The decoded events before the one on offer. */
  function Offered<E>(s: Feed<E>): seq<E> {
    if s.reader.Offering? && s.decoded != [] then s.decoded[..|s.decoded| - 1] else s.decoded
  }

  /** The channel took the kept events and no others, and every offered event is accounted for
      once, in order. */
  ghost predicate Sound<E>(s: Feed<E>) {
    && (s.reader.Offering? ==> s.decoded == Offered(s) + [s.reader.event])
    && |s.kept| == |Offered(s)|
    && Accepted(s) == Pick(Offered(s), s.kept, true)
    && s.dropped == Pick(Offered(s), s.kept, false)
    && |s.queue| <= CHANNEL_SIZE
    && (s.errorSent ==> s.reader.ReaderDone?)
  }

  lemma OfferSound<E>(s: Feed<E>)
    requires Sound(s) && s.reader.Offering?
    ensures Sound(Next(s, Offer))
  {
    var s', e, room := Next(s, Offer), s.reader.event, |s.queue| < CHANNEL_SIZE;
    assert Offered(s') == Offered(s) + [e];
    PickSnoc(Offered(s), s.kept, true, e, room);
    PickSnoc(Offered(s), s.kept, false, e, room);
    assert Accepted(s') == if room then Accepted(s) + [e] else Accepted(s);
  }

  lemma NextSound<E>(s: Feed<E>, step: Step<E>)
    requires Sound(s)
    ensures Sound(Next(s, step))
  {
    if Enabled(s, step) {
      if step.Offer? {
        OfferSound(s);
      } else {
        var s' := Next(s, step);
        assert step.ReadEvent? ==> (s.decoded + [step.event])[..|s.decoded|] == s.decoded;
        assert step.Take? ==> s.queue == [s.queue[0]] + s.queue[1..];
        assert Accepted(s') == Accepted(s) && Offered(s') == Offered(s);
      }
    }
  }

  /** In every interleaving: what has been delivered, is in process, or is queued is exactly the
      kept part of what was decoded, in reading order, and the rest was dropped; and the channel
      is never over its size. */
  lemma {:induction false} EveryFeedIsSound<E>(steps: seq<Step<E>>)
    ensures Sound(Reached(steps))
    decreases |steps|
  {
    if steps != [] {
      EveryFeedIsSound(steps[..|steps| - 1]);
      NextSound(Reached(steps[..|steps| - 1]), steps[|steps| - 1]);
    }
  }

  lemma {:induction false} PickCounts<E>(all: seq<E>, kept: seq<bool>)
    requires |kept| == |all|
    ensures |Pick(all, kept, true)| + |Pick(all, kept, false)| == |all|
    decreases |all|
  {
    if all != [] {
      PickCounts(all[..|all| - 1], kept[..|all| - 1]);
    }
  }

  /** Every decoded event is delivered, in process, queued, dropped, or in the reader's hand. */
  lemma {:induction false} NoEventUnaccounted<E>(steps: seq<Step<E>>)
    ensures var s := Reached(steps);
      |s.decoded| == |s.delivered| + |InProcess(s)| + |s.queue| + |s.dropped| + |OnOffer(s)|
  {
    EveryFeedIsSound(steps);
    var s := Reached(steps);
    PickCounts(Offered(s), s.kept);
  }

  /** The step is not an offer, or finds room in the channel. */
  predicate FindsRoom<E>(s: Feed<E>, step: Step<E>) {
    step.Offer? && s.reader.Offering? ==> |s.queue| < 10000
  }

  lemma DropsUnlessRoom<E>(s: Feed<E>, step: Step<E>)
    ensures s.dropped <= Next(s, step).dropped
    ensures Next(s, step).dropped == s.dropped <==> FindsRoom(s, step)
  {
  }

  ghost predicate RoomThroughout<E>(steps: seq<Step<E>>) {
    forall i :: 0 <= i < |steps| ==> FindsRoom(Reached(steps[..i]), steps[i])
  }

  lemma RoomSnoc<E>(before: seq<Step<E>>, step: Step<E>)
    ensures RoomThroughout(before + [step]) <==> RoomThroughout(before) && FindsRoom(Reached(before), step)
  {
    var steps, n := before + [step], |before|;
    assert steps[..n] == before && steps[n] == step;
    assert forall i :: 0 <= i < n ==> before[..i] == steps[..i] && before[i] == steps[i];
  }

  /** A run drops nothing if and only if every offer found room in the channel. */
  lemma {:induction false} NothingDroppedIff<E>(steps: seq<Step<E>>, s: Feed<E>)
    requires s == Reached(steps)
    ensures s.dropped == [] <==> RoomThroughout(steps)
    decreases |steps|
  {
    if steps != [] {
      var before, step := steps[..|steps| - 1], steps[|steps| - 1];
      NothingDroppedIff(before, Reached(before));
      assert steps == before + [step];
      RoomSnoc(before, step);
      DropsUnlessRoom(Reached(before), step);
    }
  }

  // ---- Stopping ----

  function Continued<E(==)>(s: Feed<E>, steps: seq<Step<E>>): Feed<E> {
    if steps == [] then s else Next(Continued(s, steps[..|steps| - 1]), steps[|steps| - 1])
  }

  /** What the processor may still deliver once it is told to stop: the event in its hands, or
      the one its select may yet yield. */
  function StillToCome<E>(s: Feed<E>): nat {
    if s.processor.Selecting? || s.processor.Processing? then 1 else 0
  }

  /** After `Stop` at most one more event is delivered, and none if the processor was between
      events. */
  lemma {:induction false} AtMostOneAfterStop<E>(s: Feed<E>, steps: seq<Step<E>>)
    requires !s.running
    ensures var s' := Continued(s, steps);
      !s'.running && |s'.delivered| + StillToCome(s') <= |s.delivered| + StillToCome(s)
    decreases |steps|
  {
    if steps != [] {
      AtMostOneAfterStop(s, steps[..|steps| - 1]);
    }
  }

  /** And that one may come: a processor that was already in its select when the flag was cleared
      still delivers an event that is read only afterwards. */
  lemma {:induction false} OneAfterStop<E>(e: E) returns (stopped: seq<Step<E>>, more: seq<Step<E>>)
    ensures !Reached(stopped).running && Reached(stopped).decoded == []
    ensures Continued(Reached(stopped), more).delivered == [e]
  {
    ReachedSnoc<E>([], CheckRunning);
    ReachedSnoc<E>([] + [CheckRunning], Stop);
    stopped := [] + [CheckRunning] + [Stop];
    var s := Reached(stopped);
    ContinuedSnoc(s, [], ReadEvent(e));
    ContinuedSnoc(s, [] + [ReadEvent(e)], Offer);
    ContinuedSnoc(s, [] + [ReadEvent(e)] + [Offer], Take);
    ContinuedSnoc(s, [] + [ReadEvent(e)] + [Offer] + [Take], Deliver);
    more := [] + [ReadEvent(e)] + [Offer] + [Take] + [Deliver];
  }

  lemma ReachedSnoc<E>(steps: seq<Step<E>>, step: Step<E>)
    ensures Reached(steps + [step]) == Next(Reached(steps), step)
  {
    assert (steps + [step])[..|steps|] == steps;
  }

  lemma ContinuedSnoc<E>(s: Feed<E>, steps: seq<Step<E>>, step: Step<E>)
    ensures Continued(s, steps + [step]) == Next(Continued(s, steps), step)
  {
    assert (steps + [step])[..|steps|] == steps;
  }

  // ---- Going on and returning ----

  /** The processor returns at the loop head once the flag is cleared, and from its select on a
      cancellation or an error; and in no other way. */
  lemma ProcessorReturnsIff<E>(s: Feed<E>, step: Step<E>)
    requires !s.processor.ProcessorDone?
    ensures Next(s, step).processor.ProcessorDone? <==>
      || (step.CheckRunning? && s.processor.AtHead? && !s.running)
      || (step.Cancelled? && s.processor.Selecting?)
      || (step.ErrorReceived? && s.processor.Selecting? && s.errorSent)
  {
  }

  /** The reader returns when the ring is closed, and after any other error once it has sent it;
      what it cannot decode it skips. */
  lemma ReaderReturnsIff<E>(s: Feed<E>, step: Step<E>)
    requires !s.reader.ReaderDone?
    ensures Next(s, step).reader.ReaderDone? <==>
      (step.RingClosed? && s.reader.AtRing?) || (step.SendError? && s.reader.Failing? && !s.errorSent)
    ensures step.ReadGarbage? ==> Next(s, step) == s
    ensures step.ReadError? && s.reader.AtRing? ==> Next(s, step).reader.Failing?
    ensures step.SendError? && s.reader.Failing? ==> Next(s, step).errorSent
  {
  }

  /** Neither comes back. */
  lemma {:induction false} ReturnsAreFinal<E>(s: Feed<E>, steps: seq<Step<E>>)
    ensures var s' := Continued(s, steps);
      && (s.processor.ProcessorDone? ==> s'.processor.ProcessorDone? && s'.delivered == s.delivered)
      && (s.reader.ReaderDone? ==> s'.reader.ReaderDone? && s'.decoded == s.decoded)
    decreases |steps|
  {
    if steps != [] {
      ReturnsAreFinal(s, steps[..|steps| - 1]);
    }
  }

  /** `n` turns of the processor's loop. */
  function Rounds<E>(n: nat): seq<Step<E>> {
    if n == 0 then [] else Rounds(n - 1) + [CheckRunning] + [Take] + [Deliver]
  }

  lemma {:induction false} RoundsDeliver<E>(s: Feed<E>, n: nat)
    requires s.running && s.processor.AtHead? && n <= |s.queue|
    ensures var s' := Continued(s, Rounds(n));
      s' == s.(queue := s.queue[n..], delivered := s.delivered + s.queue[..n])
    decreases n
  {
    if n > 0 {
      var most := Rounds(n - 1);
      RoundsDeliver(s, n - 1);
      ContinuedSnoc(s, most, CheckRunning);
      ContinuedSnoc(s, most + [CheckRunning], Take);
      ContinuedSnoc(s, most + [CheckRunning] + [Take], Deliver);
      assert s.queue[..n] == s.queue[..n - 1] + [s.queue[n - 1]];
      assert s.queue[n - 1..][1..] == s.queue[n..];
      assert s.delivered + s.queue[..n] == (s.delivered + s.queue[..n - 1]) + [s.queue[n - 1]];
    }
  }

  /** While it is not told to stop, the processor by itself can always go on until everything the
      channel ever took is delivered. */
  lemma {:induction false} EverythingCanBeDelivered<E>(s: Feed<E>) returns (steps: seq<Step<E>>)
    requires s.running && !s.processor.ProcessorDone?
    ensures InLoop(steps)
    ensures Continued(s, steps).delivered == Accepted(s) && Continued(s, steps).queue == []
  {
    var first := ToHead(s);
    var at := Continued(s, first);
    if at.processor.AtHead? {
      var n := |at.queue|;
      RoundsDeliver(at, n);
      ContinuedPlus(s, first, Rounds(n));
      RoundsAreTheProcessors<E>(n);
      steps := first + Rounds(n);
      assert at.queue[..n] == at.queue;
    } else {
      steps := first;
    }
  }

  /** Steps of the processor's loop only. */
  predicate InLoop<E>(steps: seq<Step<E>>) {
    forall i :: 0 <= i < |steps| ==> steps[i].CheckRunning? || steps[i].Take? || steps[i].Deliver?
  }

  /** Finishing what is in hand: the processor is back at the head, or selecting with nothing to
      take. */
  lemma ToHead<E>(s: Feed<E>) returns (steps: seq<Step<E>>)
    requires s.running && !s.processor.ProcessorDone?
    ensures InLoop(steps)
    ensures var s' := Continued(s, steps);
      && s'.running && Accepted(s') == Accepted(s)
      && (s'.processor.AtHead? || (s'.processor.Selecting? && s'.queue == [] && s'.delivered == Accepted(s)))
  {
    steps := [];
    if s.processor.Processing? {
      ContinuedSnoc(s, [], Deliver);
      steps := [] + [Deliver];
    } else if s.processor.Selecting? && s.queue != [] {
      ContinuedSnoc(s, [], Take);
      ContinuedSnoc(s, [] + [Take], Deliver);
      steps := [] + [Take] + [Deliver];
      TakenAndDelivered(s);
    }
  }

  lemma TakenAndDelivered<E>(s: Feed<E>)
    requires s.processor.Selecting? && s.queue != []
    ensures var s' := Next(Next(s, Take), Deliver);
      s'.processor.AtHead? && s'.running == s.running && Accepted(s') == Accepted(s)
  {
    assert s.queue == [s.queue[0]] + s.queue[1..];
  }

  lemma {:induction false} ContinuedPlus<E>(s: Feed<E>, a: seq<Step<E>>, b: seq<Step<E>>)
    ensures Continued(s, a + b) == Continued(Continued(s, a), b)
    decreases |b|
  {
    if b == [] {
      assert a + b == a;
    } else {
      var most, step := b[..|b| - 1], b[|b| - 1];
      ContinuedPlus(s, a, most);
      ContinuedSnoc(s, a + most, step);
      assert a + b == (a + most) + [step];
    }
  }

  lemma {:induction false} RoundsAreTheProcessors<E>(n: nat)
    ensures InLoop(Rounds<E>(n))
    decreases n
  {
    if n > 0 {
      RoundsAreTheProcessors<E>(n - 1);
      var most: seq<Step<E>> := Rounds(n - 1);
      assert Rounds<E>(n) == most + [CheckRunning] + [Take] + [Deliver];
    }
  }

  /** The reader never waits for a channel: an offer always goes through or is dropped, and the
      one error it ever sends finds its channel empty. */
  lemma ReaderNeverBlocks<E>(steps: seq<Step<E>>)
    ensures var s := Reached(steps);
      && (s.reader.Offering? ==> Enabled(s, Offer) && Next(s, Offer).reader.AtRing?)
      && (s.reader.Failing? ==> Enabled(s, SendError) && Next(s, SendError).reader.ReaderDone?)
  {
    EveryFeedIsSound(steps);
  }
}
