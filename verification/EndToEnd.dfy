/**
 One input's feed joined to the pipeline: delivering an event is the append of its log line
 under the pipeline's lock. Other producers and the flusher interleave freely.
 */
module EndToEnd {
  import opened Telemetry
  import opened DnsFeed
  import P = FlushProtocol

  datatype Joint<E> = Joint(feed: Feed<E>, pipe: P.State)

  datatype JointStep<E> =
    | OfFeed(feedStep: Step<E>)
    | OfPipe(pipeStep: P.Step)
    | Handover

  /** The feed's processor is producer `me`; it is busy while its append still has to signal. */
  predicate Busy<E>(s: Joint<E>, me: nat) {
    me in s.pipe.signalling
  }

  predicate ByProcessor<E>(f: Step<E>) {
    f.CheckRunning? || f.Take? || f.Cancelled? || f.ErrorReceived?
  }

  function Next<E(==)>(outputs: seq<set<Kind>>, me: nat, logOf: E -> Item, s: Joint<E>, step: JointStep<E>)
    : (s': Joint<E>)
    requires |s.pipe.writes| == |outputs|
    ensures |s'.pipe.writes| == |outputs|
  {
    match step
    case OfFeed(f) =>
      if f.Deliver? || (Busy(s, me) && ByProcessor(f)) then s
      else s.(feed := DnsFeed.Next(s.feed, f))
    case OfPipe(p) =>
      if p.Append? && p.producer == me then s else s.(pipe := P.Next(outputs, s.pipe, p))
    case Handover =>
      if Busy(s, me) || !s.feed.processor.Processing? then s
      else Joint(DnsFeed.Next(s.feed, Deliver),
                 P.Next(outputs, s.pipe, P.Append(me, logOf(s.feed.processor.event))))
  }

  function Reached<E(==)>(outputs: seq<set<Kind>>, me: nat, logOf: E -> Item, steps: seq<JointStep<E>>): (s: Joint<E>)
    ensures |s.pipe.writes| == |outputs|
  {
    if steps == [] then Joint(DnsFeed.Start(), P.Start(outputs))
    else Next(outputs, me, logOf, Reached(outputs, me, logOf, steps[..|steps| - 1]), steps[|steps| - 1])
  }

  function OfSource(source: nat, entries: seq<P.Entry>): seq<P.Entry> {
    if entries == [] then []
    else
      var e := entries[|entries| - 1];
      OfSource(source, entries[..|entries| - 1]) + if e.source == source then [e] else []
  }

  function Logs<E>(logOf: E -> Item, events: seq<E>): (items: seq<Item>)
    ensures |items| == |events|
    ensures forall i :: 0 <= i < |events| ==> items[i] == logOf(events[i])
  {
    seq(|events|, i requires 0 <= i < |events| => logOf(events[i]))
  }

  ghost predicate Joined<E>(outputs: seq<set<Kind>>, me: nat, logOf: E -> Item, s: Joint<E>) {
    && Sound(s.feed)
    && P.HandedOff(outputs, s.pipe)
    && InStep(me, logOf, s.pipe.added, s.feed.delivered)
  }

  /** The items that the input added are the logs of its delivered events. */
  ghost predicate InStep<E>(me: nat, logOf: E -> Item, added: seq<P.Entry>, delivered: seq<E>) {
    P.Items(OfSource(me, added)) == Logs(logOf, delivered)
  }

  lemma OneMoreEntry(me: nat, entries: seq<P.Entry>, e: P.Entry)
    ensures P.Items(OfSource(me, entries + [e]))
         == P.Items(OfSource(me, entries)) + if e.source == me then [e.item] else []
  {
    assert (entries + [e])[..|entries|] == entries;
    var mine := OfSource(me, entries);
    assert (mine + [e])[..|mine|] == mine;
    assert mine + [] == mine;
  }

  lemma OneMoreLog<E>(me: nat, logOf: E -> Item, added: seq<P.Entry>, delivered: seq<E>, e: E)
    requires InStep(me, logOf, added, delivered)
    ensures InStep(me, logOf, added + [P.Entry(me, logOf(e))], delivered + [e])
  {
    OneMoreEntry(me, added, P.Entry(me, logOf(e)));
    LogsSnoc(logOf, delivered, e);
  }

  lemma LogsSnoc<E>(logOf: E -> Item, events: seq<E>, e: E)
    ensures Logs(logOf, events + [e]) == Logs(logOf, events) + [logOf(e)]
  {
  }

  lemma OthersEntry<E>(me: nat, logOf: E -> Item, added: seq<P.Entry>, delivered: seq<E>, other: P.Entry)
    requires InStep(me, logOf, added, delivered) && other.source != me
    ensures InStep(me, logOf, added + [other], delivered)
  {
    OneMoreEntry(me, added, other);
  }

  /** An append adds its entry, if its producer is not still signalling; nothing else adds. */
  lemma PipeAdds(outputs: seq<set<Kind>>, s: P.State, p: P.Step)
    requires |s.writes| == |outputs|
    ensures P.Next(outputs, s, p).added
         == if p.Append? && p.producer !in s.signalling then s.added + [P.Entry(p.producer, p.item)] else s.added
  {
  }

  lemma HandoverJoins<E>(outputs: seq<set<Kind>>, me: nat, logOf: E -> Item, s: Joint<E>)
    requires Joined(outputs, me, logOf, s) && !Busy(s, me) && s.feed.processor.Processing?
    ensures Joined(outputs, me, logOf, Next(outputs, me, logOf, s, Handover))
  {
    HandoverIsBoth(outputs, me, logOf, s);
    BothJoin(outputs, me, logOf, s.feed, s.pipe);
  }

  lemma HandoverIsBoth<E>(outputs: seq<set<Kind>>, me: nat, logOf: E -> Item, s: Joint<E>)
    requires |s.pipe.writes| == |outputs| && !Busy(s, me) && s.feed.processor.Processing?
    ensures Next(outputs, me, logOf, s, Handover)
         == Joint(DnsFeed.Next(s.feed, Deliver),
                  P.Next(outputs, s.pipe, P.Append(me, logOf(s.feed.processor.event))))
  {
  }

  lemma BothJoin<E>(outputs: seq<set<Kind>>, me: nat, logOf: E -> Item, feed: Feed<E>, pipe: P.State)
    requires Joined(outputs, me, logOf, Joint(feed, pipe)) && me !in pipe.signalling && feed.processor.Processing?
    ensures Joined(outputs, me, logOf,
                   Joint(DnsFeed.Next(feed, Deliver), P.Next(outputs, pipe, P.Append(me, logOf(feed.processor.event)))))
  {
    var append := P.Append(me, logOf(feed.processor.event));
    NextSound(feed, Deliver);
    P.NextHandsOff(outputs, pipe, append);
    HandoverInStep(outputs, me, logOf, feed, pipe);
    JoinedParts(outputs, me, logOf, DnsFeed.Next(feed, Deliver), P.Next(outputs, pipe, append));
  }

  lemma JoinedParts<E>(outputs: seq<set<Kind>>, me: nat, logOf: E -> Item, feed: Feed<E>, pipe: P.State)
    requires Sound(feed) && P.HandedOff(outputs, pipe) && InStep(me, logOf, pipe.added, feed.delivered)
    ensures Joined(outputs, me, logOf, Joint(feed, pipe))
  {
  }

  lemma HandoverInStep<E>(outputs: seq<set<Kind>>, me: nat, logOf: E -> Item, feed: Feed<E>, pipe: P.State)
    requires |pipe.writes| == |outputs| && me !in pipe.signalling && feed.processor.Processing?
    requires InStep(me, logOf, pipe.added, feed.delivered)
    ensures InStep(me, logOf, P.Next(outputs, pipe, P.Append(me, logOf(feed.processor.event))).added,
                   DnsFeed.Next(feed, Deliver).delivered)
  {
    PipeAdds(outputs, pipe, P.Append(me, logOf(feed.processor.event)));
    OneMoreLog(me, logOf, pipe.added, feed.delivered, feed.processor.event);
  }

  lemma PipeJoins<E>(outputs: seq<set<Kind>>, me: nat, logOf: E -> Item, s: Joint<E>, p: P.Step)
    requires Joined(outputs, me, logOf, s) && !(p.Append? && p.producer == me)
    ensures Joined(outputs, me, logOf, s.(pipe := P.Next(outputs, s.pipe, p)))
  {
    P.NextHandsOff(outputs, s.pipe, p);
    PipeAdds(outputs, s.pipe, p);
    if p.Append? {
      OthersEntry(me, logOf, s.pipe.added, s.feed.delivered, P.Entry(p.producer, p.item));
    }
  }

  lemma FeedJoins<E>(outputs: seq<set<Kind>>, me: nat, logOf: E -> Item, s: Joint<E>, f: Step<E>)
    requires Joined(outputs, me, logOf, s) && !f.Deliver?
    ensures Joined(outputs, me, logOf, s.(feed := DnsFeed.Next(s.feed, f)))
  {
    NextSound(s.feed, f);
    DeliveredStays(s.feed, f);
  }

  lemma DeliveredStays<E>(s: Feed<E>, f: Step<E>)
    requires !f.Deliver?
    ensures DnsFeed.Next(s, f).delivered == s.delivered
  {
  }

  lemma NextJoined<E>(outputs: seq<set<Kind>>, me: nat, logOf: E -> Item, s: Joint<E>, step: JointStep<E>)
    requires Joined(outputs, me, logOf, s)
    ensures Joined(outputs, me, logOf, Next(outputs, me, logOf, s, step))
  {
    match step
    case OfFeed(f) =>
      if !f.Deliver? {
        FeedJoins(outputs, me, logOf, s, f);
      }
    case OfPipe(p) =>
      if !(p.Append? && p.producer == me) {
        PipeJoins(outputs, me, logOf, s, p);
      }
    case Handover =>
      if !Busy(s, me) && s.feed.processor.Processing? {
        HandoverJoins(outputs, me, logOf, s);
      }
  }

  lemma {:induction false} AlwaysJoined<E>(outputs: seq<set<Kind>>, me: nat, logOf: E -> Item, steps: seq<JointStep<E>>)
    ensures Joined(outputs, me, logOf, Reached(outputs, me, logOf, steps))
    decreases |steps|
  {
    if steps != [] {
      AlwaysJoined(outputs, me, logOf, steps[..|steps| - 1]);
      NextJoined(outputs, me, logOf, Reached(outputs, me, logOf, steps[..|steps| - 1]), steps[|steps| - 1]);
    }
  }

  /** The processor goes on only once its append has signalled: while it has not, it is at the head
      of its loop with nothing in hand. */
  lemma {:induction false} BusyIsAtHead<E>(outputs: seq<set<Kind>>, me: nat, logOf: E -> Item,
                                          steps: seq<JointStep<E>>, s: Joint<E>)
    requires s == Reached(outputs, me, logOf, steps)
    ensures Busy(s, me) ==> s.feed.processor.AtHead?
    decreases |steps|
  {
    if steps != [] {
      var before, step := steps[..|steps| - 1], steps[|steps| - 1];
      BusyIsAtHead(outputs, me, logOf, before, Reached(outputs, me, logOf, before));
      BusyStep(outputs, me, logOf, Reached(outputs, me, logOf, before), step);
    }
  }

  lemma BusyStep<E>(outputs: seq<set<Kind>>, me: nat, logOf: E -> Item, s: Joint<E>, step: JointStep<E>)
    requires |s.pipe.writes| == |outputs| && (Busy(s, me) ==> s.feed.processor.AtHead?)
    ensures var s' := Next(outputs, me, logOf, s, step); Busy(s', me) ==> s'.feed.processor.AtHead?
  {
  }

  /** The entries behind an output's items. */
  function SupportedEntries(kinds: set<Kind>, entries: seq<P.Entry>): seq<P.Entry> {
    if entries == [] then []
    else
      var e := entries[|entries| - 1];
      SupportedEntries(kinds, entries[..|entries| - 1]) + if KindOf(e.item) in kinds then [e] else []
  }

  predicate OnlyLogsFrom(me: nat, entries: seq<P.Entry>) {
    forall i :: 0 <= i < |entries| && entries[i].source == me ==> entries[i].item.Log?
  }

  lemma {:induction false} FilterKeepsSource(kinds: set<Kind>, me: nat, entries: seq<P.Entry>)
    requires LogKind in kinds && OnlyLogsFrom(me, entries)
    ensures P.Items(SupportedEntries(kinds, entries)) == Supported(kinds, P.Items(entries))
    ensures OfSource(me, SupportedEntries(kinds, entries)) == OfSource(me, entries)
    decreases |entries|
  {
    if entries != [] {
      var before, e := entries[..|entries| - 1], entries[|entries| - 1];
      FilterKeepsSource(kinds, me, before);
      var some := SupportedEntries(kinds, before);
      assert (some + [e])[..|some|] == some;
      assert some + [] == some;
    }
  }

  lemma {:induction false} SourceItems(me: nat, entries: seq<P.Entry>)
    requires forall i :: 0 <= i < |P.Items(OfSource(me, entries))| ==> P.Items(OfSource(me, entries))[i].Log?
    ensures OnlyLogsFrom(me, entries)
    decreases |entries|
  {
    if entries != [] {
      var before, e := entries[..|entries| - 1], entries[|entries| - 1];
      assert entries == before + [e];
      OneMoreEntry(me, before, e);
      var mine := P.Items(OfSource(me, before));
      assert forall i :: 0 <= i < |mine| ==> mine[i] == P.Items(OfSource(me, entries))[i];
      assert e.source == me ==> P.Items(OfSource(me, entries))[|mine|] == e.item;
      SourceItems(me, before);
    }
  }

  /** What output `i` has been handed, and where one input's logs are in it. The output has
      received the supported items among the first `n` in lock order; of the input these contain
      the logs of its first `k` delivered events, in order and once each, and the logs of its
      other delivered events are, in order, among the items after those `n`. */
  ghost predicate Shows<E>(outputs: seq<set<Kind>>, me: nat, logOf: E -> Item, s: Joint<E>, i: nat, n: nat, k: nat)
    requires i < |outputs| && |s.pipe.writes| == |outputs|
  {
    && n <= |s.pipe.added| && k <= |s.feed.delivered|
    && Flatten(s.pipe.writes[i]) == Supported(outputs[i], P.Items(s.pipe.added[..n]))
    && Flatten(s.pipe.writes[i]) == P.Items(SupportedEntries(outputs[i], s.pipe.added[..n]))
    && P.Items(OfSource(me, SupportedEntries(outputs[i], s.pipe.added[..n]))) == Logs(logOf, s.feed.delivered[..k])
    && P.Items(OfSource(me, s.pipe.added[n..])) == Logs(logOf, s.feed.delivered[k..])
  }

  /** In every interleaving, an output that supports logs has been handed the logs of a prefix
      of the input's delivered events, each once, in reading order and in their place among the
      items of all producers. Unless a batch is being written, all that is missing is still in
      the buffer. The delivered events are in turn the first of those the channel kept. */
  lemma {:induction false} LogsArriveInReadOrder<E>(outputs: seq<set<Kind>>, me: nat, logOf: E -> Item,
                                                    steps: seq<JointStep<E>>, s: Joint<E>, i: nat)
    returns (n: nat, k: nat)
    requires s == Reached(outputs, me, logOf, steps)
    requires i < |outputs| && LogKind in outputs[i] && forall e: E :: logOf(e).Log?
    ensures Shows(outputs, me, logOf, s, i, n, k)
    ensures !s.pipe.consumer.Writing? ==> s.pipe.added[n..] == s.pipe.buffer
    ensures |s.feed.kept| == |Offered(s.feed)| && s.feed.delivered <= Pick(Offered(s.feed), s.feed.kept, true)
  {
    AlwaysJoined(outputs, me, logOf, steps);
    n, k := JoinedShows(outputs, me, logOf, s, i);
  }

  lemma DeliveredIsKept<E>(s: Feed<E>)
    requires Sound(s)
    ensures |s.kept| == |Offered(s)| && s.delivered <= Pick(Offered(s), s.kept, true)
  {
    assert Accepted(s) == s.delivered + (InProcess(s) + s.queue);
  }

  lemma JoinedShows<E>(outputs: seq<set<Kind>>, me: nat, logOf: E -> Item, s: Joint<E>, i: nat)
    returns (n: nat, k: nat)
    requires Joined(outputs, me, logOf, s)
    requires i < |outputs| && LogKind in outputs[i] && forall e: E :: logOf(e).Log?
    ensures Shows(outputs, me, logOf, s, i, n, k)
    ensures !s.pipe.consumer.Writing? ==> s.pipe.added[n..] == s.pipe.buffer
    ensures |s.feed.kept| == |Offered(s.feed)| && s.feed.delivered <= Pick(Offered(s.feed), s.feed.kept, true)
  {
    DeliveredIsKept(s.feed);
    n := P.ServedPrefix(outputs, s.pipe, i);
    k := MinePrefix(me, logOf, s.pipe.added, s.feed.delivered, n);
    FilterKeepsSource(outputs[i], me, s.pipe.added[..n]);
  }

  lemma {:induction false} SourceAppend(me: nat, a: seq<P.Entry>, b: seq<P.Entry>)
    ensures P.Items(OfSource(me, a + b)) == P.Items(OfSource(me, a)) + P.Items(OfSource(me, b))
    decreases |b|
  {
    if b == [] {
      assert a + b == a;
    } else {
      var most, e := b[..|b| - 1], b[|b| - 1];
      SourceAppend(me, a, most);
      SourceSnoc(me, a, most, e);
      assert b == most + [e];
    }
  }

  lemma SourceSnoc(me: nat, a: seq<P.Entry>, most: seq<P.Entry>, e: P.Entry)
    requires P.Items(OfSource(me, a + most)) == P.Items(OfSource(me, a)) + P.Items(OfSource(me, most))
    ensures P.Items(OfSource(me, a + (most + [e])))
         == P.Items(OfSource(me, a)) + P.Items(OfSource(me, most + [e]))
  {
    var last := if e.source == me then [e.item] else [];
    OneMoreEntry(me, a + most, e);
    OneMoreEntry(me, most, e);
    assert a + (most + [e]) == (a + most) + [e];
    Regroup(P.Items(OfSource(me, a)), P.Items(OfSource(me, most)), last);
  }

  lemma Regroup<T>(a: seq<T>, b: seq<T>, c: seq<T>)
    ensures (a + b) + c == a + (b + c)
  {
  }

  lemma MinePrefix<E>(me: nat, logOf: E -> Item, added: seq<P.Entry>, delivered: seq<E>, n: nat) returns (k: nat)
    requires P.Items(OfSource(me, added)) == Logs(logOf, delivered)
    requires n <= |added| && forall e: E :: logOf(e).Log?
    ensures OnlyLogsFrom(me, added[..n])
    ensures k <= |delivered| && P.Items(OfSource(me, added[..n])) == Logs(logOf, delivered[..k])
    ensures P.Items(OfSource(me, added[n..])) == Logs(logOf, delivered[k..])
  {
    var logs := Logs(logOf, delivered);
    assert forall j :: 0 <= j < |logs| ==> logs[j].Log?;
    SourceItems(me, added);
    assert added == added[..n] + added[n..];
    SourceAppend(me, added[..n], added[n..]);
    k := |P.Items(OfSource(me, added[..n]))|;
    assert logs[..k] == Logs(logOf, delivered[..k]) && logs[k..] == Logs(logOf, delivered[k..]);
  }
}
