/**
 Grouping logs into Loki streams: each log goes to the first stream whose labels compare equal,
 found by a linear search, or opens a new stream.
 */
module LokiStreams {
  import opened Options
  import opened Telemetry

  type Labels = map<string, string>

  datatype LokiLog = LokiLog(timestamp: int, line: string)

  datatype Stream = Stream(labels: Labels, values: seq<LokiLog>)

  // ---- Comparing label maps ----

  /** Indexing a Go map: a missing key reads as the empty string. */
  function Read(m: Labels, k: string): string {
    if k in m then m[k] else ""
  }

  predicate SameLabels(a: Labels, b: Labels) {
    |a| == |b| && forall k :: k in a ==> Read(b, k) == a[k]
  }

  method MapsEqual(a: Labels, b: Labels) returns (equal: bool)
    ensures equal == SameLabels(a, b)
  {
    if |a| != |b| {
      return false;
    }
    var todo := a.Keys;
    while todo != {}
      invariant todo <= a.Keys
      invariant forall k :: k in a && k !in todo ==> Read(b, k) == a[k]
      decreases todo
    {
      var k :| k in todo;
      if Read(b, k) != a[k] {
        return false;
      }
      todo := todo - {k};
    }
    return true;
  }

  predicate NoEmptyValue(m: Labels) {
    forall k :: k in m ==> m[k] != ""
  }

  /** With no empty value on the left, the comparison is equality: every key is then really
      there on the right, and equal sizes leave no room for another. */
  lemma SameLabelsIsEquality(a: Labels, b: Labels)
    requires NoEmptyValue(a)
    ensures SameLabels(a, b) <==> a == b
  {
    if SameLabels(a, b) {
      assert forall k :: k in a ==> k in b && b[k] == a[k];
      SubsetOfSameSize(a.Keys, b.Keys);
      assert a == b;
    }
  }

  lemma SubsetOfSameSize<T>(a: set<T>, b: set<T>)
    requires a <= b && |a| == |b|
    ensures a == b
  {
    assert |b - a| == |b| - |a|;
  }

  ghost function LengthBound(keys: set<string>): (n: nat)
    ensures forall k :: k in keys ==> |k| <= n
    decreases keys
  {
    if keys == {} then 0
    else
      var k :| k in keys;
      var n := LengthBound(keys - {k});
      if |k| > n then |k| else n
  }

  lemma FreshKey(keys: set<string>) returns (k: string)
    ensures k !in keys
  {
    k := seq(LengthBound(keys) + 1, _ => 'x');
  }

  /** The condition is exact: a map with an empty value compares equal to some other map, which
      has a different key in the place of the empty one. */
  lemma ComparisonIsEqualityIff(a: Labels)
    ensures (forall b :: SameLabels(a, b) <==> a == b) <==> NoEmptyValue(a)
  {
    if NoEmptyValue(a) {
      forall b ensures SameLabels(a, b) <==> a == b {
        SameLabelsIsEquality(a, b);
      }
    } else {
      var k :| k in a && a[k] == "";
      var other := FreshKey(a.Keys);
      var b := (a - {k})[other := ""];
      assert b.Keys == a.Keys - {k} + {other};
      assert |b| == |b.Keys| && |a| == |a.Keys|;
      assert SameLabels(a, b) && other in b && other !in a;
    }
  }

  /** Nor is it symmetric: an empty value matches a missing key only from its own side. Where the
      comparison holds it holds the other way round if and only if every key that only the right
      map has is empty too; and that is so against every map if and only if no value is empty. */
  lemma ComparisonIsSymmetricIff(a: Labels)
    ensures forall b :: SameLabels(a, b) ==>
      (SameLabels(b, a) <==> forall k :: k in b && k !in a ==> b[k] == "")
    ensures (forall b :: SameLabels(a, b) ==> SameLabels(b, a)) <==> NoEmptyValue(a)
  {
    if NoEmptyValue(a) {
      forall b | SameLabels(a, b)
        ensures SameLabels(b, a)
      {
        SameLabelsIsEquality(a, b);
      }
    } else {
      var k :| k in a && a[k] == "";
      var other := FreshKey(a.Keys);
      var b := (a - {k})[other := "x"];
      assert b.Keys == a.Keys - {k} + {other};
      assert |b| == |b.Keys| && |a| == |a.Keys|;
      assert SameLabels(a, b) && other in b && Read(a, other) != b[other];
    }
  }

  // ---- Inserting one log ----

  /** The stream a log goes to: the first that compares equal, or one past the last. */
  function Target(streams: seq<Stream>, labels: Labels): (i: nat)
    ensures i <= |streams|
    ensures i < |streams| ==> SameLabels(streams[i].labels, labels)
    ensures forall j :: 0 <= j < i ==> !SameLabels(streams[j].labels, labels)
  {
    if streams == [] then 0
    else if SameLabels(streams[0].labels, labels) then 0
    else 1 + Target(streams[1..], labels)
  }

  function Inserted(streams: seq<Stream>, labels: Labels, log: LokiLog): seq<Stream> {
    var i := Target(streams, labels);
    if i < |streams| then streams[i := streams[i].(values := streams[i].values + [log])]
    else streams + [Stream(labels, [log])]
  }

  class Streams {
    var streams: seq<Stream>

    constructor ()
      ensures streams == []
    {
      streams := [];
    }

    method InsertLog(labels: Labels, log: LokiLog)
      modifies this
      ensures streams == Inserted(old(streams), labels, log)
    {
      for i := 0 to |streams|
        invariant streams == old(streams)
        invariant forall j :: 0 <= j < i ==> !SameLabels(streams[j].labels, labels)
      {
        var same := MapsEqual(streams[i].labels, labels);
        if same {
          streams := streams[i := streams[i].(values := streams[i].values + [log])];
          return;
        }
      }
      streams := streams + [Stream(labels, [log])];
    }
  }

  type Entry = (Labels, LokiLog)

  function Grouped(logs: seq<Entry>): seq<Stream> {
    if logs == [] then []
    else
      var (labels, log) := logs[|logs| - 1];
      Inserted(Grouped(logs[..|logs| - 1]), labels, log)
  }

  // ---- The grouping refines a group-by ----

  /** The label maps that occur, in order of first occurrence. */
  function Distinct(logs: seq<Entry>): seq<Labels> {
    if logs == [] then []
    else
      var before, labels := Distinct(logs[..|logs| - 1]), logs[|logs| - 1].0;
      if labels in before then before else before + [labels]
  }

  /** The logs with these labels, in order. */
  function ValuesOf(logs: seq<Entry>, labels: Labels): seq<LokiLog> {
    if logs == [] then []
    else
      var (l, log) := logs[|logs| - 1];
      ValuesOf(logs[..|logs| - 1], labels) + if l == labels then [log] else []
  }

  function GroupBy(logs: seq<Entry>): seq<Stream> {
    var keys := Distinct(logs);
    seq(|keys|, i requires 0 <= i < |keys| => Stream(keys[i], ValuesOf(logs, keys[i])))
  }

  ghost predicate NoEmptyLabels(logs: seq<Entry>) {
    forall i :: 0 <= i < |logs| ==> NoEmptyValue(logs[i].0)
  }

  lemma {:induction false} DistinctKeys(logs: seq<Entry>)
    ensures forall i, j :: 0 <= i < j < |Distinct(logs)| ==> Distinct(logs)[i] != Distinct(logs)[j]
    ensures forall l :: l in Distinct(logs) <==> exists i :: 0 <= i < |logs| && logs[i].0 == l
    decreases |logs|
  {
    if logs != [] {
      var before := logs[..|logs| - 1];
      DistinctKeys(before);
      forall l
        ensures l in Distinct(logs) <==> exists i :: 0 <= i < |logs| && logs[i].0 == l
      {
        if l in Distinct(before) {
          var i :| 0 <= i < |before| && before[i].0 == l;
          assert logs[i].0 == l;
        } else {
          assert forall i :: 0 <= i < |before| ==> before[i].0 != l && logs[i] == before[i];
        }
      }
    }
  }

  lemma {:induction false} NoValuesYet(logs: seq<Entry>, labels: Labels)
    requires labels !in Distinct(logs)
    ensures ValuesOf(logs, labels) == []
    decreases |logs|
  {
    if logs != [] {
      NoValuesYet(logs[..|logs| - 1], labels);
    }
  }

  /** No label map compares equal to one that first occurs after it. */
  ghost predicate NoClash(keys: seq<Labels>) {
    forall i, j :: 0 <= i < j < |keys| ==> !SameLabels(keys[i], keys[j])
  }

  /** Streams have pairwise distinct label maps, in the order in which they first occurred, and
      each holds exactly the logs with its labels, in order, if and only if no label map of the
      batch compares equal to a different later one. */
  lemma GroupingIsGroupByIff(logs: seq<Entry>)
    ensures Grouped(logs) == GroupBy(logs) <==> NoClash(Distinct(logs))
  {
    if NoClash(Distinct(logs)) {
      ClashFreeIsGroupBy(logs);
    }
    if Grouped(logs) == GroupBy(logs) {
      StreamsNeverClash(logs);
      var keys := Distinct(logs);
      assert forall i :: 0 <= i < |keys| ==> Grouped(logs)[i].labels == keys[i];
    }
  }

  /** In particular when no label value is empty. */
  lemma GroupingIsGroupBy(logs: seq<Entry>)
    requires NoEmptyLabels(logs)
    ensures Grouped(logs) == GroupBy(logs)
  {
    var keys := Distinct(logs);
    DistinctKeys(logs);
    forall i, j | 0 <= i < j < |keys|
      ensures !SameLabels(keys[i], keys[j])
    {
      assert keys[i] in keys;
      SameLabelsIsEquality(keys[i], keys[j]);
    }
    GroupingIsGroupByIff(logs);
  }

  /** A stream is opened only for labels that no earlier stream compares equal to. */
  lemma {:induction false} StreamsNeverClash(logs: seq<Entry>)
    ensures forall i, j :: 0 <= i < j < |Grouped(logs)| ==>
      !SameLabels(Grouped(logs)[i].labels, Grouped(logs)[j].labels)
    decreases |logs|
  {
    if logs != [] {
      StreamsNeverClash(logs[..|logs| - 1]);
      var streams, e := Grouped(logs[..|logs| - 1]), logs[|logs| - 1];
      assert Grouped(logs) == Inserted(streams, e.0, e.1);
      assert forall i :: 0 <= i < |streams| ==> Grouped(logs)[i].labels == streams[i].labels;
    }
  }

  lemma {:induction false} ClashFreeIsGroupBy(logs: seq<Entry>)
    requires NoClash(Distinct(logs))
    ensures Grouped(logs) == GroupBy(logs)
    decreases |logs|
  {
    if logs != [] {
      var before, e := logs[..|logs| - 1], logs[|logs| - 1];
      assert forall i :: 0 <= i < |Distinct(before)| ==> Distinct(before)[i] == Distinct(logs)[i];
      ClashFreeIsGroupBy(before);
      assert before + [e] == logs;
      InsertIntoGroups(before, e);
      assert Grouped(logs) == Inserted(Grouped(before), e.0, e.1);
    }
  }

  lemma InsertIntoGroups(before: seq<Entry>, e: Entry)
    requires NoClash(Distinct(before + [e]))
    ensures Inserted(GroupBy(before), e.0, e.1) == GroupBy(before + [e])
  {
    OneMoreValue(before, e, e.0);
    if e.0 in Distinct(before) {
      OldTarget(Distinct(before), GroupBy(before), e.0);
      InsertIntoOldGroup(before, e);
    } else {
      NewTarget(Distinct(before), GroupBy(before), e.0);
      InsertNewGroup(before, e);
    }
  }

  lemma OneMoreValue(before: seq<Entry>, e: Entry, l: Labels)
    ensures ValuesOf(before + [e], l) == if l == e.0 then ValuesOf(before, l) + [e.1] else ValuesOf(before, l)
    ensures Distinct(before + [e]) == if e.0 in Distinct(before) then Distinct(before) else Distinct(before) + [e.0]
  {
    assert (before + [e])[..|before|] == before;
  }

  lemma InsertIntoOldGroup(before: seq<Entry>, e: Entry)
    requires e.0 in Distinct(before)
    requires var i := Target(GroupBy(before), e.0);
      i < |Distinct(before)| && forall j :: 0 <= j < |Distinct(before)| ==> (Distinct(before)[j] == e.0 <==> j == i)
    ensures Inserted(GroupBy(before), e.0, e.1) == GroupBy(before + [e])
  {
    var keys, after, groups := Distinct(before), Inserted(GroupBy(before), e.0, e.1), GroupBy(before + [e]);
    OneMoreValue(before, e, e.0);
    forall j | 0 <= j < |keys|
      ensures after[j] == groups[j]
    {
      OneMoreValue(before, e, keys[j]);
    }
  }

  lemma InsertNewGroup(before: seq<Entry>, e: Entry)
    requires e.0 !in Distinct(before) && Target(GroupBy(before), e.0) == |Distinct(before)|
    ensures Inserted(GroupBy(before), e.0, e.1) == GroupBy(before + [e])
  {
    var keys, after, groups := Distinct(before), Inserted(GroupBy(before), e.0, e.1), GroupBy(before + [e]);
    OneMoreValue(before, e, e.0);
    NoValuesYet(before, e.0);
    forall j | 0 <= j < |keys|
      ensures after[j] == groups[j]
    {
      assert keys[j] in keys;
      OneMoreValue(before, e, keys[j]);
    }
    assert after[|keys|] == Stream(e.0, [e.1]) == groups[|keys|];
  }

  /** The linear search finds the group of its labels, if there is one. */
  lemma OldTarget(keys: seq<Labels>, streams: seq<Stream>, labels: Labels)
    requires |streams| == |keys| && forall j :: 0 <= j < |keys| ==> streams[j].labels == keys[j]
    requires NoClash(keys) && labels in keys
    ensures var i := Target(streams, labels);
      i < |keys| && forall j :: 0 <= j < |keys| ==> (keys[j] == labels <==> j == i)
  {
    var p :| 0 <= p < |keys| && keys[p] == labels;
    var i := Target(streams, labels);
    SelfSame(labels);
    assert SameLabels(streams[p].labels, labels) && i <= p;
    assert SameLabels(keys[i], keys[p]);
    forall j | 0 <= j < |keys| && j != i
      ensures keys[j] != labels
    {
      var forward, back := SameLabels(keys[i], keys[j]), SameLabels(keys[j], keys[i]);
      assert !forward || !back;
    }
  }

  lemma NewTarget(keys: seq<Labels>, streams: seq<Stream>, labels: Labels)
    requires |streams| == |keys| && forall j :: 0 <= j < |keys| ==> streams[j].labels == keys[j]
    requires NoClash(keys + [labels])
    ensures Target(streams, labels) == |keys|
  {
    var more := keys + [labels];
    assert more[|keys|] == labels && forall j :: 0 <= j < |keys| ==> more[j] == keys[j];
    assert forall j :: 0 <= j < |keys| ==> !SameLabels(more[j], more[|keys|]);
  }

  /** Two logs at one level, one with an empty host, the other with a pod and no host: they
      share a stream, labelled as the first, where a grouping by labels has two. In the other
      order they would not. */
  lemma {:induction false} EmptyValueMergesStreams(a: Item, b: Item, clean: string -> string)
    requires a == Log(0, "info", "one", map["host" := ""]) && b == Log(1, "info", "two", map["pod" := "x"])
    requires forall s :: clean(s) == s
    ensures Grouped(EntriesOf([a, b], clean)) == [Stream(LabelsOf(a, clean), [LokiLog(0, "one"), LokiLog(1, "two")])]
    ensures |GroupBy(EntriesOf([a, b], clean))| == 2 && |Grouped(EntriesOf([b, a], clean))| == 2
  {
    var x, y := EntryOf(a, clean)[0], EntryOf(b, clean)[0];
    CompareOneWay(a, b, clean);
    EntriesOfTwo(a, b, clean);
    EntriesOfTwo(b, a, clean);
    GroupedPair(x, y);
    GroupedPair(y, x);
  }

  lemma CompareOneWay(a: Item, b: Item, clean: string -> string)
    requires a == Log(0, "info", "one", map["host" := ""]) && b == Log(1, "info", "two", map["pod" := "x"])
    requires forall s :: clean(s) == s
    ensures SameLabels(LabelsOf(a, clean), LabelsOf(b, clean)) && !SameLabels(LabelsOf(b, clean), LabelsOf(a, clean))
  {
    assert LabelsOf(a, clean) == map["level" := "info", "host" := ""];
    assert LabelsOf(b, clean) == map["level" := "info", "pod" := "x"];
    HostAndPod("level", "host", "pod", "info");
  }

  lemma HostAndPod(level: string, host: string, pod: string, info: string)
    requires level != host && level != pod && host != pod
    ensures var first, second := map[level := info, host := ""], map[level := info, pod := "x"];
      SameLabels(first, second) && !SameLabels(second, first)
  {
    var first, second := map[level := info, host := ""], map[level := info, pod := "x"];
    assert first.Keys == {level, host} && second.Keys == {level, pod};
    assert |first| == |first.Keys| && |second| == |second.Keys|;
    assert pod in second && Read(first, pod) == "";
  }

  lemma EntriesOfTwo(a: Item, b: Item, clean: string -> string)
    requires a.Log? && b.Log?
    ensures EntriesOf([a, b], clean) == [EntryOf(a, clean)[0], EntryOf(b, clean)[0]]
  {
    assert [a, b][..1] == [a] && [a][..0] == [];
    assert EntriesOf([a], clean) == [] + EntryOf(a, clean);
  }

  lemma GroupedPair(x: Entry, y: Entry)
    ensures SameLabels(x.0, y.0) ==> Grouped([x, y]) == [Stream(x.0, [x.1, y.1])]
    ensures !SameLabels(x.0, y.0) ==> |Grouped([x, y])| == 2
    ensures x.0 != y.0 ==> |GroupBy([x, y])| == 2
  {
    OneMoreValue([], x, x.0);
    OneMoreValue([x], y, y.0);
    GroupedSnoc([], x);
    GroupedSnoc([x], y);
    assert [] + [x] == [x] && [x] + [y] == [x, y];
    assert Grouped([x]) == [Stream(x.0, [x.1])];
    InsertedSecond(Stream(x.0, [x.1]), y.0, y.1);
    assert [x.1] + [y.1] == [x.1, y.1];
  }

  lemma InsertedSecond(first: Stream, labels: Labels, log: LokiLog)
    ensures Inserted([first], labels, log)
         == if SameLabels(first.labels, labels) then [first.(values := first.values + [log])]
            else [first, Stream(labels, [log])]
  {
    assert [first][1..] == [];
    assert Target([first], labels) == if SameLabels(first.labels, labels) then 0 else 1;
  }

  // ---- What holds without the premise ----

  /** Where each log went. */
  function Assignment(logs: seq<Entry>): (targets: seq<nat>)
    ensures |targets| == |logs|
  {
    if logs == [] then []
    else Assignment(logs[..|logs| - 1]) + [Target(Grouped(logs[..|logs| - 1]), logs[|logs| - 1].0)]
  }

  function AssignedTo(logs: seq<Entry>, targets: seq<nat>, j: nat): seq<LokiLog>
    requires |targets| == |logs|
  {
    if logs == [] then []
    else
      var n := |logs| - 1;
      AssignedTo(logs[..n], targets[..n], j) + if targets[n] == j then [logs[n].1] else []
  }

  lemma {:induction false} NothingAssignedBeyond(logs: seq<Entry>, targets: seq<nat>, j: nat)
    requires |targets| == |logs| && forall i :: 0 <= i < |targets| ==> targets[i] < j
    ensures AssignedTo(logs, targets, j) == []
    decreases |logs|
  {
    if logs != [] {
      NothingAssignedBeyond(logs[..|logs| - 1], targets[..|logs| - 1], j);
    }
  }

  /** Every log is in the stream it was assigned to, which compares equal to its labels, and
      each stream holds exactly the logs assigned to it, in order. */
  ghost predicate LandedOnce(logs: seq<Entry>, targets: seq<nat>, streams: seq<Stream>) {
    && |targets| == |logs|
    && (forall i :: 0 <= i < |logs| ==> targets[i] < |streams| && SameLabels(streams[targets[i]].labels, logs[i].0))
    && (forall j: nat :: j < |streams| ==> streams[j].values == AssignedTo(logs, targets, j))
  }

  lemma OneMoreLands(logs: seq<Entry>, targets: seq<nat>, streams: seq<Stream>, e: Entry)
    requires LandedOnce(logs, targets, streams)
    ensures LandedOnce(logs + [e], targets + [Target(streams, e.0)], Inserted(streams, e.0, e.1))
  {
    var t, more := Target(streams, e.0), Inserted(streams, e.0, e.1);
    SelfSame(e.0);
    assert forall j :: 0 <= j < |streams| ==> more[j].labels == streams[j].labels;
    forall j: nat | j < |more|
      ensures more[j].values == AssignedTo(logs + [e], targets + [t], j)
    {
      OneMoreAssigned(logs, targets, e, t, j);
      if j == |streams| {
        NothingAssignedBeyond(logs, targets, j);
      }
    }
  }

  lemma OneMoreAssigned(logs: seq<Entry>, targets: seq<nat>, e: Entry, t: nat, j: nat)
    requires |targets| == |logs|
    ensures AssignedTo(logs + [e], targets + [t], j) == AssignedTo(logs, targets, j) + if t == j then [e.1] else []
  {
    assert (logs + [e])[..|logs|] == logs && (targets + [t])[..|logs|] == targets;
  }

  /** Whatever the labels, every log lands in exactly one stream: none is lost, duplicated or
      reordered within its stream. */
  lemma {:induction false} EveryLogLandsOnce(logs: seq<Entry>)
    ensures LandedOnce(logs, Assignment(logs), Grouped(logs))
    decreases |logs|
  {
    if logs != [] {
      var before, e := logs[..|logs| - 1], logs[|logs| - 1];
      EveryLogLandsOnce(before);
      OneMoreLands(before, Assignment(before), Grouped(before), e);
      assert before + [e] == logs;
    }
  }

  lemma SelfSame(labels: Labels)
    ensures SameLabels(labels, labels)
  {
  }

  // ---- Writing a batch ----

  /** The labels of a log: its level, and every attribute; an attribute called `level` takes the
      place of the level. `clean` stands for the UTF-8 clean-up. */
  function LabelsOf(item: Item, clean: string -> string): Labels
    requires item.Log?
  {
    map["level" := clean(item.level)] + map k | k in item.attributes :: clean(item.attributes[k])
  }

  function EntryOf(item: Item, clean: string -> string): seq<Entry> {
    if item.Log? then [(LabelsOf(item, clean), LokiLog(item.time, clean(item.message)))] else []
  }

  function EntriesOf(items: seq<Item>, clean: string -> string): seq<Entry> {
    if items == [] then []
    else EntriesOf(items[..|items| - 1], clean) + EntryOf(items[|items| - 1], clean)
  }

  method BuildLabels(item: Item, clean: string -> string) returns (labels: Labels)
    requires item.Log?
    ensures labels == LabelsOf(item, clean) && Carries(labels, item, clean)
  {
    labels := map["level" := clean(item.level)];
    ghost var first := labels;
    var todo := item.attributes.Keys;
    while todo != {}
      invariant todo <= item.attributes.Keys
      invariant labels == first + map k | k in item.attributes && k !in todo :: clean(item.attributes[k])
      decreases todo
    {
      var key :| key in todo;
      labels := labels[key := clean(item.attributes[key])];
      todo := todo - {key};
    }
  }

  lemma GroupedSnoc(logs: seq<Entry>, e: Entry)
    ensures Grouped(logs + [e]) == Inserted(Grouped(logs), e.0, e.1)
  {
    assert (logs + [e])[..|logs|] == logs;
  }

  // ---- What is sent, in terms of the batch ----

  /** The labels a log is to carry: every attribute, cleaned, and its level, cleaned, unless an
      attribute is called `level`. */
  ghost predicate Carries(labels: Labels, item: Item, clean: string -> string)
    requires item.Log?
  {
    && (forall k :: k in labels <==> k == "level" || k in item.attributes)
    && (forall k :: k in item.attributes ==> k in labels && labels[k] == clean(item.attributes[k]))
    && ("level" in item.attributes || ("level" in labels && labels["level"] == clean(item.level)))
  }

  /** The logs of a batch, in order. */
  function LogsOf(items: seq<Item>): (logs: seq<Item>)
    ensures forall k :: 0 <= k < |logs| ==> logs[k].Log?
  {
    if items == [] then []
    else
      var last := items[|items| - 1];
      LogsOf(items[..|items| - 1]) + if last.Log? then [last] else []
  }

  /** Entry by entry: the full time, the cleaned message and the labels of each log, in order. */
  lemma {:induction false} EntriesAreTheLogs(items: seq<Item>, clean: string -> string)
    ensures var logs, entries := LogsOf(items), EntriesOf(items, clean);
      && |entries| == |logs|
      && forall k :: 0 <= k < |logs| ==>
        && entries[k].1.timestamp == logs[k].time && entries[k].1.line == clean(logs[k].message)
        && Carries(entries[k].0, logs[k], clean)
    decreases |items|
  {
    if items != [] {
      EntriesAreTheLogs(items[..|items| - 1], clean);
    }
  }

  /** The lines of the logs that went to stream `j`, in order. */
  function LinesOf(logs: seq<Item>, targets: seq<nat>, j: nat, clean: string -> string): seq<LokiLog>
    requires |targets| == |logs| && forall k :: 0 <= k < |logs| ==> logs[k].Log?
  {
    if logs == [] then []
    else
      var n := |logs| - 1;
      LinesOf(logs[..n], targets[..n], j, clean)
      + if targets[n] == j then [LokiLog(logs[n].time, clean(logs[n].message))] else []
  }

  lemma {:induction false} AssignedLines(logs: seq<Item>, entries: seq<Entry>, targets: seq<nat>, j: nat,
                                         clean: string -> string)
    requires |targets| == |logs| == |entries| && forall k :: 0 <= k < |logs| ==> logs[k].Log?
    requires forall k :: 0 <= k < |logs| ==>
      entries[k].1.timestamp == logs[k].time && entries[k].1.line == clean(logs[k].message)
    ensures AssignedTo(entries, targets, j) == LinesOf(logs, targets, j, clean)
    decreases |logs|
  {
    if logs != [] {
      var n := |logs| - 1;
      AssignedLines(logs[..n], entries[..n], targets[..n], j, clean);
    }
  }

  /** Every log of the batch went to one stream, whose labels compare equal to those it is to
      carry, and a stream holds the times and cleaned messages of the logs that went there. */
  ghost predicate Sends(items: seq<Item>, clean: string -> string, streams: seq<Stream>, targets: seq<nat>) {
    var logs := LogsOf(items);
    && |targets| == |logs|
    && (forall k :: 0 <= k < |logs| ==>
          && targets[k] < |streams|
          && exists labels :: Carries(labels, logs[k], clean) && SameLabels(streams[targets[k]].labels, labels))
    && (forall j: nat :: j < |streams| ==> streams[j].values == LinesOf(logs, targets, j, clean))
  }

  lemma StreamsSendTheBatch(items: seq<Item>, clean: string -> string, streams: seq<Stream>) returns (targets: seq<nat>)
    requires streams == Grouped(EntriesOf(items, clean))
    ensures Sends(items, clean, streams, targets)
  {
    var entries, logs := EntriesOf(items, clean), LogsOf(items);
    EntriesAreTheLogs(items, clean);
    EveryLogLandsOnce(entries);
    targets := Assignment(entries);
    forall k | 0 <= k < |logs|
      ensures exists labels :: Carries(labels, logs[k], clean) && SameLabels(streams[targets[k]].labels, labels)
    {
      assert Carries(entries[k].0, logs[k], clean) && SameLabels(streams[targets[k]].labels, entries[k].0);
    }
    forall j: nat | j < |streams|
      ensures streams[j].values == LinesOf(logs, targets, j, clean)
    {
      AssignedLines(logs, entries, targets, j, clean);
    }
  }

  /** The streams sent for a batch: spans and metrics are skipped, and an empty batch sends
      nothing at all. */
  method Write(items: seq<Item>, clean: string -> string) returns (sent: Option<seq<Stream>>)
    ensures sent == if items == [] then None else Some(Grouped(EntriesOf(items, clean)))
    ensures sent.Some? ==> exists targets :: Sends(items, clean, sent.value, targets)
  {
    if |items| == 0 {
      return None;
    }
    var streams := new Streams();
    for i := 0 to |items|
      invariant fresh(streams)
      invariant streams.streams == Grouped(EntriesOf(items[..i], clean))
    {
      assert items[..i + 1][..i] == items[..i];
      assert EntriesOf(items[..i + 1], clean) == EntriesOf(items[..i], clean) + EntryOf(items[i], clean);
      if items[i].Log? {
        var labels := BuildLabels(items[i], clean);
        var lokiLog := LokiLog(items[i].time, clean(items[i].message));
        GroupedSnoc(EntriesOf(items[..i], clean), (labels, lokiLog));
        streams.InsertLog(labels, lokiLog);
      } else {
        assert EntriesOf(items[..i], clean) + [] == EntriesOf(items[..i], clean);
      }
    }
    assert items[..|items|] == items;
    ghost var _ := StreamsSendTheBatch(items, clean, streams.streams);
    return Some(streams.streams);
  }
}
