/** The items that flow from inputs to outputs. Attribute values are kept as they print. */
module Telemetry {

  datatype Kind = LogKind | TraceKind | MetricKind

  datatype Item =
    | Log(time: int, level: string, message: string, attributes: map<string, string>)
    | Span(startTime: int, traceId: string, name: string)
    | Metric(time: int, name: string, tags: map<string, string>)

  function KindOf(t: Item): Kind {
    match t
    case Log(_, _, _, _) => LogKind
    case Span(_, _, _) => TraceKind
    case Metric(_, _, _) => MetricKind
  }

  /** The items an output supports, in order. */
  function Supported(kinds: set<Kind>, items: seq<Item>): seq<Item> {
    if items == [] then []
    else
      var last := items[|items| - 1];
      Supported(kinds, items[..|items| - 1]) + if KindOf(last) in kinds then [last] else []
  }

  /** Together with `SupportedAppend` this says all of it. */
  lemma SupportedOne(kinds: set<Kind>, t: Item)
    ensures Supported(kinds, []) == []
    ensures Supported(kinds, [t]) ==
      if (t.Log? && LogKind in kinds) || (t.Span? && TraceKind in kinds) || (t.Metric? && MetricKind in kinds)
      then [t] else []
  {
    assert [t][..0] == [];
  }

  lemma {:induction false} SupportedAppend(kinds: set<Kind>, a: seq<Item>, b: seq<Item>)
    ensures Supported(kinds, a + b) == Supported(kinds, a) + Supported(kinds, b)
    decreases |b|
  {
    if b == [] {
      assert a + b == a;
    } else {
      var n := |b| - 1;
      SupportedAppend(kinds, a, b[..n]);
      assert (a + b)[..|a| + n] == a + b[..n];
    }
  }

  function Flatten<T>(batches: seq<seq<T>>): seq<T> {
    if batches == [] then [] else Flatten(batches[..|batches| - 1]) + batches[|batches| - 1]
  }

  lemma FlattenSnoc<T>(batches: seq<seq<T>>, batch: seq<T>)
    ensures Flatten(batches + [batch]) == Flatten(batches) + batch
  {
    assert (batches + [batch])[..|batches|] == batches;
  }

  /** The writes an output has received after one more batch. */
  function Delivered(kinds: set<Kind>, writes: seq<seq<Item>>, batch: seq<Item>): seq<seq<Item>> {
    if Supported(kinds, batch) == [] then writes else writes + [Supported(kinds, batch)]
  }
}
