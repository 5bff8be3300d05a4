/**
 The question name of a DNS query: length-prefixed labels (section 3.1 of RFC 1035) after a
 12-byte header, decoded to a dotted name. Compression pointers (section 4.1.4) end the name.
 */
module DnsName {

  type Byte = x: int | 0 <= x < 256

  type Label = seq<Byte>

  const HEADER: nat := 12
  const DOT: Byte := 46
  const COMPRESSION_BITS: Byte := 192

  /** A whole label can be read at the front. */
  predicate Reads(wire: seq<Byte>) {
    wire != [] && 0 < wire[0] < COMPRESSION_BITS && 1 + wire[0] <= |wire|
  }

  /** The whole labels at the front of the wire bytes, up to a terminator, a length with both
      pointer bits set, or a label that runs past the end. */
  function Labels(wire: seq<Byte>): seq<Label> {
    if Reads(wire) then [wire[1..1 + wire[0]]] + Labels(wire[1 + wire[0]..]) else []
  }

  function Join(labels: seq<Label>): seq<Byte> {
    if labels == [] then []
    else if |labels| == 1 then labels[0]
    else labels[0] + [DOT] + Join(labels[1..])
  }

  /** The name shown for a payload. */
  function Name(payload: seq<Byte>): seq<Byte> {
    if |payload| <= HEADER then [] else Join(Labels(payload[HEADER..]))
  }

  /** The wire form of a list of labels, without terminator. */
  function Encode(labels: seq<Label>): seq<Byte>
    requires Sized(labels, 255)
  {
    if labels == [] then []
    else
      var n: Byte := |labels[0]|;
      [n] + labels[0] + Encode(labels[1..])
  }

  predicate Sized(labels: seq<Label>, most: nat) {
    forall i :: 0 <= i < |labels| ==> 1 <= |labels[i]| <= most
  }

  lemma {:induction false} JoinSnoc(labels: seq<Label>, piece: Label)
    ensures Join(labels + [piece]) == if labels == [] then piece else Join(labels) + [DOT] + piece
    decreases |labels|
  {
    if |labels| >= 1 {
      assert (labels + [piece])[1..] == labels[1..] + [piece];
      JoinSnoc(labels[1..], piece);
      if |labels| == 1 {
        assert [piece] == labels[1..] + [piece];
      }
    } else {
      assert labels + [piece] == [piece];
    }
  }

  lemma {:induction false} JoinEmptyIff(labels: seq<Label>)
    requires Sized(labels, 255)
    ensures Join(labels) == [] <==> labels == []
    decreases |labels|
  {
  }

  lemma {:induction false} LabelsSized(wire: seq<Byte>)
    ensures Sized(Labels(wire), 191)
    decreases |wire|
  {
    if Reads(wire) {
      LabelsSized(wire[1 + wire[0]..]);
    }
  }

  /** One turn of the parser's loop. */
  lemma LabelsFrom(payload: seq<Byte>, offset: nat)
    requires offset < |payload|
    ensures Reads(payload[offset..])
       <==> payload[offset] != 0 && payload[offset] < COMPRESSION_BITS && offset + 1 + payload[offset] <= |payload|
    ensures Reads(payload[offset..]) ==>
      var next := offset + 1 + payload[offset];
      Labels(payload[offset..]) == [payload[offset + 1..next]] + Labels(payload[next..])
  {
    var wire := payload[offset..];
    if Reads(wire) {
      var next := offset + 1 + payload[offset];
      assert wire[1..1 + wire[0]] == payload[offset + 1..next];
      assert wire[1 + wire[0]..] == payload[next..];
    }
  }

  lemma JoinGrows(labels: seq<Label>, piece: Label)
    requires Sized(labels, 255)
    ensures Join(labels + [piece]) == if |Join(labels)| > 0 then Join(labels) + [DOT] + piece else piece
  {
    JoinSnoc(labels, piece);
    JoinEmptyIff(labels);
  }

  method ParseDnsQuery(payload: seq<Byte>) returns (name: seq<Byte>)
    ensures name == Name(payload)
  {
    if |payload| < 13 {
      return [];
    }
    name := ParseLabels(payload);
  }

  /** The labels read so far and those still to come make up the whole name. */
  ghost predicate Progress(payload: seq<Byte>, offset: nat, done: seq<Label>)
    requires HEADER <= offset <= |payload|
  {
    Sized(done, 255) && done + Labels(payload[offset..]) == Labels(payload[HEADER..])
  }

  lemma Finished(payload: seq<Byte>, offset: nat, done: seq<Label>)
    requires HEADER <= offset <= |payload| && Progress(payload, offset, done)
    requires offset == |payload| || payload[offset] == 0 || payload[offset] >= COMPRESSION_BITS
          || offset + 1 + payload[offset] > |payload|
    ensures done == Labels(payload[HEADER..])
  {
    if offset < |payload| {
      LabelsFrom(payload, offset);
    }
    assert Labels(payload[offset..]) == [];
  }

  lemma OneMore(payload: seq<Byte>, offset: nat, done: seq<Label>)
    requires HEADER <= offset < |payload| && Progress(payload, offset, done)
    requires 0 < payload[offset] < COMPRESSION_BITS && offset + 1 + payload[offset] <= |payload|
    ensures var next := offset + 1 + payload[offset];
      var piece := payload[offset + 1..next];
      && Progress(payload, next, done + [piece])
      && Join(done + [piece]) == if |Join(done)| > 0 then Join(done) + [DOT] + piece else piece
  {
    LabelsFrom(payload, offset);
    var next := offset + 1 + payload[offset];
    var piece := payload[offset + 1..next];
    assert done + ([piece] + Labels(payload[next..])) == (done + [piece]) + Labels(payload[next..]);
    JoinGrows(done, piece);
  }

  /** The loop over the question section; `done` are the labels read so far. */
  method ParseLabels(payload: seq<Byte>) returns (domain: seq<Byte>)
    requires |payload| > HEADER
    ensures domain == Join(Labels(payload[HEADER..]))
  {
    var offset := 12;
    domain := [];
    ghost var done: seq<Label> := [];
    while offset < |payload|
      invariant HEADER <= offset <= |payload|
      invariant domain == Join(done) && Progress(payload, offset, done)
      decreases |payload| - offset
    {
      ghost var start := offset;
      var labelLen: int := payload[offset];
      offset := offset + 1;
      if labelLen == 0 || labelLen >= 192 || offset + labelLen > |payload| {
        Finished(payload, start, done);
        return;
      }
      OneMore(payload, start, done);
      if |domain| > 0 {
        domain := domain + [DOT];
      }
      domain := domain + payload[offset..offset + labelLen];
      done := done + [payload[offset..offset + labelLen]];
      offset := offset + labelLen;
    }
    Finished(payload, offset, done);
  }

  // ---- What is decoded, without reference to how ----

  lemma EncodeFirst(piece: Label, rest: seq<Label>)
    requires 1 <= |piece| <= 255 && Sized(rest, 255)
    ensures Sized([piece] + rest, 255)
    ensures var n: Byte := |piece|; Encode([piece] + rest) == [n] + piece + Encode(rest)
  {
    var all := [piece] + rest;
    assert all[0] == piece && all[1..] == rest;
  }

  lemma WireSplits(wire: seq<Byte>, n: Byte, piece: Label, coded: seq<Byte>, rest: seq<Byte>)
    requires 1 + n <= |wire| && wire[0] == n && piece == wire[1..1 + n] && wire[1 + n..] == coded + rest
    ensures wire == [n] + piece + coded + rest
  {
    assert wire == [n] + wire[1..1 + n] + wire[1 + n..];
  }

  lemma {:induction false} LabelsDecompose(wire: seq<Byte>) returns (rest: seq<Byte>)
    ensures Sized(Labels(wire), 191)
    ensures wire == Encode(Labels(wire)) + rest && !Reads(rest)
    decreases |wire|
  {
    LabelsSized(wire);
    if !Reads(wire) {
      rest := wire;
    } else {
      var n := wire[0];
      var piece, more := wire[1..1 + n], wire[1 + n..];
      rest := LabelsDecompose(more);
      EncodeFirst(piece, Labels(more));
      WireSplits(wire, n, piece, Encode(Labels(more)), rest);
    }
  }

  lemma ReadsFirst(n: Byte, piece: Label, more: seq<Byte>)
    requires n == |piece| && 1 <= n < COMPRESSION_BITS
    ensures Labels([n] + piece + more) == [piece] + Labels(more)
  {
    var wire := [n] + piece + more;
    assert wire[0] == n && wire[1..1 + n] == piece && wire[1 + n..] == more;
  }

  /** Conversely, bytes that read as some labels followed by a stop decode to exactly those
      labels. */
  lemma {:induction false} DecodesEncoded(labels: seq<Label>, rest: seq<Byte>)
    requires Sized(labels, 191) && !Reads(rest)
    ensures Labels(Encode(labels) + rest) == labels
    decreases |labels|
  {
    if labels == [] {
      assert Encode(labels) + rest == rest;
    } else {
      var n: Byte := |labels[0]|;
      assert Encode(labels) + rest == [n] + labels[0] + (Encode(labels[1..]) + rest);
      ReadsFirst(n, labels[0], Encode(labels[1..]) + rest);
      DecodesEncoded(labels[1..], rest);
    }
  }

  ghost predicate ReadsAs(wire: seq<Byte>, labels: seq<Label>, rest: seq<Byte>)
    requires Sized(labels, 191)
  {
    wire == Encode(labels) + rest && !Reads(rest)
  }

  /** The decoder is determined by its contract: among all ways to read bytes as labels of 1 to
      191 bytes followed by something that is no whole label, there is exactly one, and it is
      the one returned. */
  lemma DecodingIsTheOnlyReading(wire: seq<Byte>, labels: seq<Label>)
    requires Sized(labels, 191)
    ensures labels == Labels(wire) <==> exists rest :: ReadsAs(wire, labels, rest)
  {
    if labels == Labels(wire) {
      var rest := LabelsDecompose(wire);
      assert ReadsAs(wire, labels, rest);
    }
    if exists rest :: ReadsAs(wire, labels, rest) {
      var rest :| ReadsAs(wire, labels, rest);
      DecodesEncoded(labels, rest);
    }
  }

  function WireLength(labels: seq<Label>): nat {
    if labels == [] then 0 else 1 + |labels[0]| + WireLength(labels[1..])
  }

  lemma {:induction false} EncodeLength(labels: seq<Label>)
    requires Sized(labels, 255)
    ensures |Encode(labels)| == WireLength(labels)
    ensures |Join(labels)| == if labels == [] then 0 else WireLength(labels) - 1
    decreases |labels|
  {
    if labels != [] {
      EncodeLength(labels[1..]);
    }
  }

  /** The name is shorter than its payload by the header and at least one more byte. */
  lemma NameLength(payload: seq<Byte>)
    requires |payload| > HEADER
    ensures |Name(payload)| <= |payload| - 13
  {
    var rest := LabelsDecompose(payload[HEADER..]);
    EncodeLength(Labels(payload[HEADER..]));
  }

  // ---- Round trip ----

  /** A query with this question name: any header, the labels, a terminator, anything after. */
  ghost predicate IsQuery(query: seq<Byte>, labels: seq<Label>)
    requires Sized(labels, 191)
  {
    exists header: seq<Byte>, tail: seq<Byte> :: |header| == 12 && query == header + Encode(labels) + ([0] + tail)
  }

  /** Every well-formed query decodes to its labels joined by dots, whatever the header holds
      and whatever follows the terminator. */
  lemma RoundTrip(payload: seq<Byte>, header: seq<Byte>, labels: seq<Label>, tail: seq<Byte>)
    requires |header| == 12 && Sized(labels, 191) && payload == header + Encode(labels) + ([0] + tail)
    ensures Name(payload) == Join(labels)
  {
    DecodesEncoded(labels, [0] + tail);
    AfterHeader(header, Encode(labels), [0] + tail);
  }

  lemma AfterHeader(header: seq<Byte>, wire: seq<Byte>, rest: seq<Byte>)
    requires |header| == HEADER
    ensures (header + wire + rest)[HEADER..] == wire + rest
  {
    assert header + wire + rest == header + (wire + rest);
  }

  predicate DotFree(labels: seq<Label>) {
    forall i :: 0 <= i < |labels| ==> 46 !in labels[i]
  }

  /** Splitting a name at its dots. */
  function Split(name: seq<Byte>): (labels: seq<Label>)
    ensures labels != [] && DotFree(labels)
  {
    if name == [] then [[]]
    else
      var rest := Split(name[1..]);
      if name[0] == 46 then [[]] + rest else [[name[0]] + rest[0]] + rest[1..]
  }

  lemma {:induction false} SplitDot(piece: Label, rest: seq<Byte>)
    requires DOT !in piece
    ensures Split(piece + [DOT] + rest) == [piece] + Split(rest)
    ensures Split(piece) == [piece]
    decreases |piece|
  {
    if piece == [] {
      assert piece + [DOT] + rest == [DOT] + rest;
    } else {
      SplitDot(piece[1..], rest);
      assert (piece + [DOT] + rest)[1..] == piece[1..] + [DOT] + rest;
      assert [piece[0]] + piece[1..] == piece;
    }
  }

  /** Splitting undoes joining exactly when no label contains a dot. */
  lemma {:induction false} SplitJoinIff(labels: seq<Label>)
    requires labels != []
    ensures Split(Join(labels)) == labels <==> DotFree(labels)
    decreases |labels|
  {
    if DotFree(labels) {
      if |labels| == 1 {
        SplitDot(labels[0], []);
      } else {
        SplitDot(labels[0], Join(labels[1..]));
        SplitJoinIff(labels[1..]);
        assert DotFree(labels[1..]);
      }
    }
  }

  /** So two well-formed queries with dot-free labels that show the same name carry the same
      labels. */
  lemma NamesAreInjective(p: seq<Byte>, a: seq<Label>, q: seq<Byte>, b: seq<Label>)
    requires a != [] && Sized(a, 191) && DotFree(a) && IsQuery(p, a)
    requires b != [] && Sized(b, 191) && DotFree(b) && IsQuery(q, b)
    requires Name(p) == Name(q)
    ensures a == b
  {
    var h1: seq<Byte>, t1: seq<Byte> :| |h1| == HEADER && p == h1 + Encode(a) + ([0] + t1);
    var h2: seq<Byte>, t2: seq<Byte> :| |h2| == HEADER && q == h2 + Encode(b) + ([0] + t2);
    RoundTrip(p, h1, a, t1);
    RoundTrip(q, h2, b, t2);
    SplitJoinIff(a);
    SplitJoinIff(b);
  }

  /** With dots inside labels the name is ambiguous: one label `a.b` and two labels `a`, `b`
      show the same. */
  lemma DottedLabelsAreAmbiguous()
    ensures var one: seq<Label>, two: seq<Label> := [[97, 46, 98]], [[97], [98]];
      one != two && Sized(one, 63) && Sized(two, 63) && Join(one) == Join(two)
  {
    var one: seq<Label>, two: seq<Label> := [[97, DOT, 98]], [[97], [98]];
    assert two[1..] == [[98]];
    assert Join(two) == [97] + [DOT] + [98];
    assert |one| != |two|;
  }

  // ---- Truncation ----

  /** Cutting a payload short cuts its labels to a prefix. */
  lemma {:induction false} TruncationKeepsPrefix(wire: seq<Byte>, cut: nat)
    requires cut <= |wire|
    ensures Labels(wire[..cut]) <= Labels(wire)
    decreases |wire|
  {
    if Reads(wire[..cut]) {
      var n := wire[0];
      var piece, more := wire[1..1 + n], wire[1 + n..];
      assert wire == [n] + piece + more;
      ReadsFirst(n, piece, more);
      CutFirst(n, piece, more, cut);
      TruncationKeepsPrefix(more, cut - 1 - n);
    }
  }

  /** So the name shown for any prefix of a payload is the join of some leading labels of the
      whole. */
  lemma TruncatedName(payload: seq<Byte>, cut: nat) returns (k: nat)
    requires cut <= |payload| && |payload| > HEADER
    ensures k <= |Labels(payload[HEADER..])|
    ensures Name(payload[..cut]) == Join(Labels(payload[HEADER..])[..k])
  {
    if cut <= HEADER {
      k := 0;
    } else {
      var wire := payload[HEADER..];
      TruncationKeepsPrefix(wire, cut - HEADER);
      assert payload[..cut][HEADER..] == wire[..cut - HEADER];
      k := |Labels(wire[..cut - HEADER])|;
      assert Labels(wire)[..k] == Labels(wire[..cut - HEADER]);
    }
  }

  /** The number of leading labels whose wire form fits in `room` bytes. */
  function Fitting(labels: seq<Label>, room: int): (k: nat)
    ensures k <= |labels|
    ensures WireLength(labels[..k]) <= room || k == 0
    ensures k < |labels| ==> WireLength(labels[..k + 1]) > room
  {
    if labels == [] || 1 + |labels[0]| > room then
      assert labels != [] ==> labels[..1][1..] == [];
      0
    else
      var k := Fitting(labels[1..], room - 1 - |labels[0]|);
      assert labels[..k + 1][1..] == labels[1..][..k];
      assert k < |labels| - 1 ==> labels[..k + 2][1..] == labels[1..][..k + 1];
      k + 1
  }

  lemma {:induction false} FittingAllIff(labels: seq<Label>, room: int)
    requires room >= 0
    ensures Fitting(labels, room) == |labels| <==> WireLength(labels) <= room
    decreases |labels|
  {
    if labels != [] && 1 + |labels[0]| <= room {
      FittingAllIff(labels[1..], room - 1 - |labels[0]|);
    }
  }

  /** A well-formed name cut anywhere shows the longest run of whole labels that fits. */
  lemma {:induction false} CutNameDecodes(labels: seq<Label>, rest: seq<Byte>, cut: nat)
    requires Sized(labels, 191) && rest != [] && rest[0] == 0
    requires cut <= |Encode(labels)| + |rest|
    ensures Labels((Encode(labels) + rest)[..cut]) == labels[..Fitting(labels, cut)]
    decreases |labels|
  {
    var wire := Encode(labels) + rest;
    if labels == [] {
      assert cut > 0 ==> wire[..cut][0] == 0;
    } else {
      var n: Byte := |labels[0]|;
      var more := Encode(labels[1..]) + rest;
      assert wire == [n] + labels[0] + more;
      CutFirst(n, labels[0], more, cut);
      if 1 + n <= cut {
        CutNameDecodes(labels[1..], rest, cut - 1 - n);
        FirstFitting(labels, cut);
      }
    }
  }

  lemma CutFirst(n: Byte, piece: Label, more: seq<Byte>, cut: nat)
    requires n == |piece| && 1 <= n < COMPRESSION_BITS && cut <= 1 + n + |more|
    ensures Labels(([n] + piece + more)[..cut]) == if 1 + n <= cut then [piece] + Labels(more[..cut - 1 - n]) else []
  {
    var wire := ([n] + piece + more)[..cut];
    if 1 + n <= cut {
      assert wire == [n] + piece + more[..cut - 1 - n];
      ReadsFirst(n, piece, more[..cut - 1 - n]);
    } else {
      assert cut > 0 ==> wire[0] == n;
    }
  }

  lemma FirstFitting(labels: seq<Label>, room: int)
    requires labels != [] && 1 + |labels[0]| <= room
    ensures labels[..Fitting(labels, room)]
         == [labels[0]] + labels[1..][..Fitting(labels[1..], room - 1 - |labels[0]|)]
  {
  }

  lemma {:induction false} JoinOfPrefixIsShorter(labels: seq<Label>, k: nat)
    requires Sized(labels, 191) && k < |labels|
    ensures |Join(labels[..k])| < |Join(labels)|
  {
    EncodeLength(labels);
    EncodeLength(labels[..k]);
    WirePrefix(labels, k);
  }

  lemma {:induction false} WirePrefix(labels: seq<Label>, k: nat)
    requires Sized(labels, 191) && k < |labels|
    ensures WireLength(labels[..k]) + 2 <= WireLength(labels)
    decreases |labels|
  {
    if k > 0 {
      assert labels[..k][1..] == labels[1..][..k - 1];
      WirePrefix(labels[1..], k - 1);
    }
  }

  /** What is shown of a well-formed query of which only the first `limit` bytes were captured:
      the longest run of labels that fits, which is the whole name if and only if its wire form
      without terminator fits. */
  lemma CapturedPrefix(query: seq<Byte>, labels: seq<Label>, limit: nat)
    requires Sized(labels, 191) && IsQuery(query, labels) && limit > HEADER
    ensures
      var seen := Name(query[..if |query| < limit then |query| else limit]);
      && seen == Join(labels[..Fitting(labels, limit - HEADER)])
      && (seen == Join(labels) <==> WireLength(labels) <= limit - HEADER)
  {
    var header: seq<Byte>, tail: seq<Byte> :|
      |header| == HEADER && query == header + Encode(labels) + ([0] + tail);
    var cut := if |query| < limit then |query| else limit;
    QueryLength(query, header, labels, [0] + tail);
    CutQuery(query, header, labels, [0] + tail, cut);
    CutIsEnough(labels, cut - HEADER, limit - HEADER);
  }

  lemma QueryLength(query: seq<Byte>, header: seq<Byte>, labels: seq<Label>, rest: seq<Byte>)
    requires |header| == HEADER && Sized(labels, 191) && query == header + Encode(labels) + rest
    ensures |query| == HEADER + WireLength(labels) + |rest|
  {
    EncodeLength(labels);
  }

  lemma CutIsEnough(labels: seq<Label>, room: int, more: int)
    requires Sized(labels, 191) && 0 <= room <= more && (room < more ==> WireLength(labels) <= room)
    ensures Join(labels[..Fitting(labels, room)]) == Join(labels[..Fitting(labels, more)])
    ensures Join(labels[..Fitting(labels, more)]) == Join(labels) <==> WireLength(labels) <= more
  {
    SameFitting(labels, room, more);
    CompleteIffAllFit(labels, more);
  }

  lemma CutQuery(query: seq<Byte>, header: seq<Byte>, labels: seq<Label>, rest: seq<Byte>, cut: nat)
    requires |header| == HEADER && Sized(labels, 191) && rest != [] && rest[0] == 0
    requires query == header + Encode(labels) + rest && HEADER < cut <= |query|
    ensures Name(query[..cut]) == Join(labels[..Fitting(labels, cut - HEADER)])
  {
    assert query[..cut][HEADER..] == (Encode(labels) + rest)[..cut - HEADER] by {
      AfterHeader(header, Encode(labels), rest);
      assert query[..cut][HEADER..] == query[HEADER..][..cut - HEADER];
    }
    CutNameDecodes(labels, rest, cut - HEADER);
  }

  lemma SameFitting(labels: seq<Label>, room: int, more: int)
    requires 0 <= room <= more && (room < more ==> WireLength(labels) <= room)
    ensures Fitting(labels, room) == Fitting(labels, more)
  {
    FittingAllIff(labels, room);
    FittingAllIff(labels, more);
  }

  lemma CompleteIffAllFit(labels: seq<Label>, room: int)
    requires Sized(labels, 191) && room >= 0
    ensures Join(labels[..Fitting(labels, room)]) == Join(labels) <==> WireLength(labels) <= room
  {
    var k := Fitting(labels, room);
    FittingAllIff(labels, room);
    assert labels[..|labels|] == labels;
    if k < |labels| {
      JoinOfPrefixIsShorter(labels, k);
    }
  }
}
