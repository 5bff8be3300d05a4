/**
 Capturing a DNS query on its way through udp_sendmsg: the handler locates the caller's buffer
 behind the message header, clamps its length to 256 bytes and copies it into an event.
 */
module DnsCapture {
  import opened Options
  import opened PackedWord
  import opened DnsName

  const MAX_DNS_PAYLOAD: nat := 256
  const DNS_PORT: nat := 53
  const TWO32: nat := 0x1_0000_0000

  datatype Iovec = Iovec(base: U64, len: U64)

  const NULL_IOVEC: Iovec := Iovec(0, 0)

  /** Readable memory, by start address. A probe of more bytes than there are fails. */
  type Memory = map<U64, seq<Byte>>

  function Probe(mem: Memory, base: U64, n: nat): Option<seq<Byte>> {
    if base in mem && n <= |mem[base]| then Some(mem[base][..n]) else None
  }

  /** What the handler can learn from its arguments: the destination port, whether the ring
      buffer had room, the byte count of the message, the inline iovec if this kernel has the
      field and it could be read, and the iovec behind the older pointer field as read from
      user space or from the kernel. */
  datatype Message = Message(
    dport: nat, reserved: bool, pid: nat, comm: seq<Byte>, dstIp: nat, count: U64,
    inlined: Option<Iovec>, iovPtr: U64, userIov: Option<Iovec>, kernelIov: Option<Iovec>,
    user: Memory, kernel: Memory)

  datatype DnsEvent = DnsEvent(pid: nat, comm: seq<Byte>, dstIp: nat, payloadLen: nat, payload: seq<Byte>)

  function Zeros(n: nat): (s: seq<Byte>)
    ensures |s| == n && forall i :: 0 <= i < n ==> s[i] == 0
  {
    seq(n, _ => 0)
  }

  /** The iovec the handler ends up with: the inline one, else the one behind the pointer, else
      none. A failed probe leaves zeroes. */
  function Located(msg: Message): Iovec {
    var first := if msg.inlined.Some? then msg.inlined.value else NULL_IOVEC;
    if first.base != 0 || msg.iovPtr == 0 then first
    else if msg.userIov.Some? then msg.userIov.value
    else if msg.kernelIov.Some? then msg.kernelIov.value
    else NULL_IOVEC
  }

  /** The number of bytes to copy: the message length cut to the first buffer, truncated to 32
      bits, and clamped. */
  function CaptureLength(iov: Iovec, count: U64): nat {
    var dataLen := if 0 < iov.len < count then iov.len else count;
    if dataLen % TWO32 > MAX_DNS_PAYLOAD then MAX_DNS_PAYLOAD else dataLen % TWO32
  }

  /** The bytes an event shows: nothing if there is no buffer or neither address space yields
      them. */
  function Captured(msg: Message): seq<Byte> {
    var iov := Located(msg);
    var n := CaptureLength(iov, msg.count);
    if (iov.base == 0 && msg.count > 0) || n == 0 then []
    else if Probe(msg.user, iov.base, n).Some? then Probe(msg.user, iov.base, n).value
    else if Probe(msg.kernel, iov.base, n).Some? then Probe(msg.kernel, iov.base, n).value
    else []
  }

  method DnsSend(msg: Message) returns (event: Option<DnsEvent>)
    ensures event.Some? <==> msg.dport == 53 && msg.reserved
    ensures event.Some? ==>
      var e := event.value;
      && e.payloadLen <= 256 && |e.payload| == 256
      && e.payload[..e.payloadLen] == Captured(msg)
      && (forall i :: e.payloadLen <= i < 256 ==> e.payload[i] == 0)
      && e.pid == msg.pid && e.comm == msg.comm && e.dstIp == msg.dstIp
  {
    if msg.dport != 53 {
      return None;
    }
    if !msg.reserved {
      return None;
    }
    var e := DnsEvent(msg.pid, msg.comm, msg.dstIp, 0, Zeros(MAX_DNS_PAYLOAD));
    var iov := NULL_IOVEC;
    var dataLen := msg.count;
    if msg.inlined.Some? {
      iov := msg.inlined.value;
    }
    if iov.base == 0 {
      if msg.iovPtr != 0 {
        if msg.userIov.Some? {
          iov := msg.userIov.value;
        } else {
          iov := if msg.kernelIov.Some? then msg.kernelIov.value else NULL_IOVEC;
        }
      }
    }
    if iov.base == 0 && dataLen > 0 {
      return Some(e);
    }
    var dataPtr := iov.base;
    if iov.len > 0 && iov.len < dataLen {
      dataLen := iov.len;
    }
    var payloadLen := dataLen % TWO32;
    if payloadLen > MAX_DNS_PAYLOAD {
      payloadLen := MAX_DNS_PAYLOAD;
    }
    if payloadLen == 0 {
      return Some(e);
    }
    e := e.(payloadLen := payloadLen);
    var bytes := Probe(msg.user, dataPtr, payloadLen);
    if bytes.None? {
      bytes := Probe(msg.kernel, dataPtr, payloadLen);
    }
    if bytes.None? {
      e := e.(payloadLen := 0);
    } else {
      e := e.(payload := bytes.value + Zeros(MAX_DNS_PAYLOAD - payloadLen));
    }
    return Some(e);
  }

  /** The query shown for an event. Events with no more than a header are not parsed. */
  method QueryOf(e: DnsEvent) returns (name: seq<Byte>)
    requires e.payloadLen <= |e.payload|
    ensures name == Name(e.payload[..e.payloadLen])
  {
    name := [];
    if e.payloadLen > 12 {
      name := ParseDnsQuery(e.payload[..e.payloadLen]);
    }
  }

  // ---- What is captured, in terms of the message ----

  /** The buffer the message offers: the inline one unless its base is null, else the one behind
      the older pointer, as user space has it if that can be read there. */
  predicate Offers(msg: Message, iov: Iovec) {
    && iov.base != 0
    && if msg.inlined.Some? && msg.inlined.value.base != 0 then iov == msg.inlined.value
       else
         && msg.iovPtr != 0
         && if msg.userIov.Some? then iov == msg.userIov.value
            else msg.kernelIov.Some? && iov == msg.kernelIov.value
  }

  /** The bytes wanted of a buffer: the message length, but no more than the buffer holds if it
      says so, in 32 bits, and at most 256. */
  function Wanted(msg: Message, iov: Iovec): nat {
    var all := if iov.len != 0 && iov.len < msg.count then iov.len else msg.count;
    if all % 0x1_0000_0000 < 256 then all % 0x1_0000_0000 else 256
  }

  predicate Holds(mem: Memory, base: U64, n: nat) {
    base in mem && n <= |mem[base]|
  }

  /** The event shows the first bytes of the buffer offered, from user space if it has them, else
      from the kernel, else none; and none without a buffer. */
  lemma CapturedBytes(msg: Message)
    ensures forall iov :: Offers(msg, iov) ==>
      var n := Wanted(msg, iov);
      Captured(msg) == if Holds(msg.user, iov.base, n) then msg.user[iov.base][..n]
                       else if Holds(msg.kernel, iov.base, n) then msg.kernel[iov.base][..n]
                       else []
    ensures (forall iov :: !Offers(msg, iov)) && msg.count > 0 ==> Captured(msg) == []
  {
    forall iov | Offers(msg, iov)
      ensures iov == Located(msg) && Wanted(msg, iov) == CaptureLength(iov, msg.count)
    {
    }
    if forall iov :: !Offers(msg, iov) {
      assert !Offers(msg, Located(msg));
    }
  }

  /** The message carries a well-formed query, whose bytes can be read up to where the first
      buffer or the event ends, in user space or else in the kernel. */
  ghost predicate SendsQuery(msg: Message, iov: Iovec, query: seq<Byte>, labels: seq<Label>)
    requires Sized(labels, 63)
  {
    var n := Wanted(msg, iov);
    && IsQuery(query, labels)
    && Offers(msg, iov)
    && msg.count == |query| < 0x1_0000_0000
    && (if Holds(msg.user, iov.base, n) then msg.user[iov.base][..n] == query[..n]
        else Holds(msg.kernel, iov.base, n) && msg.kernel[iov.base][..n] == query[..n])
  }

  /** How much of a query is shown at most: the event has room for 256 bytes, the first buffer may
      be smaller. */
  function Limit(iov: Iovec): nat {
    if 0 < iov.len < 256 then iov.len else 256
  }

  lemma CapturesPrefix(msg: Message, iov: Iovec, query: seq<Byte>, labels: seq<Label>)
    requires Sized(labels, 63) && SendsQuery(msg, iov, query, labels)
    ensures Captured(msg) == query[..if |query| < Limit(iov) then |query| else Limit(iov)]
    ensures iov.len >= msg.count ==> Captured(msg) == query[..if |query| < 256 then |query| else 256]
  {
    WantedOf(msg, iov);
    CapturedWanted(msg, iov, query, labels);
  }

  lemma CapturedWanted(msg: Message, iov: Iovec, query: seq<Byte>, labels: seq<Label>)
    requires Sized(labels, 63) && SendsQuery(msg, iov, query, labels)
    ensures Wanted(msg, iov) <= |query| && Captured(msg) == query[..Wanted(msg, iov)]
  {
    CapturedBytes(msg);
  }

  lemma WantedOf(msg: Message, iov: Iovec)
    requires msg.count < 0x1_0000_0000
    ensures Wanted(msg, iov) == if msg.count < Limit(iov) then msg.count else Limit(iov)
    ensures iov.len >= msg.count ==> Wanted(msg, iov) == if msg.count < 256 then msg.count else 256
  {
  }

  lemma WithinLimit(query: seq<Byte>, labels: seq<Label>, limit: nat)
    requires Sized(labels, 63) && IsQuery(query, labels)
    ensures
      var shown := Name(query[..if |query| < limit then |query| else limit]);
      if limit > 12 then
        && shown == Join(labels[..Fitting(labels, limit - 12)])
        && (shown == Join(labels) <==> WireLength(labels) <= limit - 12)
      else shown == []
  {
    if limit > 12 {
      CapturedPrefix(query, labels, limit);
    }
  }

  /** End to end from the sender's buffer to the name in the log: the longest run of whole labels
      that fits what is captured behind the 12-byte header is shown, which is the whole name if and
      only if all of them fit. With a first buffer of at least 256 bytes, or the whole query, that
      leaves 244 bytes for labels. */
  lemma {:induction false} ShownName(msg: Message, iov: Iovec, query: seq<Byte>, labels: seq<Label>, shown: seq<Byte>)
    requires Sized(labels, 63) && SendsQuery(msg, iov, query, labels) && shown == Name(Captured(msg))
    ensures Limit(iov) > 12 ==>
      && shown == Join(labels[..Fitting(labels, Limit(iov) - 12)])
      && (shown == Join(labels) <==> WireLength(labels) <= Limit(iov) - 12)
    ensures Limit(iov) <= 12 ==> shown == []
    ensures iov.len == 0 || iov.len >= 256 || iov.len >= msg.count ==>
      && shown == Join(labels[..Fitting(labels, 244)])
      && (shown == Join(labels) <==> WireLength(labels) <= 244)
  {
    CapturesPrefix(msg, iov, query, labels);
    WithinLimit(query, labels, Limit(iov));
    CapturedPrefix(query, labels, 256);
  }

  /** From the send to the name the reader shows for its event. */
  method ShowQuery(msg: Message) returns (name: Option<seq<Byte>>)
    ensures name.Some? <==> msg.dport == 53 && msg.reserved
    ensures name.Some? ==> forall iov, query, labels ::
      && Sized(labels, 63) && SendsQuery(msg, iov, query, labels)
      && (iov.len == 0 || iov.len >= 256 || iov.len >= msg.count)
      ==> name.value == Join(labels[..Fitting(labels, 244)])
  {
    var event := DnsSend(msg);
    if event.None? {
      return None;
    }
    var shown := QueryOf(event.value);
    name := Some(shown);
    forall iov, query, labels |
      && Sized(labels, 63) && SendsQuery(msg, iov, query, labels)
      && (iov.len == 0 || iov.len >= 256 || iov.len >= msg.count)
      ensures shown == Join(labels[..Fitting(labels, 244)])
    {
      ShownName(msg, iov, query, labels, shown);
    }
  }
}
