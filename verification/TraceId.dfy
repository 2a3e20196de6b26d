/** The x-request-id header as a trace id: how it is sent, and how CtxWithTraceId reads it into 16 bytes. */
module TraceId {
  import opened Wrappers
  import opened Hex

  const TRACE_ID_SIZE := 16

  /** A Go string: its characters are bytes. */
  type GoString = s: string | forall i :: 0 <= i < |s| ==> s[i] < 256 as char witness ""

  type Id = id: seq<Byte> | |id| == TRACE_ID_SIZE witness seq(TRACE_ID_SIZE, _ => 0)
  type SpanId = id: seq<Byte> | |id| == 8 witness seq(8, _ => 0)

  /** The string as CtxWithTraceId prepares it: cut to 32 characters, or an odd one made even. */
  function Prepared(s: GoString): (p: GoString)
    ensures |p| % 2 == 0 && |p| <= 2 * TRACE_ID_SIZE
    ensures |s| <= |p| || |p| == 2 * TRACE_ID_SIZE
  {
    if |s| > 2 * TRACE_ID_SIZE then s[..2 * TRACE_ID_SIZE]
    else if |s| % 2 != 0 then s + "0"
    else s
  }

  function Zeros(n: nat): seq<Byte> { seq(n, _ => 0) }

  /** The characters of a string as bytes, cut or zero-padded to the size of an id. */
  function RawId(s: GoString): Id {
    seq(TRACE_ID_SIZE, i requires 0 <= i < TRACE_ID_SIZE => if i < |s| then s[i] as int else 0)
  }

  /** The id of a header value: the prepared string read as hex, zero-padded, or else its characters. */
  function IdOf(s: GoString): Id {
    var p := Prepared(s);
    var decoded := DecodeBytes(p);
    if decoded.Some? then
      DecodedLength(p);
      decoded.value + Zeros(TRACE_ID_SIZE - |decoded.value|)
    else RawId(p)
  }

  lemma {:induction false} DecodedLength(s: string)
    requires DecodeBytes(s).Some?
    ensures |s| == 2 * |DecodeBytes(s).value|
  {
    if s != "" { DecodedLength(s[2..]); }
  }

  // --------------------------------------------------------------- the Go code

  /** The bytes of the first pairs of a string, as long as both characters of each are hex digits. */
  ghost predicate PairsDecoded(s: string, n: nat, bytes: seq<Byte>) {
    && 2 * n <= |s| && |bytes| == n
    && forall i :: 0 <= i < n ==> PairValue(s[2 * i], s[2 * i + 1]) == Some(bytes[i])
  }

  /** hex.Decode into an array: it stops at the first bad pair and leaves the bytes already written. */
  method HexDecode(dst: array<Byte>, src: string) returns (n: nat, ok: bool)
    requires |src| % 2 == 0 && |src| <= 2 * dst.Length
    modifies dst
    ensures n <= |src| / 2 && PairsDecoded(src, n, dst[..n])
    ensures ok <==> n == |src| / 2
    ensures !ok ==> PairValue(src[2 * n], src[2 * n + 1]).None?
    ensures forall j :: n <= j < dst.Length ==> dst[j] == old(dst[j])
  {
    n := 0;
    while 2 * n < |src|
      invariant n <= |src| / 2 && PairsDecoded(src, n, dst[..n])
      invariant forall j :: n <= j < dst.Length ==> dst[j] == old(dst[j])
    {
      var pair := PairValue(src[2 * n], src[2 * n + 1]);
      if pair == None { return n, false; }
      dst[n] := pair.value;
      n := n + 1;
    }
    ok := true;
  }

  /** The built-in copy: as many bytes as fit, the rest of the array stays as it was. */
  method CopyBytes(dst: array<Byte>, src: GoString)
    modifies dst
    ensures forall j :: 0 <= j < dst.Length ==> dst[j] == if j < |src| then src[j] as int else old(dst[j])
  {
    for i := 0 to if |src| < dst.Length then |src| else dst.Length
      invariant forall j :: 0 <= j < dst.Length ==> dst[j] == if j < i then src[j] as int else old(dst[j])
    {
      dst[i] := src[i] as int;
    }
  }

  /** CtxWithTraceId, up to wrapping the id in a context. The array starts zeroed, as in Go. */
  method ReadTraceId(traceIdStr: GoString) returns (id: array<Byte>)
    ensures fresh(id) && id[..] == IdOf(traceIdStr)
  {
    id := new Byte[TRACE_ID_SIZE](_ => 0);
    var s: GoString := traceIdStr;
    if |s| > 2 * TRACE_ID_SIZE {
      s := s[..2 * TRACE_ID_SIZE];
    } else if |s| % 2 != 0 {
      s := s + "0";
    }
    var n, ok := HexDecode(id, s);
    if ok {
      PairsAreTheDecoding(s, id[..n]);
      assert id[..] == id[..n] + Zeros(TRACE_ID_SIZE - n);
    } else {
      BadPairDecodesToNothing(s, n);
      CopyBytes(id, s);
      assert id[..] == RawId(s);
    }
  }

  lemma {:induction false} PairsAreTheDecoding(s: string, bytes: seq<Byte>)
    requires |s| == 2 * |bytes| && PairsDecoded(s, |bytes|, bytes)
    ensures DecodeBytes(s) == Some(bytes)
  {
    if bytes != [] {
      forall i | 0 <= i < |bytes| - 1 ensures PairValue(s[2..][2 * i], s[2..][2 * i + 1]) == Some(bytes[1..][i]) {
        assert PairValue(s[2 * (i + 1)], s[2 * (i + 1) + 1]) == Some(bytes[i + 1]);
      }
      PairsAreTheDecoding(s[2..], bytes[1..]);
      assert PairValue(s[2 * 0], s[2 * 0 + 1]) == Some(bytes[0]);
      assert [bytes[0]] + bytes[1..] == bytes;
    }
  }

  lemma {:induction false} BadPairDecodesToNothing(s: string, n: nat)
    requires 2 * n + 1 < |s| && PairValue(s[2 * n], s[2 * n + 1]).None?
    ensures DecodeBytes(s).None?
  {
    if n > 0 { BadPairDecodesToNothing(s[2..], n - 1); }
  }

  // ------------------------------------------------------------ main results

  /** The round trip: a trace id sent in hex is read back byte for byte. */
  lemma IdRoundTrip(id: Id)
    ensures (forall i :: 0 <= i < |EncodeBytes(id)| ==> EncodeBytes(id)[i] < 256 as char) && IdOf(EncodeBytes(id)) == id
  {
    HexIsAscii(id);
    BytesRoundTrip(id);
    assert Prepared(EncodeBytes(id)) == EncodeBytes(id);
  }

  lemma {:induction false} HexIsAscii(bytes: seq<Byte>)
    ensures forall i :: 0 <= i < |EncodeBytes(bytes)| ==> EncodeBytes(bytes)[i] < 256 as char
  {
    if bytes != [] { HexIsAscii(bytes[1..]); }
  }

  function ZeroDigits(n: nat): string { seq(n, _ => '0') }

  /** The characters that count: at most the first 32. */
  function Head(s: GoString): GoString {
    if |s| > 2 * TRACE_ID_SIZE then s[..2 * TRACE_ID_SIZE] else s
  }

  ghost predicate IsHex(s: string) {
    forall i :: 0 <= i < |s| ==> Value(s[i]).Some?
  }

  lemma PreparedIsHex(s: GoString)
    ensures IsHex(Prepared(s)) <==> IsHex(Head(s))
  {
    var p, head := Prepared(s), Head(s);
    assert Value('0').Some?;
    assert p == head || p == head + "0";
    assert forall i :: 0 <= i < |head| ==> p[i] == head[i];
  }

  /** A header that starts as hex is read as if it were 32 digits long, zeros added on the right, in either case. */
  lemma HexHeaderIsRightPadded(s: GoString)
    requires IsHex(Head(s))
    ensures EncodeBytes(IdOf(s)) == Lower(Head(s)) + ZeroDigits(2 * TRACE_ID_SIZE - |Head(s)|)
  {
    var p := Prepared(s);
    PreparedIsHex(s);
    HexDecodes(p);
    DecodedLength(p);
    DecodedReencodes(p);
    var bytes := DecodeBytes(p).value;
    EncodeConcat(bytes, Zeros(TRACE_ID_SIZE - |bytes|));
    EncodeZeros(TRACE_ID_SIZE - |bytes|);
    assert EncodeBytes(IdOf(s)) == Lower(p) + ZeroDigits(2 * TRACE_ID_SIZE - |p|);
    if |p| == |s| + 1 { AppendedZero(s, 2 * TRACE_ID_SIZE - |s|); }
  }

  /** The zero that makes an odd string even is one of the padding. */
  lemma AppendedZero(s: string, n: nat)
    requires n > 0
    ensures Lower(s + "0") + ZeroDigits(n - 1) == Lower(s) + ZeroDigits(n)
  {
    assert Lower(s + "0") == Lower(s) + ['0'];
    assert ['0'] + ZeroDigits(n - 1) == ZeroDigits(n);
  }

  lemma {:induction false} HexDecodes(s: string)
    requires |s| % 2 == 0
    ensures DecodeBytes(s).Some? <==> IsHex(s)
  {
    if s != "" {
      HexDecodes(s[2..]);
      assert s == [s[0], s[1]] + s[2..];
    }
  }

  lemma {:induction false} EncodeConcat(a: seq<Byte>, b: seq<Byte>)
    ensures EncodeBytes(a + b) == EncodeBytes(a) + EncodeBytes(b)
  {
    if a == [] {
      assert a + b == b;
    } else {
      EncodeConcat(a[1..], b);
      assert (a + b)[1..] == a[1..] + b;
    }
  }

  lemma {:induction false} EncodeZeros(n: nat)
    ensures EncodeBytes(Zeros(n)) == ZeroDigits(2 * n)
  {
    if n > 0 {
      EncodeZeros(n - 1);
      assert Zeros(n)[1..] == Zeros(n - 1);
      assert ZeroDigits(2 * n) == ['0', '0'] + ZeroDigits(2 * (n - 1));
    }
  }

  /**
    Any other header is its own first characters and then zeros, except that a
    '0' follows it if it was short and of odd length.
  */
  lemma OtherHeaderIsRaw(s: GoString)
    requires exists i :: 0 <= i < |s| && i < 2 * TRACE_ID_SIZE && Value(s[i]).None?
    ensures forall i :: 0 <= i < TRACE_ID_SIZE ==>
              IdOf(s)[i] == if i < |s| then s[i] as int
                            else if i == |s| && |s| % 2 == 1 then '0' as int
                            else 0
  {
    var p, head := Prepared(s), Head(s);
    assert !IsHex(head) by {
      var i :| 0 <= i < |s| && i < 2 * TRACE_ID_SIZE && Value(s[i]).None?;
      assert head[i] == s[i];
    }
    HexDecodes(p);
    PreparedIsHex(s);
    assert forall i :: 0 <= i < |head| ==> p[i] == s[i];
  }

  // ------------------------------------------------- from one process to the next

  datatype SpanContext = SpanContext(traceId: Id, spanId: SpanId)

  /** What a request context carries here: a span and the incoming x-request-id values. */
  datatype Ctx = Ctx(span: SpanContext, requestIds: seq<GoString>)

  /** Neither id is all zeros. */
  predicate IsValid(span: SpanContext) {
    span.traceId != Zeros(TRACE_ID_SIZE) && span.spanId != Zeros(8)
  }

  lemma ValidIffNotZero(span: SpanContext)
    ensures IsValid(span) <==> (exists i :: 0 <= i < |span.traceId| && span.traceId[i] != 0)
                               && exists i :: 0 <= i < |span.spanId| && span.spanId[i] != 0
  {
    if forall i :: 0 <= i < |span.traceId| ==> span.traceId[i] == 0 { assert span.traceId == Zeros(TRACE_ID_SIZE); }
    if forall i :: 0 <= i < |span.spanId| ==> span.spanId[i] == 0 { assert span.spanId == Zeros(8); }
  }

  function TraceIdFromCtx(ctx: Ctx): Option<Id> {
    if IsValid(ctx.span) then Some(ctx.span.traceId) else None
  }

  /** The context CtxWithTraceId returns: it sets a trace id and no span id. */
  function CtxWithTraceId(ctx: Ctx, s: GoString): Ctx {
    ctx.(span := SpanContext(IdOf(s), Zeros(8)))
  }

  /** requestIdExtractor.Extract, after the wrapped propagator has produced ctx. */
  function Extract(ctx: Ctx): Ctx {
    if TraceIdFromCtx(ctx).Some? || ctx.requestIds == [] then ctx
    else CtxWithTraceId(ctx, ctx.requestIds[0])
  }

  /** What HttpCfg's hook leaves in the header: it is set from the caller's span unless the caller set it already. */
  function SendHeader(ctx: Ctx, header: seq<GoString>): seq<GoString> {
    if header == [] && TraceIdFromCtx(ctx).Some? then
      HexIsAscii(TraceIdFromCtx(ctx).value);
      [EncodeBytes(TraceIdFromCtx(ctx).value)]
    else header
  }

  /** An outgoing request, and the hook HttpCfg.OnUpdate registers. */
  class Request {
    var requestIds: seq<GoString>

    constructor (requestIds: seq<GoString>)
      ensures this.requestIds == requestIds
    {
      this.requestIds := requestIds;
    }

    method OnBeforeRequest(ctx: Ctx)
      modifies this
      ensures old(requestIds) != [] || !IsValid(ctx.span) ==> requestIds == old(requestIds)
      ensures old(requestIds) == [] && IsValid(ctx.span) ==>
                && |requestIds| == 1 && Lower(requestIds[0]) == requestIds[0]
                && DecodeBytes(requestIds[0]) == Some(ctx.span.traceId)
      ensures requestIds == SendHeader(ctx, old(requestIds))
    {
      if |requestIds| == 0 {
        var traceId := TraceIdFromCtx(ctx);
        if traceId != None {
          HexIsAscii(traceId.value);
          BytesRoundTrip(traceId.value);
          DecodedReencodes(EncodeBytes(traceId.value));
          requestIds := [EncodeBytes(traceId.value)];
        }
      }
    }
  }

  /**
    Across processes: a receiver that got no valid span of its own takes over the
    sender's trace id exactly; one that did keeps its context untouched.
  */
  lemma TraceIdCrossesProcesses(sender: Ctx, received: Ctx)
    requires IsValid(sender.span)
    requires SendHeader(sender, []) <= received.requestIds // the first of them counts
    ensures if IsValid(received.span) then Extract(received) == received
            else Extract(received).span.traceId == sender.span.traceId
  {
    IdRoundTrip(sender.span.traceId);
  }

  /** A header of hex digits names the zero id, which no span can have, exactly when it has no digit but '0'. */
  lemma ZeroIdIffNoOtherDigit(s: GoString)
    requires IsHex(Head(s))
    ensures IdOf(s) == Zeros(TRACE_ID_SIZE) <==> forall i :: 0 <= i < |Head(s)| ==> Head(s)[i] == '0'
  {
    var digits := Lower(Head(s)) + ZeroDigits(2 * TRACE_ID_SIZE - |Head(s)|);
    HexHeaderIsRightPadded(s);
    EncodeZeros(TRACE_ID_SIZE);
    BytesRoundTrip(IdOf(s));
    BytesRoundTrip(Zeros(TRACE_ID_SIZE));
    if forall i :: 0 <= i < |Head(s)| ==> Head(s)[i] == '0' {
      assert digits == ZeroDigits(2 * TRACE_ID_SIZE);
    }
    if IdOf(s) == Zeros(TRACE_ID_SIZE) {
      forall i | 0 <= i < |Head(s)| ensures Head(s)[i] == '0' {
        assert digits[i] == '0';
      }
    }
  }

  /**
    The server span the otelgrpc handler starts under the extracted context: the
    SDK keeps a non-zero trace id and draws the span id, and the trace id too
    where there is none.
  */
  function StartSpan(parent: SpanContext, drawn: SpanContext): (span: SpanContext)
    ensures span.spanId == drawn.spanId
    ensures parent.traceId != Zeros(TRACE_ID_SIZE) ==> span.traceId == parent.traceId
    ensures parent.traceId == Zeros(TRACE_ID_SIZE) ==> span.traceId == drawn.traceId
  {
    drawn.(traceId := if parent.traceId == Zeros(TRACE_ID_SIZE) then drawn.traceId else parent.traceId)
  }

  /**
    One process of a chain: what the tracing headers bring it, the ids its SDK
    draws, and request ids it gets besides the one it is sent.
  */
  datatype Hop = Hop(propagated: SpanContext, drawn: SpanContext, others: seq<GoString>)

  /** The span handlers of a process see. */
  function HandlerSpan(hop: Hop, requestIds: seq<GoString>): SpanContext {
    StartSpan(Extract(Ctx(hop.propagated, requestIds + hop.others)).span, hop.drawn)
  }

  /** The request ids the last process gets: the first process gets a given one, the others what the hook sent. */
  function Received(first: GoString, hops: seq<Hop>): seq<GoString>
    requires hops != []
    decreases |hops|, 0
  {
    if |hops| == 1 then [first] else SendHeader(Ctx(LastSpan(first, hops[..|hops| - 1]), []), [])
  }

  function LastSpan(first: GoString, hops: seq<Hop>): SpanContext
    requires hops != []
    decreases |hops|, 1
  {
    HandlerSpan(hops[|hops| - 1], Received(first, hops))
  }

  /**
    SDKs draw non-zero ids, and the tracing headers between two processes carry
    no valid span or one of the sender's trace.
  */
  ghost predicate IsChain(first: GoString, hops: seq<Hop>) {
    && (forall k :: 0 <= k < |hops| ==> IsValid(hops[k].drawn))
    && forall k :: 0 < k < |hops| && IsValid(hops[k].propagated) ==>
                     hops[k].propagated.traceId == LastSpan(first, hops[..k]).traceId
  }

  /** The trace a process joins or starts when it gets this request id. */
  function JoinedTrace(requestId: GoString, hop: Hop): Id {
    if IsValid(hop.propagated) then hop.propagated.traceId
    else if IdOf(requestId) != Zeros(TRACE_ID_SIZE) then IdOf(requestId)
    else hop.drawn.traceId
  }

  /** Whatever other request ids come with it, the first one counts. */
  lemma HandlerJoins(hop: Hop, requestId: GoString)
    requires IsValid(hop.drawn)
    ensures HandlerSpan(hop, [requestId]) == SpanContext(JoinedTrace(requestId, hop), hop.drawn.spanId)
    ensures IsValid(HandlerSpan(hop, [requestId]))
  {
    assert ([requestId] + hop.others)[0] == requestId;
  }

  /** What a process sends on after a valid span is read back as that span's trace. */
  lemma SentOn(span: SpanContext)
    requires IsValid(span)
    ensures |SendHeader(Ctx(span, []), [])| == 1 && IdOf(SendHeader(Ctx(span, []), [])[0]) == span.traceId
  {
    IdRoundTrip(span.traceId);
  }

  lemma ChainPrefix(first: GoString, hops: seq<Hop>, n: nat)
    requires IsChain(first, hops) && n <= |hops|
    ensures IsChain(first, hops[..n])
  {
    assert forall k :: 0 < k < n ==> hops[..n][..k] == hops[..k];
  }

  /** One trace for the whole chain: every process, and every header on the way, has the id of the first one. */
  lemma {:induction false} TraceIdReachesEveryHop(first: GoString, hops: seq<Hop>)
    requires hops != [] && IsChain(first, hops)
    ensures IsValid(LastSpan(first, hops)) && LastSpan(first, hops).traceId == JoinedTrace(first, hops[0])
    ensures |hops| > 1 ==> |Received(first, hops)| == 1 && IdOf(Received(first, hops)[0]) == JoinedTrace(first, hops[0])
  {
    if |hops| == 1 {
      HandlerJoins(hops[0], first);
    } else {
      var front, hop := hops[..|hops| - 1], hops[|hops| - 1];
      ChainPrefix(first, hops, |hops| - 1);
      TraceIdReachesEveryHop(first, front);
      SentOn(LastSpan(first, front));
      var received := Received(first, hops);
      assert received == [received[0]];
      HandlerJoins(hop, received[0]);
    }
  }

  /** Where the first process has nothing but the header, all have the header's id exactly when it is not zero. */
  lemma HeaderIdReachesAllIffNotZero(first: GoString, hops: seq<Hop>)
    requires hops != [] && IsChain(first, hops) && !IsValid(hops[0].propagated)
    ensures (forall k :: 0 < k <= |hops| ==> LastSpan(first, hops[..k]).traceId == IdOf(first))
            <==> IdOf(first) != Zeros(TRACE_ID_SIZE)
  {
    forall k | 0 < k <= |hops| ensures LastSpan(first, hops[..k]).traceId == JoinedTrace(first, hops[0]) {
      ChainPrefix(first, hops, k);
      TraceIdReachesEveryHop(first, hops[..k]);
    }
    assert hops[0].drawn.traceId != Zeros(TRACE_ID_SIZE);
    assert hops[..1] != [];
  }
}
