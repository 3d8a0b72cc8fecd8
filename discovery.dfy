/**
 * Object discovery for an S3 download: choosing how to learn the object's size (a HEAD request
 * or a first ranged GET) from the request's `Range` header, and the byte ranges that follow from
 * the answer. The network calls are parameters: a HEAD answer is the object's metadata or a
 * failure, a GET answer is the metadata with a body that was collected or failed to collect.
 *
 * All positions are unsigned 64-bit integers. The download code uses plain u64 `+` and `-`: a
 * build with overflow checks panics where they overflow, a build without them wraps around. The
 * suffix arm after a HEAD is modelled with the wrap-around; every other function requires exactly
 * the inputs on which its arithmetic neither underflows nor overflows, evaluated left to right.
 *
 * Two arithmetics are modelled side by side: the code's as written, and a corrected one.
 */
module Discovery {
  import opened Wrappers
  import opened Octets

  const U64_MAX: int := 0xffff_ffff_ffff_ffff

  type U64 = n: int | 0 <= n <= U64_MAX

  /** A parsed `Range` header (section 14.1.2 of RFC 9110): `bytes=a-b`, `bytes=a-` or `bytes=-n`. */
  datatype ByteRange = Inclusive(first: U64, last: U64) | AllFrom(from: U64) | Last(count: U64)

  /** The inclusive range `start..=end`. */
  datatype Span = Span(start: U64, end: U64)

  /** How the object is discovered, optionally constrained to a range of it. */
  datatype Strategy =
    | HeadObject(range: Option<ByteRange>)
    | FirstPart
    | RangedGet(span: Option<Span>)

  datatype TransferError =
    | InvalidRange(reason: string)
    | DiscoverFailed(cause: string)

  datatype ObjectMetadata = ObjectMetadata(totalSize: U64)

  /** What a GET answers: the object's metadata and its body, collected or not. */
  datatype GetResponse = GetResponse(meta: ObjectMetadata, body: Result<seq<Byte>, string>)

  /** The request discovery sends. */
  datatype ObjectRequest =
    | HeadRequest
    | GetPartRequest(partNumber: nat)
    | GetRangeRequest(range: ByteRange)

  /** The discovered metadata, the range still to fetch and the data fetched along the way. */
  datatype ObjectDiscovery = ObjectDiscovery(remaining: Span, meta: ObjectMetadata, initialChunk: Option<seq<Byte>>)

  /** The number of positions in an inclusive range; zero or less when it is empty. */
  function Size(s: Span): int {
    s.end - s.start + 1
  }

  // ---------------------------------------------------------------------------------------------
  // Choosing the strategy

  /**
   * The strategy for a request whose `Range` header is absent (None) or was parsed into a range or
   * a parse error. A parse error is the function's error.
   */
  function FromRequest(header: Option<Result<ByteRange, TransferError>>): (r: Result<Strategy, TransferError>)
    ensures header.None? ==> r == Ok(RangedGet(None))
    ensures header.Some? && header.value.Err? ==> r == Err(header.value.error)
    ensures header.Some? && header.value.Ok? ==> r.Ok?
    ensures r.Ok? ==> !r.value.FirstPart?
    ensures r.Ok? && r.value.RangedGet? && r.value.span.Some? <==>
            header.Some? && header.value.Ok? && header.value.value.Inclusive?
    ensures r.Ok? && r.value.RangedGet? && r.value.span.Some? ==>
            r.value.span.value == Span(header.value.value.first, header.value.value.last)
    ensures r.Ok? && r.value.HeadObject? ==> header.Some? && r.value.range == Some(header.value.value)
    ensures header.Some? && header.value.Ok? && !header.value.value.Inclusive? ==>
            r == Ok(HeadObject(Some(header.value.value)))
  {
    match header
    case None => Ok(RangedGet(None))
    case Some(Err(e)) => Err(e)
    case Some(Ok(range)) =>
      match range
      case Inclusive(first, last) => Ok(RangedGet(Some(Span(first, last))))
      case _ => Ok(HeadObject(Some(range)))
  }

  // ---------------------------------------------------------------------------------------------
  // Range arithmetic

  /** The inputs on which the first ranged GET's range can be computed. */
  predicate RequestRangeDefined(span: Option<Span>, partSize: U64) {
    match span
    case None => 1 <= partSize
    case Some(s) => 1 <= s.start + partSize <= U64_MAX
  }

  /** The range of the first GET of a ranged discovery: one part from the range's start, or from 0. */
  function FirstRequestRange(span: Option<Span>, partSize: U64): (r: ByteRange)
    requires RequestRangeDefined(span, partSize)
    ensures r.Inclusive?
    ensures r.first == (if span.Some? then span.value.start else 0)
    ensures Size(Span(r.first, r.last)) == partSize
  {
    match span
    case Some(s) => Inclusive(s.start, s.start + partSize - 1)
    case None => Inclusive(0, partSize - 1)
  }

  /** u64 arithmetic in a build without overflow checks: the result modulo 2^64. */
  function Wrap(n: int): (r: U64)
    ensures 0 <= n <= U64_MAX ==> r == n
  {
    n % (U64_MAX + 1)
  }

  /** The inputs on which the suffix arm after a HEAD overflows: `total - n` below 0, or `+ 1` past u64. */
  predicate HeadRemainingOverflows(range: Option<ByteRange>, total: U64) {
    range.Some? && range.value.Last? && !(range.value.count <= total && total - range.value.count < U64_MAX)
  }

  /**
   * The range left to fetch after a HEAD request found the object's total size, as the download
   * code computes it in a build without overflow checks (a build with them panics exactly where
   * `HeadRemainingOverflows` holds): the requested range, or everything from its start, or
   * `total - n + 1 ..= total` for the last n positions, or the whole object.
   */
  function HeadRemainingAsWritten(range: Option<ByteRange>, total: U64): (r: Span)
    ensures !HeadRemainingOverflows(range, total) ==> r == HeadRemaining(range, total)
    ensures range.Some? && range.value.Last? ==> r.end == total
    ensures range.Some? && range.value.Last? && range.value.count > total + 1 ==> Size(r) <= 0
  {
    match range
    case Some(Inclusive(first, last)) => Span(first, last)
    case Some(AllFrom(from)) => Span(from, total)
    case Some(Last(count)) => Span(Wrap(Wrap(total - count) + 1), total)
    case None => Span(0, total)
  }

  /** The inputs on which the corrected range left after a HEAD can be computed. */
  predicate HeadRemainingDefined(range: Option<ByteRange>, total: U64) {
    range.Some? && range.value.Last? && range.value.count <= total ==> total - range.value.count < U64_MAX
  }

  /**
   * The range left to fetch after a HEAD request found the object's total size: the requested
   * range, or everything from its start, or its last n positions, or the whole object. A suffix
   * longer than the object selects the whole object (section 14.1.2 of RFC 9110). The open-ended
   * forms end at `total` itself.
   */
  function HeadRemaining(range: Option<ByteRange>, total: U64): (r: Span)
    requires HeadRemainingDefined(range, total)
    ensures range.Some? && range.value.Inclusive? ==> r == Span(range.value.first, range.value.last)
    ensures !(range.Some? && range.value.Inclusive?) ==> r.end == total
    ensures range.Some? && range.value.AllFrom? ==> r.start == range.value.from
    ensures range.Some? && range.value.Last? && range.value.count <= total ==> Size(r) == range.value.count
    ensures range.Some? && range.value.Last? && range.value.count > total ==> r == Span(0, total)
    ensures range.None? ==> r.start == 0
  {
    match range
    case Some(Inclusive(first, last)) => Span(first, last)
    case Some(AllFrom(from)) => Span(from, total)
    case Some(Last(count)) => if count <= total then Span(total - count + 1, total) else Span(0, total)
    case None => Span(0, total)
  }

  /** The inputs on which the range left after the first GET can be computed, as written. */
  predicate GetRemainingAsWrittenDefined(span: Option<Span>, received: nat) {
    match span
    case None => received <= U64_MAX
    case Some(s) => s.start + received + 1 <= U64_MAX
  }

  /**
   * The range left after the first GET received `received` octets, as the download code computes
   * it: with a range, from one past the position after the received octets to the range's end;
   * without one, from `received` to the object's total size.
   */
  function GetRemainingAsWritten(span: Option<Span>, received: nat, total: U64): (r: Span)
    requires GetRemainingAsWrittenDefined(span, received)
    ensures span.Some? ==> r.start == span.value.start + received + 1 && r.end == span.value.end
    ensures span.None? ==> r.start == received && r.end == total
  {
    match span
    case Some(s) => Span(s.start + received + 1, s.end)
    case None => Span(received, total)
  }

  /** The inputs on which the corrected remaining range can be computed. */
  predicate GetRemainingDefined(span: Option<Span>, received: nat) {
    match span
    case None => received <= U64_MAX
    case Some(s) => s.start + received <= U64_MAX
  }

  /**
   * The range left after the first GET received `received` octets: from the position right after
   * them to the range's end, or to the object's total size when there is no range.
   */
  function GetRemaining(span: Option<Span>, received: nat, total: U64): (r: Span)
    requires GetRemainingDefined(span, received)
    ensures r.end == (if span.Some? then span.value.end else total)
  {
    match span
    case Some(s) => Span(s.start + received, s.end)
    case None => Span(received, total)
  }

  // ---------------------------------------------------------------------------------------------
  // Discovery

  /**
   * Which range arithmetic discovery uses: the download code's as it is written, or the corrected
   * one that continues right after the received data and reads an over-long suffix as the whole
   * object.
   */
  datatype Arithmetic = AsWritten | Corrected

  /** The inputs on which the range left after a HEAD can be computed with the given arithmetic. */
  predicate HeadAnswerDefined(arith: Arithmetic, range: Option<ByteRange>, head: Result<ObjectMetadata, string>) {
    head.Ok? && arith.Corrected? ==> HeadRemainingDefined(range, head.value.totalSize)
  }

  /** Discovery by a HEAD request: the remaining range follows from the total size; no data yet. */
  function DiscoverWithHead(arith: Arithmetic, range: Option<ByteRange>, head: Result<ObjectMetadata, string>): (r: Result<ObjectDiscovery, TransferError>)
    requires HeadAnswerDefined(arith, range, head)
    ensures head.Err? ==> r == Err(DiscoverFailed(head.error))
    ensures head.Ok? ==> r.Ok? && r.value.meta == head.value && r.value.initialChunk.None?
    ensures head.Ok? && arith.AsWritten? ==> r.value.remaining == HeadRemainingAsWritten(range, head.value.totalSize)
    ensures head.Ok? && arith.Corrected? ==> r.value.remaining == HeadRemaining(range, head.value.totalSize)
  {
    match head
    case Err(e) => Err(DiscoverFailed(e))
    case Ok(meta) =>
      var remaining := if arith.AsWritten? then HeadRemainingAsWritten(range, meta.totalSize) else HeadRemaining(range, meta.totalSize);
      Ok(ObjectDiscovery(remaining, meta, None))
  }

  /** The inputs on which a GET answer yields a remaining range with the given arithmetic. */
  predicate GetAnswerDefined(arith: Arithmetic, span: Option<Span>, get: Result<GetResponse, string>) {
    get.Ok? && get.value.body.Ok? ==>
      if arith.AsWritten? then GetRemainingAsWrittenDefined(span, |get.value.body.value|)
      else GetRemainingDefined(span, |get.value.body.value|)
  }

  /**
   * Discovery by a GET: a failed request or a body that fails to collect is a discovery failure;
   * otherwise the collected body is the initial chunk and the rest of the range remains.
   */
  function DiscoverWithGet(arith: Arithmetic, span: Option<Span>, get: Result<GetResponse, string>): (r: Result<ObjectDiscovery, TransferError>)
    requires GetAnswerDefined(arith, span, get)
    ensures get.Err? ==> r == Err(DiscoverFailed(get.error))
    ensures get.Ok? && get.value.body.Err? ==> r == Err(DiscoverFailed(get.value.body.error))
    ensures r.Ok? <==> get.Ok? && get.value.body.Ok?
    ensures r.Ok? ==> r.value.meta == get.value.meta && r.value.initialChunk == Some(get.value.body.value)
    ensures r.Ok? && arith.AsWritten? ==>
            r.value.remaining == GetRemainingAsWritten(span, |get.value.body.value|, get.value.meta.totalSize)
    ensures r.Ok? && arith.Corrected? ==>
            r.value.remaining == GetRemaining(span, |get.value.body.value|, get.value.meta.totalSize)
  {
    match get
    case Err(e) => Err(DiscoverFailed(e))
    case Ok(response) =>
      match response.body
      case Err(e) => Err(DiscoverFailed(e))
      case Ok(data) =>
        var total := response.meta.totalSize;
        var remaining := if arith.AsWritten? then GetRemainingAsWritten(span, |data|, total) else GetRemaining(span, |data|, total);
        Ok(ObjectDiscovery(remaining, response.meta, Some(data)))
  }

  /** The request the strategy sends first. */
  function RequestFor(strategy: Strategy, partSize: U64): (r: ObjectRequest)
    requires strategy.RangedGet? ==> RequestRangeDefined(strategy.span, partSize)
    ensures strategy.HeadObject? <==> r.HeadRequest?
    ensures strategy.FirstPart? <==> r == GetPartRequest(1)
    ensures strategy.RangedGet? ==> r == GetRangeRequest(FirstRequestRange(strategy.span, partSize))
  {
    match strategy
    case HeadObject(_) => HeadRequest
    case FirstPart => GetPartRequest(1)
    case RangedGet(span) => GetRangeRequest(FirstRequestRange(span, partSize))
  }

  /** The inputs on which a strategy's arithmetic is defined, given the answers it may receive. */
  predicate StrategyDefined(arith: Arithmetic, strategy: Strategy, partSize: U64,
                            head: Result<ObjectMetadata, string>, get: Result<GetResponse, string>)
  {
    match strategy
    case HeadObject(range) => HeadAnswerDefined(arith, range, head)
    case FirstPart => GetAnswerDefined(arith, None, get)
    case RangedGet(span) => RequestRangeDefined(span, partSize) && GetAnswerDefined(arith, span, get)
  }

  /**
   * Discovery by a given strategy: a HEAD, a GET of part 1 unconstrained by any range, or a GET of
   * the first part of the range (of the object when there is none). The answer to the request
   * that `RequestFor` names is `head` or `get`.
   */
  function DiscoverByStrategy(arith: Arithmetic, strategy: Strategy, partSize: U64,
                              head: Result<ObjectMetadata, string>, get: Result<GetResponse, string>): (r: Result<ObjectDiscovery, TransferError>)
    requires StrategyDefined(arith, strategy, partSize, head, get)
    ensures strategy.HeadObject? ==> r == DiscoverWithHead(arith, strategy.range, head)
    ensures strategy.FirstPart? ==> r == DiscoverWithGet(arith, None, get)
    ensures strategy.RangedGet? ==> r == DiscoverWithGet(arith, strategy.span, get)
    ensures !strategy.HeadObject? ==> (r.Ok? <==> get.Ok? && get.value.body.Ok?)
    ensures !strategy.HeadObject? && r.Ok? ==>
            r.value.initialChunk == Some(get.value.body.value) && r.value.meta == get.value.meta
    ensures strategy.FirstPart? && r.Ok? ==>
            r.value.remaining == Span(|get.value.body.value|, get.value.meta.totalSize)
    ensures strategy.RangedGet? && r.Ok? ==>
            r.value.remaining.start == FirstRequestRange(strategy.span, partSize).first + |get.value.body.value|
                                       + (if arith.AsWritten? && strategy.span.Some? then 1 else 0)
    ensures strategy.RangedGet? && r.Ok? ==>
            r.value.remaining.end == (if strategy.span.Some? then strategy.span.value.end else get.value.meta.totalSize)
  {
    match strategy
    case HeadObject(range) => DiscoverWithHead(arith, range, head)
    case FirstPart => DiscoverWithGet(arith, None, get)
    case RangedGet(span) => DiscoverWithGet(arith, span, get)
  }

  /** The inputs on which discovery's arithmetic is defined, given the answers it may receive. */
  predicate DiscoverDefined(arith: Arithmetic, header: Option<Result<ByteRange, TransferError>>, partSize: U64,
                            head: Result<ObjectMetadata, string>, get: Result<GetResponse, string>)
  {
    FromRequest(header).Ok? ==> StrategyDefined(arith, FromRequest(header).value, partSize, head, get)
  }

  /** Discovery of an object: by the strategy that the request's `Range` header selects. */
  function DiscoverObj(arith: Arithmetic, header: Option<Result<ByteRange, TransferError>>, partSize: U64,
                       head: Result<ObjectMetadata, string>, get: Result<GetResponse, string>): (r: Result<ObjectDiscovery, TransferError>)
    requires DiscoverDefined(arith, header, partSize, head, get)
    ensures FromRequest(header).Err? ==> r == Err(FromRequest(header).error)
    ensures FromRequest(header).Ok? ==> r == DiscoverByStrategy(arith, FromRequest(header).value, partSize, head, get)
  {
    match FromRequest(header)
    case Err(e) => Err(e)
    case Ok(strategy) => DiscoverByStrategy(arith, strategy, partSize, head, get)
  }

  // ---------------------------------------------------------------------------------------------
  // Properties

  /**
   * A ranged discovery continues right where its first GET stopped: the remaining range starts at
   * the request's first position plus the octets received, so no position is skipped or fetched
   * twice.
   */
  lemma RemainingFollowsFirstRequest(span: Option<Span>, partSize: U64, received: nat, total: U64)
    requires RequestRangeDefined(span, partSize) && GetRemainingDefined(span, received)
    ensures GetRemaining(span, received, total).start == FirstRequestRange(span, partSize).first + received
  {
  }

  /** As written, a ranged discovery with a range skips the position right after the received octets. */
  lemma AsWrittenSkipsOnePosition(s: Span, partSize: U64, received: nat, total: U64)
    requires RequestRangeDefined(Some(s), partSize) && GetRemainingAsWrittenDefined(Some(s), received)
    ensures GetRemainingAsWritten(Some(s), received, total).start == FirstRequestRange(Some(s), partSize).first + received + 1
  {
  }

  /** Range 0..=999, parts of 100: after the first 100 octets, as written, the rest starts at 101. */
  lemma AsWrittenSkipsExample()
    ensures FirstRequestRange(Some(Span(0, 999)), 100) == Inclusive(0, 99)
    ensures GetRemainingAsWritten(Some(Span(0, 999)), 100, 1000) == Span(101, 999)
    ensures GetRemaining(Some(Span(0, 999)), 100, 1000) == Span(100, 999)
  {
  }

  /**
   * As written, a suffix longer than the object by two or more positions leaves an empty range to
   * fetch (and a build with overflow checks panics), where the whole object is meant.
   */
  lemma AsWrittenSuffixBeyondObject(count: U64, total: U64)
    requires count > total + 1
    ensures HeadRemainingOverflows(Some(Last(count)), total)
    ensures Size(HeadRemainingAsWritten(Some(Last(count)), total)) <= 0
    ensures HeadRemaining(Some(Last(count)), total) == HeadRemaining(None, total)
  {
  }

  /** `bytes=-600` of a 500-octet object: as written the start wraps around past the end. */
  lemma AsWrittenSuffixExample()
    ensures HeadRemainingAsWritten(Some(Last(600)), 500) == Span(0xffff_ffff_ffff_ff9d, 500)
    ensures HeadRemaining(Some(Last(600)), 500) == Span(0, 500)
  {
  }

  /**
   * The two arithmetics agree on everything but the remaining range, and on that too unless the
   * header is an inclusive range or a suffix longer than the object.
   */
  lemma ArithmeticsAgree(header: Option<Result<ByteRange, TransferError>>, partSize: U64,
                         head: Result<ObjectMetadata, string>, get: Result<GetResponse, string>)
    requires DiscoverDefined(AsWritten, header, partSize, head, get)
    requires DiscoverDefined(Corrected, header, partSize, head, get)
    ensures var w := DiscoverObj(AsWritten, header, partSize, head, get);
      var c := DiscoverObj(Corrected, header, partSize, head, get);
      (w.Ok? <==> c.Ok?) && (w.Err? ==> w == c) &&
      (w.Ok? ==> w.value.meta == c.value.meta && w.value.initialChunk == c.value.initialChunk)
    ensures var w := DiscoverObj(AsWritten, header, partSize, head, get);
      var c := DiscoverObj(Corrected, header, partSize, head, get);
      w.Ok? && w.value.remaining != c.value.remaining ==>
        header.Some? && header.value.Ok? &&
        (header.value.value.Inclusive? || (header.value.value.Last? && header.value.value.count > head.value.totalSize))
  {
  }

  /** A HEAD discovery never carries data; a GET discovery always carries what it received. */
  lemma InitialChunkByStrategy(arith: Arithmetic, header: Option<Result<ByteRange, TransferError>>, partSize: U64,
                               head: Result<ObjectMetadata, string>, get: Result<GetResponse, string>)
    requires DiscoverDefined(arith, header, partSize, head, get)
    requires DiscoverObj(arith, header, partSize, head, get).Ok?
    ensures var d := DiscoverObj(arith, header, partSize, head, get).value;
      FromRequest(header).value.HeadObject? <==> d.initialChunk.None?
    ensures var d := DiscoverObj(arith, header, partSize, head, get).value;
      d.initialChunk.Some? ==> d.initialChunk == Some(get.value.body.value)
  {
  }

  // ---------------------------------------------------------------------------------------------
  // The download code's own examples

  /** No header, `bytes=100-200`, `bytes=100-` and `bytes=-500` select these strategies. */
  lemma StrategyExamples()
    ensures FromRequest(None) == Ok(RangedGet(None))
    ensures FromRequest(Some(Ok(Inclusive(100, 200)))) == Ok(RangedGet(Some(Span(100, 200))))
    ensures FromRequest(Some(Ok(AllFrom(100)))) == Ok(HeadObject(Some(AllFrom(100))))
    ensures FromRequest(Some(Ok(Last(500)))) == Ok(HeadObject(Some(Last(500))))
  {
  }

  /** With a total size of 500: no range, 10..=100, from 100, and the last 100 positions. */
  lemma HeadExamples(arith: Arithmetic)
    ensures DiscoverWithHead(arith, None, Ok(ObjectMetadata(500))) == Ok(ObjectDiscovery(Span(0, 500), ObjectMetadata(500), None))
    ensures HeadRemainingAsWritten(Some(Inclusive(10, 100)), 500) == Span(10, 100)
    ensures HeadRemainingAsWritten(Some(AllFrom(100)), 500) == Span(100, 500)
    ensures HeadRemainingAsWritten(Some(Last(100)), 500) == Span(401, 500)
  {
  }

  /** No range, parts of 500, an object of 700: the GET asks for 0..=499 and 500..=700 remains. */
  lemma FullRangeGetExample(arith: Arithmetic, data: seq<Byte>)
    requires |data| == 500
    ensures RequestFor(FromRequest(None).value, 500) == GetRangeRequest(Inclusive(0, 499))
    ensures DiscoverObj(arith, None, 500, Err("unused"), Ok(GetResponse(ObjectMetadata(700), Ok(data))))
            == Ok(ObjectDiscovery(Span(500, 700), ObjectMetadata(700), Some(data)))
  {
  }

  /** `bytes=0-999` with parts of 100, 100 octets received: as written 101..=999 remains, corrected 100..=999. */
  lemma RangedDiscoveryExample(data: seq<Byte>)
    requires |data| == 100
    ensures DiscoverObj(AsWritten, Some(Ok(Inclusive(0, 999))), 100, Err("unused"), Ok(GetResponse(ObjectMetadata(1000), Ok(data))))
            == Ok(ObjectDiscovery(Span(101, 999), ObjectMetadata(1000), Some(data)))
    ensures DiscoverObj(Corrected, Some(Ok(Inclusive(0, 999))), 100, Err("unused"), Ok(GetResponse(ObjectMetadata(1000), Ok(data))))
            == Ok(ObjectDiscovery(Span(100, 999), ObjectMetadata(1000), Some(data)))
  {
  }
}
