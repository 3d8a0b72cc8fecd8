/**
 * Retry classifiers of the orchestrating client runtime. Each classifier looks at the context of
 * a finished attempt (its output or error, and the HTTP response if one arrived) and says whether
 * and why the attempt may be retried. The classifiers hold no mutable state: the result depends
 * on the context alone, and for the status-code classifier on its fixed list of codes.
 *
 * The runtime hands errors around type-erased and the classifiers recover them by downcasting to
 * the type they are instantiated with. Here an erased error carries the name of its type, and a
 * downcast succeeds when the variant is the one the classifier expects (`Modeled`, or `Sdk` for
 * the SdkError downcast) and the type name agrees; an `Unmodeled` error never downcasts.
 */
module RetryClassifier {
  import opened Wrappers

  type U16 = n: int | 0 <= n < 0x1_0000

  /** Why an error may be worth retrying. */
  datatype ErrorKind = ThrottlingError | TransientError | ServerError | ClientError

  /** The verdict of a classifier that decides an attempt may be retried. */
  datatype RetryReason = Error(kind: ErrorKind) | Explicit(delayMillis: nat)

  /** What went wrong while sending a request; exactly one kind applies. */
  datatype ConnectorError = Timeout | Io | User | Other(kind: Option<ErrorKind>)
  {
    predicate IsTimeout() { this.Timeout? }

    predicate IsIo() { this.Io? }

    /** The error kind of an error that is neither a timeout, nor an I/O error, nor a user error. */
    function IsOther(): (r: Option<ErrorKind>)
      ensures r.Some? ==> this == Other(r)
      ensures this.Other? ==> r == this.kind
    {
      match this
      case Other(kind) => kind
      case _ => None
    }
  }

  /** The failures of one operation call, for some modelled service error type. */
  datatype SdkError =
    | ConstructionFailure
    | TimeoutError
    | DispatchFailure(connector: ConnectorError)
    | ResponseError
    | ServiceError

  /** A type-erased operation error: which type it holds and what that value says. */
  datatype ErasedError =
    | Modeled(typeName: string, retryableKind: Option<ErrorKind>)  // a modelled error type with its retryable kind
    | Sdk(innerTypeName: string, error: SdkError)                 // an SdkError over the named error type
    | Unmodeled(typeName: string)                                   // any other error type

  datatype OrchestratorError =
    | Operation(error: ErasedError)
    | Interceptor
    | Connector
    | Response

  /** The output of an operation; the classifiers never look inside it. */
  datatype Output = Output(typeName: string)

  datatype HttpResponse = HttpResponse(status: U16)

  /** What a classifier may read of an attempt. */
  datatype Context = Context(outputOrError: Option<Result<Output, OrchestratorError>>, response: Option<HttpResponse>)

  /** The operation error of a failed attempt: None when there is no result, an output, or another error. */
  function OperationError(ctx: Context): (r: Option<ErasedError>)
    ensures r.Some? ==> ctx.outputOrError == Some(Err(Operation(r.value)))
    ensures r.None? ==> forall e :: ctx.outputOrError != Some(Err(Operation(e)))
  {
    match ctx.outputOrError
    case None => None
    case Some(Ok(_)) => None
    case Some(Err(err)) =>
      match err
      case Operation(e) => Some(e)
      case _ => None
  }

  /** Retries an operation error of the given modelled type by the retryable kind the error reports. */
  datatype ModeledAsRetryableClassifier = ModeledAsRetryableClassifier(errorType: string)
  {
    function ClassifyRetry(ctx: Context): (r: Option<RetryReason>)
      ensures r.Some? <==> exists kind :: OperationError(ctx) == Some(Modeled(errorType, Some(kind)))
      ensures r.Some? ==> r.value.Error? && OperationError(ctx) == Some(Modeled(errorType, Some(r.value.kind)))
    {
      match OperationError(ctx)
      case None => None
      case Some(e) =>
        match e
        case Modeled(typeName, kind) =>
          if typeName != errorType then None
          else if kind.Some? then Some(Error(kind.value))
          else None
        case _ => None
    }
  }

  /** Retries timeouts, response errors and transport failures of an SdkError over the given type. */
  datatype SmithyErrorClassifier = SmithyErrorClassifier(errorType: string)
  {
    /** The SdkError of the classifier's type that the attempt failed with, if any. */
    function SdkErrorOf(ctx: Context): (r: Option<SdkError>)
      ensures r.Some? ==> OperationError(ctx) == Some(Sdk(errorType, r.value))
      ensures r.None? ==> forall e :: OperationError(ctx) != Some(Sdk(errorType, e))
    {
      match OperationError(ctx)
      case Some(Sdk(inner, e)) => if inner == errorType then Some(e) else None
      case _ => None
    }

    function ClassifyRetry(ctx: Context): (r: Option<RetryReason>)
      ensures SdkErrorOf(ctx).None? ==> r.None?
      ensures SdkErrorOf(ctx).Some? && (SdkErrorOf(ctx).value.TimeoutError? || SdkErrorOf(ctx).value.ResponseError?) ==>
              r == Some(Error(TransientError))
      ensures SdkErrorOf(ctx).Some? && SdkErrorOf(ctx).value.DispatchFailure? ==>
              var c := SdkErrorOf(ctx).value.connector;
              r == if c.IsTimeout() || c.IsIo() then Some(Error(TransientError))
                   else if c.IsOther().Some? then Some(Error(c.IsOther().value)) else None
      ensures SdkErrorOf(ctx).Some? && (SdkErrorOf(ctx).value.ConstructionFailure? || SdkErrorOf(ctx).value.ServiceError?) ==>
              r.None?
    {
      match SdkErrorOf(ctx)
      case None => None
      case Some(e) =>
        match e
        case TimeoutError => Some(Error(TransientError))
        case ResponseError => Some(Error(TransientError))
        case DispatchFailure(c) =>
          if c.IsTimeout() || c.IsIo() then Some(Error(TransientError))
          else (match c.IsOther()
            case Some(kind) => Some(Error(kind))
            case None => None)
        case _ => None
    }
  }

  /** The status codes the default status-code classifier retries. */
  const TRANSIENT_ERROR_STATUS_CODES: seq<U16> := [500, 502, 503, 504]

  /** Retries every response whose status is one of the configured codes, as a transient error. */
  datatype HttpStatusCodeClassifier = HttpStatusCodeClassifier(retryableStatusCodes: seq<U16>)
  {
    function ClassifyRetry(ctx: Context): (r: Option<RetryReason>)
      ensures r.Some? <==> ctx.response.Some? && ctx.response.value.status in retryableStatusCodes
      ensures r.Some? ==> r == Some(Error(TransientError))
    {
      match ctx.response
      case Some(response) =>
        if response.status in retryableStatusCodes then Some(Error(TransientError)) else None
      case None => None
    }
  }

  /** The status-code classifier over the transient server error codes. */
  function DefaultStatusCodeClassifier(): (c: HttpStatusCodeClassifier)
    ensures forall status: U16 :: status in c.retryableStatusCodes <==> status in {500, 502, 503, 504}
  {
    HttpStatusCodeClassifier(TRANSIENT_ERROR_STATUS_CODES)
  }

  // ---------------------------------------------------------------------------------------------
  // Properties

  /** The classifiers only depend on what they read: the error for two of them, the response for the third. */
  lemma ClassifiersAreStateless(ctx1: Context, ctx2: Context, errorType: string, codes: seq<U16>)
    ensures ctx1.outputOrError == ctx2.outputOrError ==>
            ModeledAsRetryableClassifier(errorType).ClassifyRetry(ctx1) == ModeledAsRetryableClassifier(errorType).ClassifyRetry(ctx2) &&
            SmithyErrorClassifier(errorType).ClassifyRetry(ctx1) == SmithyErrorClassifier(errorType).ClassifyRetry(ctx2)
    ensures ctx1.response == ctx2.response ==>
            HttpStatusCodeClassifier(codes).ClassifyRetry(ctx1) == HttpStatusCodeClassifier(codes).ClassifyRetry(ctx2)
  {
  }

  /** A transport failure is retried exactly when it is a timeout, an I/O error, or another error with a kind. */
  lemma DispatchFailureRetried(ctx: Context, errorType: string, c: ConnectorError)
    requires OperationError(ctx) == Some(Sdk(errorType, DispatchFailure(c)))
    ensures SmithyErrorClassifier(errorType).ClassifyRetry(ctx).Some? <==> c.Timeout? || c.Io? || (c.Other? && c.kind.Some?)
  {
  }

  // ---------------------------------------------------------------------------------------------
  // The runtime's own examples

  /** The default classifier retries a 500 response and not a 408 response. */
  lemma DefaultStatusExamples(ctx: Context)
    ensures DefaultStatusCodeClassifier().ClassifyRetry(Context(ctx.outputOrError, Some(HttpResponse(500)))) == Some(Error(TransientError))
    ensures DefaultStatusCodeClassifier().ClassifyRetry(Context(ctx.outputOrError, Some(HttpResponse(408)))).None?
  {
  }

  /** An operation error of the classifier's type whose retryable kind is ClientError is retried as one. */
  lemma ModeledKindExample()
    ensures ModeledAsRetryableClassifier("RetryableError").ClassifyRetry(
              Context(Some(Err(Operation(Modeled("RetryableError", Some(ClientError))))), None)) == Some(Error(ClientError))
  {
  }

  /** A response error and a timeout error of the classifier's type are retried as transient. */
  lemma SmithyErrorExamples()
    ensures SmithyErrorClassifier("UnmodeledError").ClassifyRetry(
              Context(Some(Err(Operation(Sdk("UnmodeledError", ResponseError)))), None)) == Some(Error(TransientError))
    ensures SmithyErrorClassifier("UnmodeledError").ClassifyRetry(
              Context(Some(Err(Operation(Sdk("UnmodeledError", TimeoutError)))), None)) == Some(Error(TransientError))
  {
  }
}
