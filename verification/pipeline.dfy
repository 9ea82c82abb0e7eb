/** The translation handler as a pure function. Every external call
    (object get, text detection, translation, PDF rendering, object put) is
    an oracle inside `Services`; a run yields the handler's outcome together
    with the trace of the calls it made, in order. */
module Pipeline {
  import opened Wrappers
  import opened Js
  import opened Requests
  import opened Extraction

  /** The storage-write notification. Only the first record is read. */
  datatype Event = Event(records: seq<Record>)

  /** `s3` is absent on a record that is not a storage notification. */
  datatype Record = Record(s3: Option<S3Entity>)

  /** `bucketName` stands for `s3.bucket.name` and `objectKey` for
      `s3.object.key`: `None` when the enclosing `bucket` (resp. `object`)
      is itself absent, so that reading the property throws; `Some(v)` when
      it is present and the property holds `v`, possibly `undefined`. */
  datatype S3Entity = S3Entity(bucketName: Option<Value>, objectKey: Option<Value>)

  /** Process-wide configuration: the bucket the translated copy goes to. */
  datatype Config = Config(translationBucket: Value)

  /** The text-detection response; `Blocks` may be absent. */
  datatype DetectResponse = DetectResponse(blocks: Option<seq<Block>>)

  /** How rendering a PDF turns out. `Threw`: the document calls throw
      synchronously, before the await, and the throw is caught like any
      stage failure. Otherwise the awaited `end` event either fires, and
      the stream buffer holds the bytes (`Ended`), or never fires, so the
      promise stays pending and the handler never returns (`NeverEnds`). */
  datatype RenderOutcome = Ended(pdf: Bytes) | Threw | NeverEnds

  /** The external collaborators, each an oracle from request to outcome. */
  datatype Services = Services(
    getObject: (Value, Value) -> Result<Bytes>,
    detectText: Bytes -> Result<DetectResponse>,
    translateText: TranslateRequest -> Result<string>,
    render: string -> RenderOutcome,
    putObject: PutRequest -> Result<()>)

  /** One external call, with the exact arguments it was given. */
  datatype Call =
    | GetObjectCall(bucket: Value, key: Value)
    | DetectTextCall(document: Bytes)
    | TranslateTextCall(params: TranslateRequest)
    | RenderCall(text: string)
    | PutObjectCall(upload: PutRequest)

  datatype Stage = GetObject | DetectText | TranslateText | Render | PutObject

  function StageOf(c: Call): Stage {
    match c
    case GetObjectCall(_, _) => GetObject
    case DetectTextCall(_) => DetectText
    case TranslateTextCall(_) => TranslateText
    case RenderCall(_) => Render
    case PutObjectCall(_) => PutObject
  }

  /** The one order in which the stages may run. */
  const StageOrder: seq<Stage> := [GetObject, DetectText, TranslateText, Render, PutObject]

  function StagesOf(trace: seq<Call>): seq<Stage> {
    seq(|trace|, i requires 0 <= i < |trace| => StageOf(trace[i]))
  }

  /** The call returned something the handler can carry on with. For
      detection that also needs `Blocks` to be present, since the fold
      calls `forEach` on it. For the render it needs a non-empty buffer:
      the stream buffer's `getContents()` gives `false` when nothing was
      written, and an upload with that body is refused before it is sent. */
  predicate Proceeds(svc: Services, c: Call) {
    match c
    case GetObjectCall(b, k) => svc.getObject(b, k).Ok?
    case DetectTextCall(d) => svc.detectText(d).Ok? && svc.detectText(d).value.blocks.Some?
    case TranslateTextCall(r) => svc.translateText(r).Ok?
    case RenderCall(t) => svc.render(t).Ended? && |svc.render(t).pdf| > 0
    case PutObjectCall(r) => svc.putObject(r).Ok?
  }

  /** How an invocation ends: with a response; with an exception thrown
      before the `try` (the runtime reports an invocation error); or never,
      while waiting for the PDF `end` event. */
  datatype Outcome = Responded(response: Response) | Escaped | Pending

  datatype Execution = Execution(outcome: Outcome, trace: seq<Call>)

  /** Reads `Records[0].s3.bucket.name` and `Records[0].s3.object.key`;
      `None` when either read throws. */
  function ReadTarget(e: Event): Option<(Value, Value)> {
    if |e.records| == 0 then None
    else match e.records[0].s3
      case None => None
      case Some(s3) =>
        match (s3.bucketName, s3.objectKey)
        case (Some(name), Some(key)) => Some((name, key))
        case _ => None
  }

  function Fail(trace: seq<Call>): Execution {
    Execution(Responded(ErrorResponse), trace)
  }

  /** One invocation of the handler. */
  function Run(e: Event, config: Config, svc: Services): (x: Execution)
    ensures |x.trace| <= |StageOrder|
    ensures StagesOf(x.trace) == StageOrder[..|x.trace|]
    ensures forall i :: 0 <= i < |x.trace| - 1 ==> Proceeds(svc, x.trace[i])
    ensures x.outcome.Responded? ==> x.outcome.response in {SuccessResponse, ErrorResponse}
  {
    match ReadTarget(e)
    case None => Execution(Escaped, [])
    case Some((bucket, fileName)) =>
      var get := GetObjectCall(bucket, fileName);
      match svc.getObject(bucket, fileName)
      case Err => Fail([get])
      case Ok(file) =>
        var detect := DetectTextCall(file);
        match svc.detectText(file)
        case Err => Fail([get, detect])
        case Ok(data) =>
          match data.blocks
          case None => Fail([get, detect])
          case Some(blocks) =>
            var request := TranslateParams(ExtractedText(blocks));
            var translate := TranslateTextCall(request);
            match svc.translateText(request)
            case Err => Fail([get, detect, translate])
            case Ok(translated) =>
              var render := RenderCall(translated);
              match svc.render(translated)
              case Threw => Fail([get, detect, translate, render])
              case NeverEnds => Execution(Pending, [get, detect, translate, render])
              case Ended(pdf) =>
                if |pdf| == 0 then Fail([get, detect, translate, render])
                else
                var upload := UploadParams(config.translationBucket, fileName, pdf);
                var put := PutObjectCall(upload);
                match svc.putObject(upload)
                case Err => Fail([get, detect, translate, render, put])
                case Ok(_) => Execution(Responded(SuccessResponse), [get, detect, translate, render, put])
  }
}
