/** What a run of the translation handler guarantees, stated over all
    events, configurations and service behaviours. */
module PipelineProperties {
  import opened Wrappers
  import opened Js
  import opened Requests
  import opened Extraction
  import opened Pipeline

  function Last(trace: seq<Call>): Call
    requires |trace| > 0
  {
    trace[|trace| - 1]
  }

  /** The call is the PDF render and its `end` event never fires. */
  predicate Hangs(svc: Services, c: Call) {
    c.RenderCall? && svc.render(c.text).NeverEnds?
  }

  /** Status 200 exactly when all five stages ran and every one of them
      returned something the handler could carry on with. */
  lemma SuccessIff(e: Event, config: Config, svc: Services)
    ensures var x := Run(e, config, svc);
            x.outcome == Responded(SuccessResponse)
            <==> |x.trace| == |StageOrder| && forall i :: 0 <= i < |x.trace| ==> Proceeds(svc, x.trace[i])
  {
    var x := Run(e, config, svc);
    if |x.trace| == |StageOrder| && forall i :: 0 <= i < |x.trace| ==> Proceeds(svc, x.trace[i]) {
      assert Proceeds(svc, x.trace[4]);
    }
  }

  /** Status 500 exactly when the last call made failed in a way the
      handler observes (a rejection, absent `Blocks`, a throwing render, a
      render that ends with an empty buffer);
      that failing call is the last one, so no later stage was invoked. */
  lemma ErrorIff(e: Event, config: Config, svc: Services)
    ensures var x := Run(e, config, svc);
            x.outcome == Responded(ErrorResponse)
            <==> |x.trace| > 0 && !Proceeds(svc, Last(x.trace)) && !Hangs(svc, Last(x.trace))
  {
  }

  /** The handler never returns exactly when the render was reached and its
      `end` event never fires. */
  lemma PendingIff(e: Event, config: Config, svc: Services)
    ensures var x := Run(e, config, svc);
            x.outcome == Pending <==> |x.trace| > 0 && Hangs(svc, Last(x.trace))
  {
  }

  /** The handler escapes before the `try` exactly when the event has no
      first record, or that record lacks `s3`, `s3.bucket` or `s3.object`;
      then no service is called. Otherwise the object get is reached. */
  lemma EscapedIff(e: Event, config: Config, svc: Services)
    ensures var x := Run(e, config, svc);
            (x.outcome == Escaped
             <==> |e.records| == 0 || e.records[0].s3.None?
                  || e.records[0].s3.value.bucketName.None?
                  || e.records[0].s3.value.objectKey.None?)
            && (x.outcome == Escaped <==> x.trace == [])
  {
  }

  /** A call that fails is the last call made: every stage after a failing
      one is skipped, and the run does not succeed. */
  lemma NothingAfterFailure(e: Event, config: Config, svc: Services, i: int)
    requires var x := Run(e, config, svc);
             0 <= i < |x.trace| && !Proceeds(svc, x.trace[i])
    ensures var x := Run(e, config, svc);
            i == |x.trace| - 1 && x.outcome != Responded(SuccessResponse)
  {
  }

  function PutCount(trace: seq<Call>): nat {
    if |trace| == 0 then 0
    else (if trace[0].PutObjectCall? then 1 else 0) + PutCount(trace[1..])
  }

  lemma {:induction false} PutCountOfStages(trace: seq<Call>, k: nat)
    requires k <= |StageOrder| && StagesOf(trace) == StageOrder[..k]
    ensures PutCount(trace) == (if k == |StageOrder| then 1 else 0)
  {
    assert |trace| == k;
    if k == 0 {
    } else {
      var init := trace[..k - 1];
      assert StagesOf(init) == StageOrder[..k - 1] by {
        assert forall i :: 0 <= i < k - 1 ==> StagesOf(init)[i] == StagesOf(trace)[i];
      }
      PutCountOfStages(init, k - 1);
      assert trace == init + [trace[k - 1]];
      PutCountAppend(init, [trace[k - 1]]);
      assert StageOf(trace[k - 1]) == StageOrder[k - 1];
      assert [trace[k - 1]][1..] == [];
    }
  }

  lemma {:induction false} PutCountAppend(a: seq<Call>, b: seq<Call>)
    ensures PutCount(a + b) == PutCount(a) + PutCount(b)
  {
    if |a| == 0 {
      assert a + b == b;
    } else {
      assert (a + b)[1..] == a[1..] + b;
      PutCountAppend(a[1..], b);
    }
  }

  /** Every run uploads at most once, and a successful run uploads exactly
      once, as its final call. */
  lemma SinglePut(e: Event, config: Config, svc: Services)
    ensures var x := Run(e, config, svc);
            PutCount(x.trace) <= 1
            && (x.outcome == Responded(SuccessResponse) ==>
                  PutCount(x.trace) == 1 && Last(x.trace).PutObjectCall?
                  && svc.putObject(Last(x.trace).upload).Ok?)
  {
    var x := Run(e, config, svc);
    PutCountOfStages(x.trace, |x.trace|);
    SuccessIff(e, config, svc);
    if x.outcome == Responded(SuccessResponse) {
      assert StageOf(x.trace[4]) == PutObject;
      assert Proceeds(svc, x.trace[4]);
    }
  }

  /** Each stage is fed the previous stage's result: the get reads the
      event's bucket and raw key; detection gets the object's bytes; the
      translation asks for `auto` to `en` on the extracted text (empty or
      not); the render gets the translation; the upload puts the rendered
      bytes under `translated-<key>` in the configured bucket as a PDF. */
  lemma DataFlow(e: Event, config: Config, svc: Services)
    ensures var x := Run(e, config, svc);
            var t := x.trace;
            && (|t| >= 1 ==> ReadTarget(e).Some? && t[0] == GetObjectCall(ReadTarget(e).value.0, ReadTarget(e).value.1))
            && (|t| >= 2 ==> t[1] == DetectTextCall(svc.getObject(t[0].bucket, t[0].key).value))
            && (|t| >= 3 ==> t[2] == TranslateTextCall(TranslateRequest("auto", "en",
                                ExtractedText(svc.detectText(t[1].document).value.blocks.value))))
            && (|t| >= 4 ==> t[3] == RenderCall(svc.translateText(t[2].params).value))
            && (|t| >= 5 ==> |svc.render(t[3].text).pdf| > 0)
            && (|t| >= 5 ==> t[4] == PutObjectCall(PutRequest(config.translationBucket,
                                "translated-" + Display(ReadTarget(e).value.1),
                                svc.render(t[3].text).pdf, "application/pdf")))
  {
  }

  /** No LINE blocks is not an error: the empty text goes to translation. */
  lemma EmptyTextIsTranslated(e: Event, config: Config, svc: Services)
    requires var x := Run(e, config, svc);
             |x.trace| >= 2 && Proceeds(svc, x.trace[1])
    requires var x := Run(e, config, svc);
             var blocks := svc.detectText(x.trace[1].document).value.blocks.value;
             forall i :: 0 <= i < |blocks| ==> !IsLine(blocks[i])
    ensures var x := Run(e, config, svc);
            |x.trace| >= 3 && x.trace[2] == TranslateTextCall(TranslateRequest("auto", "en", ""))
  {
    var x := Run(e, config, svc);
    DataFlow(e, config, svc);
    ExtractedTextEmptyIff(svc.detectText(x.trace[1].document).value.blocks.value);
  }

  /** Records after the first are never looked at. */
  lemma OnlyFirstRecord(r: Record, rest: seq<Record>, config: Config, svc: Services)
    ensures Run(Event([r] + rest), config, svc) == Run(Event([r]), config, svc)
  {
  }

  /** The two service bundles answer the call alike. */
  predicate SameAnswer(svc: Services, svc': Services, c: Call) {
    match c
    case GetObjectCall(b, k) => svc.getObject(b, k) == svc'.getObject(b, k)
    case DetectTextCall(d) => svc.detectText(d) == svc'.detectText(d)
    case TranslateTextCall(r) => svc.translateText(r) == svc'.translateText(r)
    case RenderCall(t) => svc.render(t) == svc'.render(t)
    case PutObjectCall(r) => svc.putObject(r) == svc'.putObject(r)
  }

  /** A run consults the services only through the calls in its trace: any
      other services that answer those calls alike give the same run. In
      particular, the oracle of a stage after a failure is never used. */
  lemma OnlyTracedCallsMatter(e: Event, config: Config, svc: Services, svc': Services)
    requires var t := Run(e, config, svc).trace;
             forall i :: 0 <= i < |t| ==> SameAnswer(svc, svc', t[i])
    ensures Run(e, config, svc') == Run(e, config, svc)
  {
    var t := Run(e, config, svc).trace;
    if |t| >= 1 { assert SameAnswer(svc, svc', t[0]); }
    if |t| >= 2 { assert SameAnswer(svc, svc', t[1]); }
    if |t| >= 3 { assert SameAnswer(svc, svc', t[2]); }
    if |t| >= 4 { assert SameAnswer(svc, svc', t[3]); }
    if |t| >= 5 { assert SameAnswer(svc, svc', t[4]); }
  }

  /** A document whose text detection is rejected: the run ends with status
      500 after exactly the get and the detection. */
  lemma DetectionFailureStopsRun(e: Event, config: Config, svc: Services)
    requires ReadTarget(e).Some?
    requires svc.getObject(ReadTarget(e).value.0, ReadTarget(e).value.1).Ok?
    requires svc.detectText(svc.getObject(ReadTarget(e).value.0, ReadTarget(e).value.1).value).Err?
    ensures Run(e, config, svc).outcome == Responded(ErrorResponse)
    ensures StagesOf(Run(e, config, svc).trace) == [GetObject, DetectText]
  {
  }

  /** A render that ends with an empty buffer is a failure: nothing is
      uploaded and the run answers 500. */
  lemma EmptyRenderIsNotUploaded(e: Event, config: Config, svc: Services)
    requires var x := Run(e, config, svc);
             |x.trace| >= 4 && svc.render(x.trace[3].text) == Ended([])
    ensures var x := Run(e, config, svc);
            x.outcome == Responded(ErrorResponse) && |x.trace| == 4 && PutCount(x.trace) == 0
  {
    SinglePut(e, config, svc);
    PutCountOfStages(Run(e, config, svc).trace, 4);
  }

  const ScenarioKey: string := "case-0012345-Spanish-English.pdf"

  function ScenarioEvent(): Event {
    Event([Record(Some(S3Entity(Some(Str("uploads")), Some(Str(ScenarioKey)))))])
  }

  /** Every service succeeds; detection finds the lines "Hola" and "Mundo"
      (plus a page block) and translation answers "Hello World". */
  function ScenarioServices(): Services {
    Services(
      (b, k) => Ok([1, 2, 3]),
      d => Ok(DetectResponse(Some([Block("PAGE", Undefined), Block("LINE", Str("Hola")), Block("LINE", Str("Mundo"))]))),
      r => Ok("Hello World"),
      t => Ended([37, 80, 68, 70]),
      r => Ok(()))
  }

  /** The end-to-end run: status 200, the lines joined as "Hola\nMundo\n"
      are translated, and the PDF is stored under the prefixed raw key. */
  lemma Scenario(config: Config)
    ensures var x := Run(ScenarioEvent(), config, ScenarioServices());
            && x.outcome == Responded(SuccessResponse)
            && |x.trace| == 5
            && x.trace[2].params.text == "Hola\nMundo\n"
            && x.trace[3].text == "Hello World"
            && x.trace[4].upload.key == "translated-" + ScenarioKey
  {
  }
}
