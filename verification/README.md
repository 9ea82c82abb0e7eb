# Translation handler model

A Dafny model of the `getTranslation` handler, the storage-triggered function
that turns an uploaded document into an English PDF. On each storage-write
event it:

1. reads the bucket and key of the first event record;
2. fetches the object;
3. runs text detection (OCR) on the bytes;
4. folds the detected blocks into one text;
5. translates that text from an auto-detected language to `en`;
6. renders the translation as a PDF;
7. stores the PDF under `translated-<key>` in the configured translation bucket.

Status 200 comes back only when every step succeeds. Any failure inside the
`try` gives status 500.

The model is functional:

- `Extraction` defines the block fold twice. `ExtractedText` is the
  reference filter/map/concat. `ExtractText` is the handler's loop as
  written, and it is proved equal to `ExtractedText`.
- `Requests` builds the translate and upload parameters and the two
  responses.
- `Pipeline.Run` is a pure function from an event, the configuration and
  the service oracles to an `Execution`. An `Execution` is the outcome plus
  the trace of calls made, with their arguments.

Each external service is a field of `Services`: a total function from
request to outcome. That makes statements over all service behaviours
possible.

There are three outcomes besides a response:

- `Escaped`: reading the event throws before the `try`.
- `Pending`: the PDF `end` event never fires, so the awaited promise never
  settles.
- `Responded(r)`: the handler returns `r`.

A few JavaScript value details are modelled because the handler depends on
them. The `Js.Value` type is either a string or `undefined`:

- `undefined + '\n'` gives `"undefined\n"`.
- `` `translated-${undefined}` `` gives `"translated-undefined"`.
- The response bodies are `JSON.stringify` of a string, so they include
  the double quotes.

## Model

| member | source | states |
|---|---|---|
| Extraction.ExtractText | getTranslation/handler.js:32-37 | The accumulating `forEach` loop computes exactly the reference text: the concatenation of `Text + "\n"` over the LINE blocks, in input order |
| Extraction.ExtractedTextAppend | getTranslation/handler.js:33-36 | The text of a concatenation of block lists is the concatenation of their texts, so input order is kept |
| Extraction.NonLineContributesNothing | getTranslation/handler.js:34-36 | Inserting a block whose type is not `LINE` anywhere in the list leaves the text unchanged |
| Extraction.LineTextsExact | getTranslation/handler.js:32-37 | The LINE block at index i supplies line number k, where k counts the LINE blocks before i. Together with the contract of `LineTexts` (one text per LINE block), the lines are exactly the LINE texts, in order |
| Extraction.ExtractedTextLength | getTranslation/handler.js:35 | The text's length is the sum of (length of the text + 1) over the LINE blocks |
| Extraction.ExtractedTextEmptyIff | getTranslation/handler.js:32-37 | The text is empty if and only if no block is a LINE block |
| Extraction.ExtractedTextRoundTrip | getTranslation/handler.js:32-37 | When no line text contains a line break, splitting the text at line breaks gives back exactly the LINE texts, so the fold loses nothing |
| Extraction.ExampleThreeBlocks | getTranslation/handler.js:32-37 | LINE "A", a non-LINE block, LINE "B" give "A\nB\n" |
| Requests.TranslatedKeyRecoversFileName | getTranslation/handler.js:72 | The upload key is the `translated-` marker followed by the unmodified event key |
| Requests.TranslatedKeyInjective | getTranslation/handler.js:72 | Distinct string event keys give distinct upload keys |
| Js.JsonStringRoundTrip | getTranslation/handler.js:81-87 | `JSON.stringify` of any string escapes quotes, backslashes and control characters. Reading the result back as a JSON string literal gives the original string |
| Requests.SuccessBody | getTranslation/handler.js:79-82 | The 200 body is `JSON.stringify("File processed successfully")` and reads back as that message |
| Requests.ErrorBody | getTranslation/handler.js:85-88 | The 500 body is `JSON.stringify("Error processing file")` and reads back as that message |
| Pipeline.Run | getTranslation/handler.js:8-90 | Calls are always a prefix of get, detect, translate, render, put. Every call except the last returned a usable result. Any response is either the 200 or the 500 response |
| PipelineProperties.SuccessIff | getTranslation/handler.js:77-82 | Status 200 if and only if all five calls were made and every one returned a usable result |
| PipelineProperties.ErrorIff | getTranslation/handler.js:83-88 | Status 500 if and only if the last call made failed in a way the handler sees: a rejection, missing `Blocks`, a render that throws, or a render that ends with an empty buffer |
| PipelineProperties.PendingIff | getTranslation/handler.js:64-66 | The handler never returns if and only if the render was reached and its `end` event never fires |
| PipelineProperties.EscapedIff | getTranslation/handler.js:10-14 | The handler throws before the `try` if and only if the event has no first record, or that record lacks `s3`, `s3.bucket` or `s3.object`. In that case no service is called, and in every other case the object get is made |
| PipelineProperties.NothingAfterFailure | getTranslation/handler.js:14-29 | A failing call is always the last call made, and the run then does not succeed |
| PipelineProperties.SinglePut | getTranslation/handler.js:70-82 | A run makes at most one upload. A successful run makes exactly one, as its final call, and that upload succeeded |
| PipelineProperties.DataFlow | getTranslation/handler.js:17-75 | Each call takes the previous stage's result. Get uses the event's bucket and raw key. Detection gets the object bytes. Translation asks for `auto` to `en` on the extracted text. Render gets the translation. The upload is made only with a non-empty rendered buffer, and it puts those bytes in the configured bucket under `translated-<key>` as `application/pdf` |
| PipelineProperties.EmptyTextIsTranslated | getTranslation/handler.js:32-47 | When detection finds no LINE block, the empty text is still sent to translation; it is not an error |
| PipelineProperties.OnlyFirstRecord | getTranslation/handler.js:10-11 | Records after the first do not affect the run |
| PipelineProperties.OnlyTracedCallsMatter | getTranslation/handler.js:14-88 | Any services that answer the traced calls the same way give the same run, so a stage's oracle after a failure is never consulted |
| PipelineProperties.EmptyRenderIsNotUploaded | getTranslation/handler.js:70-77 | A render that ends with an empty buffer makes no upload, and the run answers 500 |
| PipelineProperties.DetectionFailureStopsRun | getTranslation/handler.js:29 | A rejected text detection gives status 500 after exactly the get and the detect calls |
| PipelineProperties.Scenario | getTranslation/handler.js:8-82 | End to end: detected lines "Hola" and "Mundo" are sent to translation as "Hola\nMundo\n". The translation "Hello World" is rendered, the PDF is stored under `translated-case-0012345-Spanish-English.pdf`, and the run returns 200 |

## Left out

- getFileFromSalesforce/handler.js: the intake function only decodes a payload and writes it to storage, with no logic of its own.
- Key parsing into case id and language names, a language-name table, and delivery or linking into a CRM platform are not modelled. The handler has none of them: it uses the raw key, detects the source language automatically, hard-codes the target `en`, and stops after the storage put.
- Error kinds are not distinguished. The handler's `catch` maps every failure to the same 500 response, so the model does too.
- The storage, text-detection and translation clients are modelled only as oracles returning a value or a rejection. Request validation, retries and network behaviour belong to those services.
- PDF rendering and the stream buffer (`pdfkit`, `stream-buffers`, including the 100 KiB initial size and 10 KiB growth) are one oracle `render: text -> Ended(bytes) | Threw | NeverEnds`. `Threw` is a synchronous throw from the document calls, before the await. `Ended` and `NeverEnds` are the two ways the awaited `end` event can turn out: it fires, or the promise stays pending. Layout and the bytes produced are not modelled. `getContents()` on a buffer nothing was written to gives `false`, and an upload with that body is refused as an invalid parameter before it is sent. The model therefore treats an empty buffer as a render failure: 500, with no upload call in the trace.
- `console.log`/`console.error` output is not modelled: it has no effect on the result.
- `process.env.TRANSLATION_BUCKET_NAME` is a `Config` parameter that may be `undefined`.
- The event key is used as delivered. Storage notifications URL-encode keys, and the handler does not decode them, so neither does the model.
- `BlockType` is modelled as a string. A missing `BlockType` compares unequal to `'LINE'` just as a different string does.
- `JSON.stringify` also writes lone surrogate code units as `\uXXXX`. Strings here are sequences of Unicode scalar values, which have no lone surrogates, so that case does not arise. For the same reason the JSON reader rejects a `\u` escape of a surrogate half instead of joining pairs.
- Requests.TranslatedKeyInjective: covers string keys only. An `undefined` key and the key `"undefined"` both give `translated-undefined`, exactly as the template literal `` `translated-${fileName}` `` does.
