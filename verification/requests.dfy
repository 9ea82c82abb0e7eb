/** The parameter objects the translation handler builds for the services
    it calls, and the two responses it can return. */
module Requests {
  import opened Wrappers
  import opened Js

  newtype byte = x: int | 0 <= x < 256
  type Bytes = seq<byte>

  /** `translateText` parameters. */
  datatype TranslateRequest = TranslateRequest(sourceLanguageCode: string, targetLanguageCode: string, text: string)

  /** The source language is left to the service to detect; the target is
      fixed to English. */
  const AutoDetect: string := "auto"
  const English: string := "en"

  function TranslateParams(text: string): TranslateRequest {
    TranslateRequest(AutoDetect, English, text)
  }

  /** `putObject` parameters. */
  datatype PutRequest = PutRequest(bucket: Value, key: string, body: Bytes, contentType: string)

  const TranslatedPrefix: string := "translated-"
  const PdfContentType: string := "application/pdf"

  /** The key of the translated copy: the template literal
      `translated-${fileName}` over the event's key, used as is. */
  function TranslatedKey(fileName: Value): string {
    TranslatedPrefix + Display(fileName)
  }

  /** The upload always goes to the configured bucket and is always tagged
      as a PDF, whatever the format of the uploaded original. */
  function UploadParams(translationBucket: Value, fileName: Value, body: Bytes): PutRequest {
    PutRequest(translationBucket, TranslatedKey(fileName), body, PdfContentType)
  }

  /** The translated key keeps the original key intact after the marker,
      so the original can be read back from it. */
  lemma TranslatedKeyRecoversFileName(fileName: Value)
    ensures |TranslatedKey(fileName)| == |TranslatedPrefix| + |Display(fileName)|
    ensures TranslatedKey(fileName)[..|TranslatedPrefix|] == TranslatedPrefix
    ensures TranslatedKey(fileName)[|TranslatedPrefix|..] == Display(fileName)
  {
  }

  /** Two distinct string keys never share a translated key. */
  lemma TranslatedKeyInjective(a: string, b: string)
    requires TranslatedKey(Str(a)) == TranslatedKey(Str(b))
    ensures a == b
  {
    TranslatedKeyRecoversFileName(Str(a));
    TranslatedKeyRecoversFileName(Str(b));
  }

  /** The handler's return value. */
  datatype Response = Response(statusCode: int, body: string)

  const SuccessMessage: string := "File processed successfully"
  const ErrorMessage: string := "Error processing file"

  /** The bodies are `JSON.stringify` of the message, written out (see
      `SuccessBody` and `ErrorBody`). */
  const SuccessResponse: Response := Response(200, "\"File processed successfully\"")
  const ErrorResponse: Response := Response(500, "\"Error processing file\"")

  /** A message with no character to escape is sent as itself between
      double quotes, and reading that body as JSON gives the message back. */
  lemma PlainBody(message: string, body: string)
    requires forall i :: 0 <= i < |message| ==> Plain(message[i])
    requires body == "\"" + message + "\""
    ensures body == JsonString(message)
    ensures JsonStringValue(body) == Some(message)
  {
    EscapePlain(message);
    JsonStringRoundTrip(message);
  }

  /** Each response body is `JSON.stringify` of its message, and reads back
      as that message. */
  lemma SuccessBody()
    ensures SuccessResponse.body == JsonString(SuccessMessage)
    ensures JsonStringValue(SuccessResponse.body) == Some(SuccessMessage)
  {
    assert forall i :: 0 <= i < |SuccessMessage| ==> Plain(SuccessMessage[i]);
    PlainBody(SuccessMessage, SuccessResponse.body);
  }

  lemma ErrorBody()
    ensures ErrorResponse.body == JsonString(ErrorMessage)
    ensures JsonStringValue(ErrorResponse.body) == Some(ErrorMessage)
  {
    assert forall i :: 0 <= i < |ErrorMessage| ==> Plain(ErrorMessage[i]);
    PlainBody(ErrorMessage, ErrorResponse.body);
  }
}
