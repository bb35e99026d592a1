/** One upload request (`upload_file`): the name check, then speech to
    text, intent detection and answer lookup, in that order. The uploaded
    file is absent (`None`) or present with a name; each oracle the
    request consults is a parameter. */
module Pipeline {
  import opened Wrappers
  import opened Text
  import opened Intents
  import opened KeywordClassifier
  import opened ModelClassifier
  import opened Answers
  import opened Uploads
  import opened Transcriber

  datatype Response =
    | NoFileSelected
    | UnsupportedFormat
    | Answered(recognizedText: string, intent: Intent, answer: string)

  function UploadFile(upload: Option<string>, primary: PrimaryOutcome, secondary: SecondaryOutcome,
                      conv: string -> string, reply: Option<string>, kbSource: KbSource): (resp: Response)
    ensures resp.NoFileSelected? <==> upload.None? || upload.value == ""
    ensures resp.UnsupportedFormat? <==> upload.Some? && upload.value != "" && !AllowedFile(upload.value)
    ensures resp.Answered? ==>
      && resp.recognizedText == SpeechToText(primary, secondary, conv)
      && resp.intent == DetectIntentLLM(resp.recognizedText, reply)
      && resp.answer == GetAnswer(Label(resp.intent), LoadQaData(kbSource))
  {
    match upload
    case None => NoFileSelected
    case Some(name) =>
      if name == "" then NoFileSelected
      else if !AllowedFile(name) then UnsupportedFormat
      else
        var text := SpeechToText(primary, secondary, conv);
        var intent := DetectIntentLLM(text, reply);
        Answered(text, intent, GetAnswer(Label(intent), LoadQaData(kbSource)))
  }

  /** A request that gets past the name check is always answered, with a
      stored answer or the apology; no engine failure surfaces as an
      error. */
  lemma AcceptedUploadIsAnswered(name: string, primary: PrimaryOutcome, secondary: SecondaryOutcome,
                                 conv: string -> string, reply: Option<string>, kbSource: KbSource)
    requires AllowedFile(name)
    ensures var resp := UploadFile(Some(name), primary, secondary, conv, reply, kbSource);
            resp.Answered? && (resp.answer in LoadQaData(kbSource).Values || resp.answer == Apology)
  {
    var resp := UploadFile(Some(name), primary, secondary, conv, reply, kbSource);
    assert name != "";
    AnswerIsStoredOrApology(Label(resp.intent), LoadQaData(kbSource));
  }
}
