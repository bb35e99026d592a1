/** End-to-end requests through the whole pipeline, one lemma per
    behaviour the service is expected to show. */
module Scenarios {
  import opened Wrappers
  import opened Text
  import opened Intents
  import opened KeywordClassifier
  import opened ModelClassifier
  import opened Answers
  import opened Uploads
  import opened Transcriber
  import opened Pipeline

  /** "你好" has no surrounding white space. */
  lemma StripNiHao()
    ensures Strip("你好") == "你好"
  {
    assert StrippedAt("你好", "你好", 0);
    StripUnique(Strip("你好"), "你好", "你好");
  }

  /** "你好" is a greeting for the keyword classifier. */
  lemma NiHaoIsGreeting()
    ensures DetectIntent("你好") == Greeting
  {
    var t := "你好";
    ExampleTextsUnmatched(t, Weather);
    ExampleTextsUnmatched(t, Time);
    LowerFixed(t);
    MentionedAt(t, Keywords(Greeting), "你好", 0);
    EarliestMentionWins(t, 2);
  }

  /** A greeting with no `greeting` entry in the knowledge base: the intent
      is still `greeting`, and the answer falls back to the `unknown`
      entry. */
  lemma GreetingWithoutEntry(name: string, conv: string -> string, data: map<string, string>)
    requires conv("你好") == "你好"
    requires "greeting" !in data && "unknown" in data
    requires AllowedFile(name)
    ensures UploadFile(Some(name), Transcribed("你好"), NoSpeech, conv, None, Decoded(data))
         == Answered("你好", Greeting, data["unknown"])
  {
    StripNiHao();
    NiHaoIsGreeting();
    var resp := UploadFile(Some(name), Transcribed("你好"), NoSpeech, conv, None, Decoded(data));
    assert resp.recognizedText == "你好";
    assert resp.intent == Greeting;
    assert Label(Greeting) == "greeting";
  }

  /** The no-speech sentinel mentions no keyword of any intent. */
  lemma NoSpeechUnmatched(t: string, i: Intent)
    requires t == NoSpeechText
    ensures !Mentions(t, Keywords(i))
  {
    if i == Weather || i == Time || i == Greeting || i == Music {
      NoSpeechUnmatchedBefore(t, i);
    } else {
      NoSpeechUnmatchedFrom(t, i);
    }
  }

  /** The intents ahead of `news` in the table. */
  lemma NoSpeechUnmatchedBefore(t: string, i: Intent)
    requires t == NoSpeechText
    requires i == Weather || i == Time || i == Greeting || i == Music
    ensures !Mentions(t, Keywords(i))
  {
    BlockedNotMentioned(t, Keywords(i));
  }

  /** `news` and the intents after it, and `unknown`. */
  lemma NoSpeechUnmatchedFrom(t: string, i: Intent)
    requires t == NoSpeechText
    requires i == News || i == Food || i == Travel || i == Unknown
    ensures !Mentions(t, Keywords(i))
  {
    BlockedNotMentioned(t, Keywords(i));
  }

  /** The no-speech sentinel mentions no keyword, so the keyword classifier
      calls it `unknown`. */
  lemma NoSpeechIsUnknown(t: string)
    requires t == NoSpeechText
    ensures DetectIntent(t) == Unknown
  {
    LowerFixed(t);
    assert Lower(t) == t;
    NoSpeechUnmatched(t, Weather);
    NoSpeechUnmatched(t, Time);
    NoSpeechUnmatched(t, Greeting);
    NoSpeechUnmatched(t, Music);
    NoSpeechUnmatched(t, News);
    NoSpeechUnmatched(t, Food);
    NoSpeechUnmatched(t, Travel);
    NothingMentionedIsUnknown(t);
  }

  /** No engine hears speech and the model call fails: the transcript is
      the no-speech sentinel, the keywords classify it as `unknown`, and
      the answer is the `unknown` entry. */
  lemma NoSpeechScenario(name: string, conv: string -> string, data: map<string, string>)
    requires "unknown" in data
    requires AllowedFile(name)
    ensures UploadFile(Some(name), PrimaryFailed, NoSpeech, conv, None, Decoded(data))
         == Answered(NoSpeechText, Unknown, data["unknown"])
  {
    NoSpeechFallsBackToUnknown(conv);
  }

  /** With the model call failing, the no-speech transcript is `unknown`. */
  lemma NoSpeechFallsBackToUnknown(conv: string -> string)
    ensures DetectIntentLLM(SpeechToText(PrimaryFailed, NoSpeech, conv), None) == Unknown
  {
    NoSpeechTranscriptIsUnknown(conv);
  }

  lemma NoSpeechTranscriptIsUnknown(conv: string -> string)
    ensures DetectIntent(SpeechToText(PrimaryFailed, NoSpeech, conv)) == Unknown
  {
    NoSpeechIsUnknown(SpeechToText(PrimaryFailed, NoSpeech, conv));
  }

  /** "FOOD" reads as the label `food`. */
  lemma NormalizeUpperFood()
    ensures Normalize("FOOD") == "food"
  {
    assert StrippedAt("FOOD", "FOOD", 0);
    StripUnique(Strip("FOOD"), "FOOD", "FOOD");
    assert Lower("FOOD") == "food";
  }

  /** The model answers "FOOD" in upper case: it is accepted as `food` and
      the `food` entry is returned, whatever the transcript says. */
  lemma UpperCaseModelReply(name: string, primary: PrimaryOutcome, secondary: SecondaryOutcome,
                            conv: string -> string, data: map<string, string>)
    requires "food" in data
    requires AllowedFile(name)
    ensures var resp := UploadFile(Some(name), primary, secondary, conv, Some("FOOD"), Decoded(data));
            resp.Answered? && resp.intent == Food && resp.answer == data["food"]
  {
    UpperCaseFoodReply(SpeechToText(primary, secondary, conv));
  }

  /** A reply of "FOOD" is accepted as `food` for any transcript. */
  lemma UpperCaseFoodReply(text: string)
    ensures DetectIntentLLM(text, Some("FOOD")) == Food
  {
    NormalizeUpperFood();
  }

  /** The model answers with a label outside the list: the intent is the
      keyword classifier's verdict on the transcript. */
  lemma OutOfListModelReply(name: string, primary: PrimaryOutcome, secondary: SecondaryOutcome,
                            conv: string -> string, kbSource: KbSource)
    requires AllowedFile(name)
    ensures var resp := UploadFile(Some(name), primary, secondary, conv, Some("shopping"), kbSource);
            resp.Answered? && resp.intent == DetectIntent(resp.recognizedText)
  {
    var text := SpeechToText(primary, secondary, conv);
    OutOfListReply(text);
    var resp := UploadFile(Some(name), primary, secondary, conv, Some("shopping"), kbSource);
    assert resp.recognizedText == text;
  }

  /** An error sentinel is classified like any transcript, so a cause that
      happens to contain a keyword turns a failure into an intent: a
      processing error whose cause mentions "天气" becomes `weather`. */
  lemma SentinelCanCarryIntent(name: string, conv: string -> string, kbSource: KbSource)
    requires AllowedFile(name)
    ensures var resp := UploadFile(Some(name), PrimaryFailed, OtherFailure("天气"), conv, None, kbSource);
            resp.Answered? && resp.intent == Weather
  {
    var t := ProcessingErrorPrefix + "天气";
    ErrorMentionsWeather(t);
    var resp := UploadFile(Some(name), PrimaryFailed, OtherFailure("天气"), conv, None, kbSource);
    assert resp.recognizedText == t;
  }

  /** A processing error caused by "天气" mentions a weather keyword. */
  lemma ErrorMentionsWeather(t: string)
    requires t == ProcessingErrorPrefix + "天气"
    ensures DetectIntent(t) == Weather
  {
    LowerFixed(t);
    assert t[|ProcessingErrorPrefix|..|ProcessingErrorPrefix| + 2] == "天气";
    MentionedAt(t, Keywords(Weather), "天气", |ProcessingErrorPrefix|);
    EarliestMentionWins(t, 0);
  }
}
