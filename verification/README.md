# Voice chat bot core, modelled in Dafny

The service takes a short voice recording and turns it into text. It
classifies the speaker's intent into one of eight labels and answers with a
canned reply from a knowledge base. This project models the decision logic
of `app.py`:

- **Transcriber** (`speech_to_text`) tries a primary speech engine first.
  When that fails it tries a secondary recognition service. It returns
  either converted text or a sentinel: a fixed no-speech text, or one of
  two fixed prefixes followed by the cause of the failure.
- **Keyword classifier** (`detect_intent`) lower-cases the text. It then
  walks a fixed, ordered table of seven intents and returns the first intent
  that has a keyword in the text. If none does, it returns `unknown`.
- **Model classifier** (`detect_intent_LLM`) strips and lower-cases the
  language model's reply. It accepts the reply only if it is one of the
  eight labels. Otherwise, and when the call fails, it falls back to the
  keyword classifier on the same text.
- **Answer resolver** (`get_answer`) looks up the intent's entry, then the
  `unknown` entry, then falls back to a fixed apology. It is paired with the
  knowledge-base loader (`load_qa_data`), which substitutes a one-entry
  mapping when the file is missing or malformed.
- **Upload gate** (`allowed_file`) checks the text after the last dot of the
  file name, lower-cased, against {wav, mp3, flac, m4a}.
- **Request** (`upload_file`) chains these steps: name check, speech to
  text, intent, then answer.

The foreign collaborators are inputs:

- The primary engine's outcome is a `PrimaryOutcome`.
- The secondary service's outcome is a `SecondaryOutcome`, with its three
  failure kinds.
- The language model's reply is an `Option<string>`. `None` means the call
  raised.
- The traditional-to-simplified converter is a function parameter
  `conv: string -> string`, about which nothing is assumed.
- The knowledge-base file's read outcome is a `KbSource`.

Modules, one per component:

- `Wrappers` (wrappers.dfy): `Option`.
- `Text` (text.dfy): Python's `str.strip()` with the exact `str.isspace()`
  character set, ASCII lower-casing, and substring occurrence.
- `Intents` (intents.dfy): the label datatype and the category list.
- `KeywordClassifier`, `ModelClassifier`, `Answers`, `Uploads`,
  `Transcriber` and `Pipeline`: the components above.
- `Scenarios` (scenarios.dfy): end-to-end requests.

Behaviour of `app.py` the model keeps:

- Sentinel texts are returned unconverted (app.py:98-103). Only real
  transcripts pass through the script converter.
- Sentinel texts then go through intent classification like any transcript.
  `Scenarios.SentinelCanCarryIntent` shows an error text turning into an
  intent.
- Nothing guarantees an `unknown` entry in a decoded knowledge base. Without
  one, a missing intent is answered with the apology.
- A reply whose content is missing, which makes `.strip()` raise, counts as
  a failed call (`None`).

## Model

| member | source | states |
|---|---|---|
| Text.Strip | app.py:79 | The result is what `str.strip()` yields. It is a contiguous slice of the input, everything cut off on either side is white space in Python's sense, and the slice neither starts nor ends with white space. |
| Text.StripUnique | app.py:79 | Exactly one string satisfies that characterisation, so it pins down the stripped text. |
| Text.StripIdempotent | app.py:167 | Stripping an already stripped reply changes nothing. |
| Text.Lower | app.py:184 | Each ASCII capital A–Z becomes its small letter; every other character is unchanged, and the length is kept. |
| Text.LowerSpec | app.py:184 | After lower-casing, no ASCII capital remains. Every other character stays in place, and each capital moves by 32 code points to its small letter. |
| Text.LowerIdempotent | app.py:184 | Lower-casing twice equals lower-casing once. |
| Text.Contains | app.py:200 | `keyword in text` holds exactly when some slice of the text equals the keyword. |
| Text.AbsentCharBlocks | app.py:200 | A keyword containing a character the text lacks does not occur in it. |
| Intents.Parse | app.py:109-111 | A string is accepted exactly when it is one of the eight category labels, and it then reads back as the intent with that label. |
| Intents.LabelRoundTrip | app.py:109-111 | Every intent's label is in the category list and parses back to that intent. |
| Intents.LabelInjective | app.py:109-111 | Distinct intents have distinct labels. |
| KeywordClassifier.AnyKeyword | app.py:199-201 | The inner loop finds a match exactly when some keyword of the list occurs in the text. |
| KeywordClassifier.FirstMatch | app.py:198-203 | The outer loop yields `unknown` exactly when no position of the order is mentioned. Otherwise it yields the intent at the first mentioned position. |
| KeywordClassifier.DetectIntent | app.py:183-203 | On the lower-cased text, the result is `unknown` exactly when no keyword of any of the seven intents occurs. Otherwise it is the first intent in the order weather, time, greeting, music, news, food, travel that has a keyword present. |
| KeywordClassifier.EarliestMentionWins | app.py:187-201 | Conversely, the earliest intent in that order with a keyword present is the one returned. |
| KeywordClassifier.NothingMentionedIsUnknown | app.py:198-203 | If no intent's keywords occur in the lower-cased text, the result is `unknown`. |
| KeywordClassifier.BlockedNotMentioned | app.py:198-201 | A keyword list whose every keyword has a first or last character missing from the text is not matched. |
| KeywordClassifier.WeatherOutranksGreeting | app.py:187-201 | "你好天气" contains both a greeting and a weather keyword and yields `weather`. |
| KeywordClassifier.TimeOutranksFood | app.py:187-201 | "现在吃什么" contains a food keyword, yet yields `time`. |
| KeywordClassifier.UpperCaseGreeting | app.py:184-190 | "HELLO" yields `greeting` because the text is lower-cased first. |
| ModelClassifier.DetectIntentLLM | app.py:106-180 | If the stripped, lower-cased reply is one of the categories, the result's label is exactly that reply. If the reply is outside the list, or the call failed, the result is the keyword classifier's answer on the same text. |
| ModelClassifier.ModelOrKeywords | app.py:167-180 | Every result is either the intent the model's reply names or the keyword classifier's verdict. |
| ModelClassifier.PaddedUpperCaseReply | app.py:167-171 | A reply of " FOOD\n" is accepted as `food`. |
| ModelClassifier.OutOfListReply | app.py:172-175 | A reply of "shopping" falls back to the keyword classifier on the same text. |
| ModelClassifier.ModelOverridesKeywords | app.py:167-171 | An accepted reply wins over the keyword table: "你好天气" is `weather` by keywords but `greeting` when the model says so. |
| Answers.GetAnswer | app.py:206-207 | The intent's entry if present, else the `unknown` entry if present, else the fixed apology. |
| Answers.AnswerIsStoredOrApology | app.py:206-207 | Every answer is a stored value or the apology. Lookup never fails. |
| Answers.EmptyKnowledgeBase | app.py:207 | An empty knowledge base answers every intent with the apology. |
| Answers.OnlyUnknownEntry | app.py:207 | A knowledge base holding only `{unknown: X}` answers every intent with X. |
| Answers.LoadQaData | app.py:50-57 | A decoded file is used as is. A missing file or invalid JSON gives a mapping whose only key is `unknown`, holding the matching failure message. |
| Answers.FailedLoadAnswer | app.py:54-57 | After a failed load, every intent is answered with the load-failure message, never with the apology. |
| Uploads.LastDot | app.py:61 | None exactly when the name has no dot. Otherwise the index of a dot after which no dot follows. |
| Uploads.Extension | app.py:61 | The suffix `rsplit('.', 1)[1]` exists exactly when the name has a dot. It contains no dot and is the text after the last dot. |
| Uploads.AllowedFile | app.py:60-61 | A name is accepted exactly when it has a last dot and the text after it, lower-cased, is one of wav, mp3, flac, m4a. |
| Uploads.LastDotUnique | app.py:61 | A name has at most one last dot. |
| Uploads.ExtensionRoundTrip | app.py:61 | For base + "." + ext with a dot-free ext, the suffix is ext, whatever dots the base holds. |
| Uploads.AllowedIffExtensionAllowed | app.py:22 | base + "." + ext is accepted exactly when ext, lower-cased, is an allowed format. |
| Uploads.UpperCaseLastSuffixAccepted | app.py:60-61 | "a.tar.WAV" is accepted. |
| Uploads.NoDotRejected | app.py:60-61 | "wav" is rejected because it has no dot. |
| Uploads.BareExtensionAccepted | app.py:60-61 | ".mp3" is accepted, since the part before the dot may be empty. |
| Uploads.EmptySuffixRejected | app.py:60-61 | "x." is rejected because its suffix is empty. |
| Uploads.EarlierSuffixIgnored | app.py:60-61 | "song.wav.txt" is rejected, because only the last suffix counts. |
| Transcriber.SpeechToText | app.py:74-103 | Total case analysis over the engine outcomes. A primary transcript gives conv(strip(text)). After a primary failure, a secondary transcript gives conv(text). No speech gives "无法识别语音内容". A request error gives "语音识别服务错误: " + cause. Any other failure gives "处理音频文件时出错: " + cause. |
| Transcriber.PrimaryShortCircuits | app.py:75-82 | Once the primary engine succeeds, the secondary outcome makes no difference. |
| Transcriber.SentinelsBypassConverter | app.py:98-103 | Sentinel texts do not pass through the converter: any two converters give the same text. |
| Transcriber.SentinelKindsDisjoint | app.py:98-103 | The three sentinel kinds never coincide, whatever the causes. |
| Transcriber.ResultShapes | app.py:74-103 | Every result is an image of the converter, the no-speech text, or one of the two error prefixes followed by text. |
| Pipeline.UploadFile | app.py:213-256 | A missing or empty file name gives "no file selected". A name failing the extension check gives "unsupported format". Otherwise the response carries the transcript, the model classifier's intent on that transcript, and the answer for that intent's label from the loaded knowledge base. |
| Pipeline.AcceptedUploadIsAnswered | app.py:222-248 | Every request with an accepted name is answered, with a stored answer or the apology. No engine failure surfaces as an error. |
| Scenarios.NiHaoIsGreeting | app.py:190 | "你好" is a greeting for the keyword classifier. |
| Scenarios.GreetingWithoutEntry | app.py:229-238 | With a failed model call, the transcript "你好" with no `greeting` entry gives intent `greeting` and the `unknown` entry's answer. |
| Scenarios.NoSpeechIsUnknown | app.py:183-203 | The keyword classifier reads the no-speech sentinel as `unknown`. |
| Scenarios.NoSpeechScenario | app.py:229-238 | Primary failure, then no speech, then a failed model call: the transcript is the sentinel, the intent is `unknown`, and the answer is the `unknown` entry. |
| Scenarios.UpperCaseModelReply | app.py:229-238 | A model reply of "FOOD" gives intent `food` and the `food` entry, whatever was transcribed. |
| Scenarios.OutOfListModelReply | app.py:229-238 | A model reply of "shopping" gives the keyword classifier's intent for the transcript. |
| Scenarios.SentinelCanCarryIntent | app.py:229-234 | Error sentinels are classified like real transcripts: with a failed model call, a processing error whose cause is "天气" comes out as `weather`. |

## Left out

- Text.Lower: lower-cases only ASCII `A`–`Z`, whereas Python's `str.lower()`
  applies full Unicode case mapping. Every keyword and category label is
  lower-case ASCII or CJK, so only Latin input such as "HELLO" is affected.
  Non-ASCII capitals are not modelled.
- The converter `cc.convert` (OpenCC, traditional to simplified) is an
  arbitrary function parameter. The model claims no idempotence for it,
  because the code promises none. It is also modelled as never raising. In
  the source, a raise inside the primary path would move on to the secondary
  service, and a raise inside the secondary path would become the "other
  failure" sentinel.
- Whisper, Google speech recognition and the OpenAI chat call, including the
  prompt text, model name, token limit and temperature (app.py:133-164), are
  foreign services. Only their outcomes enter the model.
- The lazily loaded Whisper model and its global handle (app.py:33,
  app.py:41-47) are left out. A failed load is just a primary failure. The
  code has no lock, so no serialized initialization is modelled.
- The knowledge-base file is assumed to decode to a JSON object whose
  values are strings. In the source, a non-string value, including a nested
  object, is returned by `qa_data.get` (app.py:207) and sent as the answer
  (app.py:243-248); the model has string answers only.
- Two failures reach the generic "处理文件时出错" 500 response of
  `upload_file` (app.py:250-254), which is not modelled:
  - a top-level JSON value that is not an object, where `.get` raises
    inside the request (app.py:237-238);
  - a read error other than a missing file or invalid JSON, such as a
    permission or decoding error, which app.py:54-57 does not catch.
- HTTP plumbing is left out: saving and removing the upload,
  `secure_filename`, JSON responses and status codes, CORS, the size limit,
  and the `index` and `test` routes.
- `find_free_port`, the `__main__` block, run.py and `print` logging are
  process bootstrap and I/O. run.py is not part of this model.
- Provenance of a classification (model or keywords) is not returned by the
  code and is not modelled.
