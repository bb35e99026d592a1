/** Speech to text (`speech_to_text`) with both engines as oracles. The
    primary engine either yields a transcript or fails; the secondary
    service yields a transcript or one of three failure kinds. The
    traditional-to-simplified converter is the parameter `conv`, about
    which nothing is assumed. */
module Transcriber {
  import opened Text

  datatype PrimaryOutcome = Transcribed(text: string) | PrimaryFailed

  datatype SecondaryOutcome =
    | Recognized(text: string)
    | NoSpeech
    | RequestFailed(cause: string)
    | OtherFailure(cause: string)

  /** Returned when the secondary service hears no speech. */
  const NoSpeechText := "无法识别语音内容"
  /** Prefixed to the cause when the secondary service cannot be reached. */
  const ServiceErrorPrefix := "语音识别服务错误: "
  /** Prefixed to the cause of any other secondary failure. */
  const ProcessingErrorPrefix := "处理音频文件时出错: "

  /** The transcript, or a sentinel describing why there is none; total, so
      no failure of either engine escapes. */
  function SpeechToText(primary: PrimaryOutcome, secondary: SecondaryOutcome,
                        conv: string -> string): (r: string)
    ensures primary.Transcribed? ==> r == conv(Strip(primary.text))
    ensures primary.PrimaryFailed? && secondary.Recognized? ==> r == conv(secondary.text)
    ensures primary.PrimaryFailed? && secondary.NoSpeech? ==> r == NoSpeechText
    ensures primary.PrimaryFailed? && secondary.RequestFailed? ==> r == ServiceErrorPrefix + secondary.cause
    ensures primary.PrimaryFailed? && secondary.OtherFailure? ==> r == ProcessingErrorPrefix + secondary.cause
  {
    match primary
    case Transcribed(text) => conv(Strip(text))
    case PrimaryFailed =>
      match secondary
      case Recognized(text) => conv(text)
      case NoSpeech => NoSpeechText
      case RequestFailed(e) => ServiceErrorPrefix + e
      case OtherFailure(e) => ProcessingErrorPrefix + e
  }

  /** The secondary service is consulted only after the primary engine
      fails: with a primary transcript its outcome makes no difference. */
  lemma PrimaryShortCircuits(text: string, s1: SecondaryOutcome, s2: SecondaryOutcome,
                             conv: string -> string)
    ensures SpeechToText(Transcribed(text), s1, conv) == SpeechToText(Transcribed(text), s2, conv)
  {
  }

  /** Sentinels do not go through the converter: for a secondary failure,
      any two converters give the same text. */
  lemma SentinelsBypassConverter(secondary: SecondaryOutcome,
                                 conv1: string -> string, conv2: string -> string)
    requires !secondary.Recognized?
    ensures SpeechToText(PrimaryFailed, secondary, conv1) == SpeechToText(PrimaryFailed, secondary, conv2)
  {
  }

  /** The three sentinel kinds cannot be confused with one another: they
      already differ in their first character. */
  lemma SentinelKindsDisjoint(e1: string, e2: string)
    ensures NoSpeechText != ServiceErrorPrefix + e1
    ensures NoSpeechText != ProcessingErrorPrefix + e1
    ensures ServiceErrorPrefix + e1 != ProcessingErrorPrefix + e2
  {
    assert (ServiceErrorPrefix + e1)[0] == '语';
    assert (ProcessingErrorPrefix + e2)[0] == '处';
    assert NoSpeechText[0] == '无';
  }

  /** Every result is a converted transcript, the no-speech text, or one of
      the two error prefixes followed by the cause. */
  lemma ResultShapes(primary: PrimaryOutcome, secondary: SecondaryOutcome, conv: string -> string)
    ensures var r := SpeechToText(primary, secondary, conv);
            || (exists t :: r == conv(t))
            || r == NoSpeechText
            || (|ServiceErrorPrefix| <= |r| && r[..|ServiceErrorPrefix|] == ServiceErrorPrefix)
            || (|ProcessingErrorPrefix| <= |r| && r[..|ProcessingErrorPrefix|] == ProcessingErrorPrefix)
  {
    var r := SpeechToText(primary, secondary, conv);
    match primary
    case Transcribed(text) =>
      assert r == conv(Strip(text));
    case PrimaryFailed =>
      match secondary
      case Recognized(text) =>
        assert r == conv(text);
      case NoSpeech =>
      case RequestFailed(e) =>
        assert r[..|ServiceErrorPrefix|] == ServiceErrorPrefix;
      case OtherFailure(e) =>
        assert r[..|ProcessingErrorPrefix|] == ProcessingErrorPrefix;
  }
}
