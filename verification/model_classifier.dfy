/** The model-backed classifier (`detect_intent_LLM`). The chat-completion
    call is an oracle: its reply text, or `None` when the call raised. */
module ModelClassifier {
  import opened Wrappers
  import opened Text
  import opened Intents
  import opened KeywordClassifier

  /** How the reply is read: white space stripped, then lower-cased. */
  function Normalize(reply: string): string
  {
    Lower(Strip(reply))
  }

  /** A reply is accepted when its normalised form is one of the eight
      category labels; anything else, and a failed call, falls back to the
      keyword classifier on the same text. */
  function DetectIntentLLM(text: string, reply: Option<string>): (r: Intent)
    ensures reply.Some? && Normalize(reply.value) in Categories ==> Label(r) == Normalize(reply.value)
    ensures reply.None? || Normalize(reply.value) !in Categories ==> r == DetectIntent(text)
  {
    match reply
    case None => DetectIntent(text)
    case Some(s) =>
      match Parse(Normalize(s))
      case Some(i) => i
      case None => DetectIntent(text)
  }

  /** An accepted reply decides the intent whatever the keywords say, and
      a rejected one leaves the decision to the keywords: the result is
      always the model's label or the keyword classifier's answer. */
  lemma ModelOrKeywords(text: string, reply: Option<string>)
    ensures var r := DetectIntentLLM(text, reply);
            (reply.Some? && Parse(Normalize(reply.value)) == Some(r)) || r == DetectIntent(text)
  {
  }

  /** Surrounding white space and upper case are tolerated: " FOOD\n" is
      read as `food`. */
  lemma PaddedUpperCaseReply(text: string)
    ensures DetectIntentLLM(text, Some(" FOOD\n")) == Food
  {
    assert StrippedAt("FOOD", " FOOD\n", 1);
    StripUnique(Strip(" FOOD\n"), "FOOD", " FOOD\n");
    assert Lower("FOOD") == "food";
  }

  /** A label outside the category list is rejected: "shopping" falls back
      to the keyword classifier. */
  lemma OutOfListReply(text: string)
    ensures DetectIntentLLM(text, Some("shopping")) == DetectIntent(text)
  {
    assert StrippedAt("shopping", "shopping", 0);
    StripUnique(Strip("shopping"), "shopping", "shopping");
    LowerFixed("shopping");
  }

  /** The model's answer wins over the keyword table: "你好天气" would be
      `weather` by keywords, but a reply of "greeting" is taken as is. */
  lemma ModelOverridesKeywords()
    ensures DetectIntent("你好天气") == Weather
    ensures DetectIntentLLM("你好天气", Some("greeting")) == Greeting
  {
    WeatherOutranksGreeting();
    NormalizeGreeting();
  }

  lemma NormalizeGreeting()
    ensures Normalize("greeting") == "greeting"
  {
    assert StrippedAt("greeting", "greeting", 0);
    StripUnique(Strip("greeting"), "greeting", "greeting");
    LowerFixed("greeting");
  }
}
