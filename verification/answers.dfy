/** The knowledge base and answer lookup (`load_qa_data`, `get_answer`). */
module Answers {

  /** The literal returned when neither the intent nor `unknown` has an
      entry. */
  const Apology := "抱歉，我无法回答这个问题。"

  const UnknownKey := "unknown"

  /** `get_answer(intent, qa_data)`: the intent's entry, else the `unknown`
      entry, else the apology. */
  function GetAnswer(intent: string, kb: map<string, string>): (r: string)
    ensures intent in kb ==> r == kb[intent]
    ensures intent !in kb && UnknownKey in kb ==> r == kb[UnknownKey]
    ensures intent !in kb && UnknownKey !in kb ==> r == Apology
  {
    if intent in kb then kb[intent]
    else if UnknownKey in kb then kb[UnknownKey]
    else Apology
  }

  /** Every answer is a value stored in the knowledge base or the apology. */
  lemma AnswerIsStoredOrApology(intent: string, kb: map<string, string>)
    ensures GetAnswer(intent, kb) in kb.Values || GetAnswer(intent, kb) == Apology
  {
  }

  /** An empty knowledge base answers every intent with the apology. */
  lemma EmptyKnowledgeBase(intent: string)
    ensures GetAnswer(intent, map[]) == Apology
  {
  }

  /** A knowledge base holding only an `unknown` entry answers every intent
      with that entry. */
  lemma OnlyUnknownEntry(intent: string, x: string)
    ensures GetAnswer(intent, map[UnknownKey := x]) == x
  {
  }

  /** What reading `qa_data.json` produced: a decoded mapping, a missing
      file, or text that is not valid JSON. */
  datatype KbSource = Decoded(data: map<string, string>) | FileNotFound | JsonDecodeError

  const MissingFileAnswer := "知识库文件未找到。"
  const MalformedFileAnswer := "知识库文件格式错误。"

  /** `load_qa_data()`: the decoded mapping, or a one-entry mapping whose
      `unknown` answer reports why the file could not be used. */
  function LoadQaData(src: KbSource): (kb: map<string, string>)
    ensures src.Decoded? ==> kb == src.data
    ensures !src.Decoded? ==> kb.Keys == {UnknownKey}
    ensures src.FileNotFound? ==> kb[UnknownKey] == MissingFileAnswer
    ensures src.JsonDecodeError? ==> kb[UnknownKey] == MalformedFileAnswer
  {
    match src
    case Decoded(data) => data
    case FileNotFound => map[UnknownKey := MissingFileAnswer]
    case JsonDecodeError => map[UnknownKey := MalformedFileAnswer]
  }

  /** When the file cannot be used, every intent is answered with the
      load-failure message, never with the apology. */
  lemma FailedLoadAnswer(src: KbSource, intent: string)
    requires !src.Decoded?
    ensures GetAnswer(intent, LoadQaData(src)) ==
      (if src.FileNotFound? then MissingFileAnswer else MalformedFileAnswer)
    ensures GetAnswer(intent, LoadQaData(src)) != Apology
  {
  }
}
