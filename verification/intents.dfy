/** The closed set of intent labels that both classifiers produce. */
module Intents {
  import opened Wrappers

  datatype Intent = Weather | Time | Greeting | Music | News | Food | Travel | Unknown

  /** The label string the service reports for each intent. */
  function Label(i: Intent): string
  {
    match i
    case Weather => "weather"
    case Time => "time"
    case Greeting => "greeting"
    case Music => "music"
    case News => "news"
    case Food => "food"
    case Travel => "travel"
    case Unknown => "unknown"
  }

  /** The category list the model's reply is validated against. */
  const Categories: seq<string> :=
    ["weather", "time", "greeting", "music", "news", "food", "travel", "unknown"]

  /** Reads a label back: only the eight category strings are labels. */
  function Parse(s: string): (r: Option<Intent>)
    ensures r.Some? <==> s in Categories
    ensures r.Some? ==> Label(r.value) == s
  {
    if s == "weather" then Some(Weather)
    else if s == "time" then Some(Time)
    else if s == "greeting" then Some(Greeting)
    else if s == "music" then Some(Music)
    else if s == "news" then Some(News)
    else if s == "food" then Some(Food)
    else if s == "travel" then Some(Travel)
    else if s == "unknown" then Some(Unknown)
    else None
  }

  /** Labels and categories are in one-to-one correspondence: every label
      is a category and parses back to its intent. */
  lemma LabelRoundTrip(i: Intent)
    ensures Label(i) in Categories
    ensures Parse(Label(i)) == Some(i)
  {
  }

  lemma LabelInjective(i: Intent, j: Intent)
    requires Label(i) == Label(j)
    ensures i == j
  {
    LabelRoundTrip(i);
    LabelRoundTrip(j);
  }
}
