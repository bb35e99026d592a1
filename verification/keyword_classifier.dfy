/** The keyword classifier (`detect_intent`): lower-case the text, then
    return the first intent, in a fixed priority order, one of whose
    keywords occurs in it; `Unknown` when none does. */
module KeywordClassifier {
  import opened Text
  import opened Intents

  /** The order in which the keyword table is walked. */
  const Priority: seq<Intent> := [Weather, Time, Greeting, Music, News, Food, Travel]

  /** The keyword list of each intent; `Unknown` has none. */
  function Keywords(i: Intent): seq<string>
  {
    match i
    case Weather => ["天气", "温度", "下雨", "晴天", "阴天", "雪"]
    case Time => ["时间", "几点", "现在", "钟点"]
    case Greeting => ["你好", "您好", "hi", "hello", "早上好", "下午好", "晚上好"]
    case Music => ["音乐", "歌曲", "播放", "听歌"]
    case News => ["新闻", "消息", "资讯", "头条"]
    case Food => ["吃", "美食", "菜", "饭", "餐厅", "推荐"]
    case Travel => ["旅游", "景点", "旅行", "去哪", "玩"]
    case Unknown => []
  }

  /** Some keyword of `kws` occurs in `t`. */
  ghost predicate Mentions(t: string, kws: seq<string>)
  {
    exists k :: k in kws && Occurs(k, t)
  }

  /** Position `n` of `order` is the first whose intent is mentioned. */
  ghost predicate FirstMatchAt(order: seq<Intent>, t: string, n: int)
  {
    && 0 <= n < |order|
    && Mentions(t, Keywords(order[n]))
    && forall m :: 0 <= m < n ==> !Mentions(t, Keywords(order[m]))
  }

  /** The inner loop: does any keyword of `kws` occur in `t`? */
  function AnyKeyword(t: string, kws: seq<string>): (b: bool)
    ensures b <==> Mentions(t, kws)
  {
    if |kws| == 0 then false
    else Contains(t, kws[0]) || AnyKeyword(t, kws[1..])
  }

  /** The outer loop over `order`: the intent at the first matching
      position, `Unknown` when no position matches. */
  function FirstMatch(order: seq<Intent>, t: string): (r: Intent)
    ensures r == Unknown <==> forall n :: 0 <= n < |order| ==> !Mentions(t, Keywords(order[n]))
    ensures r != Unknown ==> exists n :: FirstMatchAt(order, t, n) && order[n] == r
  {
    if |order| == 0 then Unknown
    else if AnyKeyword(t, Keywords(order[0])) then
      assert FirstMatchAt(order, t, 0);
      order[0]
    else
      var r := FirstMatch(order[1..], t);
      assert r != Unknown ==> exists n :: FirstMatchAt(order, t, n) && order[n] == r by {
        if r != Unknown {
          var n :| FirstMatchAt(order[1..], t, n) && order[1..][n] == r;
          assert FirstMatchAt(order, t, n + 1);
        }
      }
      r
  }

  /** `detect_intent(text)`. */
  function DetectIntent(text: string): (r: Intent)
    ensures r == Unknown <==> forall n :: 0 <= n < |Priority| ==> !Mentions(Lower(text), Keywords(Priority[n]))
    ensures r != Unknown ==> exists n :: FirstMatchAt(Priority, Lower(text), n) && Priority[n] == r
  {
    FirstMatch(Priority, Lower(text))
  }

  /** The converse of the first-match contract: the earliest mentioned
      intent in priority order is the one returned. */
  lemma EarliestMentionWins(text: string, n: int)
    requires FirstMatchAt(Priority, Lower(text), n)
    ensures DetectIntent(text) == Priority[n]
  {
    var r := DetectIntent(text);
    var m :| FirstMatchAt(Priority, Lower(text), m) && Priority[m] == r;
    assert m == n;
  }

  /** Every keyword of `kws` has a first or last character that `t` lacks,
      a cheap sufficient condition for `kws` not being mentioned in `t`. */
  ghost predicate Blocked(t: string, kws: seq<string>)
  {
    forall k :: k in kws ==> |k| > 0 && (k[0] !in t || k[|k| - 1] !in t)
  }

  lemma BlockedNotMentioned(t: string, kws: seq<string>)
    requires Blocked(t, kws)
    ensures !Mentions(t, kws)
  {
    forall k | k in kws
      ensures !Occurs(k, t)
    {
      if k[0] !in t {
        AbsentCharBlocks(k, t, 0);
      } else {
        AbsentCharBlocks(k, t, |k| - 1);
      }
    }
  }

  lemma MentionedAt(t: string, kws: seq<string>, k: string, i: int)
    requires k in kws && OccursAt(k, t, i)
    ensures Mentions(t, kws)
  {
  }

  /** Priority decides overlaps: "你好天气" mentions both a greeting and the
      weather, and the weather comes first in the table. */
  lemma WeatherOutranksGreeting()
    ensures DetectIntent("你好天气") == Weather
  {
    var t := "你好天气";
    LowerFixed(t);
    MentionedAt(t, Keywords(Greeting), "你好", 0);
    MentionedAt(t, Keywords(Weather), "天气", 2);
    assert FirstMatchAt(Priority, t, 0);
    EarliestMentionWins(t, 0);
  }

  /** "现在吃什么" mentions food, but "现在" is a time keyword and time comes
      before food in the table. */
  lemma TimeOutranksFood()
    ensures DetectIntent("现在吃什么") == Time
  {
    var t := "现在吃什么";
    ExampleTextsUnmatched(t, Weather);
    LowerFixed(t);
    MentionedAt(t, Keywords(Food), "吃", 2);
    MentionedAt(t, Keywords(Time), "现在", 0);
    EarliestMentionWins(t, 1);
  }

  /** Matching is case-insensitive for the Latin keywords. */
  lemma UpperCaseGreeting()
    ensures DetectIntent("HELLO") == Greeting
  {
    var t := "hello";
    ExampleTextsUnmatched(t, Weather);
    ExampleTextsUnmatched(t, Time);
    LowerHello();
    MentionedAt(t, Keywords(Greeting), "hello", 0);
    EarliestMentionWins("HELLO", 2);
  }

  lemma LowerHello()
    ensures Lower("HELLO") == "hello"
  {
  }

  /** The example texts above lack a keyword of the intents that outrank
      the one they are expected to yield: "你好" and "hello" mention neither
      weather nor time, "现在吃什么" mentions no weather. */
  lemma ExampleTextsUnmatched(t: string, i: Intent)
    requires || ((t == "你好" || t == "hello") && (i == Weather || i == Time))
             || (t == "现在吃什么" && i == Weather)
    ensures !Mentions(t, Keywords(i))
  {
    BlockedNotMentioned(t, Keywords(i));
  }

  /** `Unknown` when no intent's keyword list is mentioned. */
  lemma NothingMentionedIsUnknown(text: string)
    requires !Mentions(Lower(text), Keywords(Weather))
    requires !Mentions(Lower(text), Keywords(Time))
    requires !Mentions(Lower(text), Keywords(Greeting))
    requires !Mentions(Lower(text), Keywords(Music))
    requires !Mentions(Lower(text), Keywords(News))
    requires !Mentions(Lower(text), Keywords(Food))
    requires !Mentions(Lower(text), Keywords(Travel))
    ensures DetectIntent(text) == Unknown
  {
    forall n | 0 <= n < |Priority|
      ensures !Mentions(Lower(text), Keywords(Priority[n]))
    {
    }
  }
}
