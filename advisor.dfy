/** The AI coach of geminiService.ts. The language model call is an input
    (`Reply`): what the call answered, or the error it threw. The coach
    message is cached in the browser's local storage for five minutes; the
    subtask suggestion parses the answer into lines. */
module Advisor {

  import opened Types
  import opened Text
  import opened Seqs

  /** The `status` of a thrown error: a number or a string. */
  datatype StatusValue = StatusCode(n: int) | StatusName(s: string)

  /** The fields of a thrown error the service looks at; a field the error
      does not have is None. */
  datatype ErrorInfo = ErrorInfo(status: Option<StatusValue>, code: Option<int>, message: Option<string>)

  /** What `generateContent` did: answered with `response.text` ("" when the
      answer has no text) or threw. */
  datatype Reply = Answered(text: string) | Failed(error: ErrorInfo)

  /** The quota test shared by both service calls. */
  predicate IsRateLimit(e: ErrorInfo) {
    || e.status == Some(StatusCode(429))
    || e.code == Some(429)
    || (e.message.Some? && Contains(e.message.value, "429"))
    || e.status == Some(StatusName("RESOURCE_EXHAUSTED"))
  }

  /** Each of the four signs of exhausted quota is enough on its own,
      whatever else the error holds: a 429 status, a 429 code, a message
      with "429" anywhere in it, or the status name RESOURCE_EXHAUSTED. An
      error with none of the four is not a quota error, and a status named
      "429" is not the number 429. */
  lemma RateLimitSigns(e: ErrorInfo, before: string, after: string)
    ensures IsRateLimit(e.(status := Some(StatusCode(429))))
    ensures IsRateLimit(e.(code := Some(429)))
    ensures IsRateLimit(e.(message := Some(before + "429" + after)))
    ensures IsRateLimit(e.(status := Some(StatusName("RESOURCE_EXHAUSTED"))))
    ensures && e.status != Some(StatusCode(429))
            && e.status != Some(StatusName("RESOURCE_EXHAUSTED"))
            && e.code != Some(429)
            && (e.message.None? || !Contains(e.message.value, "429"))
            ==> !IsRateLimit(e)
    ensures !IsRateLimit(ErrorInfo(Some(StatusName("429")), None, None))
  {
    var m := before + "429" + after;
    assert m[|before|..|before| + 3] == "429";
    assert MatchesAt(m, "429", |before|);
  }

  const CoachCacheKey: string := "duckdo_coach_cache"
  const CoachCacheTimestamp: string := "duckdo_coach_timestamp"
  /** Five minutes, in milliseconds. */
  const CacheDurationMs: int := 1000 * 60 * 5

  const MissingKeyMessage: string := "AI Coach is sleeping (Missing API Key)."
  const EmptyAnswerMessage: string := "Quack! Keep going!"
  const QuotaMessage: string := "Quack! I need a quick nap (Quota Exceeded). I'll be back later!"
  const TroubleMessage: string := "Quack! I'm having trouble connecting to the hive mind right now."

  /** `localStorage.getItem(key)` read for truthiness: a missing item and an
      empty one are both "". */
  function Item(items: map<string, string>, key: string): string {
    if key in items then items[key] else ""
  }

  /** The cache is used when both items are set and the stored time, read
      with `parseInt`, is less than five minutes before `now`; a time that
      does not parse gives NaN and never counts as fresh. */
  predicate Fresh(items: map<string, string>, now: int)
    ensures Fresh(items, now) ==> CoachCacheKey in items && CoachCacheTimestamp in items
    ensures Fresh(items, now) ==> ParseInt(items[CoachCacheTimestamp]).Some?
  {
    var time := ParseInt(Item(items, CoachCacheTimestamp));
    && Item(items, CoachCacheKey) != ""
    && Item(items, CoachCacheTimestamp) != ""
    && time.Some?
    && now - time.value < CacheDurationMs
  }

  /** The message, the storage afterwards, and whether the model was asked. */
  datatype Coaching = Coaching(message: string, items: map<string, string>, asked: bool)

  /** `getProductivityCoach` on the storage `items` at time `now`. `reply` is
      what the model call does if it is made and `answeredAt` the clock when
      it returns. */
  function Coach(hasKey: bool, items: map<string, string>, now: int, reply: Reply, answeredAt: int): (c: Coaching)
    ensures c.message != ""
    ensures c.asked ==> hasKey && !Fresh(items, now)
    ensures c.items.Keys == items.Keys || c.items.Keys == items.Keys + {CoachCacheKey, CoachCacheTimestamp}
  {
    if !hasKey then Coaching(MissingKeyMessage, items, false)
    else if Fresh(items, now) then Coaching(Item(items, CoachCacheKey), items, false)
    else match reply
      case Answered(text) =>
        var m := if text == "" then EmptyAnswerMessage else text;
        Coaching(m, items[CoachCacheKey := m][CoachCacheTimestamp := IntToString(answeredAt)], true)
      case Failed(e) =>
        if IsRateLimit(e) then
          Coaching(if Item(items, CoachCacheKey) != "" then Item(items, CoachCacheKey) else QuotaMessage, items, true)
        else Coaching(TroubleMessage, items, true)
  }

  lemma IntToStringNonEmpty(n: int)
    ensures IntToString(n) != ""
  {
  }

  /** After an answer at time `at`, every call up to five minutes later gets
      the same message from the cache, without asking the model, whatever the
      model would have done. */
  lemma CacheServesAnswer(items: map<string, string>, now: int, text: string, at: int,
                          later: int, reply: Reply, answeredAt: int)
    requires !Fresh(items, now)
    requires later < at + CacheDurationMs
    ensures var first := Coach(true, items, now, Answered(text), at);
      && first.asked
      && Coach(true, first.items, later, reply, answeredAt) == Coaching(first.message, first.items, false)
  {
    var first := Coach(true, items, now, Answered(text), at);
    assert Item(first.items, CoachCacheTimestamp) == IntToString(at);
    assert Item(first.items, CoachCacheKey) == first.message;
    ParseIntRoundTrip(at);
    IntToStringNonEmpty(at);
  }

  /** Five minutes after the answer the cache is stale and the model is asked
      again. */
  lemma CacheExpires(items: map<string, string>, now: int, text: string, at: int,
                     later: int, reply: Reply, answeredAt: int)
    requires !Fresh(items, now)
    requires later >= at + CacheDurationMs
    ensures var first := Coach(true, items, now, Answered(text), at);
      Coach(true, first.items, later, reply, answeredAt).asked
  {
    var first := Coach(true, items, now, Answered(text), at);
    assert Item(first.items, CoachCacheTimestamp) == IntToString(at);
    ParseIntRoundTrip(at);
  }

  /** The coach always says something. Without a key nothing is asked and
      nothing stored; a fresh cache, whoever wrote it, is returned as it is
      without asking; only an answer writes the storage, and then only the
      two cache items; an empty answer gets the default cheer; a quota error
      falls back on the cached message even when it is stale, and on the
      quota message when nothing is cached. */
  lemma CoachOutcomes(hasKey: bool, items: map<string, string>, now: int, reply: Reply, answeredAt: int)
    ensures var c := Coach(hasKey, items, now, reply, answeredAt);
      && c.message != ""
      && (!hasKey ==> c == Coaching(MissingKeyMessage, items, false))
      && (c.asked <==> hasKey && !Fresh(items, now))
      && (c.items != items ==> c.asked && reply.Answered?)
      && (forall k :: k != CoachCacheKey && k != CoachCacheTimestamp ==> Item(c.items, k) == Item(items, k))
      && (c.asked && reply.Failed? && IsRateLimit(reply.error) && Item(items, CoachCacheKey) != "" ==>
            c.message == Item(items, CoachCacheKey))
      && (c.asked && reply.Failed? && IsRateLimit(reply.error) && Item(items, CoachCacheKey) == "" ==>
            c.message == QuotaMessage)
      && (c.asked && reply.Failed? && !IsRateLimit(reply.error) ==> c.message == TroubleMessage)
      && (hasKey && Fresh(items, now) ==> c.message == Item(items, CoachCacheKey) && c.items == items)
      && (c.asked && reply == Answered("") ==> c.message == EmptyAnswerMessage)
      && (c.asked && reply.Answered? ==>
            && Item(c.items, CoachCacheKey) == c.message
            && Item(c.items, CoachCacheTimestamp) == IntToString(answeredAt)
            && (reply.text != "" ==> c.message == reply.text))
  {
  }

  /** Local storage as the coach uses it: a string map updated in place. */
  class Storage {
    var items: map<string, string>

    constructor (initial: map<string, string>)
      ensures items == initial
    {
      items := initial;
    }

    /** `getItem`, with a missing item read as "". */
    function GetItem(key: string): (v: string)
      reads this
      ensures key in items ==> v == items[key]
      ensures key !in items ==> v == ""
    {
      if key in items then items[key] else ""
    }

    method SetItem(key: string, value: string)
      modifies this
      ensures items == old(items)[key := value]
    {
      items := items[key := value];
    }
  }

  /** `getProductivityCoach` against the storage object, step by step as the
      service does it. */
  method GetProductivityCoach(hasKey: bool, store: Storage, now: int, reply: Reply, answeredAt: int)
    returns (message: string, asked: bool)
    modifies store
    ensures var c := Coach(hasKey, old(store.items), now, reply, answeredAt);
      message == c.message && asked == c.asked && store.items == c.items
  {
    if !hasKey {
      return MissingKeyMessage, false;
    }
    var cachedMsg := store.GetItem(CoachCacheKey);
    var cachedTime := store.GetItem(CoachCacheTimestamp);
    if cachedMsg != "" && cachedTime != "" {
      var time := ParseInt(cachedTime);
      if time.Some? && now - time.value < CacheDurationMs {
        return cachedMsg, false;
      }
    }
    asked := true;
    match reply {
      case Answered(text) =>
        message := if text == "" then EmptyAnswerMessage else text;
        store.SetItem(CoachCacheKey, message);
        store.SetItem(CoachCacheTimestamp, IntToString(answeredAt));
      case Failed(e) =>
        if IsRateLimit(e) {
          message := if cachedMsg != "" then cachedMsg else QuotaMessage;
        } else {
          message := TroubleMessage;
        }
    }
  }

  const NoKeySteps: seq<string> := ["Plan step 1", "Plan step 2"]
  const QuotaSteps: seq<string> := ["Break it down", "Take a deep breath", "Start small (Quota Limit)"]
  const TroubleSteps: seq<string> := ["Check details", "Start working", "Review"]

  function IsBullet(c: char): bool {
    c == '-' || c == '*'
  }

  /** `l.replace(/^[-*]\s*\/, '')`: one leading dash or star and the white
      space after it. */
  function StripBullet(l: string): (r: string)
    ensures |r| <= |l| && r == l[|l| - |r|..]
  {
    if l != [] && IsBullet(l[0]) then TrimStart(l[1..]) else l
  }

  /** A line is kept when `line.trim().length > 0`. */
  predicate HasText(l: string) {
    |Trim(l)| > 0
  }

  /** The steps of an answer: its non-blank lines, bullets removed. */
  function Steps(text: string): (r: seq<string>)
    ensures |r| <= |Split(text, '\n')|
  {
    Map(StripBullet, Filter(HasText, Split(text, '\n')))
  }

  /** `suggestSubtasks`: the steps of the answer, or a fixed list without a
      key or after an error. Whatever happens, no suggestion spans two
      lines, and the caller gets at least two suggestions when the model
      could not be asked or failed. */
  function SuggestSubtasks(hasKey: bool, reply: Reply): (r: seq<string>)
    ensures !hasKey || reply.Failed? ==> |r| >= 2
    ensures forall i :: 0 <= i < |r| ==> '\n' !in r[i]
  {
    if !hasKey then NoKeySteps
    else match reply
      case Answered(text) => StepsEffect(text); Steps(text)
      case Failed(e) => if IsRateLimit(e) then QuotaSteps else TroubleSteps
  }

  /** Stripping removes at most one bullet and the white space after it:
      the result is a suffix of the line, and a line that does not start
      with a bullet is kept as it is. */
  lemma StripBulletEffect(l: string)
    ensures |StripBullet(l)| <= |l| && StripBullet(l) == l[|l| - |StripBullet(l)|..]
    ensures l == [] || !IsBullet(l[0]) ==> StripBullet(l) == l
    ensures l != [] && IsBullet(l[0]) ==>
      && |StripBullet(l)| < |l|
      && (StripBullet(l) != [] ==> !IsSpace(StripBullet(l)[0]))
      && forall i :: 1 <= i < |l| - |StripBullet(l)| ==> IsSpace(l[i])
  {
  }

  /** The lines of an answer that `filter` keeps. */
  function KeptLines(text: string): seq<string> {
    Filter(HasText, Split(text, '\n'))
  }

  /** A line is kept exactly when it is not blank. */
  lemma KeptLinesMembers(text: string)
    ensures |KeptLines(text)| <= |Split(text, '\n')|
    ensures forall l :: l in KeptLines(text) <==> l in Split(text, '\n') && !Blank(l)
  {
    var lines := Split(text, '\n');
    forall l ensures l in KeptLines(text) <==> l in lines && !Blank(l) {
      FilterMembers(HasText, lines, l);
      TrimEmptyIffBlank(l);
    }
  }

  /** The i-th step is the i-th non-blank line with its bullet removed, so
      no step spans two lines. */
  lemma StepsEffect(text: string)
    ensures |Steps(text)| == |KeptLines(text)|
    ensures forall i :: 0 <= i < |Steps(text)| ==> Steps(text)[i] == StripBullet(KeptLines(text)[i])
    ensures forall i :: 0 <= i < |Steps(text)| ==> '\n' !in Steps(text)[i]
  {
    var kept := KeptLines(text);
    forall i | 0 <= i < |kept| ensures '\n' !in StripBullet(kept[i]) {
      assert kept[i] in kept;
      KeptLinesMembers(text);
      StripBulletEffect(kept[i]);
      var k :| 0 <= k < |Split(text, '\n')| && Split(text, '\n')[k] == kept[i];
    }
  }

  /** A single line gives one step, its text with the bullet removed,
      unless it is blank. */
  lemma StepsOfLine(a: string)
    requires '\n' !in a
    ensures Steps(a) == if Blank(a) then [] else [StripBullet(a)]
  {
    SplitFirst(a, '\n', "");
    TrimEmptyIffBlank(a);
    FilterOne(HasText, a);
  }

  /** The steps are read line by line: a first line ended by a line break
      contributes its steps ahead of the steps of the rest. */
  lemma {:induction false} StepsByLine(a: string, b: string)
    requires '\n' !in a
    ensures Steps(a + "\n" + b) == Steps(a) + Steps(b)
  {
    SplitFirst(a, '\n', b);
    FilterConcat(HasText, [a], Split(b, '\n'));
    StepsOfLine(a);
    MapConcat(StripBullet, Filter(HasText, [a]), Filter(HasText, Split(b, '\n')));
  }

  /** An answer with no text gives no steps. */
  lemma EmptyAnswer()
    ensures SuggestSubtasks(true, Answered("")) == []
  {
    StepsOfLine("");
  }

  /** A line holding only a bullet and spaces is not blank, so it passes
      the filter and becomes an empty step. */
  lemma BareBullet(l: string)
    requires |l| >= 1 && IsBullet(l[0]) && Blank(l[1..]) && '\n' !in l
    ensures Steps(l) == [""]
  {
    StepsOfLine(l);
    assert !IsSpace(l[0]);
  }

}
