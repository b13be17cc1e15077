/**
 * The enrichment client: the spacing of requests (`_rate_limit`), the
 * retry wrapper around `analyze_paper`, and the handling of the reply text
 * (fence stripping, the list check, the count warning, filtering and
 * truncating the points).
 *
 * The HTTP exchange is an input (`CallOutcome`), and `json.loads` is a
 * parameter that tags its input as a list, some other JSON value, or
 * undecodable; no JSON parser is modelled.
 */
module GrokService {
  import opened Wrappers
  import opened Time

  const DefaultModel: string := "grok-4-1-fast-reasoning"

  /** Points longer than this are cut, not rejected. */
  const MaxPointLength: nat := 120

  /** The code-fence marker. */
  const Fence: string := "```"

  // ---------------------------------------------------------------------
  // Whitespace and `str.strip()`

  /** `str.isspace()` for one character. */
  predicate IsSpace(c: char) {
    var n := c as int;
    || 9 <= n <= 13 || 28 <= n <= 32 || n == 0x85 || n == 0xA0 || n == 0x1680
    || 0x2000 <= n <= 0x200A || n == 0x2028 || n == 0x2029 || n == 0x202F
    || n == 0x205F || n == 0x3000
  }

  /** The first position at or after `i` that is not whitespace, or `|s|`. */
  function SkipForward(s: string, i: nat): (j: nat)
    requires i <= |s|
    ensures i <= j <= |s|
    ensures j < |s| ==> !IsSpace(s[j])
    ensures forall k | i <= k < j :: IsSpace(s[k])
    decreases |s| - i
  {
    if i == |s| || !IsSpace(s[i]) then i else SkipForward(s, i + 1)
  }

  /** The position just after the last non-whitespace character before `j`, or 0. */
  function SkipBackward(s: string, j: nat): (i: nat)
    requires j <= |s|
    ensures i <= j
    ensures 0 < i ==> !IsSpace(s[i - 1])
    ensures forall k | i <= k < j :: IsSpace(s[k])
  {
    if j == 0 || !IsSpace(s[j - 1]) then j else SkipBackward(s, j - 1)
  }

  /** Neither starts nor ends with whitespace. */
  predicate IsStripped(s: string) {
    s == [] || (!IsSpace(s[0]) && !IsSpace(s[|s| - 1]))
  }

  /** Where the text kept by `s.strip()` begins. */
  function StripStart(s: string): (lo: nat)
    ensures lo <= |s|
  {
    SkipForward(s, 0)
  }

  /** Where the text kept by `s.strip()` ends. */
  function StripEnd(s: string): (hi: nat)
    ensures StripStart(s) <= hi <= |s|
  {
    var hi := SkipBackward(s, |s|);
    if hi < StripStart(s) then StripStart(s) else hi
  }

  /** `s.strip()`: a slice of `s`, with only whitespace cut away on either side. */
  function Strip(s: string): (r: string)
    ensures IsStripped(r)
    ensures r == s[StripStart(s)..StripEnd(s)]
    ensures forall k | 0 <= k < StripStart(s) :: IsSpace(s[k])
    ensures forall k | StripEnd(s) <= k < |s| :: IsSpace(s[k])
  {
    StripBounds(s);
    s[StripStart(s)..StripEnd(s)]
  }

  /** Once anything is kept, it starts and ends on a non-whitespace character. */
  lemma StripBounds(s: string)
    ensures IsStripped(s[StripStart(s)..StripEnd(s)])
    ensures forall k | StripEnd(s) <= k < |s| :: IsSpace(s[k])
  {
    var lo := StripStart(s);
    var hi := SkipBackward(s, |s|);
    if lo < |s| {
      assert !IsSpace(s[lo]);
      assert lo < hi;
    }
  }

  lemma StripOfStripped(s: string)
    requires IsStripped(s)
    ensures Strip(s) == s
  {
    if s != [] {
      assert StripStart(s) == 0;
      assert SkipBackward(s, |s|) == |s|;
    }
  }

  // ---------------------------------------------------------------------
  // Code fences

  predicate StartsWith(s: string, prefix: string) {
    |prefix| <= |s| && s[..|prefix|] == prefix
  }

  /** A fence starts at position `i` of `s`. */
  predicate FenceAt(s: string, i: int) {
    0 <= i && i + 3 <= |s| && s[i] == '`' && s[i + 1] == '`' && s[i + 2] == '`'
  }

  predicate FenceFree(s: string) {
    forall i | 0 <= i < |s| :: !FenceAt(s, i)
  }

  lemma FenceFreeSlice(s: string, lo: int, hi: int)
    requires 0 <= lo <= hi <= |s| && FenceFree(s)
    ensures FenceFree(s[lo..hi])
  {
    forall i | 0 <= i < hi - lo ensures !FenceAt(s[lo..hi], i) {
      assert !FenceAt(s, lo + i);
    }
  }

  /** Where the next fence at or after `i` starts, or `|s|` if there is none. */
  function NextFence(s: string, i: nat): (j: nat)
    requires i <= |s|
    ensures i <= j <= |s|
    ensures j < |s| ==> FenceAt(s, j)
    ensures forall k | i <= k < j :: !FenceAt(s, k)
    decreases |s| - i
  {
    if i + 3 > |s| then |s|
    else if FenceAt(s, i) then i
    else NextFence(s, i + 1)
  }

  /**
   * `s.split("```")[1]` for an `s` that starts with a fence: the text after
   * the opening fence up to the next fence or the end. Because `s` starts
   * with a fence, the split has at least two pieces, so index 1 exists.
   */
  function FencedBody(s: string): (body: string)
    requires StartsWith(s, Fence)
    ensures FenceFree(body)
    ensures 3 + |body| <= |s| && body == s[3..3 + |body|]
    ensures 3 + |body| == |s| || FenceAt(s, 3 + |body|)
  {
    var hi := NextFence(s, 3);
    var body := s[3..hi];
    forall i | 0 <= i < |body| ensures !FenceAt(body, i) {
      assert !FenceAt(s, 3 + i);
    }
    body
  }

  /** `if content.startswith("json"): content = content[4:]`. */
  function DropJsonTag(s: string): (r: string)
    ensures StartsWith(s, "json") ==> s == "json" + r
    ensures !StartsWith(s, "json") ==> r == s
  {
    if StartsWith(s, "json") then s[4..] else s
  }

  /**
   * Removing the tag undoes adding it, for every text, and a text without
   * the tag passes through.
   */
  lemma DropJsonTagInverse(t: string)
    ensures DropJsonTag("json" + t) == t
    ensures !StartsWith(t, "json") ==> DropJsonTag(t) == t
  {
    assert StartsWith("json" + t, "json") by {
      assert ("json" + t)[..4] == "json";
    }
    assert ("json" + t)[4..] == t;
  }

  lemma StripKeepsFenceFree(s: string)
    requires FenceFree(s)
    ensures FenceFree(Strip(s))
  {
    FenceFreeSlice(s, StripStart(s), StripEnd(s));
  }

  /** The fenced case: the text between the first two fences, untagged and stripped. */
  function Unfence(t: string): (r: string)
    requires StartsWith(t, Fence)
    ensures IsStripped(r) && FenceFree(r)
  {
    var body := FencedBody(t);
    var untagged := DropJsonTag(body);
    assert untagged == body[|body| - |untagged|..|body|];
    FenceFreeSlice(body, |body| - |untagged|, |body|);
    StripKeepsFenceFree(untagged);
    Strip(untagged)
  }

  /**
   * The text handed to `json.loads`: the stripped reply, or, when it starts
   * with a fence, the stripped text between the first and second fence with
   * a leading `json` tag removed.
   */
  function NormalizeReply(content: string): (r: string)
    ensures IsStripped(r)
    ensures !StartsWith(Strip(content), Fence) ==> r == Strip(content)
    ensures StartsWith(Strip(content), Fence) ==> FenceFree(r)
  {
    var t := Strip(content);
    if StartsWith(t, Fence) then Unfence(t) else t
  }

  /** A reply wrapped in a fenced block, with an optional `json` tag on the opening fence. */
  function Fenced(payload: string, tagged: bool): string {
    Fence + (if tagged then "json" else "") + "\n" + payload + "\n" + Fence
  }

  /** A fence-free piece bounded by newlines cannot hide a fence across the joins. */
  lemma FenceFreeJoin(pre: string, payload: string)
    requires pre == "" || pre == "json"
    requires FenceFree(payload)
    ensures FenceFree(pre + "\n" + payload + "\n")
  {
    var s := pre + "\n" + payload + "\n";
    var nl := |pre|;
    forall i | 0 <= i < |s| ensures !FenceAt(s, i) {
      if i + 3 <= |s| {
        if i + 3 <= nl {
          assert s[i] == pre[i];
        } else if i <= nl {
          assert s[nl] == '\n';
        } else if i + 3 <= |s| - 1 {
          var k := i - nl - 1;
          assert s[i] == payload[k] && s[i + 1] == payload[k + 1] && s[i + 2] == payload[k + 2];
          assert !FenceAt(payload, k);
        } else {
          assert s[|s| - 1] == '\n';
        }
      }
    }
  }

  lemma StripPadded(payload: string)
    requires IsStripped(payload)
    ensures Strip("\n" + payload + "\n") == payload
  {
    var s := "\n" + payload + "\n";
    assert IsSpace(s[0]) && IsSpace(s[|s| - 1]);
    if payload == [] {
      assert SkipForward(s, 1) == 2;
      assert StripStart(s) == 2;
    } else {
      assert s[1] == payload[0] && s[|s| - 2] == payload[|payload| - 1];
      assert SkipForward(s, 1) == 1;
      assert StripStart(s) == 1;
      assert SkipBackward(s, |s| - 1) == |s| - 1;
      assert StripEnd(s) == |s| - 1;
      assert s[1..|s| - 1] == payload;
    }
  }

  /** The block's body is everything between the opening and the closing fence. */
  lemma FencedBodyOfFenced(payload: string, tagged: bool)
    requires IsStripped(payload) && FenceFree(payload)
    ensures StartsWith(Fenced(payload, tagged), Fence)
    ensures FencedBody(Fenced(payload, tagged)) == (if tagged then "json" else "") + "\n" + payload + "\n"
  {
    var pre := if tagged then "json" else "";
    var content := Fenced(payload, tagged);
    var inner := pre + "\n" + payload + "\n";
    assert content == Fence + inner + Fence;
    FenceFreeJoin(pre, payload);
    var end := 3 + |inner|;
    assert FenceAt(content, end) by {
      assert content[end] == content[end + 1] == content[end + 2] == '`';
    }
    forall k | 3 <= k < end ensures !FenceAt(content, k) {
      if k + 3 <= end {
        assert content[k] == inner[k - 3] && content[k + 1] == inner[k - 2] && content[k + 2] == inner[k - 1];
        assert !FenceAt(inner, k - 3);
      } else if k + 3 <= |content| {
        assert content[end - 1] == '\n';
      }
    }
    var body := FencedBody(content);
    assert 3 + |body| == end;
    assert body == content[3..end] == inner;
  }

  /** A fenced block has no surrounding whitespace. */
  lemma FencedIsStripped(payload: string, tagged: bool)
    ensures Strip(Fenced(payload, tagged)) == Fenced(payload, tagged)
  {
    var content := Fenced(payload, tagged);
    assert IsStripped(content) by {
      assert content[0] == '`' && content[|content| - 1] == '`';
    }
    StripOfStripped(content);
  }

  lemma DropJsonTagOfBody(payload: string, tagged: bool)
    ensures DropJsonTag((if tagged then "json" else "") + "\n" + payload + "\n") == "\n" + payload + "\n"
  {
    var inner := (if tagged then "json" else "") + "\n" + payload + "\n";
    var untagged := "\n" + payload + "\n";
    if tagged {
      assert inner == "json" + untagged;
      assert inner[..4] == "json";
      assert inner[4..] == untagged;
    } else {
      assert inner == untagged;
      assert inner[0] == '\n';
    }
  }

  /** Unwrapping a fenced reply gives back the payload. */
  lemma {:induction false} NormalizeFencedRoundTrip(payload: string, tagged: bool)
    requires IsStripped(payload) && FenceFree(payload)
    ensures NormalizeReply(Fenced(payload, tagged)) == payload
  {
    var content := Fenced(payload, tagged);
    FencedIsStripped(payload, tagged);
    FencedBodyOfFenced(payload, tagged);
    DropJsonTagOfBody(payload, tagged);
    StripPadded(payload);
    assert Unfence(content) == payload;
  }

  /** An unfenced reply is passed on as it is, once stripped. */
  lemma NormalizePlain(payload: string)
    requires IsStripped(payload) && !StartsWith(payload, Fence)
    ensures NormalizeReply(payload) == payload
  {
    StripOfStripped(payload);
  }

  // ---------------------------------------------------------------------
  // The parsed reply

  /** An element of the parsed array: a string, or any other JSON value. */
  datatype Json = JString(s: string) | JOther

  /** What `json.loads` produced. */
  datatype Parsed = JsonList(items: seq<Json>) | JsonNonList | JsonDecodeError

  /** `point[:120]`. */
  function Truncate(s: string): (r: string)
    ensures |r| <= MaxPointLength
    ensures |r| <= |s| && r == s[..|r|]
    ensures |s| <= MaxPointLength ==> r == s
    ensures |s| > MaxPointLength ==> |r| == MaxPointLength
  {
    if |s| <= MaxPointLength then s else s[..MaxPointLength]
  }

  /** `[point[:120] for point in key_points if isinstance(point, str)]`. */
  function KeepStrings(items: seq<Json>): (points: seq<string>)
    ensures |points| <= |items|
    ensures forall i | 0 <= i < |points| :: |points[i]| <= MaxPointLength
    decreases |items|
  {
    if items == [] then []
    else (if items[0].JString? then [Truncate(items[0].s)] else []) + KeepStrings(items[1..])
  }

  /** The filter works element by element: it distributes over concatenation. */
  lemma {:induction false} KeepStringsAppend(a: seq<Json>, b: seq<Json>)
    ensures KeepStrings(a + b) == KeepStrings(a) + KeepStrings(b)
    decreases |a|
  {
    if a == [] {
      assert a + b == b;
    } else {
      assert (a + b)[1..] == a[1..] + b;
      KeepStringsAppend(a[1..], b);
    }
  }

  /** A list of strings keeps every element, in order, each cut to its first 120 characters. */
  lemma {:induction false} KeepStringsAllStrings(items: seq<Json>)
    requires forall i | 0 <= i < |items| :: items[i].JString?
    ensures |KeepStrings(items)| == |items|
    ensures forall i | 0 <= i < |items| :: KeepStrings(items)[i] == Truncate(items[i].s)
    decreases |items|
  {
    if items != [] {
      KeepStringsAllStrings(items[1..]);
      forall i | 0 <= i < |items| ensures KeepStrings(items)[i] == Truncate(items[i].s) {
        if i > 0 {
          assert KeepStrings(items)[i] == KeepStrings(items[1..])[i - 1];
        }
      }
    }
  }

  /** Non-string elements leave no trace. */
  lemma {:induction false} KeepStringsDropsOthers(items: seq<Json>)
    requires forall i | 0 <= i < |items| :: items[i].JOther?
    ensures KeepStrings(items) == []
    decreases |items|
  {
    if items != [] {
      KeepStringsDropsOthers(items[1..]);
    }
  }

  /** How the reply was judged. */
  datatype ReplyVerdict =
    | NotJson                                        // json.loads raised
    | NotAList                                       // parsed, but not a list
    | KeyPoints(points: seq<string>, countWarning: bool)

  /** The count policy: a warning, never a rejection. */
  predicate CountOutOfRange(n: int) {
    !(5 <= n <= 7)
  }

  /** Reply handling in `analyze_paper`, from the message content to a verdict. */
  function DecodeReply(content: string, parse: string -> Parsed): (v: ReplyVerdict)
    ensures v.NotJson? <==> parse(NormalizeReply(content)).JsonDecodeError?
    ensures v.NotAList? <==> parse(NormalizeReply(content)).JsonNonList?
    ensures v.KeyPoints? <==> parse(NormalizeReply(content)).JsonList?
    ensures v.KeyPoints? ==>
              && |v.points| <= |parse(NormalizeReply(content)).items|
              && (forall i | 0 <= i < |v.points| :: |v.points[i]| <= MaxPointLength)
              && (v.countWarning <==> CountOutOfRange(|parse(NormalizeReply(content)).items|))
    ensures v.KeyPoints? ==> v.points == KeepStrings(parse(NormalizeReply(content)).items)
  {
    match parse(NormalizeReply(content))
    case JsonDecodeError => NotJson
    case JsonNonList => NotAList
    case JsonList(items) => KeyPoints(KeepStrings(items), CountOutOfRange(|items|))
  }

  /** The value `analyze_paper` returns for a verdict. */
  function Answer(v: ReplyVerdict): (r: Option<seq<string>>)
    ensures r.Some? <==> v.KeyPoints?
    ensures r.Some? ==> r.value == v.points
  {
    match v
    case KeyPoints(points, _) => Some(points)
    case _ => None
  }

  /** A too-long or too-short list still comes back, filtered and truncated. */
  lemma CountOnlyWarns(content: string, parse: string -> Parsed)
    requires parse(NormalizeReply(content)).JsonList?
    requires forall i | 0 <= i < |parse(NormalizeReply(content)).items| :: parse(NormalizeReply(content)).items[i].JString?
    ensures Answer(DecodeReply(content, parse)).Some?
    ensures |Answer(DecodeReply(content, parse)).value| == |parse(NormalizeReply(content)).items|
    ensures forall i | 0 <= i < |parse(NormalizeReply(content)).items| ::
              Answer(DecodeReply(content, parse)).value[i] == Truncate(parse(NormalizeReply(content)).items[i].s)
  {
    KeepStringsAllStrings(parse(NormalizeReply(content)).items);
  }

  // ---------------------------------------------------------------------
  // One attempt and the retry policy

  /** `httpx.HTTPError` and its subclasses (`TimeoutException` is one). */
  datatype HttpErrorKind = Timeout | Transport | Status(code: int)

  /** What one POST to the chat-completions endpoint gave. */
  datatype CallOutcome =
    | HttpFailed(kind: HttpErrorKind)
    | Responded(content: Option<string>)  // None: no string at choices[0].message.content

  /** An exception leaving `analyze_paper`. */
  datatype Failure = HttpError(kind: HttpErrorKind) | Unexpected

  /** What a call of `analyze_paper` amounts to: a value returned, or an exception. */
  datatype Outcome = Returned(points: Option<seq<string>>) | Threw(failure: Failure)

  /** `if key_points:` — a non-empty list. */
  predicate HasKeyPoints(o: Outcome) {
    o.Returned? && o.points.Some? && o.points.value != []
  }

  /**
   * One execution of the body of `analyze_paper` after the rate limit: an
   * HTTP error is re-raised; a JSON error, a bad shape or any other
   * exception becomes None.
   */
  function AttemptBody(call: CallOutcome, parse: string -> Parsed): (o: Outcome)
    ensures o.Threw? <==> call.HttpFailed?
    ensures o.Threw? ==> o.failure == HttpError(call.kind)
    ensures o.Returned? && o.points.Some? ==>
              && call.content.Some?
              && parse(NormalizeReply(call.content.value)).JsonList?
              && forall i | 0 <= i < |o.points.value| :: |o.points.value[i]| <= MaxPointLength
    ensures call == Responded(None) ==> o == Returned(None)
    ensures call.Responded? && call.content.Some? && parse(NormalizeReply(call.content.value)).JsonList? ==>
              o == Returned(Some(KeepStrings(parse(NormalizeReply(call.content.value)).items)))
    ensures call.Responded? && call.content.Some? && !parse(NormalizeReply(call.content.value)).JsonList? ==>
              o == Returned(None)
  {
    match call
    case HttpFailed(kind) => Threw(HttpError(kind))
    case Responded(None) => Returned(None)
    case Responded(Some(content)) => Returned(Answer(DecodeReply(content, parse)))
  }

  /** `stop_after_attempt(3)`. */
  const MaxAttempts: nat := 3

  /** `retry_if_exception_type((httpx.HTTPError, httpx.TimeoutException))`. */
  predicate IsRetryable(o: Outcome) {
    o.Threw? && o.failure.HttpError?
  }

  function Pow2(n: nat): (p: nat)
    ensures p >= 1
  {
    if n == 0 then 1 else 2 * Pow2(n - 1)
  }

  /** `wait_exponential(multiplier=1, min=2, max=10)` after the given attempt. */
  function BackoffWait(attemptNumber: nat): (w: int)
    requires attemptNumber >= 1
    ensures 2 <= w <= 10
  {
    var e := Pow2(attemptNumber - 1);
    if e < 2 then 2 else if e > 10 then 10 else e
  }

  /** The result of the retried call: the last outcome, the attempts made, the waits between them. */
  datatype RetryRun = RetryRun(outcome: Outcome, tries: nat, waits: seq<int>)

  /** The retry policy from attempt `k` (0-based) on, given each attempt's outcome. */
  function RetryFrom(attempts: seq<Outcome>, k: nat): (run: RetryRun)
    requires k < MaxAttempts <= |attempts|
    ensures k < run.tries <= MaxAttempts
    ensures run.outcome == attempts[run.tries - 1]
    ensures |run.waits| == run.tries - 1 - k
    ensures forall j | k <= j < run.tries - 1 :: IsRetryable(attempts[j])
    ensures !IsRetryable(run.outcome) || run.tries == MaxAttempts
    ensures forall i | 0 <= i < |run.waits| :: run.waits[i] == BackoffWait(k + i + 1)
    decreases MaxAttempts - k
  {
    if !IsRetryable(attempts[k]) || k + 1 == MaxAttempts then
      RetryRun(attempts[k], k + 1, [])
    else
      var rest := RetryFrom(attempts, k + 1);
      rest.(waits := [BackoffWait(k + 1)] + rest.waits)
  }

  function Retry(attempts: seq<Outcome>): RetryRun
    requires MaxAttempts <= |attempts|
  {
    RetryFrom(attempts, 0)
  }

  /** Two transient failures and then a value: the value, after exactly two waits. */
  lemma RetrySucceedsOnThirdAttempt(attempts: seq<Outcome>)
    requires MaxAttempts <= |attempts|
    requires IsRetryable(attempts[0]) && IsRetryable(attempts[1]) && attempts[2].Returned?
    ensures Retry(attempts) == RetryRun(attempts[2], 3, [2, 2])
  {
    assert BackoffWait(1) == 2 && BackoffWait(2) == 2;
  }

  /** Three transient failures: the third one is re-raised. */
  lemma RetryReraisesLastFailure(attempts: seq<Outcome>)
    requires MaxAttempts <= |attempts|
    requires IsRetryable(attempts[0]) && IsRetryable(attempts[1]) && IsRetryable(attempts[2])
    ensures Retry(attempts).outcome == attempts[2] && Retry(attempts).tries == MaxAttempts
  {
  }

  /** Anything but an HTTP error ends the call at once. */
  lemma RetryStopsOnOtherOutcomes(attempts: seq<Outcome>)
    requires MaxAttempts <= |attempts| && !IsRetryable(attempts[0])
    ensures Retry(attempts) == RetryRun(attempts[0], 1, [])
  {
  }

  /** The outcome of every attempt, given what each POST gave. */
  function Attempts(calls: seq<CallOutcome>, parse: string -> Parsed): (attempts: seq<Outcome>)
    ensures |attempts| == |calls|
    ensures forall i | 0 <= i < |calls| :: attempts[i] == AttemptBody(calls[i], parse)
  {
    seq(|calls|, i requires 0 <= i < |calls| => AttemptBody(calls[i], parse))
  }

  /**
   * The points `analyze_paper` returns: after HTTP failures on the first `k`
   * attempts, an attempt whose reply parses to a list ends the call with the
   * kept, truncated strings of that list.
   */
  lemma AnalysisReturnsKeptPoints(calls: seq<CallOutcome>, parse: string -> Parsed, k: nat)
    requires MaxAttempts <= |calls| && k < MaxAttempts
    requires forall j | 0 <= j < k :: calls[j].HttpFailed?
    requires calls[k].Responded? && calls[k].content.Some?
    requires parse(NormalizeReply(calls[k].content.value)).JsonList?
    ensures Retry(Attempts(calls, parse)).tries == k + 1
    ensures Retry(Attempts(calls, parse)).outcome
         == Returned(Some(KeepStrings(parse(NormalizeReply(calls[k].content.value)).items)))
  {
    var attempts := Attempts(calls, parse);
    var run := Retry(attempts);
    assert !IsRetryable(attempts[k]);
    if run.tries - 1 < k {
      assert IsRetryable(attempts[run.tries - 1]);
    }
  }

  /** The retry ends at attempt `k` when that attempt is final. */
  lemma RetryStops(attempts: seq<Outcome>, k: nat)
    requires k < MaxAttempts <= |attempts|
    requires !IsRetryable(attempts[k]) || k + 1 == MaxAttempts
    ensures RetryFrom(attempts, k) == RetryRun(attempts[k], k + 1, [])
  {
  }

  /** After a retryable attempt `k` that is not the last, the retry goes on from `k + 1` after one wait. */
  lemma RetryContinues(attempts: seq<Outcome>, k: nat)
    requires k + 1 < MaxAttempts <= |attempts| && IsRetryable(attempts[k])
    ensures RetryFrom(attempts, k)
         == RetryFrom(attempts, k + 1).(waits := [BackoffWait(k + 1)] + RetryFrom(attempts, k + 1).waits)
  {
  }

  /** `analyze_paper` never lets anything but an HTTP error escape. */
  lemma OnlyHttpErrorsEscape(calls: seq<CallOutcome>, parse: string -> Parsed)
    requires MaxAttempts <= |calls|
    ensures Retry(Attempts(calls, parse)).outcome.Threw? ==> Retry(Attempts(calls, parse)).outcome.failure.HttpError?
  {
  }

  // ---------------------------------------------------------------------
  // The rate limiter

  /** How long `_rate_limit` sleeps after `elapsed` seconds since the last request. */
  function RateLimitSleep(elapsed: int, delay: int): (t: int)
    ensures t >= 0
    ensures t > 0 <==> elapsed < delay
    ensures t > 0 ==> elapsed + t == delay
  {
    if elapsed < delay then delay - elapsed else 0
  }

  class Grok {
    const model: string
    /** Seconds between requests. */
    const rateLimitDelay: int
    var lastRequestTime: int

    constructor (model: string := DefaultModel, rateLimitDelay: int := 6)
      ensures this.model == model && this.rateLimitDelay == rateLimitDelay
      ensures lastRequestTime == 0
    {
      this.model := model;
      this.rateLimitDelay := rateLimitDelay;
      lastRequestTime := 0;
    }

    /**
     * `_rate_limit`: sleeps for the rest of the delay if the last request is
     * more recent than that, then records the time. Reports the elapsed time
     * it saw and how long it asked to sleep.
     */
    method RateLimit(clock: Clock) returns (elapsed: int, slept: int)
      modifies this`lastRequestTime, clock
      ensures elapsed >= old(clock.now) - old(lastRequestTime)
      ensures slept == RateLimitSleep(elapsed, rateLimitDelay)
      ensures lastRequestTime == clock.now >= old(lastRequestTime) + elapsed + slept
      ensures lastRequestTime >= old(lastRequestTime) + rateLimitDelay
      ensures lastRequestTime >= old(clock.now)
    {
      var t := clock.Read();
      elapsed := t - lastRequestTime;
      slept := RateLimitSleep(elapsed, rateLimitDelay);
      if elapsed < rateLimitDelay {
        clock.Sleep(slept);
      }
      lastRequestTime := clock.Read();
    }

    /**
     * `analyze_paper` under its retry decorator. Each attempt runs the rate
     * limiter and then the body on the next call outcome; an HTTP error is
     * retried after a back-off sleep until three attempts have been made,
     * and then re-raised.
     */
    method AnalyzePaper(clock: Clock, calls: seq<CallOutcome>, parse: string -> Parsed) returns (run: RetryRun)
      requires MaxAttempts <= |calls|
      modifies this`lastRequestTime, clock
      ensures run == Retry(Attempts(calls, parse))
      ensures lastRequestTime >= old(lastRequestTime) + run.tries * rateLimitDelay
    {
      ghost var attempts := Attempts(calls, parse);
      var k := 0;
      var waits: seq<int> := [];
      var done := false;
      run := RetryRun(Returned(None), 0, []);
      while !done
        invariant 0 <= k < MaxAttempts
        invariant done ==> run == Retry(attempts)
        invariant done ==> lastRequestTime >= old(lastRequestTime) + run.tries * rateLimitDelay
        invariant !done ==> lastRequestTime >= old(lastRequestTime) + k * rateLimitDelay
        invariant !done ==> Retry(attempts) == RetryFrom(attempts, k).(waits := waits + RetryFrom(attempts, k).waits)
        decreases MaxAttempts - k, !done
      {
        var _, _ := RateLimit(clock);
        assert (k + 1) * rateLimitDelay == k * rateLimitDelay + rateLimitDelay;
        assert lastRequestTime >= old(lastRequestTime) + (k + 1) * rateLimitDelay;
        var outcome := AttemptBody(calls[k], parse);
        assert outcome == attempts[k];
        if !IsRetryable(outcome) || k + 1 == MaxAttempts {
          RetryStops(attempts, k);
          assert waits + [] == waits;
          run := RetryRun(outcome, k + 1, waits);
          done := true;
        } else {
          var w := BackoffWait(k + 1);
          RetryContinues(attempts, k);
          assert waits + ([w] + RetryFrom(attempts, k + 1).waits) == waits + [w] + RetryFrom(attempts, k + 1).waits;
          clock.Sleep(w);
          waits := waits + [w];
          k := k + 1;
        }
      }
    }
  }
}
