/** `translate_image`: one page image sent to the chat-completions endpoint,
    retried with a growing backoff, its reply classified by HTTP status and
    the `[DETECTED: ...]` marker stripped from a successful reply.

    The network is a parameter: `net(k)` is what the k-th request of the call
    (counting from 0) comes back with. A sleep is not performed but recorded:
    the call reports the backoff delays it asked for, in order. */
module Translation {
  import opened Wrappers
  import opened Text

  /** The prefix a reply in auto-detect mode starts with. */
  const Marker: string := "[DETECTED:"

  /** A client or server error status, the statuses `raise_for_status`
      rejects. */
  type ErrorCode = c: nat | 400 <= c < 600 witness 400

  /** What one `requests.post` comes back with. */
  datatype Response =
      /** A response with status 404, 429 or another status that
          `raise_for_status` rejects. */
    | Status(code: ErrorCode)
      /** An exception: a timeout, a refused connection, a body that is not
          the expected JSON; `message` is `str(e)`. */
    | Raised(message: string)
      /** A response `raise_for_status` lets through whose body holds a
          reply; `content` is `choices[0].message.content`. */
    | Answer(content: string)

  /** The `(translation, detected_lang, error)` triple of the source. */
  datatype Outcome = Outcome(translation: Option<string>, detected: Option<string>, error: Option<string>)

  function Failed(message: string): Outcome {
    Outcome(None, None, Some(message))
  }

  /** A whole call: its outcome, the number of requests it made and the
      backoff delays (in seconds) it slept, in order. */
  datatype Call = Call(outcome: Outcome, requests: nat, backoffs: seq<nat>)

  /** The retry budget `translate_image` is called with. */
  const DefaultRetryCount: nat := 3

  function NotFoundMessage(modelId: string): string {
    "Model '" + modelId + "' not found. Please select a different model."
  }

  const RateLimitMessage: string := "Rate limit exceeded. Please increase wait time or add credits."

  const ExhaustedMessage: string := "All retry attempts failed"

  function HttpErrorMessage(code: nat): string {
    "HTTP Error " + Decimal(code)
  }

  /** The sleep before attempt `attempt` (only attempts after the first sleep). */
  function Backoff(attempt: nat): nat {
    10 * (attempt + 1)
  }

  /** The marker parse: the reply's text and the detected language. The
      detected language is assigned before the text after the first `]` is
      taken, so a reply whose marker is never closed keeps its raw text but
      still reports a detected language. */
  function ParseReply(reply: string): (string, Option<string>) {
    if !Contains(reply, Marker) then (reply, None)
    else (AfterBracket(reply), Some(DetectedIn(reply)))
  }

  /** `split("[DETECTED:")[1].split("]")[0].strip()`: the text after the first
      marker, up to the next marker or `]`, trimmed. */
  function DetectedIn(reply: string): string
    requires Contains(reply, Marker)
  {
    var pieces := Split(reply, Marker);
    assert |pieces| >= 2;
    Strip(Split(pieces[1], "]")[0])
  }

  /** `split("]", 1)[1].strip()`, or the reply itself when the split has no
      second piece and the exception is swallowed. */
  function AfterBracket(reply: string): string {
    var first := FirstIndex(reply, "]");
    if first.None? then reply
    else
      assert OccursAt(reply, "]", first.value);
      Strip(reply[first.value + 1..])
  }

  /** A reply without the marker is kept as it is and reports no language;
      with the marker a language is always reported; a reply without any
      `]` keeps its raw text. */
  lemma ParseReplyCases(reply: string)
    ensures !Contains(reply, Marker) ==> ParseReply(reply) == (reply, None)
    ensures Contains(reply, Marker) ==> ParseReply(reply).1.Some?
    ensures !Contains(reply, "]") ==> ParseReply(reply).0 == reply
  {
    if Contains(reply, "]") {
    } else {
      ContainsChar(reply, ']');
    }
  }

  /** The first marker of `<p>[DETECTED:<after>` is the one after `p` when `p`
      holds no `[`, so the second piece of the split starts at `after`. */
  lemma MarkerAfter(p: string, after: string)
    requires forall i :: 0 <= i < |p| ==> p[i] != '['
    ensures Contains(p + Marker + after, Marker)
    ensures Split(p + Marker + after, Marker)[1] == Split(after, Marker)[0]
  {
    var reply := p + Marker + after;
    FirstIndexAfter(p, Marker, after);
    assert reply[|p| + |Marker|..] == after;
  }

  /** The text after the marker, cut at the next marker and then at the next
      `]`, is `d` when `d` holds no bracket. */
  lemma DetectedPart(d: string, rest: string)
    requires forall i :: 0 <= i < |d| ==> d[i] != '[' && d[i] != ']'
    ensures Split(Split(d + "]" + rest, Marker)[0], "]")[0] == d
  {
    FirstPieceStarts(d, rest);
    CutAtBracket(d, Split(d + "]" + rest, Marker)[0]);
  }

  /** The text before the next marker still starts with `d]`. */
  lemma FirstPieceStarts(d: string, rest: string)
    requires forall i :: 0 <= i < |d| ==> d[i] != '['
    ensures var piece := Split(d + "]" + rest, Marker)[0];
      |d| + 1 <= |piece| && piece[..|d| + 1] == d + "]"
  {
    var after := d + "]" + rest;
    FirstIndexPast(d + "]", rest, Marker);
    match FirstIndex(after, Marker) {
      case None =>
      case Some(k) =>
        assert after[..k][..|d| + 1] == after[..|d| + 1];
    }
  }

  /** A piece starting with `d]`, where `d` holds no `]`, is cut to `d`. */
  lemma CutAtBracket(d: string, piece: string)
    requires forall i :: 0 <= i < |d| ==> d[i] != ']'
    requires |d| + 1 <= |piece| && piece[..|d| + 1] == d + "]"
    ensures Split(piece, "]")[0] == d
  {
    var more := piece[|d| + 1..];
    assert piece == d + "]" + more;
    FirstIndexAfter(d, "]", more);
    assert Split(piece, "]")[0] == piece[..|d|];
  }

  /** With no `]` in `p` or `d`, the first `]` of `<p>[DETECTED:<d>]<rest>` is
      the one after `d`. */
  lemma ClosingBracket(p: string, d: string, rest: string)
    requires forall i :: 0 <= i < |p| ==> p[i] != ']'
    requires forall i :: 0 <= i < |d| ==> d[i] != ']'
    ensures var k := |p| + |Marker| + |d|;
      FirstIndex(p + Marker + d + "]" + rest, "]") == Some(k) && (p + Marker + d + "]" + rest)[k + 1..] == rest
  {
    var head := p + Marker + d;
    forall i | 0 <= i < |head|
      ensures head[i] != ']'
    {
      if i < |p| {
        assert head[i] == p[i];
      } else if i < |p| + |Marker| {
        assert head[i] == Marker[i - |p|];
      } else {
        assert head[i] == d[i - |p| - |Marker|];
      }
    }
    FirstIndexAfter(head, "]", rest);
  }

  /** A reply of the form `<p>[DETECTED:<d>]<rest>`, where neither `p` nor `d`
      holds a bracket, gives the trimmed `d` as the language and the trimmed
      `rest` as the translation. */
  lemma WellFormedReply(p: string, d: string, rest: string)
    requires forall i :: 0 <= i < |p| ==> p[i] != '[' && p[i] != ']'
    requires forall i :: 0 <= i < |d| ==> d[i] != '[' && d[i] != ']'
    ensures ParseReply(p + Marker + d + "]" + rest) == (Strip(rest), Some(Strip(d)))
  {
    var after := d + "]" + rest;
    assert p + Marker + d + "]" + rest == p + Marker + after;
    MarkerAfter(p, after);
    DetectedPart(d, rest);
    ClosingBracket(p, d, rest);
  }

  /** A marker that is never closed: the translation is the raw reply and the
      detected language is the trimmed text after the first marker (up to
      any second marker). */
  lemma UnclosedMarker(reply: string)
    requires Contains(reply, Marker) && !Contains(reply, "]")
    ensures ParseReply(reply) == (reply, Some(Strip(Split(reply, Marker)[1])))
  {
    var piece := Split(reply, Marker)[1];
    ContainsChar(reply, ']');
    SplitKeepsOut(reply, Marker, ']');
    assert piece in Split(reply, Marker);
    ContainsChar(piece, ']');
    assert Split(piece, "]") == [piece];
  }

  /** A `]` before the marker closes nothing: the text is cut after that
      first `]`, so the translation keeps the marker, and a language is
      still reported. */
  lemma {:induction false} BracketBeforeMarker(p: string, after: string)
    requires ']' in p
    ensures Contains(ParseReply(p + Marker + after).0, Marker)
    ensures ParseReply(p + Marker + after).1.Some?
  {
    var reply := p + Marker + after;
    ContainsMiddle(p, Marker, after);
    BracketInside(p, Marker + after);
    assert reply == p + (Marker + after);
    assert reply[|p|..|p| + |Marker|] == Marker;
    var k := FirstIndex(reply, "]").value;
    MarkerKept(reply, k, |p|);
    AfterBracketAt(reply, k);
  }

  /** A marker after position `k` survives the cut at `k` and the trim. */
  lemma {:induction false} MarkerKept(reply: string, k: nat, j: nat)
    requires k < j && OccursAt(reply, Marker, j)
    ensures Contains(Strip(reply[k + 1..]), Marker)
  {
    OccursAfterCut(reply, Marker, k, j);
    StripKeeps(reply[k + 1..], Marker, j - k - 1);
  }

  /** With its first `]` at `k`, a reply keeps what follows `k`, trimmed. */
  lemma {:induction false} AfterBracketAt(reply: string, k: nat)
    requires FirstIndex(reply, "]") == Some(k)
    ensures k < |reply|
    ensures AfterBracket(reply) == Strip(reply[k + 1..])
  {
    assert OccursAt(reply, "]", k);
  }

  /** An occurrence past position `k` is still there once the text up to `k`
      is cut off. */
  lemma OccursAfterCut(s: string, t: string, k: nat, j: nat)
    requires k < j && OccursAt(s, t, j)
    ensures OccursAt(s[k + 1..], t, j - k - 1)
  {
    assert s[k + 1..][j - k - 1..j - k - 1 + |t|] == s[j..j + |t|];
  }

  /** A `]` in `p` is found before anything that follows `p`. */
  lemma BracketInside(p: string, rest: string)
    requires ']' in p
    ensures FirstIndex(p + rest, "]").Some? && FirstIndex(p + rest, "]").value < |p|
  {
    var j :| 0 <= j < |p| && p[j] == ']';
    assert (p + rest)[j..j + 1] == "]";
    assert OccursAt(p + rest, "]", j);
  }


  /** How one response is treated at an attempt; `last` says whether it is the
      final attempt of the budget. */
  datatype Step = Final(outcome: Outcome) | Retry

  /** A response the loop retries: anything but a 404 or a reply, unless the
      attempt is the last. */
  predicate Retryable(response: Response, last: bool) {
    !last && !response.Answer? && !(response.Status? && response.code == 404)
  }

  /** The outcome a response ends the call with when it is not retried. */
  function FinalOutcome(response: Response, modelId: string): Outcome {
    match response
    case Status(code) =>
      if code == 404 then Failed(NotFoundMessage(modelId))
      else if code == 429 then Failed(RateLimitMessage)
      else Failed(HttpErrorMessage(code))
    case Raised(message) => Failed(message)
    case Answer(content) =>
      var parsed := ParseReply(content);
      Outcome(Some(parsed.0), parsed.1, None)
  }

  function Classify(response: Response, modelId: string, last: bool): Step {
    if Retryable(response, last) then Retry else Final(FinalOutcome(response, modelId))
  }

  /** The attempts from `attempt` on, as a reference for the retry loop. */
  function Attempts(net: nat -> Response, modelId: string, retryCount: nat, attempt: nat): Call
    decreases retryCount - attempt
  {
    if attempt >= retryCount then Call(Failed(ExhaustedMessage), 0, [])
    else
      var wait := if attempt > 0 then [Backoff(attempt)] else [];
      match Classify(net(attempt), modelId, attempt == retryCount - 1)
      case Final(o) => Call(o, 1, wait)
      case Retry =>
        var rest := Attempts(net, modelId, retryCount, attempt + 1);
        Call(rest.outcome, rest.requests + 1, wait + rest.backoffs)
  }

  /** The loop runs until the first attempt whose response is final: every
      earlier response was a retryable failure, the call makes at least one
      and at most `retryCount` requests, and the last response decides the
      outcome. */
  lemma CallShape(net: nat -> Response, modelId: string, retryCount: nat, attempt: nat)
    requires attempt < retryCount
    ensures var c := Attempts(net, modelId, retryCount, attempt);
      && 1 <= c.requests <= retryCount - attempt
      && (forall k :: attempt <= k < attempt + c.requests - 1 ==> Classify(net(k), modelId, k == retryCount - 1) == Retry)
      && Classify(net(attempt + c.requests - 1), modelId, attempt + c.requests - 1 == retryCount - 1) == Final(c.outcome)
  {
    CallRequests(net, modelId, retryCount, attempt);
    CallRetries(net, modelId, retryCount, attempt);
    CallFinal(net, modelId, retryCount, attempt);
  }

  /** A call makes at least one request and at most one per attempt left. */
  lemma {:induction false} CallRequests(net: nat -> Response, modelId: string, retryCount: nat, attempt: nat)
    requires attempt < retryCount
    ensures 1 <= Attempts(net, modelId, retryCount, attempt).requests <= retryCount - attempt
    decreases retryCount - attempt
  {
    if Classify(net(attempt), modelId, attempt == retryCount - 1) == Retry {
      assert attempt < retryCount - 1;
      CallRequests(net, modelId, retryCount, attempt + 1);
    }
  }

  /** Every request but the last got a response the loop retries. */
  lemma {:induction false} CallRetries(net: nat -> Response, modelId: string, retryCount: nat, attempt: nat)
    requires attempt < retryCount
    ensures var c := Attempts(net, modelId, retryCount, attempt);
      forall k :: attempt <= k < attempt + c.requests - 1 ==> Classify(net(k), modelId, k == retryCount - 1) == Retry
    decreases retryCount - attempt
  {
    if Classify(net(attempt), modelId, attempt == retryCount - 1) == Retry {
      assert attempt < retryCount - 1;
      CallRetries(net, modelId, retryCount, attempt + 1);
    }
  }

  /** The last request decides the outcome. */
  lemma {:induction false} CallFinal(net: nat -> Response, modelId: string, retryCount: nat, attempt: nat)
    requires attempt < retryCount
    ensures var c := Attempts(net, modelId, retryCount, attempt);
      Classify(net(attempt + c.requests - 1), modelId, attempt + c.requests - 1 == retryCount - 1) == Final(c.outcome)
    decreases retryCount - attempt
  {
    if Classify(net(attempt), modelId, attempt == retryCount - 1) == Retry {
      assert attempt < retryCount - 1;
      CallFinal(net, modelId, retryCount, attempt + 1);
    }
  }

  /** A 404 ends the call on the spot: one request, no backoff, the "not
      found" error. */
  lemma NotFoundStopsAtOnce(net: nat -> Response, modelId: string, retryCount: nat)
    requires retryCount > 0 && net(0) == Status(404)
    ensures Attempts(net, modelId, retryCount, 0) == Call(Failed(NotFoundMessage(modelId)), 1, [])
  {
  }

  /** A 429 on every attempt uses up the whole budget and ends with the rate
      limit error. */
  lemma {:induction false} PersistentRateLimit(net: nat -> Response, modelId: string, retryCount: nat, attempt: nat)
    requires attempt < retryCount
    requires forall k :: net(k) == Status(429)
    ensures Attempts(net, modelId, retryCount, attempt).requests == retryCount - attempt
    ensures Attempts(net, modelId, retryCount, attempt).outcome == Failed(RateLimitMessage)
    decreases retryCount - attempt
  {
    if attempt < retryCount - 1 {
      PersistentRateLimit(net, modelId, retryCount, attempt + 1);
    }
  }

  /** From a later attempt on, every request is preceded by its backoff. */
  lemma {:induction false} LaterBackoffs(net: nat -> Response, modelId: string, retryCount: nat, attempt: nat)
    requires 0 < attempt
    ensures var c := Attempts(net, modelId, retryCount, attempt);
      |c.backoffs| == c.requests && forall j :: 0 <= j < |c.backoffs| ==> c.backoffs[j] == Backoff(attempt + j)
    decreases retryCount - attempt
  {
    if attempt < retryCount && Classify(net(attempt), modelId, attempt == retryCount - 1) == Retry {
      LaterBackoffs(net, modelId, retryCount, attempt + 1);
    }
  }

  /** The first attempt is not delayed; the k-th retry (attempt k > 0) is
      preceded by a sleep of 10 * (k + 1) seconds, so the delays run 20, 30,
      ... and there is one fewer of them than requests. */
  lemma BackoffSchedule(net: nat -> Response, modelId: string, retryCount: nat)
    requires retryCount > 0
    ensures var c := Attempts(net, modelId, retryCount, 0);
      && |c.backoffs| == c.requests - 1
      && forall j :: 0 <= j < |c.backoffs| ==> c.backoffs[j] == 10 * (j + 2)
  {
    if Classify(net(0), modelId, 0 == retryCount - 1) == Retry {
      LaterBackoffs(net, modelId, retryCount, 1);
    }
  }

  /** The body of one attempt: the status checks, then the reply parse; a
      retryable failure on an attempt that is not the last asks for the next
      attempt. */
  method HandleResponse(response: Response, modelId: string, last: bool) returns (step: Step)
    ensures step == Classify(response, modelId, last)
  {
    match response {
      case Status(code) =>
        if code == 404 {
          return Final(Failed(NotFoundMessage(modelId)));
        } else if code == 429 {
          if !last {
            return Retry;
          }
          return Final(Failed(RateLimitMessage));
        }
        // raise_for_status() raises HTTPError
        if !last {
          return Retry;
        }
        return Final(Failed(HttpErrorMessage(code)));
      case Raised(message) =>
        if !last {
          return Retry;
        }
        return Final(Failed(message));
      case Answer(content) =>
        var parsed := ParseReply(content);
        return Final(Outcome(Some(parsed.0), parsed.1, None));
    }
  }

  /** `translate_image`'s retry loop. */
  method TranslateImage(net: nat -> Response, modelId: string, retryCount: nat)
    returns (outcome: Outcome, requests: nat, backoffs: seq<nat>)
    ensures Call(outcome, requests, backoffs) == Attempts(net, modelId, retryCount, 0)
  {
    var attempt: nat := 0;
    requests, backoffs := 0, [];
    while attempt < retryCount
      invariant requests == attempt
      invariant var rest := Attempts(net, modelId, retryCount, attempt);
        Attempts(net, modelId, retryCount, 0) == Call(rest.outcome, requests + rest.requests, backoffs + rest.backoffs)
      decreases retryCount - attempt
    {
      if attempt > 0 {
        backoffs := backoffs + [Backoff(attempt)];
      }
      var step := HandleResponse(net(attempt), modelId, attempt == retryCount - 1);
      requests := requests + 1;
      if step.Final? {
        outcome := step.outcome;
        return;
      }
      attempt := attempt + 1;
    }
    outcome := Failed(ExhaustedMessage);
  }
}
