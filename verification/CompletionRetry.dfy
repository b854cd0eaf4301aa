/** One completion over direct HTTP: retries, a doubled token cap, and the analysis deadline. */
module CompletionRetry {
  import opened Wrappers

  /** The usable text of a reply. */
  type Answer(==, 0)

  /** A decoded reply: whether the cap cut it off, and what can be read from it. */
  datatype Body = Body(truncated: bool, answer: Option<Answer>)
  /** What came back; `body` is None when the payload is not an object. */
  datatype Response = Response(ok: bool, status: int, body: Option<Body>)

  datatype Request = Request(sentAt: real, timeout: real, cap: Option<int>, response: Response)

  datatype Outcome = Text(answer: Answer) | HttpError(status: int) | BadShape | Unusable | DeadlinePassed

  const RETRY_STATUSES: set<int> := {0, 429, 500, 502, 503, 504}
  const ATTEMPTS := 3
  const ROUNDS := 2

  predicate Retryable(r: Response) {
    !r.ok && r.status in RETRY_STATUSES
  }

  /** A failed connection counts as status 0. */
  lemma RetryableIff(r: Response)
    ensures Retryable(r) <==> !r.ok && (r.status == 0 || r.status == 429 || r.status == 500 || 502 <= r.status <= 504)
  {
  }

  predicate CutOff(r: Response) {
    r.ok && r.body.Some? && r.body.value.truncated
  }

  /** A reply that was read and says that the cap cut it off. */
  ghost predicate Truncated(r: Response) {
    r.ok && match r.body { case Some(body) => body.truncated case None => false }
  }

  /** Why a request was followed by another: it failed in passing, or its first cap was too small. */
  ghost predicate Follows(cap: Option<int>, earlier: Request, later: Request) {
    || (Retryable(earlier.response) && later.cap == earlier.cap)
    || (Truncated(earlier.response) && earlier.cap == cap && cap.Some? && cap.value != 0
        && later.cap == Some(cap.value * 2))
  }

  /** Sent with time left, and granted no more than that time. */
  ghost predicate InTime(deadline: Option<real>, r: Request) {
    r.timeout > 0.0 && (deadline.Some? ==> r.sentAt + r.timeout <= deadline.value)
  }

  ghost predicate Trace(cap: Option<int>, deadline: Option<real>, sent: seq<Request>) {
    && (sent != [] ==> sent[0].cap == cap)
    && (forall i :: 0 <= i < |sent| ==> InTime(deadline, sent[i]))
    && (forall i :: 0 < i < |sent| ==> Follows(cap, sent[i - 1], sent[i]))
  }

  /** The cap is doubled at most once, and then kept. */
  lemma {:induction false} CapDoublesOnce(cap: Option<int>, deadline: Option<real>, sent: seq<Request>, i: nat)
    requires Trace(cap, deadline, sent) && i < |sent|
    ensures sent[i].cap == cap || (cap.Some? && sent[i].cap == Some(cap.value * 2))
    ensures forall j :: i < j < |sent| && sent[i].cap != cap ==> sent[j].cap == sent[i].cap
    decreases |sent| - i, i
  {
    if 0 < i {
      CapEarlier(cap, deadline, sent, i);
    }
    if i + 1 < |sent| && sent[i].cap != cap {
      assert Follows(cap, sent[i], sent[i + 1]);
      CapDoublesOnce(cap, deadline, sent, i + 1);
    }
  }

  lemma {:induction false} CapEarlier(cap: Option<int>, deadline: Option<real>, sent: seq<Request>, i: nat)
    requires Trace(cap, deadline, sent) && i < |sent|
    ensures sent[i].cap == cap || (cap.Some? && sent[i].cap == Some(cap.value * 2))
  {
    if 0 < i {
      CapEarlier(cap, deadline, sent, i - 1);
      assert Follows(cap, sent[i - 1], sent[i]);
    }
  }

  lemma OneMore(cap: Option<int>, deadline: Option<real>, sent: seq<Request>, r: Request)
    requires Trace(cap, deadline, sent) && InTime(deadline, r)
    requires if sent == [] then r.cap == cap else Follows(cap, sent[|sent| - 1], r)
    ensures Trace(cap, deadline, sent + [r])
  {
  }

  /** The outside world: a clock, and an endpoint that answers within the time it is given. */
  class World {
    var now: real
    ghost var sent: seq<Request>

    constructor (now: real)
      ensures this.now == now && sent == []
    {
      this.now, sent := now, [];
    }

    method Takes(granted: real)
      requires 0.0 <= granted
      modifies this`now
      ensures old(now) <= now <= old(now) + granted
    {
      var spent: real := *;
      if 0.0 <= spent <= granted {
        now := now + spent;
      }
    }

    method Post(timeout: real, cap: Option<int>) returns (response: Response)
      requires 0.0 < timeout
      modifies this`now, this`sent
      ensures old(now) <= now <= old(now) + timeout
      ensures sent == old(sent) + [Request(old(now), timeout, cap, response)]
    {
      response := *;
      sent := sent + [Request(now, timeout, cap, response)];
      Takes(timeout);
    }
  }

  ghost function Latest(start: real, deadline: Option<real>): real
    requires deadline.Some?
  {
    if start < deadline.value then deadline.value else start
  }

  /** Not past the deadline, unless the completion was started after it. */
  ghost predicate OnTime(start: real, deadline: Option<real>, now: real) {
    deadline.Some? ==> now <= Latest(start, deadline)
  }

  /** None when no time is left, else the time a request may take. */
  function RequestTimeout(deadline: Option<real>, configured: real, now: real): (r: Option<real>)
    ensures r.None? <==> deadline.Some? && deadline.value <= now
    ensures r.Some? && deadline.Some? ==> 0.0 < r.value && now + r.value <= deadline.value
    ensures r.Some? && configured > 0.0 ==> r.value <= configured
    ensures r.Some? ==> r.value == configured || (deadline.Some? && r.value == deadline.value - now)
  {
    if deadline.Some? && deadline.value - now <= 0.0 then None
    else if deadline.None? then Some(configured)
    else
      var remaining := deadline.value - now;
      Some(if configured > 0.0 && configured < remaining then configured else remaining)
  }

  function Pause(attempt: nat): real
    requires attempt < ATTEMPTS
  {
    if attempt == 0 then 0.25 else if attempt == 1 then 0.5 else 1.0
  }

  lemma PauseDoubles(attempt: nat)
    requires attempt + 1 < ATTEMPTS
    ensures Pause(0) == 0.25 && Pause(attempt + 1) == 2.0 * Pause(attempt)
  {
  }

  /** No time is left, or none is configured at all. */
  ghost predicate NoTime(deadline: Option<real>, configured: real, now: real) {
    if deadline.Some? then deadline.value <= now else configured <= 0.0
  }

  /** How one round of attempts ended. */
  datatype RoundEnd = Answered(response: Response) | OutOfTime

  /**
   * Up to three attempts with one cap: the first that succeeds, or fails for
   * good, ends the round.
   */
  method Attempts(w: World, start: real, deadline: Option<real>, configured: real, cap: Option<int>,
                  ghost first: Option<int>, ghost before: seq<Request>)
    returns (end: RoundEnd)
    requires OnTime(start, deadline, w.now) && w.sent == before
    requires Trace(first, deadline, before)
    requires if before == [] then cap == first else
      CutOff(before[|before| - 1].response) && before[|before| - 1].cap == first && first.Some? && first.value != 0
          && cap == Some(first.value * 2)
    modifies w`now, w`sent
    ensures OnTime(start, deadline, w.now) && before <= w.sent && |w.sent| <= |before| + ATTEMPTS
    ensures Trace(first, deadline, w.sent)
    ensures forall i :: |before| <= i < |w.sent| ==> w.sent[i].cap == cap
    ensures end.Answered? ==> |before| < |w.sent| && w.sent[|w.sent| - 1].response == end.response
    ensures end.Answered? && Retryable(end.response) ==> |w.sent| == |before| + ATTEMPTS
    ensures end.Answered? ==> forall i :: |before| <= i < |w.sent| - 1 ==> Retryable(w.sent[i].response)
    ensures end.OutOfTime? ==> w.sent == before || Retryable(w.sent[|w.sent| - 1].response)
    ensures end.OutOfTime? ==> NoTime(deadline, configured, w.now)
  {
    var attempt := 0;
    while attempt < ATTEMPTS
      invariant 0 <= attempt < ATTEMPTS
      invariant OnTime(start, deadline, w.now) && before <= w.sent && |w.sent| == |before| + attempt
      invariant Trace(first, deadline, w.sent)
      invariant forall i :: |before| <= i < |w.sent| ==> Retryable(w.sent[i].response)
      invariant forall i :: |before| <= i < |w.sent| ==> w.sent[i].cap == cap
    {
      var timeout := RequestTimeout(deadline, configured, w.now);
      if timeout.None? || timeout.value <= 0.0 {
        return OutOfTime;
      }
      ghost var was := w.sent;
      var response := w.Post(timeout.value, cap);
      OneMore(first, deadline, was, w.sent[|was|]);
      end := Answered(response);
      if !Retryable(response) || attempt == ATTEMPTS - 1 {
        return;
      }
      var jitter: real := *;
      var delay := Pause(attempt) + if 0.0 <= jitter <= 0.1 then jitter else 0.0;
      if deadline.Some? {
        var remaining := deadline.value - w.now;
        if remaining <= 0.0 {
          return OutOfTime;
        }
        delay := if delay < remaining then delay else remaining;
      }
      w.Takes(delay);
      attempt := attempt + 1;
    }
    assert false;
  }

  /** Reads a final reply. */
  function Read(r: Response): Outcome {
    if !r.ok then HttpError(r.status)
    else if r.body.None? then BadShape
    else if r.body.value.answer.None? then Unusable
    else Text(r.body.value.answer.value)
  }

  lemma ReadIs(r: Response)
    ensures forall a :: Read(r) == Text(a) <==> r.ok && r.body.Some? && r.body.value.answer == Some(a)
    ensures forall n :: Read(r) == HttpError(n) <==> !r.ok && r.status == n
    ensures Read(r) == BadShape <==> r.ok && r.body.None?
    ensures Read(r) == Unusable <==> r.ok && r.body.Some? && r.body.value.answer.None?
  {
  }

  /** The last three requests all failed in passing, with one cap. */
  ghost predicate ThreeFailures(sent: seq<Request>) {
    && |sent| >= ATTEMPTS
    && forall i :: |sent| - ATTEMPTS <= i < |sent| ==>
         Retryable(sent[i].response) && sent[i].cap == sent[|sent| - 1].cap
  }

  /** A reply that the cap cut off is accepted only where doubling the cap was impossible or has been tried. */
  ghost predicate Accepted(cap: Option<int>, last: Request) {
    Truncated(last.response) ==> cap.None? || cap.value == 0 || last.cap == Some(cap.value * 2)
  }

  /**
   * A completion. With a deadline it returns by the deadline, or at once when
   * that has passed; it never sends more than six requests, and every request
   * is sent in time and for a reason. It gives up only when no time is left, on
   * a failure that retrying cannot mend, or after three that it could.
   */
  method Complete(w: World, deadline: Option<real>, configured: real, maxTokens: Option<int>, defaultCap: int)
    returns (outcome: Outcome, ghost cap: Option<int>)
    requires w.sent == []
    modifies w`now, w`sent
    ensures OnTime(old(w.now), deadline, w.now)
    ensures |w.sent| <= 6
    ensures cap == if maxTokens.None? && 0 < defaultCap then Some(defaultCap) else maxTokens
    ensures Trace(cap, deadline, w.sent)
    ensures outcome != DeadlinePassed ==> w.sent != [] && outcome == Read(w.sent[|w.sent| - 1].response)
    ensures outcome == DeadlinePassed ==>
            w.sent == [] || Retryable(w.sent[|w.sent| - 1].response) || Truncated(w.sent[|w.sent| - 1].response)
    ensures outcome == DeadlinePassed ==> NoTime(deadline, configured, w.now)
    ensures outcome != DeadlinePassed ==> Accepted(cap, w.sent[|w.sent| - 1])
    ensures outcome != DeadlinePassed && Retryable(w.sent[|w.sent| - 1].response) ==> ThreeFailures(w.sent)
    ensures deadline.Some? && deadline.value <= old(w.now) ==> outcome == DeadlinePassed && w.sent == []
  {
    var start := w.now;
    var tokens := if maxTokens.None? && 0 < defaultCap then Some(defaultCap) else maxTokens;
    cap := tokens;
    if deadline.Some? && deadline.value - w.now <= 0.0 {
      return DeadlinePassed, cap;
    }
    var round := 0;
    while round < ROUNDS
      invariant 0 <= round < ROUNDS && OnTime(start, deadline, w.now)
      invariant Trace(cap, deadline, w.sent) && |w.sent| <= round * ATTEMPTS
      invariant round == 0 ==> tokens == cap && w.sent == []
      invariant 0 < round ==> w.sent != [] && CutOff(w.sent[|w.sent| - 1].response) && w.sent[|w.sent| - 1].cap == cap
      invariant 0 < round ==> cap.Some? && cap.value != 0 && tokens == Some(cap.value * 2)
    {
      var end := Attempts(w, start, deadline, configured, tokens, cap, w.sent);
      if end.OutOfTime? {
        return DeadlinePassed, cap;
      }
      if round != 0 || !CutOff(end.response) || tokens.None? || tokens.value == 0 {
        return Read(end.response), cap;
      }
      tokens := Some(tokens.value * 2);
      round := round + 1;
    }
    assert false;
  }
}
