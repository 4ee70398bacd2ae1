/** Which answers of a node are followed by another post (native/adapters/shared/fallback_node_delivery.h), told from
    the answers alone. */
module NodeRetries {
  import opened NodeDelivery

  predicate Says(a: Answer, words: set<Word>) {
    a.Answer? && a.outcome in words
  }

  /** The words a node has for an end. */
  const FINAL_WORDS: set<Word> := {"authorized", "replayed-execution", "no-coordinator-key"}

  predicate IsRateLimit(a: Answer) {
    Says(a, {"rate-limited"})
  }

  predicate IsMissing(a: Answer) {
    Says(a, {"program-not-installed", "program-not-current"})
  }

  /** Silence, a node that is not ready, or a server error with no word that says more. */
  predicate IsPassing(a: Answer) {
    || a.NoAnswer?
    || Says(a, {"storage-unavailable", "not-ready"})
    || (500 <= a.status <= 599 && !Says(a, FINAL_WORDS) && !IsRateLimit(a) && !IsMissing(a))
  }

  /** The n-th answer is followed by another post: what may pass, before the third; and a rate limit or a missing
      program, the first time. */
  ghost predicate Retried(w: World, n: nat)
    requires n > 0
  {
    var a := w.answer(n - 1);
    || (IsPassing(a) && n < 3)
    || (IsRateLimit(a) && forall j: nat | j < n - 1 :: !IsRateLimit(w.answer(j)))
    || (IsMissing(a) && forall j: nat | j < n - 1 :: !IsMissing(w.answer(j)))
  }

  lemma ClassIs(a: Answer)
    ensures Classify(a).Transient? <==> IsPassing(a)
    ensures Classify(a).RateLimited? <==> IsRateLimit(a)
    ensures Classify(a).ProgramMissing? <==> IsMissing(a)
    ensures Classify(a).Authorized? <==> Says(a, {"authorized"})
    ensures Classify(a).Replayed? <==> Says(a, {"replayed-execution"})
  {
  }

  /** Nothing comes in the way of a delivery: no cutoff, and no stop. */
  ghost predicate Undisturbed(w: World, cutoff: int) {
    (forall i :: w.clock(i) < cutoff) && forall i, millis :: w.pause(i, millis)
  }

  /** What the loop keeps is what the answers so far say. */
  ghost predicate KeptFrom(w: World, p: Progress) {
    && (p.rateLimitedRetryUsed <==> exists j: nat :: j < p.attempts && IsRateLimit(w.answer(j)))
    && (p.programResent <==> exists j: nat :: j < p.attempts && IsMissing(w.answer(j)))
  }

  /** From here on each answer but the last is retried, and the last is not. */
  lemma {:induction false} PostsFrom(w: World, body: seq<int>, cutoff: int, p: Progress)
    requires Bounded(p) && Undisturbed(w, cutoff) && KeptFrom(w, p)
    ensures var n := Deliver(w, body, cutoff, p).result.attempts;
            && n > p.attempts && !Retried(w, n)
            && (forall k: nat | p.attempts < k < n :: Retried(w, k))
            && Deliver(w, body, cutoff, p).result.outcome == OutcomeOf(w.answer(n - 1))
    decreases 5 - p.attempts
  {
    hide Classify, IsPassing, IsRateLimit, IsMissing, OutcomeOf;
    var n := p.attempts + 1;
    var answer := w.answer(p.attempts);
    var q := p.(attempts := n, looks := p.looks + 1);
    ClassIs(answer);
    EndIs(answer);
    assert w.clock(p.looks) < cutoff && w.clock(q.looks) < cutoff;
    assert w.pause(q.pauses, TRANSIENT_GAP) && w.pause(q.pauses, RATE_LIMITED_GAP);
    RetriedIff(w, p);
    if Retried(w, n) {
      var next := if Classify(answer).Transient? then q.(pauses := q.pauses + 1)
                  else if Classify(answer).RateLimited?
                  then q.(rateLimitedRetryUsed := true, pauses := q.pauses + 1)
                  else q.(programResent := true, looks := q.looks + 1);
      KeptNext(w, p, next);
      PostsFrom(w, body, cutoff, next);
    }
  }

  lemma RetriedIff(w: World, p: Progress)
    requires KeptFrom(w, p)
    ensures var a := w.answer(p.attempts);
            Retried(w, p.attempts + 1) <==>
            || (Classify(a).Transient? && p.attempts + 1 < 3)
            || (Classify(a).RateLimited? && !p.rateLimitedRetryUsed)
            || (Classify(a).ProgramMissing? && !p.programResent)
  {
    ClassIs(w.answer(p.attempts));
    hide Classify, IsPassing, IsRateLimit, IsMissing;
  }

  lemma KeptNext(w: World, p: Progress, next: Progress)
    requires KeptFrom(w, p) && next.attempts == p.attempts + 1
    requires next.rateLimitedRetryUsed <==> p.rateLimitedRetryUsed || IsRateLimit(w.answer(p.attempts))
    requires next.programResent <==> p.programResent || IsMissing(w.answer(p.attempts))
    ensures KeptFrom(w, next)
  {
    hide IsRateLimit, IsMissing;
  }

  /** How a delivery ends on an answer that is not retried: with the node's own word, the word of a first outcome for a
      replay, and this player's words where the node had none. */
  function OutcomeOf(a: Answer): Word {
    if a.NoAnswer? then "no-response"
    else if a.outcome == "" then "unrecognized-answer"
    else if a.outcome == "replayed-execution" then if a.firstOutcome == "" then "unknown" else a.firstOutcome
    else a.outcome
  }

  lemma EndIs(a: Answer)
    ensures OutcomeOf(a) == if !Classify(a).Replayed? then Described(a)
                            else if a.firstOutcome == "" then "unknown" else a.firstOutcome
  {
  }

  /** An undisturbed delivery posts once more behind each answer that is retried, and ends on the first that is not,
      with its word. */
  lemma PostsAreRetries(w: World, body: seq<int>, cutoff: int)
    requires Undisturbed(w, cutoff)
    ensures var d := Deliver(w, body, cutoff, START);
            var n := Posts(d.requests);
            && n > 0 && (forall k: nat | 0 < k < n :: Retried(w, k)) && !Retried(w, n)
            && d.result.outcome == OutcomeOf(w.answer(n - 1))
  {
    hide Deliver, Retried, OutcomeOf;
    EveryDeliveryEnds(w, body, cutoff);
    PostsFrom(w, body, cutoff, START);
  }

  /** Where a pause does not run its course, nothing is posted behind it: a quarter of a second behind what may pass,
      and a whole one behind a rate limit. And nothing is, behind a cutoff. */
  lemma StopsAtPause(w: World, body: seq<int>, cutoff: int)
    ensures var d := Deliver(w, body, cutoff, START);
            && (w.clock(0) >= cutoff ==> d == Delivery([], Result("cutoff-passed", false, 0, false)))
            && (w.clock(0) < cutoff && ((IsPassing(w.answer(0)) && !w.pause(0, 250)) ||
                                        (IsRateLimit(w.answer(0)) && !w.pause(0, 1000))) ==>
                  d == Delivery([Post(body, w.clock(0))], Result("plugin-stopping", false, 1, false)))
  {
    hide Classify, IsPassing, IsRateLimit, IsMissing;
    ClassIs(w.answer(0));
  }

  /** A missing program is handed over before the next post. */
  lemma HandsProgramFirst(w: World, body: seq<int>, cutoff: int)
    requires IsMissing(w.answer(0)) && w.clock(0) < cutoff && w.clock(1) < cutoff
    ensures var d := Deliver(w, body, cutoff, START);
            |d.requests| > 1 && d.requests[0] == Post(body, w.clock(0)) && d.requests[1] == HandProgram(w.clock(1))
  {
    hide Classify, IsPassing, IsRateLimit, IsMissing;
    ClassIs(w.answer(0));
    FirstPost(w, body, cutoff);
    var q := Progress(1, false, false, 1, 0);
    FirstHand(w, body, cutoff, q, w.answer(0));
    hide Deliver, AfterAnswer;
  }

  lemma FirstPost(w: World, body: seq<int>, cutoff: int)
    requires w.clock(0) < cutoff
    ensures Deliver(w, body, cutoff, START) ==
            Sending(Post(body, w.clock(0)), AfterAnswer(w, body, cutoff, Progress(1, false, false, 1, 0), w.answer(0)))
  {
    hide AfterAnswer;
  }

  lemma FirstHand(w: World, body: seq<int>, cutoff: int, q: Progress, a: Answer)
    requires q.attempts > 0 && Bounded(q.(attempts := q.attempts - 1)) && Classify(a).ProgramMissing?
    requires !q.programResent && w.clock(q.looks) < cutoff
    ensures AfterAnswer(w, body, cutoff, q, a) ==
            Sending(HandProgram(w.clock(q.looks)),
                    Deliver(w, body, cutoff, q.(programResent := true, looks := q.looks + 1)))
  {
    hide Classify, Deliver;
  }
}
