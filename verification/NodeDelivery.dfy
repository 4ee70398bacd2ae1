/** One activation's delivery to one node (native/adapters/shared/fallback_node_delivery.h): the retry table, against
    any node, any clock and any interruption. */
module NodeDelivery {

  type Word = string

  const AUTHORIZED: Word := "authorized"
  const NO_RESPONSE: Word := "no-response"
  const UNRECOGNIZED: Word := "unrecognized-answer"
  const STOPPED: Word := "plugin-stopping"
  const CUTOFF_PASSED: Word := "cutoff-passed"

  const TRANSIENT_ATTEMPT_LIMIT := 3
  const TRANSIENT_GAP := 250
  const RATE_LIMITED_GAP := 1000

  /** One answer of a node; the words are empty where it gave none. */
  datatype Answer = NoAnswer | Answer(status: int, outcome: Word, firstOutcome: Word)

  datatype AnswerClass = Authorized | Replayed | Transient | RateLimited | ProgramMissing | Final

  function Classify(a: Answer): (c: AnswerClass)
    ensures c.Replayed? ==> a.Answer?
  {
    if a.NoAnswer? then Transient
    else if a.outcome == AUTHORIZED then Authorized
    else if a.outcome == "replayed-execution" then Replayed
    else if a.outcome == "rate-limited" then RateLimited
    else if a.outcome == "program-not-installed" || a.outcome == "program-not-current" then ProgramMissing
    else if a.outcome == "storage-unavailable" || a.outcome == "not-ready" then Transient
    else if a.outcome == "no-coordinator-key" then Final
    else if 500 <= a.status <= 599 then Transient
    else Final
  }

  /** DescribeNodeAnswer: the node's own word, or this player's. */
  function Described(a: Answer): Word {
    if a.NoAnswer? then NO_RESPONSE else if a.outcome != "" then a.outcome else UNRECOGNIZED
  }

  /** Everything a delivery cannot foresee: what the node answers to each post, what the clock says at each look, and
      whether each pause, given its length, runs its course. */
  datatype World = World(answer: nat -> Answer, clock: nat -> int, pause: (nat, int) -> bool)

  datatype Request = Post(body: seq<int>, at: int) | HandProgram(at: int)

  /** Where the loop stands. */
  datatype Progress = Progress(attempts: nat, rateLimitedRetryUsed: bool, programResent: bool, looks: nat, pauses: nat)

  const START := Progress(0, false, false, 0, 0)

  datatype Result = Result(outcome: Word, replayed: bool, attempts: nat, programResent: bool)

  /** The requests a delivery makes from here, and how it ends. */
  datatype Delivery = Delivery(requests: seq<Request>, result: Result)

  /** Each kind of retry is granted once, and silence three attempts in all. */
  ghost predicate Bounded(p: Progress) {
    p.attempts <= 2 + (if p.rateLimitedRetryUsed then 1 else 0) + (if p.programResent then 1 else 0)
  }

  function Ended(p: Progress, outcome: Word): Delivery {
    Delivery([], Result(outcome, false, p.attempts, p.programResent))
  }

  function Sending(r: Request, rest: Delivery): Delivery {
    Delivery([r] + rest.requests, rest.result)
  }

  /** DeliverActivation, from a point of its loop. */
  function Deliver(w: World, body: seq<int>, cutoff: int, p: Progress): Delivery
    requires Bounded(p)
    decreases 5 - p.attempts, 0
  {
    var at := w.clock(p.looks);
    if at >= cutoff then Ended(p, CUTOFF_PASSED)
    else
      var answer := w.answer(p.attempts);
      var q := p.(attempts := p.attempts + 1, looks := p.looks + 1);
      Sending(Post(body, at), AfterAnswer(w, body, cutoff, q, answer))
  }

  function AfterAnswer(w: World, body: seq<int>, cutoff: int, q: Progress, answer: Answer): Delivery
    requires q.attempts > 0 && Bounded(q.(attempts := q.attempts - 1))
    decreases 5 - q.attempts, 1
  {
    match Classify(answer)
    case Authorized => Ended(q, Described(answer))
    case Replayed =>
      Delivery([], Result(if answer.firstOutcome == "" then "unknown" else answer.firstOutcome, true, q.attempts,
                          q.programResent))
    case Transient =>
      if q.attempts >= TRANSIENT_ATTEMPT_LIMIT then Ended(q, Described(answer))
      else if !w.pause(q.pauses, TRANSIENT_GAP) then Ended(q, STOPPED)
      else Deliver(w, body, cutoff, q.(pauses := q.pauses + 1))
    case RateLimited =>
      if q.rateLimitedRetryUsed then Ended(q, Described(answer))
      else if !w.pause(q.pauses, RATE_LIMITED_GAP) then Ended(q, STOPPED)
      else Deliver(w, body, cutoff, q.(rateLimitedRetryUsed := true, pauses := q.pauses + 1))
    case ProgramMissing =>
      if q.programResent then Ended(q, Described(answer))
      else
        var at := w.clock(q.looks);
        if at >= cutoff then Ended(q, CUTOFF_PASSED)
        else Sending(HandProgram(at), Deliver(w, body, cutoff, q.(programResent := true, looks := q.looks + 1)))
    case Final => Ended(q, Described(answer))
  }

  /* ---- What every delivery keeps ---- */

  function Posts(requests: seq<Request>): nat {
    if requests == [] then 0 else (if requests[0].Post? then 1 else 0) + Posts(requests[1..])
  }

  function Hands(requests: seq<Request>): nat {
    if requests == [] then 0 else (if requests[0].HandProgram? then 1 else 0) + Hands(requests[1..])
  }

  /** Each request left before the cutoff, and every post carries the one signed body. */
  ghost predicate Permitted(requests: seq<Request>, body: seq<int>, cutoff: int) {
    forall r :: r in requests ==> r.at < cutoff && (r.Post? ==> r.body == body)
  }

  lemma SendingAdds(r: Request, rest: Delivery, body: seq<int>, cutoff: int)
    requires Permitted(rest.requests, body, cutoff) && r.at < cutoff && (r.Post? ==> r.body == body)
    ensures var d := Sending(r, rest);
            && Posts(d.requests) == Posts(rest.requests) + (if r.Post? then 1 else 0)
            && Hands(d.requests) == Hands(rest.requests) + (if r.HandProgram? then 1 else 0)
            && Permitted(d.requests, body, cutoff)
  {
    assert ([r] + rest.requests)[1..] == rest.requests;
  }

  /** The answer says so: authorized, or a replay whose first outcome was. */
  ghost predicate GrantsIt(a: Answer) {
    Classify(a).Authorized? || (Classify(a).Replayed? && a.firstOutcome == AUTHORIZED)
  }

  ghost predicate WellEnded(w: World, body: seq<int>, cutoff: int, p: Progress, d: Delivery) {
    && Permitted(d.requests, body, cutoff)
    && p.attempts <= d.result.attempts == p.attempts + Posts(d.requests) <= 5
    && Hands(d.requests) <= (if p.programResent then 0 else 1)
    && (d.result.programResent <==> p.programResent || Hands(d.requests) == 1)
  }

  /** The answer to the last of some posts grants it. */
  ghost predicate LastGrants(w: World, posts: nat) {
    posts > 0 && GrantsIt(w.answer(posts - 1))
  }

  lemma {:induction false} DeliveryEndsWell(w: World, body: seq<int>, cutoff: int, p: Progress)
    requires Bounded(p)
    ensures WellEnded(w, body, cutoff, p, Deliver(w, body, cutoff, p))
    ensures var d := Deliver(w, body, cutoff, p);
            d.result.outcome == AUTHORIZED <==> d.requests != [] && LastGrants(w, d.result.attempts)
    decreases 5 - p.attempts, 0
  {
    hide Classify, AfterAnswer, Permitted, Posts, Hands;
    var at := w.clock(p.looks);
    if at >= cutoff {
      NothingSent(body, cutoff);
    } else {
      var q := p.(attempts := p.attempts + 1, looks := p.looks + 1);
      AnswerEndsWell(w, body, cutoff, q);
      SendingAdds(Post(body, at), AfterAnswer(w, body, cutoff, q, w.answer(p.attempts)), body, cutoff);
    }
  }

  lemma NothingSent(body: seq<int>, cutoff: int)
    ensures Permitted([], body, cutoff) && Posts([]) == 0 && Hands([]) == 0
  {
  }

  lemma {:induction false} AnswerEndsWell(w: World, body: seq<int>, cutoff: int, q: Progress)
    requires q.attempts > 0 && Bounded(q.(attempts := q.attempts - 1))
    ensures WellEnded(w, body, cutoff, q, AfterAnswer(w, body, cutoff, q, w.answer(q.attempts - 1)))
    ensures var d := AfterAnswer(w, body, cutoff, q, w.answer(q.attempts - 1));
            d.result.outcome == AUTHORIZED <==> LastGrants(w, d.result.attempts)
    decreases 5 - q.attempts, 1
  {
    hide Deliver, Permitted, Posts, Hands, Described;
    NothingSent(body, cutoff);
    var answer := w.answer(q.attempts - 1);
    DescribedIsAuthorized(answer);
    match Classify(answer)
    case Transient =>
      if q.attempts < TRANSIENT_ATTEMPT_LIMIT {
        DeliveryEndsWell(w, body, cutoff, q.(pauses := q.pauses + 1));
      }
    case RateLimited =>
      if !q.rateLimitedRetryUsed {
        DeliveryEndsWell(w, body, cutoff, q.(rateLimitedRetryUsed := true, pauses := q.pauses + 1));
      }
    case ProgramMissing =>
      if !q.programResent {
        var at := w.clock(q.looks);
        var next := q.(programResent := true, looks := q.looks + 1);
        if at < cutoff {
          DeliveryEndsWell(w, body, cutoff, next);
          SendingAdds(HandProgram(at), Deliver(w, body, cutoff, next), body, cutoff);
        }
      }
    case _ =>
  }

  lemma DescribedIsAuthorized(a: Answer)
    ensures Described(a) == AUTHORIZED <==> Classify(a).Authorized?
  {
  }

  /** Under any node, clock and interruption a delivery ends after at most five posts of one body and at most one
      hand-off of the program, each behind a look at the clock that was before the cutoff, and succeeds exactly if
      the node's answer to the last post said so. */
  lemma EveryDeliveryEnds(w: World, body: seq<int>, cutoff: int)
    ensures var d := Deliver(w, body, cutoff, START);
            && Permitted(d.requests, body, cutoff)
            && d.result.attempts == Posts(d.requests) <= 5
            && Hands(d.requests) <= 1
            && (d.result.outcome == AUTHORIZED <==> LastGrants(w, Posts(d.requests)))
  {
    hide Deliver, Permitted, Hands, GrantsIt;
    DeliveryEndsWell(w, body, cutoff, START);
  }

  /** A node that makes a delivery use every retry there is. */
  function Stubborn(last: Answer, clock: nat -> int): World {
    World(n => if n < 2 then NoAnswer else if n == 2 then Answer(429, "rate-limited", "")
               else if n == 3 then Answer(409, "program-not-installed", "") else last, clock, (_, _) => true)
  }

  lemma StubbornClasses(last: Answer, clock: nat -> int)
    ensures var w := Stubborn(last, clock);
            && Classify(w.answer(0)).Transient? && Classify(w.answer(1)).Transient?
            && Classify(w.answer(2)).RateLimited? && Classify(w.answer(3)).ProgramMissing?
            && w.clock == clock && forall i, millis :: w.pause(i, millis)
  {
  }

  /** Five posts do happen: two silences, a rate limit, a missing program, and then whatever the node answers last. */
  lemma FiveIsReached(body: seq<int>, clock: nat -> int, cutoff: int, last: Answer)
    requires forall i :: clock(i) < cutoff
    ensures var d := Deliver(Stubborn(last, clock), body, cutoff, START);
            d.result.attempts == 5 && d.result.programResent
  {
    hide Classify, Stubborn;
    var w := Stubborn(last, clock);
    StubbornClasses(last, clock);
    var p1, p2 := Progress(1, false, false, 1, 1), Progress(2, false, false, 2, 2);
    var p3, p4 := Progress(3, true, false, 3, 3), Progress(4, true, true, 5, 3);
    assert Deliver(w, body, cutoff, p4).result.attempts == 5;
    assert Deliver(w, body, cutoff, p3).result == Deliver(w, body, cutoff, p4).result;
    assert Deliver(w, body, cutoff, p2).result == Deliver(w, body, cutoff, p3).result;
    assert Deliver(w, body, cutoff, p1).result == Deliver(w, body, cutoff, p2).result;
  }

  /* ---- The loop itself ---- */

  /** One row of the retry table: either the delivery is over, or it goes on from next, after a hand-off perhaps. */
  method ActOnAnswer(w: World, ghost body: seq<int>, cutoff: int, p: Progress, answer: Answer)
    returns (over: bool, result: Result, next: Progress, sent: seq<Request>)
    requires p.attempts > 0 && Bounded(p.(attempts := p.attempts - 1))
    ensures over ==> AfterAnswer(w, body, cutoff, p, answer) == Delivery([], result) && sent == []
    ensures !over ==> next.attempts == p.attempts && Bounded(next)
    ensures !over ==> var rest := Deliver(w, body, cutoff, next);
                      AfterAnswer(w, body, cutoff, p, answer) == Delivery(sent + rest.requests, rest.result)
  {
    hide Classify, Described, Deliver;
    over, result, next, sent := true, Result(Described(answer), false, p.attempts, p.programResent), p, [];
    match Classify(answer) {
      case Authorized =>
      case Replayed =>
        result := Result(if answer.firstOutcome == "" then "unknown" else answer.firstOutcome, true, p.attempts,
                         p.programResent);
      case Transient =>
        if p.attempts < TRANSIENT_ATTEMPT_LIMIT {
          over := !w.pause(p.pauses, TRANSIENT_GAP);
          result := result.(outcome := STOPPED);
          next := p.(pauses := p.pauses + 1);
        }
      case RateLimited =>
        if !p.rateLimitedRetryUsed {
          over := !w.pause(p.pauses, RATE_LIMITED_GAP);
          result := result.(outcome := STOPPED);
          next := p.(rateLimitedRetryUsed := true, pauses := p.pauses + 1);
        }
      case ProgramMissing =>
        if !p.programResent {
          var at := w.clock(p.looks);
          over := at >= cutoff;
          result := result.(outcome := CUTOFF_PASSED);
          if !over {
            sent := [HandProgram(at)];
            next := p.(programResent := true, looks := p.looks + 1);
          }
        }
      case Final =>
    }
    ghost var rest := if over then Delivery([], result) else Deliver(w, body, cutoff, next);
    assert [] + rest.requests == rest.requests;
  }

  method DeliverActivation(w: World, body: seq<int>, cutoff: int) returns (result: Result, requests: seq<Request>)
    ensures Delivery(requests, result) == Deliver(w, body, cutoff, START)
    ensures Posts(requests) <= 5 && Hands(requests) <= 1 && Permitted(requests, body, cutoff)
    ensures result.outcome == AUTHORIZED <==> LastGrants(w, Posts(requests))
  {
    hide AfterAnswer, Posts, Hands, Permitted, LastGrants;
    EveryDeliveryEnds(w, body, cutoff);
    requests := [];
    var p := START;
    ghost var whole := Deliver(w, body, cutoff, p);
    assert [] + whole.requests == whole.requests;
    while true
      invariant Bounded(p)
      invariant var rest := Deliver(w, body, cutoff, p); whole == Delivery(requests + rest.requests, rest.result)
      decreases 5 - p.attempts
    {
      var at := w.clock(p.looks);
      assert requests + [] == requests;
      if at >= cutoff {
        result := Result(CUTOFF_PASSED, false, p.attempts, p.programResent);
        return;
      }
      var answer := w.answer(p.attempts);
      p := p.(attempts := p.attempts + 1, looks := p.looks + 1);
      ghost var rest := AfterAnswer(w, body, cutoff, p, answer);
      assert requests + ([Post(body, at)] + rest.requests) == requests + [Post(body, at)] + rest.requests;
      requests := requests + [Post(body, at)];
      assert requests + [] == requests;
      var over, next, sent;
      over, result, next, sent := ActOnAnswer(w, body, cutoff, p, answer);
      if over {
        return;
      }
      ghost var later := Deliver(w, body, cutoff, next);
      assert requests + (sent + later.requests) == requests + sent + later.requests;
      requests, p := requests + sent, next;
    }
  }
}
