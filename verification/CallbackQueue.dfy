/** The bounded queue between FPP's callback thread and the worker (native/include/showmesh/callback_handoff.h). */
module CallbackQueue {

  const COUNTER_LIMIT := 0x1_0000_0000

  /** A queue as its users see it: what waits, oldest first, and the drops nobody has been told of. */
  datatype Queue<T> = Queue(capacity: nat, pending: seq<T>, coalesced: nat)

  /** A 32-bit counter, which wraps. */
  function Wrapped(n: nat): nat {
    n % COUNTER_LIMIT
  }

  function Offered<T>(q: Queue<T>, x: T): Queue<T>
    requires |q.pending| <= q.capacity
  {
    if |q.pending| < q.capacity then q.(pending := q.pending + [x])
    else if q.pending == [] then q
    else q.(pending := q.pending[1..] + [x], coalesced := Wrapped(q.coalesced + 1))
  }

  function Taken<T>(q: Queue<T>): Queue<T> {
    if q.pending == [] then q else q.(pending := q.pending[1..], coalesced := 0)
  }

  class CallbackHandoff<T(0)> {
    const slots: array<T>
    var head: nat
    var size: nat
    var coalesced: nat
    var offered: nat

    ghost predicate Valid()
      reads this
    {
      slots.Length > 0 && head < slots.Length && size <= slots.Length
    }

    function Slot(i: nat): (k: nat)
      requires Valid() && i <= slots.Length
      reads this
      ensures k < slots.Length
    {
      if head + i < slots.Length then head + i else head + i - slots.Length
    }

    ghost function View(): (q: Queue<T>)
      requires Valid()
      reads this, slots
      ensures |q.pending| == size <= q.capacity
    {
      Queue(slots.Length, seq(size, i requires 0 <= i < size reads this, slots requires Valid() => slots[Slot(i)]),
            coalesced)
    }

    constructor (capacity: nat)
      ensures Valid() && fresh(slots)
      ensures View() == Queue(if capacity == 0 then 1 else capacity, [], 0) && offered == 0
    {
      slots := new T[if capacity == 0 then 1 else capacity];
      head, size, coalesced, offered := 0, 0, 0, 0;
    }

    /** offer: when the queue is full the oldest observation makes room, and is counted. */
    method Offer(x: T)
      requires Valid()
      modifies this`head, this`size, this`coalesced, this`offered, slots
      ensures Valid() && View() == Offered(old(View()), x) && offered == old(offered) + 1
    {
      ghost var was := View();
      if size == slots.Length {
        head := if head + 1 == slots.Length then 0 else head + 1;
        size := size - 1;
        coalesced := Wrapped(coalesced + 1);
        assert View().pending == was.pending[1..];
      }
      ghost var kept := View().pending;
      var tail := Slot(size);
      slots[tail] := x;
      size := size + 1;
      offered := offered + 1;
      assert View().pending == kept + [x];
    }

    /** take: the oldest observation, and the drops since the last one taken. */
    method Take() returns (ok: bool, x: T, dropped: nat)
      requires Valid()
      modifies this`head, this`size, this`coalesced
      ensures Valid() && View() == Taken(old(View()))
      ensures ok == (old(View()).pending != [])
      ensures ok ==> x == old(View()).pending[0] && dropped == old(coalesced)
      ensures !ok ==> dropped == 0
    {
      ghost var was := View();
      x := slots[head];
      if size == 0 {
        return false, x, 0;
      }
      head := if head + 1 == slots.Length then 0 else head + 1;
      size := size - 1;
      ok, dropped := true, coalesced;
      coalesced := 0;
      assert View().pending == was.pending[1..];
    }
  }

  /* ---- Runs of offers and takes ---- */

  datatype Op<T> = Offer(x: T) | Take

  /** A queue with its whole history: everything offered, how many were taken, how many dropped. */
  datatype History<T> = History(queue: Queue<T>, offers: seq<T>, taken: nat, dropped: nat)

  function Did<T>(h: History<T>, op: Op<T>): History<T>
    requires |h.queue.pending| <= h.queue.capacity
  {
    match op
    case Offer(x) =>
      h.(queue := Offered(h.queue, x), offers := h.offers + [x],
         dropped := h.dropped + if |h.queue.pending| < h.queue.capacity then 0 else 1)
    case Take => h.(queue := Taken(h.queue), taken := h.taken + if h.queue.pending == [] then 0 else 1)
  }

  /** The queue holds, in order, the newest of everything offered; and every offer is waiting, taken or dropped. */
  ghost predicate Accounted<T>(h: History<T>) {
    && h.queue.capacity > 0 && |h.queue.pending| <= h.queue.capacity
    && |h.offers| == h.taken + h.dropped + |h.queue.pending|
    && h.queue.pending == h.offers[h.taken + h.dropped..]
  }

  lemma StepKeepsAccount<T>(h: History<T>, op: Op<T>)
    requires Accounted(h)
    ensures Accounted(Did(h, op))
  {
  }

  function DidAll<T>(h: History<T>, ops: seq<Op<T>>): History<T>
    requires Accounted(h)
    decreases |ops|
  {
    if ops == [] then h
    else
      StepKeepsAccount(h, ops[0]);
      DidAll(Did(h, ops[0]), ops[1..])
  }

  /** Over every run of offers and takes. */
  lemma {:induction false} RunKeepsAccount<T>(h: History<T>, ops: seq<Op<T>>)
    requires Accounted(h)
    ensures Accounted(DidAll(h, ops))
    decreases |ops|
  {
    hide Did;
    if ops == [] {
    } else {
      StepKeepsAccount(h, ops[0]);
      RunKeepsAccount(Did(h, ops[0]), ops[1..]);
    }
  }
}
