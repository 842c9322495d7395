/** What the ring promises: a bounded first-in first-out queue, as a transition system over its contents. */
module BoundedFifo {

  datatype Event<T> =
    | Stutter          // nothing observable happens
    | Accept(x: T)     // a push takes effect
    | Refuse           // a push finds the queue full
    | Take(x: T)       // a pop takes effect
    | SeeEmpty         // a pop finds the queue empty

  /** One atomic queue operation on at most `bound` items. */
  ghost predicate Step<T>(bound: nat, q: seq<T>, e: Event<T>, q': seq<T>) {
    match e
    case Stutter => q' == q
    case Accept(x) => |q| < bound && q' == q + [x]
    case Refuse => |q| == bound && q' == q
    case Take(x) => q == [x] + q'
    case SeeEmpty => q == [] && q' == q
  }

  /** The same operation when the two negative answers may come from an old index. */
  ghost predicate WeakStep<T>(bound: nat, q: seq<T>, e: Event<T>, q': seq<T>) {
    match e
    case Refuse => q' == q
    case SeeEmpty => q' == q
    case _ => Step(bound, q, e, q')
  }

  function Accepted<T>(e: Event<T>): seq<T> {
    if e.Accept? then [e.x] else []
  }

  function Taken<T>(e: Event<T>): seq<T> {
    if e.Take? then [e.x] else []
  }

  /** One operation keeps the balance between what was accepted and what was taken or is queued. */
  lemma StepBalances<T>(bound: nat, accepted: seq<T>, taken: seq<T>, q: seq<T>, e: Event<T>, q': seq<T>)
    requires WeakStep(bound, q, e, q')
    requires accepted == taken + q
    ensures accepted + Accepted(e) == taken + Taken(e) + q'
  {
  }

  /** The items accepted by a sequence of operations, in order. */
  function Accepts<T>(es: seq<Event<T>>): seq<T> {
    if es == [] then []
    else
      var e := es[|es| - 1];
      Accepts(es[..|es| - 1]) + Accepted(e)
  }

  /** The items handed out by a sequence of operations, in order. */
  function Takes<T>(es: seq<Event<T>>): seq<T> {
    if es == [] then []
    else
      var e := es[|es| - 1];
      Takes(es[..|es| - 1]) + Taken(e)
  }
}
