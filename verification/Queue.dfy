/** The bounded queue of internal/bounded/queue.go: what its critical sections do to the buffer. */
module BoundedQueue {
  import opened Common

  datatype Policy = DropNewest | DropOldest | OtherPolicy

  /** The fields that the mutex protects, with the closed flag. */
  datatype Core<V> = Core(buf: seq<V>, capacity: nat, policy: Policy, closed: bool, dropped: nat)

  ghost predicate WellFormed<V>(c: Core<V>) {
    c.capacity > 0 && |c.buf| <= c.capacity
  }

  /** The body of `Push` once the queue is known to be open. */
  function Offer<V>(c: Core<V>, v: V): (Core<V>, bool)
    requires c.capacity > 0
  {
    if |c.buf| < c.capacity then (c.(buf := c.buf + [v]), true)
    else match c.policy
      case DropOldest => (c.(buf := (if c.buf == [] then [] else c.buf[1..]) + [v], dropped := c.dropped + 1), true)
      case _ => (c.(dropped := c.dropped + 1), false)
  }

  /** Removing the head, if there is one. */
  function Take<V>(c: Core<V>): (Core<V>, Option<V>) {
    if c.buf == [] then (c, None) else (c.(buf := c.buf[1..]), Some(c.buf[0]))
  }
}
