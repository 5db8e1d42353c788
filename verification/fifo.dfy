/** The channel every transport is meant to be: a queue of whole messages. */
module MessageFifo {

  /** `sent` and `received` are the histories of the two ends; the queue is what lies between them. */
  datatype Fifo<T> = Fifo(sent: seq<T>, received: seq<T>) {
    ghost predicate Valid() {
      received <= sent
    }

    ghost function Queued(): seq<T>
      requires Valid()
    {
      sent[|received|..]
    }

    function Push(t: T): Fifo<T> {
      Fifo(sent + [t], received)
    }

    function Deliver(t: T): Fifo<T> {
      Fifo(sent, received + [t])
    }
  }

  function Empty<T>(): Fifo<T> {
    Fifo([], [])
  }

  /** One step of the channel: a message enters, the oldest queued message leaves, or nothing happens. */
  ghost predicate Next<T(!new)>(a: Fifo<T>, b: Fifo<T>) {
    || b == a
    || (exists t :: b == a.Push(t))
    || (a.Valid() && a.Queued() != [] && b == a.Deliver(a.Queued()[0]))
  }

  /** Nothing is lost, duplicated or reordered: what was received is what was sent first. */
  lemma NextKeepsOrder<T(!new)>(a: Fifo<T>, b: Fifo<T>)
    requires a.Valid() && Next(a, b)
    ensures b.Valid()
    ensures b.Queued() == a.Queued()
         || (exists t :: b.Queued() == a.Queued() + [t])
         || (a.Queued() != [] && b.Queued() == a.Queued()[1..])
  {
    if t :| b == a.Push(t) {
      assert b.Queued() == a.Queued() + [t];
    } else if b != a {
      assert b.Queued() == a.Queued()[1..];
    }
  }
}
