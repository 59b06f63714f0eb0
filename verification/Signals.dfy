/** The bus between micad and apid: signals arrive in the order they were sent,
    while a subscription lives. */
module Signals {
  /** The signal stream of one subscription: not there, delivering in order, or
      broken, with signals that will never arrive. */
  datatype Stream<T> = Closed | Live(queue: seq<T>) | Broken(queue: seq<T>) {
    /** A signal goes out: the stream's subscriber is owed it, or nobody is. */
    function Sent(signal: T): Stream<T> {
      match this
      case Closed => Closed
      case Live(q) => Live(q + [signal])
      case Broken(q) => Broken(q + [signal])
    }

    function Queue(): seq<T> {
      if Closed? then [] else queue
    }
  }
}
