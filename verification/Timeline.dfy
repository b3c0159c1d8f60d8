/** Runs of events whose clock never goes back. */
module Timeline {

  ghost predicate Timed<E>(es: seq<E>, at: E -> int, from: int) {
    es == [] || (at(es[0]) >= from && Timed(es[1..], at, at(es[0])))
  }
}
