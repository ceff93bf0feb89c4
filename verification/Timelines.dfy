/** Events in time order, under a clock that never goes back. */
module Timelines {

  datatype Timed<E> = Timed(at: int, event: E)

  predicate ValidRun<E>(clock: int, run: seq<Timed<E>>)
    decreases |run|
  {
    run == [] || (clock <= run[0].at && ValidRun(run[0].at, run[1..]))
  }

  function EndOf<E>(clock: int, run: seq<Timed<E>>): int {
    if run == [] then clock else run[|run| - 1].at
  }
}
