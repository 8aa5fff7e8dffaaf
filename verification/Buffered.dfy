/**
  Running items concurrently and folding their results in input order.

  `run_by_batch` and `run_concurrent_file_checks` both drain a `buffered` stream: at most `window`
  items are in flight, they finish in any order, and the oldest is handed out once it has finished.
  The machine below takes those three steps in any interleaving.
 */
module Buffered {
  import opened Wrappers

  datatype Action = Start | Finish(item: nat) | Consume

  /** `finished` holds the items whose result is ready but not handed out. */
  datatype Machine<A, E> = Machine(started: nat, finished: set<nat>, consumed: nat, acc: A, failure: Option<E>)

  function Initial<A, E>(init: A): Machine<A, E> {
    Machine(0, {}, 0, init, None)
  }

  predicate Enabled<A, T, E>(m: Machine<A, E>, a: Action, results: seq<Result<T, E>>, window: nat) {
    && m.failure == None
    && match a
       case Start => m.started < |results| && m.started < m.consumed + window
       case Finish(i) => m.consumed <= i < m.started && i !in m.finished
       case Consume => m.consumed < m.started && m.consumed in m.finished
  }

  function Act<A, T, E>(m: Machine<A, E>, a: Action, results: seq<Result<T, E>>, combine: (A, T) -> A): Machine<A, E> {
    match a
    case Start => m.(started := m.started + 1)
    case Finish(i) => m.(finished := m.finished + {i})
    case Consume =>
      if m.consumed >= |results| then m
      else
        match results[m.consumed]
        case Ok(t) => m.(consumed := m.consumed + 1, finished := m.finished - {m.consumed}, acc := combine(m.acc, t))
        case Err(e) => m.(failure := Some(e))
  }

  function Execute<A, T, E>(schedule: seq<Action>, init: A, results: seq<Result<T, E>>, combine: (A, T) -> A): Machine<A, E> {
    if schedule == [] then Initial(init)
    else Act(Execute(schedule[..|schedule| - 1], init, results, combine), schedule[|schedule| - 1], results, combine)
  }

  /** Every step of the schedule is possible where it is taken. */
  predicate Legal<A, T, E>(schedule: seq<Action>, init: A, results: seq<Result<T, E>>, combine: (A, T) -> A, window: nat) {
    schedule != [] ==>
      && Legal(schedule[..|schedule| - 1], init, results, combine, window)
      && Enabled(Execute(schedule[..|schedule| - 1], init, results, combine), schedule[|schedule| - 1], results, window)
  }

  predicate Final<A, T, E>(m: Machine<A, E>, results: seq<Result<T, E>>) {
    m.failure != None || m.consumed == |results|
  }

  /** What running the items one by one would give: stop at the first error. */
  function Sequential<A, T, E>(init: A, results: seq<Result<T, E>>, combine: (A, T) -> A): Result<A, E> {
    if results == [] then Ok(init)
    else
      var before := Sequential(init, results[..|results| - 1], combine);
      match before
      case Err(_) => before
      case Ok(acc) =>
        match results[|results| - 1]
        case Ok(t) => Ok(combine(acc, t))
        case Err(e) => Err(e)
  }

  function Answer<A, E>(m: Machine<A, E>): Result<A, E> {
    match m.failure
    case None => Ok(m.acc)
    case Some(e) => Err(e)
  }

  ghost predicate Invariant<A, T, E>(m: Machine<A, E>, init: A, results: seq<Result<T, E>>, combine: (A, T) -> A, window: nat) {
    && m.consumed <= m.started <= |results|
    && m.started <= m.consumed + window
    && (forall i | i in m.finished :: m.consumed <= i < m.started)
    && Sequential(init, results[..m.consumed], combine) == Ok(m.acc)
    && (m.failure != None ==> m.consumed < |results| && results[m.consumed] == Err(m.failure.value))
  }

  lemma ActKeepsInvariant<A, T, E>(m: Machine<A, E>, a: Action, init: A, results: seq<Result<T, E>>,
                                   combine: (A, T) -> A, window: nat)
    requires Invariant(m, init, results, combine, window) && Enabled(m, a, results, window)
    ensures Invariant(Act(m, a, results, combine), init, results, combine, window)
  {
    if a == Consume {
      assert results[..m.consumed + 1][..m.consumed] == results[..m.consumed];
    }
  }

  /** At most `window` items are ever in flight, and what was folded is the sequential prefix. */
  lemma {:induction false} ScheduleInvariant<A, T, E>(schedule: seq<Action>, init: A, results: seq<Result<T, E>>,
                                                      combine: (A, T) -> A, window: nat)
    requires Legal(schedule, init, results, combine, window)
    ensures Invariant(Execute(schedule, init, results, combine), init, results, combine, window)
  {
    if schedule == [] {
      assert results[..0] == [];
    } else {
      ScheduleInvariant(schedule[..|schedule| - 1], init, results, combine, window);
      ActKeepsInvariant(Execute(schedule[..|schedule| - 1], init, results, combine), schedule[|schedule| - 1],
                        init, results, combine, window);
    }
  }

  lemma {:induction false} SequentialStops<A, T, E>(init: A, results: seq<Result<T, E>>, combine: (A, T) -> A, k: nat)
    requires k < |results| && results[k].Err? && Sequential(init, results[..k], combine).Ok?
    ensures Sequential(init, results, combine) == Err(results[k].error)
  {
    var init' := results[..|results| - 1];
    if k == |results| - 1 {
      assert init' == results[..k];
    } else {
      assert init'[..k] == results[..k];
      SequentialStops(init, init', combine, k);
    }
  }

  /** Whatever the completion order, a finished stream answers what the sequential run answers. */
  lemma AnyScheduleIsSequential<A, T, E>(schedule: seq<Action>, init: A, results: seq<Result<T, E>>,
                                         combine: (A, T) -> A, window: nat)
    requires Legal(schedule, init, results, combine, window)
    requires Final(Execute(schedule, init, results, combine), results)
    ensures Answer(Execute(schedule, init, results, combine)) == Sequential(init, results, combine)
  {
    ScheduleInvariant(schedule, init, results, combine, window);
    var m := Execute(schedule, init, results, combine);
    if m.failure == None {
      assert results[..m.consumed] == results;
    } else {
      SequentialStops(init, results, combine, m.consumed);
    }
  }

  /** The stream never gets stuck before it is final. */
  lemma NeverStuck<A, T, E>(schedule: seq<Action>, init: A, results: seq<Result<T, E>>, combine: (A, T) -> A, window: nat)
    requires Legal(schedule, init, results, combine, window) && window > 0
    requires !Final(Execute(schedule, init, results, combine), results)
    ensures exists a :: Legal(schedule + [a], init, results, combine, window)
  {
    ScheduleInvariant(schedule, init, results, combine, window);
    var m := Execute(schedule, init, results, combine);
    var a := if m.consumed == m.started then Start
             else if m.consumed in m.finished then Consume
             else Finish(m.consumed);
    assert Enabled(m, a, results, window);
    assert (schedule + [a])[..|schedule|] == schedule;
    assert Legal(schedule + [a], init, results, combine, window);
  }

  /** Steps taken so far: one start, one finish and one consumption per item. */
  function Progress<A, E>(m: Machine<A, E>): nat {
    m.started + |m.finished| + 2 * m.consumed + (if m.failure == None then 0 else 1)
  }

  lemma {:induction false} ProgressIsLength<A, T, E>(schedule: seq<Action>, init: A, results: seq<Result<T, E>>,
                                                     combine: (A, T) -> A, window: nat)
    requires Legal(schedule, init, results, combine, window)
    ensures Progress(Execute(schedule, init, results, combine)) == |schedule|
  {
    if schedule != [] {
      var before, a := schedule[..|schedule| - 1], schedule[|schedule| - 1];
      ProgressIsLength(before, init, results, combine, window);
      ScheduleInvariant(before, init, results, combine, window);
    }
  }

  lemma {:induction false} RangeSize(s: set<nat>, lo: nat, hi: nat)
    requires lo <= hi && forall i | i in s :: lo <= i < hi
    ensures |s| <= hi - lo
    decreases hi
  {
    if lo == hi {
      assert s == {};
    } else {
      RangeSize(s - {hi - 1}, lo, hi - 1);
    }
  }

  /** Every schedule is finite: no run takes more than three steps per item. */
  lemma SchedulesAreShort<A, T, E>(schedule: seq<Action>, init: A, results: seq<Result<T, E>>,
                                   combine: (A, T) -> A, window: nat)
    requires Legal(schedule, init, results, combine, window)
    ensures |schedule| <= 3 * |results|
  {
    ProgressIsLength(schedule, init, results, combine, window);
    ScheduleInvariant(schedule, init, results, combine, window);
    var m := Execute(schedule, init, results, combine);
    RangeSize(m.finished, m.consumed, m.started);
  }

  /** Once an item fails, nothing more than a window past it was ever started. */
  lemma LittleWorkPastFailure<A, T, E>(schedule: seq<Action>, init: A, results: seq<Result<T, E>>,
                                       combine: (A, T) -> A, window: nat, k: nat)
    requires Legal(schedule, init, results, combine, window)
    requires k < |results| && results[k].Err?
    ensures Execute(schedule, init, results, combine).started <= k + window
  {
    ScheduleInvariant(schedule, init, results, combine, window);
    var m := Execute(schedule, init, results, combine);
    if m.consumed > k {
      PrefixOfSuccess(init, results[..m.consumed], combine, k);
    }
  }

  lemma {:induction false} PrefixOfSuccess<A, T, E>(init: A, results: seq<Result<T, E>>, combine: (A, T) -> A, k: nat)
    requires k < |results| && Sequential(init, results, combine).Ok?
    ensures results[k].Ok?
  {
    if k < |results| - 1 {
      PrefixOfSuccess(init, results[..|results| - 1], combine, k);
    }
  }
}
