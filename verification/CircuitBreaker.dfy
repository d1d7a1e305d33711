/**
 The explorer proxy's circuit breaker of index.js, over a history of timed events
 with a clock in milliseconds.
 */
module CircuitBreaker {

  const THRESHOLD: nat := 3
  const COOLOFF: nat := 5 * 60 * 1000

  class Circuit {
    var failures: nat
    var openUntil: nat

    constructor ()
      ensures failures == 0 && openUntil == 0 && Remembers([])
    {
      failures, openUntil := 0, 0;
    }

    // The fields say what the history says.
    ghost predicate Remembers(history: seq<Event>)
      reads this
    {
      failures == Count(history) && openUntil == if Count(history) >= THRESHOLD then LastFailure(history) + COOLOFF else 0
    }

    method CircuitOpenOrTripped(now: nat, ghost history: seq<Event>) returns (blocked: bool)
      requires Remembers(history)
      modifies this
      ensures Remembers(history + [Check(now)])
      ensures blocked <==> Count(history) >= 3 && now < LastFailure(history) + 5 * 60 * 1000
    {
      assert (history + [Check(now)])[..|history|] == history;
      if openUntil != 0 && now < openUntil {
        return true;
      }
      if openUntil != 0 {
        openUntil := 0;
        failures := 0;
      }
      return false;
    }

    method MarkFailure(now: nat, ghost history: seq<Event>)
      requires Remembers(history)
      modifies this
      ensures Remembers(history + [Failure(now)])
    {
      assert (history + [Failure(now)])[..|history|] == history;
      failures := failures + 1;
      if failures >= THRESHOLD {
        openUntil := now + COOLOFF;
      }
    }

    method MarkSuccess(ghost history: seq<Event>)
      requires Remembers(history)
      modifies this
      ensures Remembers(history + [Success])
    {
      assert (history + [Success])[..|history|] == history;
      failures := 0;
      openUntil := 0;
    }
  }

  datatype Event = Check(now: nat) | Failure(now: nat) | Success

  // A check that finds the circuit open and its cool-off over resets it.
  predicate Resets(history: seq<Event>, e: Event)
    decreases |history|, 1
  {
    e.Check? && Count(history) >= THRESHOLD && e.now >= LastFailure(history) + COOLOFF
  }

  // Failures since the last success or cool-off reset.
  function Count(history: seq<Event>): nat
    decreases |history|, 0
  {
    if history == [] then 0
    else
      var init, e := history[..|history| - 1], history[|history| - 1];
      if e.Success? || Resets(init, e) then 0
      else Count(init) + (if e.Failure? then 1 else 0)
  }

  // When the latest failure occurred.
  function LastFailure(history: seq<Event>): nat {
    if history == [] then 0
    else if history[|history| - 1].Failure? then history[|history| - 1].now
    else LastFailure(history[..|history| - 1])
  }

  // What each event does to the count: a failure adds one, a success clears it, and so does
  // a check that finds three or more failures of which the latest is five minutes old.
  lemma {:induction false} CountAfter(history: seq<Event>, e: Event)
    ensures Count(history + [e])
         == match e
            case Failure(_) => Count(history) + 1
            case Success => 0
            case Check(now) => if Count(history) >= 3 && now >= LastFailure(history) + 300_000 then 0 else Count(history)
    ensures LastFailure(history + [e]) == if e.Failure? then e.now else LastFailure(history)
  {
    assert (history + [e])[..|history|] == history;
  }

  function FailuresIn(events: seq<Event>): nat {
    if events == [] then 0 else FailuresIn(events[..|events| - 1]) + (if events[|events| - 1].Failure? then 1 else 0)
  }

  // No success and no reset from this event on.
  ghost predicate IsQuiet(history: seq<Event>, from: nat)
    requires from <= |history|
  {
    forall i :: from <= i < |history| ==> !history[i].Success? && !Resets(history[..i], history[i])
  }

  // Count is the number of failures after the latest success or reset.
  lemma {:induction false} CountIsSinceReset(history: seq<Event>, from: nat)
    requires from <= |history| && IsQuiet(history, from)
    requires from > 0 ==> history[from - 1].Success? || Resets(history[..from - 1], history[from - 1])
    ensures Count(history) == FailuresIn(history[from..])
  {
    if from == |history| {
      assert history[from..] == [];
    } else {
      var n := |history| - 1;
      var init := history[..n];
      forall i | from <= i < |init|
        ensures !init[i].Success? && !Resets(init[..i], init[i])
      {
        assert init[..i] == history[..i];
      }
      if from > 0 {
        assert init[..from - 1] == history[..from - 1];
      }
      CountIsSinceReset(init, from);
      assert history[from..][..n - from] == init[from..];
      assert !Resets(history[..n], history[n]);
    }
  }
}
