/**
  The retry budget. BackoffCfg.OnUpdate builds one backoff object, and both
  batchers of a client retry on it. backoff.Retry resets the object, makes an
  attempt, and after each failure asks it for permission to go on.
*/
module Retry {
  import opened Wrappers

  /**
    How many waits are granted after a reset. Patience is how many the
    exponential backoff would grant before its elapsed-time limit; it depends on
    how long attempts and waits take, so every reset has its own. OnUpdate wraps
    WithMaxRetries around it only when MaxRetries is not zero.
  */
  function Budget(maxRetries: nat, patience: nat): (b: nat)
    ensures b <= patience && (maxRetries != 0 ==> b <= maxRetries)
    ensures b == patience || b == maxRetries != 0
  {
    if maxRetries != 0 && maxRetries < patience then maxRetries else patience
  }

  class BackOff {
    const maxRetries: nat
    var patience: nat
    var tries: nat // counted by the WithMaxRetries wrapper
    var waits: nat // granted by the exponential backoff

    constructor (maxRetries: nat)
      ensures this.maxRetries == maxRetries && Granted() == 0 && Valid()
    {
      this.maxRetries := maxRetries;
      patience, tries, waits := 0, 0, 0;
    }

    ghost predicate Valid() reads this {
      && waits <= patience
      && (maxRetries != 0 ==> tries == waits <= maxRetries)
    }

    function Granted(): nat reads this { waits }

    method Reset(patience: nat)
      modifies this
      ensures Valid() && Granted() == 0 && this.patience == patience
    {
      tries, waits := 0, 0;
      this.patience := patience;
    }

    method NextBackOff() returns (stop: bool)
      requires Valid()
      modifies this
      ensures patience == old(patience)
      ensures stop <==> old(Granted()) == Budget(maxRetries, patience)
      ensures !stop ==> Valid() && Granted() == old(Granted()) + 1
    {
      if maxRetries != 0 {
        if maxRetries <= tries { return true; }
        tries := tries + 1;
      }
      if waits == patience { return true; }
      waits := waits + 1;
      stop := false;
    }
  }

  // ------------------------------------------------------- one backoff, many batches

  /**
    The calls that reach one backoff object, seen from one of the batches that
    retry on it; all the other batches, however many, are "theirs".
  */
  datatype Event =
    | Begin(patience: nat) // our backoff.Retry: reset, first attempt
    | Again // our attempt failed and NextBackOff allowed another
    | TheirBegin(patience: nat)
    | TheirAgain

  /**
    The waits granted since the last reset and its patience; our attempts, how
    often the object was reset under us, and the budgets of our reset and those.
  */
  datatype Sharing = Sharing(granted: nat, patience: nat, attempts: nat, resets: nat, allowance: nat)

  /** None: the event cannot happen here. */
  function Next(maxRetries: nat, s: Sharing, e: Event): Option<Sharing> {
    match e
    case Begin(patience) =>
      if s.attempts > 0 then None else Some(Sharing(0, patience, 1, 0, Budget(maxRetries, patience)))
    case TheirBegin(patience) =>
      var reset := s.(granted := 0, patience := patience);
      if s.attempts == 0 then Some(reset)
      else Some(reset.(resets := s.resets + 1, allowance := s.allowance + Budget(maxRetries, patience)))
    case Again =>
      if s.attempts == 0 || s.granted >= Budget(maxRetries, s.patience) then None
      else Some(s.(granted := s.granted + 1, attempts := s.attempts + 1))
    case TheirAgain =>
      if s.granted >= Budget(maxRetries, s.patience) then None else Some(s.(granted := s.granted + 1))
  }

  function Run(maxRetries: nat, events: seq<Event>): Option<Sharing> {
    if events == [] then Some(Sharing(0, 0, 0, 0, 0))
    else
      var before := Run(maxRetries, events[..|events| - 1]);
      if before.None? then None else Next(maxRetries, before.value, events[|events| - 1])
  }

  /**
    In any interleaving a batch makes at most one attempt more than the budgets
    of its own reset and of those under it add up to. With MaxRetries set these
    are at most MaxRetries each.
  */
  lemma {:induction false} AttemptsAreBounded(maxRetries: nat, events: seq<Event>)
    requires Run(maxRetries, events).Some?
    ensures var s := Run(maxRetries, events).value;
            && s.granted <= Budget(maxRetries, s.patience)
            && s.attempts <= 1 + s.allowance
            && (s.attempts == 0 ==> s.resets == 0)
            && (s.attempts > 0 ==> s.attempts + Budget(maxRetries, s.patience) <= 1 + s.allowance + s.granted)
            && (maxRetries > 0 ==> s.allowance <= maxRetries * (s.resets + 1))
  {
    if events != [] {
      AttemptsAreBounded(maxRetries, events[..|events| - 1]);
      var before, s := Run(maxRetries, events[..|events| - 1]).value, Run(maxRetries, events).value;
      assert maxRetries * (before.resets + 1 + 1) == maxRetries * (before.resets + 1) + maxRetries;
    }
  }

  lemma {:induction false} Snoc(maxRetries: nat, events: seq<Event>, e: Event)
    requires Run(maxRetries, events).Some?
    ensures Run(maxRetries, events + [e]) == Next(maxRetries, Run(maxRetries, events).value, e)
  {
    assert (events + [e])[..|events|] == events;
  }

  /** The bound is met: we spend the whole budget, and again after each of r foreign resets. */
  lemma {:induction false} BoundIsReached(maxRetries: nat, patience: nat, r: nat) returns (events: seq<Event>)
    ensures var b := Budget(maxRetries, patience);
            Run(maxRetries, events) == Some(Sharing(b, patience, 1 + b * (r + 1), r, b * (r + 1)))
  {
    var b := Budget(maxRetries, patience);
    if r == 0 {
      Snoc(maxRetries, [], Begin(patience));
      events := SpendBudget(maxRetries, [] + [Begin(patience)], b);
    } else {
      var earlier := BoundIsReached(maxRetries, patience, r - 1);
      Snoc(maxRetries, earlier, TheirBegin(patience));
      events := SpendBudget(maxRetries, earlier + [TheirBegin(patience)], b);
      assert b * (r + 1) == b * r + b;
    }
  }

  lemma {:induction false} SpendBudget(maxRetries: nat, events: seq<Event>, n: nat) returns (longer: seq<Event>)
    requires Run(maxRetries, events).Some? && Run(maxRetries, events).value.attempts > 0
    requires var s := Run(maxRetries, events).value; s.granted + n <= Budget(maxRetries, s.patience)
    ensures var s := Run(maxRetries, events).value;
            Run(maxRetries, longer) == Some(s.(granted := s.granted + n, attempts := s.attempts + n))
  {
    longer := events;
    if n > 0 {
      var shorter := SpendBudget(maxRetries, events, n - 1);
      Snoc(maxRetries, shorter, Again);
      longer := shorter + [Again];
    }
  }

  /** At most MaxRetries + 1 attempts, in every interleaving with r foreign resets. */
  ghost predicate KeepsToMaxRetries(maxRetries: nat, r: nat) {
    forall events :: Run(maxRetries, events).Some? && Run(maxRetries, events).value.resets == r ==>
                       Run(maxRetries, events).value.attempts <= maxRetries + 1
  }

  /**
    MaxRetries bounds the retries exactly when it is set and no other batch
    starts on the same backoff in the meantime.
  */
  lemma MaxRetriesHoldsIffSetAndUnshared(maxRetries: nat, r: nat)
    ensures KeepsToMaxRetries(maxRetries, r) <==> maxRetries > 0 && r == 0
  {
    if maxRetries > 0 && r == 0 {
      forall events | Run(maxRetries, events).Some? && Run(maxRetries, events).value.resets == r
        ensures Run(maxRetries, events).value.attempts <= maxRetries + 1
      {
        AttemptsAreBounded(maxRetries, events);
      }
    } else if maxRetries == 0 {
      var events := BoundIsReached(maxRetries, 1, r);
    } else {
      var events := BoundIsReached(maxRetries, maxRetries, r);
      assert maxRetries * (r + 1) >= maxRetries * 2;
    }
  }
}
