/**
  The sequential, rate-limited refresher: what one goroutine that is never
  interrupted does to the wrapper, and which histories of refreshes that allows.
  The class is the Go type itself; ReconnectProtocol shows that any number of
  goroutines interleaved access by access still behave like it.
*/
module Refresher {
  import opened Wrappers

  const REFRESH_COOLDOWN: Time := 10_000_000_000

  /** time.Since(last) >= cooldown. The zero time is further away than any cooldown. */
  predicate CooledDown(last: Option<Time>, now: Time) {
    last.None? || now - last.value >= REFRESH_COOLDOWN
  }

  /** err != nil and its text contains the phrase. */
  predicate ShouldRefresh(err: Option<string>) {
    err.Some? && Contains(err.value, "connection refused")
  }

  predicate Contains(s: string, phrase: string) {
    exists i :: 0 <= i <= |s| && phrase <= s[i..]
  }

  lemma ContainsMiddle(before: string, phrase: string, after: string)
    ensures Contains(before + phrase + after, phrase)
  {
    assert (before + phrase + after)[|before|..] == phrase + after;
  }

  lemma SplitAtPhrase(s: string, phrase: string) returns (before: string, after: string)
    requires Contains(s, phrase)
    ensures s == before + phrase + after
  {
    var i :| 0 <= i <= |s| && phrase <= s[i..];
    before, after := s[..i], s[i..][|phrase|..];
    assert s[i..] == phrase + after;
  }

  /** A refusal is any text with the phrase in it, whatever stands before and after, and nothing else. */
  lemma ShouldRefreshIffRefused(err: Option<string>)
    ensures ShouldRefresh(err) <==> exists before, after :: err == Some(before + "connection refused" + after)
  {
    if before, after :| err == Some(before + "connection refused" + after) {
      ContainsMiddle(before, "connection refused", after);
    }
    if ShouldRefresh(err) {
      var before, after := SplitAtPhrase(err.value, "connection refused");
      assert err == Some(before + "connection refused" + after);
    }
  }

  /**
    One refresh: the clock at its cooldown check, the clock it wrote back, the
    client it installed (none if the factory panicked).
  */
  datatype Refresh = Refresh(start: Time, end: Time, installed: Option<ClientId>)

  /** What the rest of the program can observe of the wrapper between refreshes. */
  datatype View = View(current: Option<ClientId>, last: Option<Time>)

  const FRESH := View(Some(0), None)

  /** The effect of one refresh, or None where the cooldown forbids it. */
  function Apply(v: View, op: Refresh): Option<View> {
    if CooledDown(v.last, op.start) && op.start <= op.end then
      Some(View(if op.installed.Some? then op.installed else v.current, Some(op.end)))
    else None
  }

  function Replay(ops: seq<Refresh>): Option<View> {
    if ops == [] then Some(FRESH)
    else
      var before := Replay(ops[..|ops| - 1]);
      if before.None? then None else Apply(before.value, ops[|ops| - 1])
  }

  /** Disjoint intervals, each starting at least one cooldown after the previous one ended. */
  ghost predicate Spaced(ops: seq<Refresh>) {
    && (forall i :: 0 <= i < |ops| ==> ops[i].start <= ops[i].end)
    && (forall i, j :: 0 <= i < j < |ops| ==> ops[i].end + REFRESH_COOLDOWN <= ops[j].start)
  }

  /** The allowed histories are exactly the spaced ones, and the view remembers the end of the last. */
  lemma {:induction false} ReplayableIffSpaced(ops: seq<Refresh>)
    ensures Replay(ops).Some? <==> Spaced(ops)
    ensures Replay(ops).Some? ==>
              Replay(ops).value.last == if ops == [] then None else Some(ops[|ops| - 1].end)
  {
    ReplayableIffChained(ops);
    ChainedIffSpaced(ops);
  }

  /** Spaced, said of neighbours only. */
  ghost predicate Chained(ops: seq<Refresh>) {
    ops == [] ||
    var front, op := ops[..|ops| - 1], ops[|ops| - 1];
    && Chained(front)
    && op.start <= op.end
    && (front != [] ==> front[|front| - 1].end + REFRESH_COOLDOWN <= op.start)
  }

  lemma {:induction false} ReplayableIffChained(ops: seq<Refresh>)
    ensures Replay(ops).Some? <==> Chained(ops)
    ensures Replay(ops).Some? ==>
              Replay(ops).value.last == if ops == [] then None else Some(ops[|ops| - 1].end)
  {
    if ops != [] { ReplayableIffChained(ops[..|ops| - 1]); }
  }

  lemma {:induction false} ChainedIffSpaced(ops: seq<Refresh>)
    ensures Chained(ops) <==> Spaced(ops)
  {
    if ops != [] {
      var front, op := ops[..|ops| - 1], ops[|ops| - 1];
      ChainedIffSpaced(front);
      assert ops == front + [op];
      SpacedSnoc(front, op);
    }
  }

  lemma SpacedSnoc(front: seq<Refresh>, op: Refresh)
    ensures Spaced(front + [op]) <==>
            && Spaced(front) && op.start <= op.end
            && (front != [] ==> front[|front| - 1].end + REFRESH_COOLDOWN <= op.start)
  {
    var ops := front + [op];
    if Spaced(ops) {
      assert ops[|front|] == op;
      assert forall i :: 0 <= i < |front| ==> front[i] == ops[i];
    } else if Spaced(front) && front != [] {
      assert forall i :: 0 <= i < |front| - 1 ==> front[i].end + REFRESH_COOLDOWN <= front[|front| - 1].start;
    }
  }

  function Starts(ops: seq<Refresh>): seq<Time> {
    if ops == [] then [] else Starts(ops[..|ops| - 1]) + [ops[|ops| - 1].start]
  }

  lemma {:induction false} StartsAt(ops: seq<Refresh>)
    ensures |Starts(ops)| == |ops|
    ensures forall i :: 0 <= i < |ops| ==> Starts(ops)[i] == ops[i].start
  {
    if ops != [] { StartsAt(ops[..|ops| - 1]); }
  }

  /** How many of the times lie in the closed window that opens at lo and is length long. */
  function CountIn(times: seq<Time>, lo: Time, length: Time): nat {
    if times == [] then 0
    else
      var t := times[|times| - 1];
      CountIn(times[..|times| - 1], lo, length) + if lo <= t <= lo + length then 1 else 0
  }

  ghost predicate Apart(times: seq<Time>) {
    forall i, j :: 0 <= i < j < |times| ==> times[i] + REFRESH_COOLDOWN <= times[j]
  }

  /** Times that far apart that are counted up to the last one: (count - 1) cooldowns fit before it. */
  lemma {:induction false} CountedTimesFit(times: seq<Time>, lo: Time, length: Time)
    requires Apart(times)
    ensures CountIn(times, lo, length) > 0 ==>
              exists k :: && 0 <= k < |times| && lo <= times[k] <= lo + length
                          && (CountIn(times, lo, length) - 1) * REFRESH_COOLDOWN <= times[k] - lo
  {
    if times != [] {
      var front, n := times[..|times| - 1], |times| - 1;
      CountedTimesFit(front, lo, length);
      if CountIn(front, lo, length) > 0 {
        var k :| 0 <= k < |front| && lo <= front[k] <= lo + length
                 && (CountIn(front, lo, length) - 1) * REFRESH_COOLDOWN <= front[k] - lo;
        assert times[k] == front[k] && times[k] + REFRESH_COOLDOWN <= times[n];
        assert lo <= times[if lo <= times[n] <= lo + length then n else k] <= lo + length;
      } else if lo <= times[n] <= lo + length {
        assert (CountIn(times, lo, length) - 1) * REFRESH_COOLDOWN == 0;
      }
    }
  }

  lemma WindowBound(times: seq<Time>, lo: Time, length: Time)
    requires Apart(times)
    ensures CountIn(times, lo, length) <= length / REFRESH_COOLDOWN + 1
  {
    CountedTimesFit(times, lo, length);
  }

  /** The Go type, driven by one goroutine. Clock readings and the factory's outcome are parameters. */
  class Client {
    var current: Option<ClientId>
    var lastRefreshTime: Option<Time>
    var refreshInProgress: bool
    var hooked: set<ClientId>
    var closing: seq<ClientId> // clients handed to a spawned goroutine that closes them

    function TheView(): View reads this { View(current, lastRefreshTime) }

    /** New: builds the first client and leaves the timestamp zero. */
    constructor (built: ClientId)
      ensures TheView() == View(Some(built), None) && !refreshInProgress
      ensures hooked == {built} && closing == []
    {
      current, lastRefreshTime, refreshInProgress := None, None, false;
      hooked, closing := {}, [];
      new;
      RefreshClient(built);
    }

    method RefreshClient(client: ClientId)
      modifies this`hooked, this`current
      ensures current == Some(client) && hooked == old(hooked) + {client}
    {
      hooked := hooked + {client};
      current := Some(client);
    }

    method CanRefreshClient(now: Time) returns (can: bool)
      ensures can <==> CooledDown(lastRefreshTime, now)
    {
      can := lastRefreshTime == None || now - lastRefreshTime.value >= REFRESH_COOLDOWN;
    }

    /**
      attemptRefreshClient: start and end are the two clock readings, built is
      what the factory returns (None: it panics).
    */
    method AttemptRefreshClient(start: Time, end: Time, built: Option<ClientId>) returns (panicked: bool)
      requires start <= end
      modifies this
      ensures refreshInProgress == old(refreshInProgress)
      ensures var last := old(lastRefreshTime);
              var allowed := !old(refreshInProgress) && (last.None? || last.value + REFRESH_COOLDOWN <= start);
              && current == (if allowed && built.Some? then built else old(current))
              && lastRefreshTime == (if allowed then Some(end) else old(lastRefreshTime))
              && hooked == old(hooked) + (if allowed && built.Some? then {built.value} else {})
              && closing == old(closing)
                            + (if allowed && built.Some? && old(current).Some? then [old(current).value] else [])
              && panicked == (allowed && built.None?)
      ensures var op := Refresh(start, end, built);
              !old(refreshInProgress) && Apply(old(TheView()), op).Some? ==>
                Apply(old(TheView()), op) == Some(TheView())
    {
      panicked := false;
      if refreshInProgress { return; }
      refreshInProgress := true;
      var can := CanRefreshClient(start);
      if !can {
        refreshInProgress := false;
        return;
      }
      var oldClient := current;
      if built.Some? {
        RefreshClient(built.value);
        if oldClient.Some? { closing := closing + [oldClient.value]; }
      } else {
        panicked := true;
      }
      lastRefreshTime := Some(end); // the deferred calls, last registered first
      refreshInProgress := false;
    }

    /** ProcessHook and ProcessPipelineHook: the command's error is returned untouched. */
    method ProcessHook(nextErr: Option<string>, start: Time, end: Time, built: Option<ClientId>)
      returns (err: Option<string>, panicked: bool)
      requires start <= end
      modifies this
      ensures err == nextErr
      ensures var last := old(lastRefreshTime);
              var refused := exists before, after :: nextErr == Some(before + "connection refused" + after);
              var allowed := refused && !old(refreshInProgress)
                             && (last.None? || last.value + REFRESH_COOLDOWN <= start);
              && current == (if allowed && built.Some? then built else old(current))
              && lastRefreshTime == (if allowed then Some(end) else old(lastRefreshTime))
              && hooked == old(hooked) + (if allowed && built.Some? then {built.value} else {})
              && closing == old(closing)
                            + (if allowed && built.Some? && old(current).Some? then [old(current).value] else [])
              && panicked == (allowed && built.None?)
      ensures refreshInProgress == old(refreshInProgress)
    {
      err, panicked := nextErr, false;
      ShouldRefreshIffRefused(err);
      if ShouldRefresh(err) {
        panicked := AttemptRefreshClient(start, end, built);
      }
    }
  }
}
