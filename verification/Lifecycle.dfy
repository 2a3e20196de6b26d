/**
  Hot replacement of a configured client: an update first leaves the old client
  to a timer, then builds the new one, which may mean dialling. RedisCfg and
  EthCfg set one timer per replaced client; BatchableEthCfg sets a second one for
  the same underlying EthClient after the dial.
*/
module Lifecycle {
  import opened Wrappers

  const CLOSE_DELAY: Time := 60_000_000_000 // RedisCloseDelay and EthCloseDelay, in nanoseconds

  /** The first (0) or second (1) timer of a client, and the Close call it makes. */
  datatype Timer = Timer(due: Time, client: ClientId, nth: nat)
  datatype Close = Close(at: Time, client: ClientId, nth: nat)

  datatype State = State(
    now: Time,
    current: Option<ClientId>, // C of the newest config; None before the first update and after a failed dial
    replacing: bool, // an OnUpdate has begun and is building its client
    timers: set<Timer>,
    closes: seq<Close>,
    built: nat,
    retired: seq<Time>, // history: when the update that replaces client 0, 1, ... began,
    rebuilt: seq<Time>) // and when it had built the new client or failed to

  const INIT := State(0, None, false, {}, [], 0, [], [])

  datatype Action =
    | Advance(elapsed: Time)
    | StartUpdate // OnUpdate(old, new), where old is the newest config, up to the dial
    | EndUpdate(dialled: bool) // and from there on
    | Fire(timer: Timer)

  /** The old client gets its first timer. */
  function Retire(s: State): State {
    if s.current.None? then s.(replacing := true)
    else
      s.(replacing := true, retired := s.retired + [s.now],
         timers := s.timers + {Timer(s.now + CLOSE_DELAY, s.current.value, 0)})
  }

  /** And its second one, if the config sets two; then the new client takes its place. */
  function Replace(twice: bool, s: State, dialled: bool): State {
    var left :=
      if s.current.None? then s
      else
        s.(rebuilt := s.rebuilt + [s.now],
           timers := s.timers + if twice then {Timer(s.now + CLOSE_DELAY, s.current.value, 1)} else {});
    Install(left.(replacing := false), dialled)
  }

  function Install(s: State, dialled: bool): State {
    if dialled then s.(current := Some(s.built), built := s.built + 1) else s.(current := None)
  }

  function Wait(s: State, elapsed: Time): State {
    s.(now := s.now + elapsed)
  }

  /** A timer may fire any time after it is due, also in the middle of an update. */
  function Next(twice: bool, s: State, a: Action): Option<State> {
    match a
    case Advance(elapsed) => Some(Wait(s, elapsed))
    case StartUpdate => if s.replacing then None else Some(Retire(s))
    case EndUpdate(dialled) => if s.replacing then Some(Replace(twice, s, dialled)) else None
    case Fire(t) =>
      if t in s.timers && t.due <= s.now then
        Some(s.(timers := s.timers - {t}, closes := s.closes + [Close(s.now, t.client, t.nth)]))
      else None
  }

  function Exec(twice: bool, actions: seq<Action>): Option<State> {
    if actions == [] then Some(INIT)
    else
      var before := Exec(twice, actions[..|actions| - 1]);
      if before.None? then None else Next(twice, before.value, actions[|actions| - 1])
  }

  // ---------------------------------------------------------------- invariant

  /** When a timer was set, if it was. */
  function SetAt(twice: bool, retired: seq<Time>, rebuilt: seq<Time>, c: ClientId, nth: nat): Option<Time> {
    if nth == 0 && c < |retired| then Some(retired[c])
    else if nth == 1 && twice && c < |rebuilt| then Some(rebuilt[c])
    else None
  }

  function ClosesOf(closes: seq<Close>, c: ClientId, nth: nat): nat {
    if closes == [] then 0
    else
      var close := closes[|closes| - 1];
      ClosesOf(closes[..|closes| - 1], c, nth) + Count(close.client == c && close.nth == nth)
  }

  ghost predicate Pending(timers: set<Timer>, c: ClientId, nth: nat) {
    exists t :: t in timers && t.client == c && t.nth == nth
  }

  /** Clients are retired in the order they were built; the newest one is the configured one. */
  ghost predicate OrderInv(s: State) {
    && s.built == |s.rebuilt| + Count(s.current.Some?)
    && |s.retired| == |s.rebuilt| + Count(s.replacing && s.current.Some?)
    && (s.current.Some? ==> s.current.value == |s.rebuilt|)
    && (forall c :: 0 <= c < |s.retired| ==> s.retired[c] <= s.now)
    && (forall c :: 0 <= c < |s.rebuilt| ==> s.retired[c] <= s.rebuilt[c] <= s.now)
  }

  ghost predicate TimersInv(twice: bool, timers: set<Timer>, retired: seq<Time>, rebuilt: seq<Time>) {
    forall t :: t in timers ==>
      var at := SetAt(twice, retired, rebuilt, t.client, t.nth);
      at.Some? && t.due == at.value + CLOSE_DELAY
  }

  ghost predicate ClosesInv(twice: bool, closes: seq<Close>, retired: seq<Time>, rebuilt: seq<Time>, now: Time) {
    forall k :: 0 <= k < |closes| ==>
      var at := SetAt(twice, retired, rebuilt, closes[k].client, closes[k].nth);
      at.Some? && at.value + CLOSE_DELAY <= closes[k].at <= now
  }

  /** A timer that was set is pending or has made its one Close call. */
  ghost predicate OnceInv(twice: bool, timers: set<Timer>, closes: seq<Close>, retired: seq<Time>, rebuilt: seq<Time>) {
    forall c: ClientId, nth: nat ::
      Count(Pending(timers, c, nth)) + ClosesOf(closes, c, nth) == Count(SetAt(twice, retired, rebuilt, c, nth).Some?)
  }

  ghost predicate Inv(twice: bool, s: State) {
    && OrderInv(s)
    && TimersInv(twice, s.timers, s.retired, s.rebuilt)
    && ClosesInv(twice, s.closes, s.retired, s.rebuilt, s.now)
    && OnceInv(twice, s.timers, s.closes, s.retired, s.rebuilt)
  }

  /** The effect of setting the nth timer of a client that has none yet. */
  lemma {:induction false} SettingKeepsOnce(
      twice: bool, timers: set<Timer>, closes: seq<Close>, retired: seq<Time>, rebuilt: seq<Time>,
      t: Timer, retired': seq<Time>, rebuilt': seq<Time>)
    requires OnceInv(twice, timers, closes, retired, rebuilt)
    requires SetAt(twice, retired, rebuilt, t.client, t.nth).None?
    requires forall c: ClientId, nth: nat ::
               SetAt(twice, retired', rebuilt', c, nth).Some?
               <==> SetAt(twice, retired, rebuilt, c, nth).Some? || (c == t.client && nth == t.nth)
    ensures OnceInv(twice, timers + {t}, closes, retired', rebuilt')
  {
    forall c: ClientId, nth: nat
      ensures Count(Pending(timers + {t}, c, nth)) + ClosesOf(closes, c, nth)
              == Count(SetAt(twice, retired', rebuilt', c, nth).Some?)
    {
      assert Count(Pending(timers, c, nth)) + ClosesOf(closes, c, nth)
             == Count(SetAt(twice, retired, rebuilt, c, nth).Some?);
      if Pending(timers, c, nth) {
        var u :| u in timers && u.client == c && u.nth == nth;
        assert u in timers + {t};
      }
      assert t in timers + {t};
    }
  }

  lemma {:induction false} StartStep(twice: bool, s: State)
    requires Inv(twice, s) && !s.replacing
    ensures Inv(twice, Retire(s))
  {
    if s.current.Some? {
      var t := Timer(s.now + CLOSE_DELAY, s.current.value, 0);
      SettingKeepsOnce(twice, s.timers, s.closes, s.retired, s.rebuilt, t, s.retired + [s.now], s.rebuilt);
    }
  }

  lemma {:induction false} EndStep(twice: bool, s: State, dialled: bool)
    requires Inv(twice, s) && s.replacing
    ensures Inv(twice, Replace(twice, s, dialled))
  {
    if s.current.Some? {
      var t := Timer(s.now + CLOSE_DELAY, s.current.value, 1);
      if twice {
        SettingKeepsOnce(twice, s.timers, s.closes, s.retired, s.rebuilt, t, s.retired, s.rebuilt + [s.now]);
      } else {
        assert s.timers + {} == s.timers;
      }
    }
  }

  lemma {:induction false} ClosesSnoc(closes: seq<Close>, close: Close, c: ClientId, nth: nat)
    ensures ClosesOf(closes + [close], c, nth)
            == ClosesOf(closes, c, nth) + Count(close.client == c && close.nth == nth)
  {
    assert (closes + [close])[..|closes|] == closes;
  }

  lemma {:induction false} FiringKeepsOnce(
      twice: bool, timers: set<Timer>, closes: seq<Close>, retired: seq<Time>, rebuilt: seq<Time>, t: Timer, now: Time)
    requires OnceInv(twice, timers, closes, retired, rebuilt) && TimersInv(twice, timers, retired, rebuilt)
    requires t in timers
    ensures OnceInv(twice, timers - {t}, closes + [Close(now, t.client, t.nth)], retired, rebuilt)
  {
    var timers', closes' := timers - {t}, closes + [Close(now, t.client, t.nth)];
    forall c: ClientId, nth: nat
      ensures Count(Pending(timers', c, nth)) + ClosesOf(closes', c, nth)
              == Count(SetAt(twice, retired, rebuilt, c, nth).Some?)
    {
      assert Count(Pending(timers, c, nth)) + ClosesOf(closes, c, nth)
             == Count(SetAt(twice, retired, rebuilt, c, nth).Some?);
      ClosesSnoc(closes, Close(now, t.client, t.nth), c, nth);
      if c == t.client && nth == t.nth {
        assert forall u :: u in timers && u.client == c && u.nth == nth ==> u == t;
      } else if Pending(timers, c, nth) {
        var u :| u in timers && u.client == c && u.nth == nth;
        assert u in timers';
      }
    }
  }

  lemma {:induction false} FireStep(twice: bool, s: State, t: Timer)
    requires Inv(twice, s) && t in s.timers && t.due <= s.now
    ensures Inv(twice, Next(twice, s, Fire(t)).value)
  {
    FiringKeepsOnce(twice, s.timers, s.closes, s.retired, s.rebuilt, t, s.now);
  }

  lemma {:induction false} WaitStep(twice: bool, s: State, elapsed: Time)
    requires Inv(twice, s)
    ensures Inv(twice, Wait(s, elapsed))
  {
  }

  lemma {:induction false} StepKeepsInv(twice: bool, s: State, a: Action)
    requires Inv(twice, s) && Next(twice, s, a).Some?
    ensures Inv(twice, Next(twice, s, a).value)
  {
    match a
    case Advance(elapsed) => WaitStep(twice, s, elapsed);
    case StartUpdate => StartStep(twice, s);
    case EndUpdate(dialled) => EndStep(twice, s, dialled);
    case Fire(t) => FireStep(twice, s, t);
  }

  lemma {:induction false} RunKeepsInv(twice: bool, actions: seq<Action>)
    requires Exec(twice, actions).Some?
    ensures Inv(twice, Exec(twice, actions).value)
  {
    if actions == [] {
      assert Inv(twice, INIT);
    } else {
      var front := actions[..|actions| - 1];
      RunKeepsInv(twice, front);
      StepKeepsInv(twice, Exec(twice, front).value, actions[|actions| - 1]);
    }
  }

  // ------------------------------------------------------------ main results

  ghost predicate IsClosed(s: State, c: ClientId) {
    exists k :: 0 <= k < |s.closes| && s.closes[k].client == c
  }

  /**
    Between updates the configured client is neither closed nor scheduled to be.
    While an update replaces it, it is closed only if the dial outlasts the delay.
  */
  lemma {:induction false} CurrentIsNotClosed(twice: bool, actions: seq<Action>)
    requires Exec(twice, actions).Some? && Exec(twice, actions).value.current.Some?
    ensures var s := Exec(twice, actions).value;
            var c := s.current.value;
            if s.replacing then c < |s.retired| && (IsClosed(s, c) ==> s.retired[c] + CLOSE_DELAY <= s.now)
            else !IsClosed(s, c) && forall t :: t in s.timers ==> t.client != c
  {
    RunKeepsInv(twice, actions);
  }

  /** Some run closes the client that is still configured while it is being replaced, this long into the update. */
  ghost predicate CanCloseCurrent(twice: bool, dialTime: Time) {
    exists actions ::
      && Exec(twice, actions).Some?
      && var s := Exec(twice, actions).value;
         && s.replacing && s.current.Some? && s.current.value < |s.retired|
         && s.now == s.retired[s.current.value] + dialTime && IsClosed(s, s.current.value)
  }

  /** The dial must be shorter than the delay: otherwise, and only otherwise, the client in use may be closed. */
  lemma {:induction false} CurrentIsSafeIffDialIsShort(twice: bool, dialTime: Time)
    ensures CanCloseCurrent(twice, dialTime) <==> dialTime >= CLOSE_DELAY
  {
    if CanCloseCurrent(twice, dialTime) {
      var actions :| Exec(twice, actions).Some?
        && var s := Exec(twice, actions).value;
           && s.replacing && s.current.Some? && s.current.value < |s.retired|
           && s.now == s.retired[s.current.value] + dialTime && IsClosed(s, s.current.value);
      CurrentIsNotClosed(twice, actions);
    }
    if dialTime >= CLOSE_DELAY {
      var actions := SlowDial(twice, dialTime);
      var s := Exec(twice, actions).value;
      assert s.closes[0].client == 0;
      assert IsClosed(s, 0);
    }
  }

  lemma {:induction false} Snoc(twice: bool, actions: seq<Action>, a: Action)
    requires Exec(twice, actions).Some?
    ensures Exec(twice, actions + [a]) == Next(twice, Exec(twice, actions).value, a)
  {
    assert (actions + [a])[..|actions|] == actions;
  }

  /** A client is built, its replacement dials for that long, and the timer fires. */
  lemma {:induction false} SlowDial(twice: bool, dialTime: Time) returns (actions: seq<Action>)
    requires dialTime >= CLOSE_DELAY
    ensures Exec(twice, actions)
            == Some(State(dialTime, Some(0), true, {}, [Close(dialTime, 0, 0)], 1, [0], []))
  {
    var t := Timer(CLOSE_DELAY, 0, 0);
    var first: seq<Action> := [] + [StartUpdate];
    Snoc(twice, [], StartUpdate);
    var built := first + [EndUpdate(true)];
    Snoc(twice, first, EndUpdate(true));
    var retired := built + [StartUpdate];
    Snoc(twice, built, StartUpdate);
    var s := Exec(twice, retired).value;
    assert s == State(0, Some(0), true, {t}, [], 1, [0], []) by {
      assert s.timers == {t} && s.retired == [0];
    }
    var dialling := retired + [Advance(dialTime)];
    Snoc(twice, retired, Advance(dialTime));
    actions := dialling + [Fire(t)];
    Snoc(twice, dialling, Fire(t));
    assert {t} - {t} == {};
    assert [] + [Close(dialTime, 0, 0)] == [Close(dialTime, 0, 0)];
  }

  /** Close k is the only Close call the nth timer of client c makes. */
  ghost predicate IsTheClose(closes: seq<Close>, c: ClientId, nth: nat, k: nat) {
    && k < |closes| && closes[k].client == c && closes[k].nth == nth
    && forall l :: 0 <= l < |closes| && closes[l].client == c && closes[l].nth == nth ==> l == k
  }

  lemma {:induction false} TheClose(closes: seq<Close>, c: ClientId, nth: nat) returns (k: nat)
    requires ClosesOf(closes, c, nth) == 1
    ensures IsTheClose(closes, c, nth, k)
  {
    var front, close := closes[..|closes| - 1], closes[|closes| - 1];
    if close.client == c && close.nth == nth {
      k := |front|;
      forall l | 0 <= l < |closes| && closes[l].client == c && closes[l].nth == nth ensures l == k {
        if l < |front| { ClosesCounts(front, c, nth, l); }
      }
    } else {
      k := TheClose(front, c, nth);
      assert forall l :: 0 <= l < |front| ==> closes[l] == front[l];
    }
  }

  lemma {:induction false} ClosesCounts(closes: seq<Close>, c: ClientId, nth: nat, l: nat)
    requires l < |closes| && closes[l].client == c && closes[l].nth == nth
    ensures ClosesOf(closes, c, nth) > 0
  {
    if l < |closes| - 1 { ClosesCounts(closes[..|closes| - 1], c, nth, l); }
  }

  /** A replaced client is never closed before its delay is over, and each of its timers closes it at most once. */
  lemma {:induction false} ReplacedIsClosedAfterDelay(twice: bool, actions: seq<Action>, c: ClientId)
    requires Exec(twice, actions).Some? && c < |Exec(twice, actions).value.rebuilt|
    ensures var s := Exec(twice, actions).value;
            && |s.rebuilt| <= |s.retired|
            && (forall k :: 0 <= k < |s.closes| && s.closes[k].client == c ==>
                  && s.closes[k].nth < (if twice then 2 else 1)
                  && (if s.closes[k].nth == 0 then s.retired[c] else s.rebuilt[c]) + CLOSE_DELAY <= s.closes[k].at)
            && (forall k, l :: 0 <= k < l < |s.closes| && s.closes[k].client == s.closes[l].client == c ==>
                                 s.closes[k].nth != s.closes[l].nth)
  {
    RunKeepsInv(twice, actions);
    var s := Exec(twice, actions).value;
    forall k, l | 0 <= k < l < |s.closes| && s.closes[k].client == s.closes[l].client == c
      ensures s.closes[k].nth != s.closes[l].nth
    {
      if s.closes[k].nth == s.closes[l].nth {
        var nth := s.closes[k].nth;
        ClosesCounts(s.closes, c, nth, k);
        var only := TheClose(s.closes, c, nth);
        assert false;
      }
    }
  }

  /** The Close calls a client has had, as positions in the log. */
  ghost function ClosesFor(s: State, c: ClientId): set<nat> {
    set k | 0 <= k < |s.closes| && s.closes[k].client == c
  }

  /** Once the timers of a replaced client are gone it has been closed: by RedisCfg and EthCfg exactly once. */
  lemma {:induction false} ReplacedIsClosedOnce(actions: seq<Action>, c: ClientId)
    requires Exec(false, actions).Some? && c < |Exec(false, actions).value.rebuilt|
    requires forall t :: t in Exec(false, actions).value.timers ==> t.client != c
    ensures |ClosesFor(Exec(false, actions).value, c)| == 1
  {
    RunKeepsInv(false, actions);
    var s := Exec(false, actions).value;
    assert Count(Pending(s.timers, c, 0)) + ClosesOf(s.closes, c, 0) == 1;
    var k := TheClose(s.closes, c, 0);
    ReplacedIsClosedAfterDelay(false, actions, c);
    assert ClosesFor(s, c) == {k};
  }

  /** But by BatchableEthCfg exactly twice. */
  lemma {:induction false} BatchableIsClosedTwice(actions: seq<Action>, c: ClientId)
    requires Exec(true, actions).Some? && c < |Exec(true, actions).value.rebuilt|
    requires forall t :: t in Exec(true, actions).value.timers ==> t.client != c
    ensures |ClosesFor(Exec(true, actions).value, c)| == 2
  {
    RunKeepsInv(true, actions);
    var s := Exec(true, actions).value;
    assert Count(Pending(s.timers, c, 0)) + ClosesOf(s.closes, c, 0) == 1;
    assert Count(Pending(s.timers, c, 1)) + ClosesOf(s.closes, c, 1) == 1;
    var k := TheClose(s.closes, c, 0);
    var l := TheClose(s.closes, c, 1);
    ReplacedIsClosedAfterDelay(true, actions, c);
    assert ClosesFor(s, c) == {k, l};
  }

  ghost function Live(s: State): set<ClientId> {
    set c | 0 <= c < s.built && !IsClosed(s, c)
  }

  /** The updates of the last delay that replaced a client, numbered by the client they replaced. */
  ghost function RecentReplacements(s: State): set<ClientId> {
    set c | 0 <= c < |s.retired| && s.retired[c] + CLOSE_DELAY > s.now
  }

  ghost function InUse(s: State): set<ClientId> {
    if s.current.Some? && !s.replacing then {s.current.value} else {}
  }

  /**
    No leak: once every due timer has fired, what is still open is the configured
    client and those whose replacement began within the delay.
  */
  lemma {:induction false} LiveClients(twice: bool, actions: seq<Action>)
    requires Exec(twice, actions).Some?
    requires forall t :: t in Exec(twice, actions).value.timers ==> t.due > Exec(twice, actions).value.now
    ensures var s := Exec(twice, actions).value;
            Live(s) == RecentReplacements(s) + InUse(s) && |Live(s)| == |RecentReplacements(s)| + |InUse(s)|
  {
    RunKeepsInv(twice, actions);
    var s := Exec(twice, actions).value;
    forall c: ClientId ensures c in Live(s) <==> c in RecentReplacements(s) + InUse(s) {
      if c < |s.retired| { OpenIffRecent(twice, s, c); }
    }
    assert RecentReplacements(s) !! InUse(s);
    assert Live(s) == RecentReplacements(s) + InUse(s);
  }

  lemma {:induction false} OpenIffRecent(twice: bool, s: State, c: ClientId)
    requires Inv(twice, s) && c < |s.retired|
    requires forall t :: t in s.timers ==> t.due > s.now
    ensures IsClosed(s, c) <==> s.retired[c] + CLOSE_DELAY <= s.now
  {
    if s.retired[c] + CLOSE_DELAY <= s.now {
      assert Count(Pending(s.timers, c, 0)) + ClosesOf(s.closes, c, 0) == 1;
      var k := TheClose(s.closes, c, 0);
    }
  }

  // ------------------------------------------------- what the actions alone say

  function TimePassed(a: Action): Time {
    if a.Advance? then a.elapsed else 0
  }

  /** How far the clock has moved. */
  function Elapsed(actions: seq<Action>): Time {
    if actions == [] then 0 else Elapsed(actions[..|actions| - 1]) + TimePassed(actions[|actions| - 1])
  }

  /** One Close call for each timer that fired, by its client and at its time. */
  function ClosesIn(actions: seq<Action>): seq<Close> {
    if actions == [] then []
    else
      var front, a := actions[..|actions| - 1], actions[|actions| - 1];
      ClosesIn(front) + if a.Fire? then [Close(Elapsed(front), a.timer.client, a.timer.nth)] else []
  }

  /** The clock and the log are what the actions make them. */
  lemma {:induction false} ClosesAreFires(twice: bool, actions: seq<Action>)
    requires Exec(twice, actions).Some?
    ensures Exec(twice, actions).value.now == Elapsed(actions)
    ensures Exec(twice, actions).value.closes == ClosesIn(actions)
  {
    if actions != [] { ClosesAreFires(twice, actions[..|actions| - 1]); }
  }

  /** The run so far ends where an update that replaces client c begins. */
  ghost predicate AtStartFor(twice: bool, actions: seq<Action>, c: ClientId) {
    && Exec(twice, actions).Some? && !Exec(twice, actions).value.replacing
    && Exec(twice, actions).value.current == Some(c)
  }

  /** Or where it has dialled. */
  ghost predicate AtEndFor(twice: bool, actions: seq<Action>, c: ClientId) {
    && Exec(twice, actions).Some? && Exec(twice, actions).value.replacing
    && Exec(twice, actions).value.current == Some(c)
  }

  lemma {:induction false} HistoryGrows(twice: bool, actions: seq<Action>, longer: seq<Action>)
    requires actions <= longer && Exec(twice, longer).Some?
    ensures Exec(twice, actions).Some?
    ensures Exec(twice, actions).value.retired <= Exec(twice, longer).value.retired
    ensures Exec(twice, actions).value.rebuilt <= Exec(twice, longer).value.rebuilt
    decreases |longer|
  {
    if actions == longer {
    } else {
      HistoryGrows(twice, actions, longer[..|longer| - 1]);
    }
  }

  lemma {:induction false} TimerWasSet(twice: bool, s: State, t: Timer)
    requires OrderInv(s) && TimersInv(twice, s.timers, s.retired, s.rebuilt) && t in s.timers
    ensures t.client < |s.retired| && s.retired[t.client] + CLOSE_DELAY <= t.due
    ensures t.nth == 1 ==> t.client < |s.rebuilt| && s.rebuilt[t.client] + CLOSE_DELAY <= t.due
    ensures t.nth < if twice then 2 else 1
  {
  }

  /**
    By the clock alone: from the start of the update that replaces a client to
    any Close call of that client at least the delay passes; to the one of the
    second timer it passes from the end of the dial.
  */
  lemma {:induction false} ClosesWaitForDelay(twice: bool, start: seq<Action>, actions: seq<Action>, t: Timer)
    requires Exec(twice, actions).Some? && Next(twice, Exec(twice, actions).value, Fire(t)).Some?
    ensures AtStartFor(twice, start, t.client) && start + [StartUpdate] <= actions ==>
              Elapsed(start) + CLOSE_DELAY <= Elapsed(actions)
    ensures forall dialled ::
              AtEndFor(twice, start, t.client) && start + [EndUpdate(dialled)] <= actions && t.nth == 1 ==>
                Elapsed(start) + CLOSE_DELAY <= Elapsed(actions)
  {
    RunKeepsInv(twice, actions);
    ClosesAreFires(twice, actions);
    TimerWasSet(twice, Exec(twice, actions).value, t);
    if AtStartFor(twice, start, t.client) && start + [StartUpdate] <= actions {
      RunKeepsInv(twice, start);
      ClosesAreFires(twice, start);
      Snoc(twice, start, StartUpdate);
      HistoryGrows(twice, start + [StartUpdate], actions);
    }
    forall dialled | AtEndFor(twice, start, t.client) && start + [EndUpdate(dialled)] <= actions && t.nth == 1
      ensures Elapsed(start) + CLOSE_DELAY <= Elapsed(actions)
    {
      RunKeepsInv(twice, start);
      ClosesAreFires(twice, start);
      Snoc(twice, start, EndUpdate(dialled));
      HistoryGrows(twice, start + [EndUpdate(dialled)], actions);
    }
  }

  // ------------------------------------------------- every timer can go off

  lemma {:induction false} FireAll(twice: bool, actions: seq<Action>) returns (longer: seq<Action>)
    requires Exec(twice, actions).Some?
    requires var s := Exec(twice, actions).value; forall t :: t in s.timers ==> t.due <= s.now
    ensures actions <= longer && Exec(twice, longer).Some?
    ensures var s, r := Exec(twice, actions).value, Exec(twice, longer).value;
            r.timers == {} && r.replacing == s.replacing && r.current == s.current && r.rebuilt == s.rebuilt
    decreases |Exec(twice, actions).value.timers|
  {
    longer := actions;
    var s := Exec(twice, actions).value;
    if s.timers != {} {
      var t :| t in s.timers;
      Snoc(twice, actions, Fire(t));
      longer := FireAll(twice, actions + [Fire(t)]);
    }
  }

  /** After an update has ended, waiting for one delay makes every timer due. */
  lemma {:induction false} Settle(twice: bool, actions: seq<Action>) returns (longer: seq<Action>)
    requires Exec(twice, actions).Some?
    ensures actions <= longer && Exec(twice, longer).Some? && !Exec(twice, longer).value.replacing
    ensures var r := Exec(twice, longer).value; forall t :: t in r.timers ==> t.due <= r.now
  {
    longer := actions;
    if Exec(twice, actions).value.replacing {
      Snoc(twice, actions, EndUpdate(true));
      longer := actions + [EndUpdate(true)];
    }
    RunKeepsInv(twice, longer);
    Snoc(twice, longer, Advance(CLOSE_DELAY));
    longer := longer + [Advance(CLOSE_DELAY)];
  }

  /** No leak for want of a step: every run can be continued until all clients but the configured one are closed. */
  lemma {:induction false} ReplacedCanBeClosed(twice: bool, actions: seq<Action>) returns (longer: seq<Action>)
    requires Exec(twice, actions).Some?
    ensures actions <= longer && Exec(twice, longer).Some?
    ensures var r := Exec(twice, longer).value;
            && r.timers == {} && !r.replacing
            && forall c: ClientId :: c < r.built ==> (IsClosed(r, c) <==> r.current != Some(c))
  {
    var settled := Settle(twice, actions);
    longer := FireAll(twice, settled);
    RunKeepsInv(twice, longer);
    var r := Exec(twice, longer).value;
    forall c: ClientId | c < r.built ensures IsClosed(r, c) <==> r.current != Some(c) {
      if r.current != Some(c) {
        assert Count(Pending(r.timers, c, 0)) + ClosesOf(r.closes, c, 0) == 1;
        var k := TheClose(r.closes, c, 0);
      }
    }
  }

  // --------------------------------------------------------------- the Go code

  /** RedisCfg: the routing options OnUpdate touches, and the client. */
  class RedisCfg {
    var routeRandomly: bool
    var disableRouteRandomly: bool
    var client: Option<ClientId>

    constructor (routeRandomly: bool, disableRouteRandomly: bool)
      ensures client == None
      ensures this.routeRandomly == routeRandomly && this.disableRouteRandomly == disableRouteRandomly
    {
      this.routeRandomly, this.disableRouteRandomly, client := routeRandomly, disableRouteRandomly, None;
    }
  }

  /** BatchableEthCfg: the C of its embedded EthCfg, and its own C, which wraps that one. */
  class BatchableEthCfg {
    var ethClient: Option<ClientId>
    var client: Option<Option<ClientId>>

    constructor ()
      ensures ethClient == None && client == None
    {
      ethClient, client := None, None;
    }

    /** Not updated yet, or as OnUpdate leaves it. */
    ghost predicate Consistent() reads this {
      if client.None? then ethClient == None else client.value == ethClient
    }
  }

  /** The clock, time.AfterFunc's timers, the Close calls made and the clients built so far. */
  class Runtime {
    var now: Time
    var timers: set<Timer>
    var closes: seq<Close>
    var built: nat
    ghost var retired: seq<Time>
    ghost var rebuilt: seq<Time>

    constructor ()
      ensures TheState(None) == INIT
    {
      now, timers, closes, built, retired, rebuilt := 0, {}, [], 0, [], [];
    }

    /** Between updates, when the newest config has this client. */
    ghost function TheState(current: Option<ClientId>): State reads this {
      State(now, current, false, timers, closes, built, retired, rebuilt)
    }

    /** time.AfterFunc(CLOSE_DELAY, client.Close) */
    method CloseLater(client: ClientId, nth: nat)
      modifies this`timers
      ensures timers == old(timers) + {Timer(now + CLOSE_DELAY, client, nth)}
    {
      timers := timers + {Timer(now + CLOSE_DELAY, client, nth)};
    }

    method Build() returns (client: ClientId)
      modifies this`built
      ensures client == old(built) && built == old(built) + 1
    {
      client := built;
      built := built + 1;
    }

    /** RedisCfg.OnUpdate; a Redis client is built without dialling, so building takes no time and cannot fail. */
    method RedisOnUpdate(previous: RedisCfg?, cfg: RedisCfg)
      requires previous != cfg
      modifies this, cfg
      ensures var before := old(TheState(if previous == null then None else previous.client));
              TheState(cfg.client) == Replace(false, Retire(before), true)
      ensures cfg.routeRandomly == (old(cfg.routeRandomly) || !cfg.disableRouteRandomly)
      ensures cfg.disableRouteRandomly == old(cfg.disableRouteRandomly)
    {
      if previous != null && previous.client != None {
        CloseLater(previous.client.value, 0);
        retired, rebuilt := retired + [now], rebuilt + [now];
      }
      cfg.routeRandomly := cfg.routeRandomly || !cfg.disableRouteRandomly;
      var client := Build();
      cfg.client := Some(client);
    }

    /** EthCfg.OnUpdate on its C field; dialled tells whether Dial, which takes dialTime, reached either endpoint. */
    method EthOnUpdate(previous: Option<ClientId>, dialTime: Time, dialled: bool) returns (client: Option<ClientId>)
      modifies this
      ensures TheState(client) == Replace(false, Wait(Retire(old(TheState(previous))), dialTime), dialled)
    {
      if previous != None {
        CloseLater(previous.value, 0);
        retired := retired + [now];
      }
      now := now + dialTime;
      if previous != None { rebuilt := rebuilt + [now]; }
      client := None;
      if dialled {
        var c := Build();
        client := Some(c);
      }
    }

    /**
      BatchableEthCfg.OnUpdate. Once updated, the previous config's C is never
      nil, so a second timer is set for the old EthClient after the dial; where
      the old dial had failed, that timer closes a nil client, which panics when
      it fires.
    */
    method BatchableOnUpdate(previous: BatchableEthCfg?, cfg: BatchableEthCfg, dialTime: Time, dialled: bool)
      returns (panicsLater: bool)
      requires previous != cfg && (previous != null ==> previous.Consistent())
      modifies this, cfg
      ensures var before := old(TheState(if previous == null then None else previous.ethClient));
              TheState(cfg.ethClient) == Replace(true, Wait(Retire(before), dialTime), dialled)
      ensures cfg.client == Some(cfg.ethClient)
      ensures panicsLater <==> previous != null && previous.client == Some(None)
    {
      panicsLater := false;
      cfg.ethClient := EthOnUpdate(if previous == null then None else previous.ethClient, dialTime, dialled);
      if previous != null && previous.client != None {
        var oldC := previous.client.value;
        if oldC == None { panicsLater := true; } else { CloseLater(oldC.value, 1); }
      }
      cfg.client := Some(cfg.ethClient);
    }
  }
}
