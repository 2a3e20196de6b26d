/**
  Any number of goroutines running attemptRefreshClient at once, one step per
  shared access, together with the goroutines that close superseded clients.
  Plain Go fields are taken as sequentially consistent.
*/
module ReconnectProtocol {
  import opened Wrappers
  import opened Refresher

  type ThreadId = nat

  /**
    Where a goroutine stands. The deferred calls run last-in first-out, so the
    timestamp (AtNow, AtStamp) comes before the flag is cleared (AtRelease).
    `start` is bookkeeping: the clock at this attempt's cooldown check.
  */
  datatype Pc =
    | Outside
    | AtLoad
    | AtSwap
    | AtReadLast
    | AtCheck(last: Option<Time>)
    | AtReadOld(start: Time)
    | AtFactory(start: Time, prior: Option<ClientId>)
    | AtHook(start: Time, prior: Option<ClientId>, client: ClientId)
    | AtPublish(start: Time, prior: Option<ClientId>, client: ClientId)
    | AtSpawn(start: Time, prior: Option<ClientId>, client: ClientId)
    | AtNow(start: Time, prior: Option<ClientId>, installed: Option<ClientId>)
    | AtStamp(start: Time, prior: Option<ClientId>, installed: Option<ClientId>, now: Time)
    | AtRelease

  /** One cooldown check: its clock reading, how many refreshes had completed, and the verdict. */
  datatype Check = Check(at: Time, before: nat, passed: bool)

  /** The wrapper's fields, the clock, the clients, and a history that no step reads. */
  datatype Shared = Shared(
    clock: Time,
    current: Option<ClientId>,
    lastRefresh: Option<Time>,
    inProgress: bool,
    made: nat, // the factory has made clients 0 .. made - 1
    hooked: set<ClientId>,
    closers: multiset<ClientId>, // spawned closing goroutines that have not run
    closed: seq<ClientId>, // every Close call, in order
    panics: nat,
    checks: seq<Check>,
    completed: seq<Refresh>)

  /** `owner` and `refused` are history too: whose CompareAndSwap last succeeded, and how many commands were refused. */
  datatype State = State(
    sh: Shared,
    threads: map<ThreadId, Pc>, // absent: Outside
    owner: Option<ThreadId>,
    refused: nat)

  function PcOf(s: State, t: ThreadId): Pc {
    if t in s.threads then s.threads[t] else Outside
  }

  function Goto(s: State, t: ThreadId, pc: Pc): State {
    s.(threads := s.threads[t := pc])
  }

  /** The state in which New returns. */
  const INIT := State(Shared(0, Some(0), None, false, 1, {0}, multiset{}, [], 0, [], []), map[], None, 0)

  datatype Action =
    | Tick(elapsed: Time)
    | Command(t: ThreadId, err: Option<string>) // a command or pipeline returned err to its hook
    | Run(t: ThreadId) // the goroutine's next shared access
    | FactoryPanic(t: ThreadId)
    | CloseOld(c: ClientId)

  function Next(s: State, a: Action): Option<State> {
    match a
    case Tick(elapsed) => Some(s.(sh := s.sh.(clock := s.sh.clock + elapsed)))
    case Command(t, err) =>
      if PcOf(s, t) != Outside then None
      else if ShouldRefresh(err) then Some(Goto(s, t, AtLoad).(refused := s.refused + 1))
      else Some(s)
    case Run(t) => if PcOf(s, t) == Outside then None else Some(Access(s, t))
    case FactoryPanic(t) =>
      var pc := PcOf(s, t);
      if pc.AtFactory? then
        Some(Goto(s, t, AtNow(pc.start, pc.prior, None)).(sh := s.sh.(panics := s.sh.panics + 1)))
      else None
    case CloseOld(c) => if c in s.sh.closers then Some(s.(sh := RunCloser(s.sh, c))) else None
  }

  function RunCloser(sh: Shared, c: ClientId): Shared {
    sh.(closers := sh.closers - multiset{c}, closed := sh.closed + [c])
  }

  function Access(s: State, t: ThreadId): State
    requires PcOf(s, t) != Outside
  {
    var pc := PcOf(s, t);
    var owner := if pc == AtSwap && !s.sh.inProgress then Some(t)
                 else if pc == AtRelease then None
                 else s.owner;
    Goto(s, t, Successor(s.sh, pc)).(sh := Effect(s.sh, pc), owner := owner)
  }

  /** Where a goroutine at pc goes next. */
  function Successor(sh: Shared, pc: Pc): Pc
    requires pc != Outside
  {
    match pc
    case AtLoad => if sh.inProgress then Outside else AtSwap
    case AtSwap => if sh.inProgress then Outside else AtReadLast
    case AtReadLast => AtCheck(sh.lastRefresh)
    case AtCheck(last) => if CooledDown(last, sh.clock) then AtReadOld(sh.clock) else AtRelease
    case AtReadOld(start) => AtFactory(start, sh.current)
    case AtFactory(start, prior) => AtHook(start, prior, sh.made)
    case AtHook(start, prior, client) => AtPublish(start, prior, client)
    case AtPublish(start, prior, client) => AtSpawn(start, prior, client)
    case AtSpawn(start, prior, client) => AtNow(start, prior, Some(client))
    case AtNow(start, prior, installed) => AtStamp(start, prior, installed, sh.clock)
    case AtStamp(_, _, _, _) => AtRelease
    case AtRelease => Outside
  }

  /** What that access does to the shared state. */
  function Effect(sh: Shared, pc: Pc): Shared
    requires pc != Outside
  {
    match pc
    case AtSwap => sh.(inProgress := true)
    case AtCheck(last) => sh.(checks := sh.checks + [Check(sh.clock, |sh.completed|, CooledDown(last, sh.clock))])
    case AtFactory(_, _) => sh.(made := sh.made + 1)
    case AtHook(_, _, client) => sh.(hooked := sh.hooked + {client})
    case AtPublish(_, _, client) => sh.(current := Some(client))
    case AtSpawn(_, prior, _) =>
      sh.(closers := sh.closers + if prior.Some? then multiset{prior.value} else multiset{})
    case AtStamp(start, _, installed, now) =>
      sh.(lastRefresh := Some(now), completed := sh.completed + [Refresh(start, now, installed)])
    case AtRelease => sh.(inProgress := false)
    case _ => sh
  }

  /** The state a schedule leads to, or None if one of its actions was not enabled. */
  function Exec(schedule: seq<Action>): Option<State> {
    if schedule == [] then Some(INIT)
    else
      var before := Exec(schedule[..|schedule| - 1]);
      if before.None? then None else Next(before.value, schedule[|schedule| - 1])
  }

  lemma {:induction false} Snoc(schedule: seq<Action>, a: Action)
    requires Exec(schedule).Some?
    ensures Exec(schedule + [a]) == Next(Exec(schedule).value, a)
  {
    assert (schedule + [a])[..|schedule|] == schedule;
  }

  // ---------------------------------------------------------------- invariant

  /** Between the successful CompareAndSwap and the release. */
  predicate Guarded(pc: Pc) {
    pc != Outside && pc != AtLoad && pc != AtSwap
  }

  /** Past the cooldown check and not yet stamped. */
  predicate Refreshing(pc: Pc) {
    Guarded(pc) && !pc.AtReadLast? && !pc.AtCheck? && !pc.AtRelease?
  }

  /** The client made by the open refresh, while no one else can see it. */
  function UnderConstruction(pc: Pc): Option<ClientId> {
    if pc.AtHook? || pc.AtPublish? then Some(pc.client) else None
  }

  /** The client published by the open refresh. */
  function JustPublished(pc: Pc): Option<ClientId> {
    if pc.AtSpawn? then Some(pc.client)
    else if pc.AtNow? || pc.AtStamp? then pc.installed
    else None
  }

  function OwnerPc(s: State): Pc {
    if s.owner.Some? then PcOf(s, s.owner.value) else Outside
  }

  /** The view a sequential refresher would show: the open refresh does not count until it is stamped. */
  function Observed(sh: Shared, pc: Pc): View {
    View(if JustPublished(pc).Some? then pc.prior else sh.current, sh.lastRefresh)
  }

  function PassedTimes(checks: seq<Check>): seq<Time> {
    if checks == [] then []
    else
      var c := checks[|checks| - 1];
      PassedTimes(checks[..|checks| - 1]) + if c.passed then [c.at] else []
  }

  function Installs(ops: seq<Refresh>): nat {
    if ops == [] then 0
    else Installs(ops[..|ops| - 1]) + if ops[|ops| - 1].installed.Some? then 1 else 0
  }

  ghost predicate OwnerInv(s: State) {
    && (forall t: ThreadId :: Guarded(PcOf(s, t)) <==> s.owner == Some(t))
    && (s.sh.inProgress <==> s.owner.Some?)
  }

  /** What the owner's locals say about the shared state. */
  ghost predicate LocalsInv(sh: Shared, pc: Pc) {
    && sh.current.Some?
    && (pc.AtCheck? ==> pc.last == sh.lastRefresh)
    && (Refreshing(pc) ==> CooledDown(sh.lastRefresh, pc.start) && pc.start <= sh.clock)
    && (pc.AtStamp? ==> pc.start <= pc.now <= sh.clock)
    && (Refreshing(pc) && !pc.AtReadOld? && JustPublished(pc).None? ==> pc.prior == sh.current)
    && (JustPublished(pc).Some? ==> && JustPublished(pc) == sh.current && sh.current.value > 0
                                    && pc.prior == Some(sh.current.value - 1))
    && sh.made == sh.current.value + 1 + (if UnderConstruction(pc).Some? then 1 else 0)
    && (UnderConstruction(pc).Some? ==> pc.client == sh.made - 1)
  }

  /** Superseded clients are handed on exactly once: held by the owner, then by a closer, then closed. */
  ghost predicate LedgerInv(sh: Shared, pc: Pc)
    requires sh.current.Some?
  {
    forall c: ClientId :: sh.closers[c] + multiset(sh.closed)[c] ==
                          if c < sh.current.value && !(pc.AtSpawn? && pc.prior == Some(c)) then 1 else 0
  }

  ghost predicate HooksInv(sh: Shared, pc: Pc)
    requires sh.current.Some?
  {
    && (forall c: ClientId :: c <= sh.current.value ==> c in sh.hooked)
    && (pc.AtPublish? ==> pc.client in sh.hooked)
  }

  ghost predicate HistoryInv(sh: Shared, pc: Pc)
    requires sh.current.Some?
  {
    && Replay(sh.completed) == Some(Observed(sh, pc))
    && sh.current.value == Installs(sh.completed) + (if JustPublished(pc).Some? then 1 else 0)
    && (sh.panics == 0 ==> && (forall k :: 0 <= k < |sh.completed| ==> sh.completed[k].installed.Some?)
                           && (pc.AtNow? || pc.AtStamp? ==> pc.installed.Some?))
    && (pc.AtRelease? ==> sh.completed != [])
  }

  /** The checks that passed are those of the completed refreshes and of the open one. */
  ghost predicate PassedInv(sh: Shared, pc: Pc) {
    PassedTimes(sh.checks) == if Refreshing(pc) then Starts(sh.completed) + [pc.start] else Starts(sh.completed)
  }

  ghost predicate ExactInv(checks: seq<Check>, completed: seq<Refresh>) {
    forall k :: 0 <= k < |checks| ==> CheckIsExact(checks[k], completed)
  }

  /** A check passes exactly when no refresh had completed or the latest one ended a cooldown ago. */
  ghost predicate CheckIsExact(c: Check, completed: seq<Refresh>) {
    && c.before <= |completed|
    && (c.passed <==> c.before == 0 || completed[c.before - 1].end + REFRESH_COOLDOWN <= c.at)
  }

  ghost predicate SharedInv(sh: Shared, pc: Pc) {
    LocalsInv(sh, pc) && LedgerInv(sh, pc) && HooksInv(sh, pc) && HistoryInv(sh, pc)
    && PassedInv(sh, pc) && ExactInv(sh.checks, sh.completed)
  }

  /** A refused command has either led to a refresh or some goroutine is still on its way. */
  ghost predicate HerdInv(s: State) {
    s.refused > 0 && s.sh.completed == [] ==> exists t: ThreadId :: PcOf(s, t) != Outside
  }

  ghost predicate Inv(s: State) {
    OwnerInv(s) && SharedInv(s.sh, OwnerPc(s)) && HerdInv(s)
  }

  lemma InitInv()
    ensures Inv(INIT)
  {
  }

  // The owner's accesses keep the shared invariant, one part at a time.

  lemma {:induction false} LocalsStep(sh: Shared, pc: Pc)
    requires Guarded(pc) && LocalsInv(sh, pc)
    ensures LocalsInv(Effect(sh, pc), Successor(sh, pc))
  {
  }

  lemma {:induction false} LedgerStep(sh: Shared, pc: Pc)
    requires Guarded(pc) && LocalsInv(sh, pc) && LedgerInv(sh, pc)
    ensures LedgerInv(Effect(sh, pc), Successor(sh, pc))
  {
  }

  lemma {:induction false} HooksStep(sh: Shared, pc: Pc)
    requires Guarded(pc) && LocalsInv(sh, pc) && HooksInv(sh, pc)
    ensures HooksInv(Effect(sh, pc), Successor(sh, pc))
  {
  }

  lemma {:induction false} HistoryStamped(sh: Shared, pc: Pc)
    requires pc.AtStamp? && LocalsInv(sh, pc) && HistoryInv(sh, pc)
    ensures HistoryInv(Effect(sh, pc), AtRelease)
  {
    var sh' := Effect(sh, pc);
    var op := Refresh(pc.start, pc.now, pc.installed);
    assert sh'.completed[..|sh.completed|] == sh.completed;
    assert Replay(sh'.completed) == Apply(Observed(sh, pc), op);
    assert Apply(Observed(sh, pc), op) == Some(Observed(sh', AtRelease));
  }

  lemma {:induction false} HistoryUnstamped(sh: Shared, pc: Pc)
    requires Guarded(pc) && !pc.AtStamp? && LocalsInv(sh, pc) && HistoryInv(sh, pc) && Successor(sh, pc) != Outside
    ensures HistoryInv(Effect(sh, pc), Successor(sh, pc))
  {
    var sh', pc' := Effect(sh, pc), Successor(sh, pc);
    assert sh'.completed == sh.completed && Observed(sh', pc') == Observed(sh, pc);
  }

  lemma {:induction false} HistoryReleased(sh: Shared)
    requires sh.current.Some? && HistoryInv(sh, AtRelease)
    ensures HistoryInv(sh.(inProgress := false), Outside)
  {
    assert Observed(sh.(inProgress := false), Outside) == Observed(sh, AtRelease);
  }

  lemma {:induction false} HistoryStep(sh: Shared, pc: Pc)
    requires Guarded(pc) && LocalsInv(sh, pc) && HistoryInv(sh, pc)
    ensures HistoryInv(Effect(sh, pc), Successor(sh, pc))
  {
    match pc
    case AtStamp(_, _, _, _) => HistoryStamped(sh, pc);
    case AtRelease => HistoryReleased(sh);
    case _ => HistoryUnstamped(sh, pc);
  }

  lemma {:induction false} PassedStep(sh: Shared, pc: Pc)
    requires Guarded(pc) && PassedInv(sh, pc)
    ensures PassedInv(Effect(sh, pc), Successor(sh, pc))
  {
    match pc
    case AtStamp(_, _, _, _) => RefreshLogged(sh, pc);
    case AtCheck(_) => CheckLogged(sh, pc);
    case _ => NothingLogged(sh, pc);
  }

  lemma {:induction false} RefreshLogged(sh: Shared, pc: Pc)
    requires pc.AtStamp? && PassedInv(sh, pc)
    ensures PassedInv(Effect(sh, pc), AtRelease)
  {
    LogRefresh(sh.completed, Refresh(pc.start, pc.now, pc.installed), []);
  }

  lemma {:induction false} CheckLogged(sh: Shared, pc: Pc)
    requires pc.AtCheck? && PassedInv(sh, pc)
    ensures PassedInv(Effect(sh, pc), Successor(sh, pc))
  {
    LogCheck(sh.checks, Check(sh.clock, |sh.completed|, CooledDown(pc.last, sh.clock)));
  }

  lemma {:induction false} NothingLogged(sh: Shared, pc: Pc)
    requires Guarded(pc) && !pc.AtStamp? && !pc.AtCheck?
    ensures Refreshing(Successor(sh, pc)) == Refreshing(pc)
    ensures Refreshing(pc) ==> Successor(sh, pc).start == pc.start
    ensures Effect(sh, pc).checks == sh.checks && Effect(sh, pc).completed == sh.completed
  {
  }

  lemma {:induction false} ExactStep(sh: Shared, pc: Pc)
    requires Guarded(pc) && ExactInv(sh.checks, sh.completed)
    requires Replay(sh.completed).Some? && Replay(sh.completed).value.last == sh.lastRefresh
    requires pc.AtCheck? ==> pc.last == sh.lastRefresh
    ensures ExactInv(Effect(sh, pc).checks, Effect(sh, pc).completed)
  {
    if pc.AtStamp? {
      LogRefresh(sh.completed, Refresh(pc.start, pc.now, pc.installed), sh.checks);
    } else if pc.AtCheck? {
      VerdictIsExact(Check(sh.clock, |sh.completed|, CooledDown(pc.last, sh.clock)), sh.completed, sh.lastRefresh);
    }
  }

  lemma {:induction false} VerdictIsExact(check: Check, completed: seq<Refresh>, last: Option<Time>)
    requires Replay(completed).Some? && Replay(completed).value.last == last
    requires check.before == |completed| && check.passed == CooledDown(last, check.at)
    ensures CheckIsExact(check, completed)
  {
    ReplayableIffSpaced(completed);
  }

  lemma {:induction false} LogCheck(checks: seq<Check>, check: Check)
    ensures PassedTimes(checks + [check]) == PassedTimes(checks) + if check.passed then [check.at] else []
  {
    assert (checks + [check])[..|checks|] == checks;
  }

  lemma {:induction false} LogRefresh(completed: seq<Refresh>, op: Refresh, checks: seq<Check>)
    requires ExactInv(checks, completed)
    ensures Starts(completed + [op]) == Starts(completed) + [op.start]
    ensures ExactInv(checks, completed + [op])
  {
    assert (completed + [op])[..|completed|] == completed;
  }

  lemma {:induction false} SharedStep(sh: Shared, pc: Pc)
    requires Guarded(pc) && SharedInv(sh, pc)
    ensures SharedInv(Effect(sh, pc), Successor(sh, pc))
  {
    LocalsStep(sh, pc);
    LedgerStep(sh, pc);
    HooksStep(sh, pc);
    HistoryStep(sh, pc);
    PassedStep(sh, pc);
    ExactStep(sh, pc);
  }

  lemma {:induction false} PanicStep(sh: Shared, pc: Pc)
    requires pc.AtFactory? && SharedInv(sh, pc)
    ensures SharedInv(sh.(panics := sh.panics + 1), AtNow(pc.start, pc.prior, None))
  {
  }

  lemma {:induction false} CloserStep(sh: Shared, pc: Pc, c: ClientId)
    requires SharedInv(sh, pc) && c in sh.closers
    ensures SharedInv(RunCloser(sh, c), pc)
  {
  }

  lemma {:induction false} TickLedger(sh: Shared, pc: Pc, elapsed: Time)
    requires sh.current.Some? && LedgerInv(sh, pc) && HooksInv(sh, pc)
    ensures var later := sh.(clock := sh.clock + elapsed); LedgerInv(later, pc) && HooksInv(later, pc)
  {
  }

  lemma {:induction false} TickHistory(sh: Shared, pc: Pc, elapsed: Time)
    requires sh.current.Some? && HistoryInv(sh, pc) && PassedInv(sh, pc)
    ensures var later := sh.(clock := sh.clock + elapsed); HistoryInv(later, pc) && PassedInv(later, pc)
  {
    assert Observed(sh.(clock := sh.clock + elapsed), pc) == Observed(sh, pc);
  }

  lemma {:induction false} TickLocals(sh: Shared, pc: Pc, elapsed: Time)
    requires LocalsInv(sh, pc)
    ensures LocalsInv(sh.(clock := sh.clock + elapsed), pc)
  {
  }

  lemma {:induction false} TickStep(sh: Shared, pc: Pc, elapsed: Time)
    requires SharedInv(sh, pc)
    ensures SharedInv(sh.(clock := sh.clock + elapsed), pc)
  {
    TickLocals(sh, pc, elapsed);
    TickLedger(sh, pc, elapsed);
    TickHistory(sh, pc, elapsed);
  }

  /** Taking the flag opens no refresh; goroutines that do not hold it change nothing else. */
  lemma {:induction false} TakeStep(sh: Shared)
    requires SharedInv(sh, Outside)
    ensures SharedInv(sh.(inProgress := true), AtReadLast)
  {
  }

  lemma {:induction false} OwnerStep(s: State, a: Action)
    requires OwnerInv(s) && Next(s, a).Some?
    ensures OwnerInv(Next(s, a).value)
  {
  }

  lemma {:induction false} HerdStep(s: State, a: Action)
    requires Inv(s) && Next(s, a).Some?
    ensures HerdInv(Next(s, a).value)
  {
    var s' := Next(s, a).value;
    if s'.refused > 0 && s'.sh.completed == [] {
      if a.Command? && ShouldRefresh(a.err) {
        assert PcOf(s', a.t) != Outside;
      } else {
        var t: ThreadId :| PcOf(s, t) != Outside;
        if a == Run(t) { LeavingIsCovered(s, t); } else { assert PcOf(s', t) != Outside; }
      }
    }
  }

  /** A goroutine leaves with no refresh completed only because another one holds the flag. */
  lemma {:induction false} LeavingIsCovered(s: State, t: ThreadId)
    requires OwnerInv(s) && SharedInv(s.sh, OwnerPc(s)) && PcOf(s, t) != Outside && s.sh.completed == []
    ensures exists u: ThreadId :: PcOf(Access(s, t), u) != Outside
  {
    var s' := Access(s, t);
    if PcOf(s', t) == Outside {
      assert s.owner.Some? && PcOf(s', s.owner.value) != Outside;
    }
  }

  lemma {:induction false} RunStep(s: State, t: ThreadId)
    requires Inv(s) && PcOf(s, t) != Outside && OwnerInv(Access(s, t))
    ensures SharedInv(Access(s, t).sh, OwnerPc(Access(s, t)))
  {
    var s', pc := Access(s, t), OwnerPc(s);
    if s.owner == Some(t) {
      SharedStep(s.sh, pc);
      assert OwnerPc(s') == Successor(s.sh, pc);
    } else if PcOf(s, t) == AtSwap && !s.sh.inProgress {
      TakeStep(s.sh);
      assert OwnerPc(s') == AtReadLast;
    } else {
      assert OwnerPc(s') == pc && s'.sh == s.sh;
    }
  }

  lemma {:induction false} CommandStep(s: State, a: Action)
    requires Inv(s) && a.Command? && Next(s, a).Some? && OwnerInv(Next(s, a).value)
    ensures SharedInv(Next(s, a).value.sh, OwnerPc(Next(s, a).value))
  {
    var s' := Next(s, a).value;
    assert s'.sh == s.sh;
    assert OwnerPc(s') == OwnerPc(s);
  }

  lemma {:induction false} FactoryPanicStep(s: State, a: Action)
    requires Inv(s) && a.FactoryPanic? && Next(s, a).Some? && OwnerInv(Next(s, a).value)
    ensures SharedInv(Next(s, a).value.sh, OwnerPc(Next(s, a).value))
  {
    var s', pc := Next(s, a).value, PcOf(s, a.t);
    assert Guarded(pc) && OwnerPc(s) == pc;
    PanicStep(s.sh, pc);
    assert OwnerPc(s') == AtNow(pc.start, pc.prior, None);
  }

  lemma {:induction false} SharedAfter(s: State, a: Action)
    requires Inv(s) && Next(s, a).Some? && OwnerInv(Next(s, a).value)
    ensures SharedInv(Next(s, a).value.sh, OwnerPc(Next(s, a).value))
  {
    match a
    case Tick(elapsed) => TickStep(s.sh, OwnerPc(s), elapsed);
    case Command(_, _) => CommandStep(s, a);
    case Run(t) => RunStep(s, t);
    case FactoryPanic(_) => FactoryPanicStep(s, a);
    case CloseOld(c) => CloserStep(s.sh, OwnerPc(s), c);
  }

  lemma {:induction false} StepKeepsInv(s: State, a: Action)
    requires Inv(s) && Next(s, a).Some?
    ensures Inv(Next(s, a).value)
  {
    OwnerStep(s, a);
    HerdStep(s, a);
    SharedAfter(s, a);
  }

  lemma {:induction false} RunKeepsInv(schedule: seq<Action>)
    requires Exec(schedule).Some?
    ensures Inv(Exec(schedule).value)
  {
    if schedule == [] {
      InitInv();
    } else {
      RunKeepsInv(schedule[..|schedule| - 1]);
      StepKeepsInv(Exec(schedule[..|schedule| - 1]).value, schedule[|schedule| - 1]);
    }
  }

  // ------------------------------------------------------------ main results

  /** Mutual exclusion: the flag is up exactly when one goroutine is inside, and never more than one is. */
  lemma {:induction false} SingleOwner(schedule: seq<Action>)
    requires Exec(schedule).Some?
    ensures var s := Exec(schedule).value;
            && (s.sh.inProgress <==> exists t: ThreadId :: Guarded(PcOf(s, t)))
            && forall t, u: ThreadId :: Guarded(PcOf(s, t)) && Guarded(PcOf(s, u)) ==> t == u
  {
    RunKeepsInv(schedule);
    var s := Exec(schedule).value;
    if s.sh.inProgress { assert Guarded(PcOf(s, s.owner.value)); }
  }

  /** Only the goroutine that holds the flag ever changes the client, the timestamp or the set of clients made. */
  lemma {:induction false} SingleWriter(schedule: seq<Action>, s: State, a: Action)
    requires Exec(schedule) == Some(s) && Next(s, a).Some?
    ensures Next(s, a).value.sh.current != s.sh.current || Next(s, a).value.sh.lastRefresh != s.sh.lastRefresh
            || Next(s, a).value.sh.made != s.sh.made ==>
              a.Run? && s.owner == Some(a.t) && Refreshing(PcOf(s, a.t))
  {
    RunKeepsInv(schedule);
  }

  ghost predicate IsBuilding(s: State, c: ClientId) {
    exists t: ThreadId :: UnderConstruction(PcOf(s, t)) == Some(c)
  }

  ghost predicate IsSuperseded(s: State, c: ClientId) {
    c in s.sh.closers || exists t: ThreadId :: PcOf(s, t).AtSpawn? && PcOf(s, t).prior == Some(c)
  }

  /** In how many of the four places a client is. */
  ghost function Places(s: State, c: ClientId): nat {
    Count(IsBuilding(s, c)) + Count(s.sh.current == Some(c)) + Count(IsSuperseded(s, c)) + Count(c in s.sh.closed)
  }

  lemma NoRepeats(log: seq<ClientId>)
    requires forall c: ClientId :: multiset(log)[c] <= 1
    ensures forall i, j :: 0 <= i < j < |log| ==> log[i] != log[j]
  {
    forall i, j | 0 <= i < j < |log| ensures log[i] != log[j] {
      assert log == log[..j] + log[j..] && log[i] in log[..j] && log[j] in log[j..];
      assert multiset(log) == multiset(log[..j]) + multiset(log[j..]);
      assert multiset(log)[log[j]] <= 1;
    }
  }

  /**
    Conservation: every client the factory made is in exactly one place, no
    other client is anywhere, no client is closed twice, every client that was
    ever published carries the hook.
  */
  lemma {:induction false} ClientsAreConserved(schedule: seq<Action>)
    requires Exec(schedule).Some?
    ensures var s := Exec(schedule).value;
            && (forall c: ClientId :: Places(s, c) == Count(c < s.sh.made))
            && (forall i, j :: 0 <= i < j < |s.sh.closed| ==> s.sh.closed[i] != s.sh.closed[j])
            && (forall c: ClientId :: c < s.sh.made && !IsBuilding(s, c) ==> c in s.sh.hooked)
  {
    RunKeepsInv(schedule);
    var s := Exec(schedule).value;
    forall c: ClientId
      ensures Places(s, c) == Count(c < s.sh.made)
      ensures c < s.sh.made && !IsBuilding(s, c) ==> c in s.sh.hooked
      ensures multiset(s.sh.closed)[c] <= 1
    {
      ClientIsInOnePlace(s, c);
    }
    NoRepeats(s.sh.closed);
  }

  lemma ClientIsInOnePlace(s: State, c: ClientId)
    requires Inv(s)
    ensures Places(s, c) == Count(c < s.sh.made)
    ensures c < s.sh.made && !IsBuilding(s, c) ==> c in s.sh.hooked
    ensures multiset(s.sh.closed)[c] <= 1
  {
    PlacesOfTheOwner(s, c);
    var sh, pc := s.sh, OwnerPc(s);
    assert sh.closers[c] + multiset(sh.closed)[c] ==
           Count(c < sh.current.value && !(pc.AtSpawn? && pc.prior == Some(c)));
    assert c in sh.closed <==> multiset(sh.closed)[c] > 0;
  }

  /** Only the owner can hold a client in its locals. */
  lemma PlacesOfTheOwner(s: State, c: ClientId)
    requires OwnerInv(s)
    ensures IsBuilding(s, c) <==> UnderConstruction(OwnerPc(s)) == Some(c)
    ensures IsSuperseded(s, c) <==> c in s.sh.closers || (OwnerPc(s).AtSpawn? && OwnerPc(s).prior == Some(c))
  {
    if s.owner.Some? {
      assert OwnerPc(s) == PcOf(s, s.owner.value);
    }
  }

  /** The rate limit: no window of any length, in any interleaving, holds more refreshes than fit it. */
  lemma {:induction false} RefreshRateIsBounded(schedule: seq<Action>, lo: Time, length: Time)
    requires Exec(schedule).Some?
    ensures var passed := PassedTimes(Exec(schedule).value.sh.checks);
            Apart(passed) && CountIn(passed, lo, length) <= length / REFRESH_COOLDOWN + 1
  {
    RunKeepsInv(schedule);
    var sh, pc := Exec(schedule).value.sh, OwnerPc(Exec(schedule).value);
    ReplayableIffSpaced(sh.completed);
    StartsAt(sh.completed);
    var passed := PassedTimes(sh.checks);
    forall i, j | 0 <= i < j < |passed| ensures passed[i] + REFRESH_COOLDOWN <= passed[j] {
      assert passed[i] <= sh.completed[i].end;
      if j == |sh.completed| && i < j - 1 {
        assert sh.completed[i].end + REFRESH_COOLDOWN <= sh.completed[j - 1].start;
      }
    }
    WindowBound(passed, lo, length);
  }

  function TimePassed(a: Action): Time {
    if a.Tick? then a.elapsed else 0
  }

  /** How far the clock has moved. */
  function Elapsed(schedule: seq<Action>): Time {
    if schedule == [] then 0 else Elapsed(schedule[..|schedule| - 1]) + TimePassed(schedule[|schedule| - 1])
  }

  lemma {:induction false} ClockStep(s: State, a: Action)
    requires Next(s, a).Some?
    ensures Next(s, a).value.sh.clock == s.sh.clock + TimePassed(a)
  {
  }

  lemma {:induction false} ClockIsElapsed(schedule: seq<Action>)
    requires Exec(schedule).Some?
    ensures Exec(schedule).value.sh.clock == Elapsed(schedule)
  {
    if schedule != [] {
      var front := schedule[..|schedule| - 1];
      ClockIsElapsed(front);
      ClockStep(Exec(front).value, schedule[|schedule| - 1]);
    }
  }

  lemma {:induction false} ExecAt(schedule: seq<Action>, k: nat)
    requires Exec(schedule).Some? && k < |schedule|
    ensures Exec(schedule[..k]).Some? && Next(Exec(schedule[..k]).value, schedule[k]).Some?
    ensures Exec(schedule[..k + 1]) == Next(Exec(schedule[..k]).value, schedule[k])
  {
    var n := |schedule| - 1;
    if k == n {
      assert schedule[..k + 1] == schedule;
    } else {
      assert schedule[..n][..k] == schedule[..k] && schedule[..n][..k + 1] == schedule[..k + 1];
      ExecAt(schedule[..n], k);
    }
  }

  /** This action calls the factory, which makes a client or panics. */
  predicate CallsFactory(s: State, a: Action) {
    (a.Run? || a.FactoryPanic?) && PcOf(s, a.t).AtFactory?
  }

  /** After a factory call at that time the refresh is still open, or its end has been stamped no earlier. */
  ghost predicate CalledAt(sh: Shared, pc: Pc, at: Time) {
    && at <= sh.clock
    && ((sh.lastRefresh.Some? && sh.lastRefresh.value >= at)
        || pc.AtHook? || pc.AtPublish? || pc.AtSpawn? || pc.AtNow? || (pc.AtStamp? && pc.now >= at))
  }

  lemma {:induction false} CallIsNoted(s: State, a: Action, s': State)
    requires OwnerInv(s) && OwnerInv(s') && Next(s, a) == Some(s') && CallsFactory(s, a)
    ensures CalledAt(s'.sh, OwnerPc(s'), s.sh.clock)
  {
    assert Guarded(PcOf(s, a.t));
  }

  lemma {:induction false} OwnCallStaysNoted(sh: Shared, pc: Pc, at: Time)
    requires Guarded(pc) && LocalsInv(sh, pc) && CalledAt(sh, pc, at)
    ensures CalledAt(Effect(sh, pc), Successor(sh, pc), at)
  {
  }

  lemma {:induction false} CallStaysNoted(s: State, a: Action, s': State, at: Time)
    requires OwnerInv(s) && OwnerInv(s') && LocalsInv(s.sh, OwnerPc(s))
    requires Next(s, a) == Some(s') && CalledAt(s.sh, OwnerPc(s), at)
    ensures CalledAt(s'.sh, OwnerPc(s'), at)
  {
    if a.Run? && s.owner == Some(a.t) { OwnCallStaysNoted(s.sh, OwnerPc(s), at); }
  }

  lemma RunKeepsOwner(schedule: seq<Action>)
    requires Exec(schedule).Some?
    ensures OwnerInv(Exec(schedule).value)
  {
    RunKeepsInv(schedule);
  }

  lemma RunKeepsLocals(schedule: seq<Action>)
    requires Exec(schedule).Some?
    ensures var s := Exec(schedule).value; OwnerInv(s) && LocalsInv(s.sh, OwnerPc(s))
  {
    RunKeepsInv(schedule);
  }

  ghost predicate Remembers(schedule: seq<Action>, at: Time) {
    Exec(schedule).Some? && CalledAt(Exec(schedule).value.sh, OwnerPc(Exec(schedule).value), at)
  }

  lemma {:induction false} CallIsRemembered(schedule: seq<Action>, longer: seq<Action>, at: Time)
    requires schedule <= longer && Exec(longer).Some? && Remembers(schedule, at)
    ensures Remembers(longer, at)
    decreases |longer|
  {
    if schedule == longer {
    } else {
      var front := longer[..|longer| - 1];
      CallIsRemembered(schedule, front, at);
      RunKeepsLocals(front);
      RunKeepsOwner(longer);
      CallStaysNoted(Exec(front).value, longer[|longer| - 1], Exec(longer).value, at);
    }
  }

  lemma {:induction false} CallIsRememberedAtOnce(schedule: seq<Action>, j: nat)
    requires Exec(schedule).Some? && j < |schedule|
    requires Exec(schedule[..j]).Some? && CallsFactory(Exec(schedule[..j]).value, schedule[j])
    ensures Remembers(schedule[..j + 1], Exec(schedule[..j]).value.sh.clock)
  {
    ExecAt(schedule, j);
    RunKeepsOwner(schedule[..j]);
    RunKeepsOwner(schedule[..j + 1]);
    CallIsNoted(Exec(schedule[..j]).value, schedule[j], Exec(schedule[..j + 1]).value);
  }

  lemma {:induction false} CallNeedsCooldown(s: State, a: Action, at: Time)
    requires OwnerInv(s) && LocalsInv(s.sh, OwnerPc(s)) && CallsFactory(s, a) && CalledAt(s.sh, OwnerPc(s), at)
    ensures at + REFRESH_COOLDOWN <= s.sh.clock
  {
    assert Guarded(PcOf(s, a.t));
  }

  /** The rate limit by the clock alone: any two factory calls of a run are a cooldown apart. */
  lemma {:induction false} FactoryCallsAreApart(schedule: seq<Action>, j: nat, k: nat)
    requires Exec(schedule).Some? && j < k < |schedule|
    requires Exec(schedule[..j]).Some? && CallsFactory(Exec(schedule[..j]).value, schedule[j])
    requires Exec(schedule[..k]).Some? && CallsFactory(Exec(schedule[..k]).value, schedule[k])
    ensures Elapsed(schedule[..j]) + REFRESH_COOLDOWN <= Elapsed(schedule[..k])
  {
    var s := Exec(schedule[..k]).value;
    ClockIsElapsed(schedule[..j]);
    ClockIsElapsed(schedule[..k]);
    CallIsRememberedAtOnce(schedule, j);
    assert schedule[..j + 1] <= schedule[..k];
    CallIsRemembered(schedule[..j + 1], schedule[..k], Elapsed(schedule[..j]));
    RunKeepsLocals(schedule[..k]);
    CallNeedsCooldown(s, schedule[k], Elapsed(schedule[..j]));
  }

  /** Both directions: a check passes exactly when the cooldown since the last completed refresh is over. */
  lemma {:induction false} ChecksAreExact(schedule: seq<Action>)
    requires Exec(schedule).Some?
    ensures var sh := Exec(schedule).value.sh;
            ExactInv(sh.checks, sh.completed)
  {
    RunKeepsInv(schedule);
  }

  /**
    Refinement of whole runs: what an interleaved run completes is a history the
    sequential refresher allows, and whenever the flag is down the wrapper shows
    precisely the view that history leads to.
  */
  lemma {:induction false} RunsRefineSequentialRefresher(schedule: seq<Action>)
    requires Exec(schedule).Some?
    ensures var sh := Exec(schedule).value.sh;
            && Spaced(sh.completed)
            && (!sh.inProgress ==> Replay(sh.completed) == Some(View(sh.current, sh.lastRefresh)))
  {
    RunKeepsInv(schedule);
    ReplayableIffSpaced(Exec(schedule).value.sh.completed);
  }

  ghost predicate IsSequentialStep(s: State, s': State, op: Refresh) {
    && s'.sh.completed == s.sh.completed + [op]
    && Apply(Observed(s.sh, OwnerPc(s)), op) == Some(Observed(s'.sh, OwnerPc(s')))
  }

  /** Refinement of steps: each leaves the sequential view alone or performs one sequential refresh on it. */
  lemma {:induction false} StepsRefineSequentialRefresher(schedule: seq<Action>, a: Action)
    requires Exec(schedule).Some? && Next(Exec(schedule).value, a).Some?
    ensures var s, s' := Exec(schedule).value, Next(Exec(schedule).value, a).value;
            || (s'.sh.completed == s.sh.completed && Observed(s'.sh, OwnerPc(s')) == Observed(s.sh, OwnerPc(s)))
            || exists op :: IsSequentialStep(s, s', op)
  {
    RunKeepsInv(schedule);
    var s, s' := Exec(schedule).value, Next(Exec(schedule).value, a).value;
    StepKeepsInv(s, a);
    if s'.sh.completed == s.sh.completed {
      assert Replay(s.sh.completed) == Some(Observed(s.sh, OwnerPc(s)));
      assert Replay(s'.sh.completed) == Some(Observed(s'.sh, OwnerPc(s')));
    } else {
      var op := CompletedBy(s, a);
      assert s'.sh.completed[..|s.sh.completed|] == s.sh.completed;
      assert IsSequentialStep(s, s', op);
    }
  }

  lemma CompletedBy(s: State, a: Action) returns (op: Refresh)
    requires Next(s, a).Some? && Next(s, a).value.sh.completed != s.sh.completed
    ensures Next(s, a).value.sh.completed == s.sh.completed + [op]
  {
    var pc := PcOf(s, a.t);
    op := Refresh(pc.start, pc.now, pc.installed);
  }

  function RefusedIn(schedule: seq<Action>): nat {
    if schedule == [] then 0
    else
      var a := schedule[|schedule| - 1];
      RefusedIn(schedule[..|schedule| - 1]) + if a.Command? && ShouldRefresh(a.err) then 1 else 0
  }

  function PanicsIn(schedule: seq<Action>): nat {
    if schedule == [] then 0
    else PanicsIn(schedule[..|schedule| - 1]) + if schedule[|schedule| - 1].FactoryPanic? then 1 else 0
  }

  lemma {:induction false} HistoryCounts(schedule: seq<Action>)
    requires Exec(schedule).Some?
    ensures Exec(schedule).value.refused == RefusedIn(schedule)
    ensures Exec(schedule).value.sh.panics == PanicsIn(schedule)
  {
    if schedule != [] { HistoryCounts(schedule[..|schedule| - 1]); }
  }

  /** A command starts an attempt, in a goroutine that is not at one, exactly when its error is a refusal. */
  lemma RefusalStartsAttempt(s: State, t: ThreadId, err: Option<string>)
    requires PcOf(s, t) == Outside
    ensures var refused := exists before, after :: err == Some(before + "connection refused" + after);
            Next(s, Command(t, err)) == Some(if refused then Goto(s, t, AtLoad).(refused := s.refused + 1) else s)
  {
    ShouldRefreshIffRefused(err);
  }

  /** Nothing but a refused command sets a refresh off: without one only the clock moves. */
  lemma {:induction false} OnlyRefusalsRefresh(schedule: seq<Action>)
    requires Exec(schedule).Some? && RefusedIn(schedule) == 0
    ensures var s := Exec(schedule).value;
            Quiescent(s) && s.sh == INIT.sh.(clock := s.sh.clock)
  {
    if schedule != [] {
      var front, a := schedule[..|schedule| - 1], schedule[|schedule| - 1];
      OnlyRefusalsRefresh(front);
      var before := Exec(front).value;
      assert a.Run? || a.FactoryPanic? ==> PcOf(before, a.t) == Outside;
      assert Exec(schedule).value.threads == before.threads;
      assert forall t: ThreadId :: PcOf(Exec(schedule).value, t) == PcOf(before, t);
    }
  }

  ghost predicate Quiescent(s: State) {
    forall t: ThreadId :: PcOf(s, t) == Outside
  }

  /**
    The thundering herd: however many commands are refused and however they
    interleave, if every cooldown check falls before the first refresh's
    cooldown ends then, once all goroutines have left, exactly one refresh has
    happened. Unless the factory panicked it installed the one new client there
    is, and the first client is closed or about to be.
  */
  lemma {:induction false} ThunderingHerd(schedule: seq<Action>)
    requires Exec(schedule).Some?
    requires var s := Exec(schedule).value;
             && Quiescent(s) && RefusedIn(schedule) > 0
             && (s.sh.completed != [] ==>
                   forall k :: 0 <= k < |s.sh.checks| ==> s.sh.checks[k].at < s.sh.completed[0].end + REFRESH_COOLDOWN)
    ensures var s := Exec(schedule).value;
            && |s.sh.completed| == |PassedTimes(s.sh.checks)| == 1
            && !s.sh.inProgress
            && (PanicsIn(schedule) == 0 ==> && s.sh.current == s.sh.completed[0].installed == Some(1)
                                            && s.sh.made == 2
                                            && (0 in s.sh.closers || 0 in s.sh.closed))
  {
    HistoryCounts(schedule);
    RunKeepsInv(schedule);
    var s := Exec(schedule).value;
    var ops := s.sh.completed;
    ReplayableIffSpaced(ops);
    StartsAt(ops);
    OneRefreshFits(ops, s.sh.checks);
    var op := ops[0];
    assert ops == [op] && ops[..0] == [];
    assert Installs(ops) == Installs(ops[..0]) + Count(op.installed.Some?);
    if s.sh.panics == 0 {
      assert s.sh.closers[0] + multiset(s.sh.closed)[0] == 1;
    }
  }

  ghost predicate CheckedAt(checks: seq<Check>, at: Time) {
    exists k :: 0 <= k < |checks| && checks[k].at == at
  }

  lemma {:induction false} PassedWasChecked(checks: seq<Check>)
    ensures forall at :: at in PassedTimes(checks) ==> CheckedAt(checks, at)
  {
    if checks != [] {
      var front := checks[..|checks| - 1];
      PassedWasChecked(front);
      forall at | at in PassedTimes(checks) ensures CheckedAt(checks, at) {
        if CheckedAt(front, at) {
          var k :| 0 <= k < |front| && front[k].at == at;
          assert checks[k].at == at;
        } else {
          assert checks[|front|].at == at;
        }
      }
    }
  }

  lemma OneRefreshFits(ops: seq<Refresh>, checks: seq<Check>)
    requires Spaced(ops) && PassedTimes(checks) == Starts(ops)
    requires forall k :: 0 <= k < |checks| && ops != [] ==> checks[k].at < ops[0].end + REFRESH_COOLDOWN
    ensures |ops| <= 1
  {
    StartsAt(ops);
    PassedWasChecked(checks);
    forall i | 0 <= i < |ops| ensures ops[i].start < ops[0].end + REFRESH_COOLDOWN {
      assert Starts(ops)[i] in PassedTimes(checks);
    }
  }

  /** How many of its own accesses a goroutine is at most away from leaving. */
  function Remaining(pc: Pc): nat {
    match pc
    case Outside => 0
    case AtRelease => 1
    case AtStamp(_, _, _, _) => 2
    case AtNow(_, _, _) => 3
    case AtSpawn(_, _, _) => 4
    case AtPublish(_, _, _) => 5
    case AtHook(_, _, _) => 6
    case AtFactory(_, _) => 7
    case AtReadOld(_) => 8
    case AtCheck(_) => 9
    case AtReadLast => 10
    case AtSwap => 11
    case AtLoad => 12
  }

  lemma {:induction false} AccessDescends(s: State, t: ThreadId)
    requires PcOf(s, t) != Outside
    ensures Remaining(PcOf(Access(s, t), t)) < Remaining(PcOf(s, t))
  {
  }

  /** The state after goroutine t has run, alone, until it leaves. */
  function Solo(s: State, t: ThreadId): State
    decreases Remaining(PcOf(s, t))
  {
    if PcOf(s, t) == Outside then s else Solo(Access(s, t), t)
  }

  /** The same as a schedule, so that Solo is itself a run. */
  function SoloSchedule(s: State, t: ThreadId): seq<Action>
    decreases Remaining(PcOf(s, t))
  {
    if PcOf(s, t) == Outside then [] else [Run(t)] + SoloSchedule(Access(s, t), t)
  }

  lemma {:induction false} SoloIsARun(schedule: seq<Action>, s: State, t: ThreadId)
    requires Exec(schedule) == Some(s)
    ensures Exec(schedule + SoloSchedule(s, t)) == Some(Solo(s, t))
    decreases Remaining(PcOf(s, t))
  {
    if PcOf(s, t) == Outside {
      assert schedule + [] == schedule;
    } else {
      var next, longer := Access(s, t), schedule + [Run(t)];
      Snoc(schedule, Run(t));
      AccessDescends(s, t);
      SoloIsARun(longer, next, t);
      Regroup(schedule, Run(t), SoloSchedule(next, t));
    }
  }

  lemma Regroup(front: seq<Action>, a: Action, rest: seq<Action>)
    ensures (front + [a]) + rest == front + ([a] + rest)
  {
  }

  lemma {:induction false} SoloLeaves(s: State, t: ThreadId)
    ensures PcOf(Solo(s, t), t) == Outside
    ensures |SoloSchedule(s, t)| <= Remaining(PcOf(s, t))
    decreases Remaining(PcOf(s, t))
  {
    if PcOf(s, t) != Outside { AccessDescends(s, t); SoloLeaves(Access(s, t), t); }
  }

  /** No stuck flag: in every reachable state its owner can lower it by at most ten accesses of its own. */
  lemma {:induction false} FlagIsNeverStuck(schedule: seq<Action>)
    requires Exec(schedule).Some? && Exec(schedule).value.sh.inProgress
    ensures var s := Exec(schedule).value;
            exists t: ThreadId :: && Guarded(PcOf(s, t))
                                  && |SoloSchedule(s, t)| <= 10
                                  && Exec(schedule + SoloSchedule(s, t)).Some?
                                  && !Exec(schedule + SoloSchedule(s, t)).value.sh.inProgress
  {
    RunKeepsInv(schedule);
    var s := Exec(schedule).value;
    var t := s.owner.value;
    assert Guarded(PcOf(s, t));
    SoloIsARun(schedule, s, t);
    SoloLeaves(s, t);
    SoloKeepsOthers(s, t);
    RunKeepsInv(schedule + SoloSchedule(s, t));
    var r := Solo(s, t);
    assert forall u: ThreadId :: !Guarded(PcOf(r, u));
  }

  lemma {:induction false} SoloKeepsOthers(s: State, t: ThreadId)
    ensures forall u: ThreadId :: u != t ==> PcOf(Solo(s, t), u) == PcOf(s, u)
    decreases Remaining(PcOf(s, t))
  {
    if PcOf(s, t) != Outside { AccessDescends(s, t); SoloKeepsOthers(Access(s, t), t); }
  }

  /** How many of these actions are goroutine t's own. */
  function OwnActions(more: seq<Action>, t: ThreadId): nat {
    if more == [] then 0
    else OwnActions(more[..|more| - 1], t) + Count(more[|more| - 1] in {Run(t), FactoryPanic(t)})
  }

  ghost predicate FlagDown(schedule: seq<Action>) {
    Exec(schedule).Some? && !Exec(schedule).value.sh.inProgress
  }

  /** The goroutine's own access brings it nearer to the release, which lowers the flag. */
  lemma {:induction false} OwnStep(sh: Shared, pc: Pc)
    requires Guarded(pc)
    ensures if pc == AtRelease then !Effect(sh, pc).inProgress
            else Guarded(Successor(sh, pc)) && Remaining(Successor(sh, pc)) < Remaining(pc)
  {
  }

  lemma {:induction false} OthersStep(s: State, a: Action, t: ThreadId)
    requires Guarded(PcOf(s, t)) && Next(s, a).Some? && a != Run(t) && a != FactoryPanic(t)
    ensures PcOf(Next(s, a).value, t) == PcOf(s, t)
  {
  }

  /** Each action leaves the goroutine inside, nearer to the release if it was its own, or lowers the flag. */
  lemma {:induction false} GuardedStep(s: State, a: Action, t: ThreadId)
    requires Guarded(PcOf(s, t)) && Next(s, a).Some?
    ensures var s' := Next(s, a).value;
            || !s'.sh.inProgress
            || (Guarded(PcOf(s', t))
                && Remaining(PcOf(s', t)) + Count(a in {Run(t), FactoryPanic(t)}) <= Remaining(PcOf(s, t)))
  {
    if a == Run(t) {
      OwnStep(s.sh, PcOf(s, t));
    } else if a != FactoryPanic(t) {
      OthersStep(s, a, t);
    }
  }

  /** The flag has come down somewhere along the continuation. */
  ghost predicate CameDown(schedule: seq<Action>, more: seq<Action>) {
    exists j :: 0 <= j <= |more| && FlagDown(schedule + more[..j])
  }

  lemma StaysDown(schedule: seq<Action>, front: seq<Action>, a: Action)
    requires CameDown(schedule, front) || FlagDown(schedule + front + [a])
    ensures CameDown(schedule, front + [a])
  {
    var more := front + [a];
    if CameDown(schedule, front) {
      var j :| 0 <= j <= |front| && FlagDown(schedule + front[..j]);
      assert more[..j] == front[..j];
    } else {
      assert more[..|more|] == more && schedule + more == schedule + front + [a];
    }
  }

  lemma {:induction false} OwnProgress(schedule: seq<Action>, more: seq<Action>, t: ThreadId, budget: nat)
    requires Exec(schedule).Some? && Guarded(PcOf(Exec(schedule).value, t)) && Exec(schedule + more).Some?
    requires Remaining(PcOf(Exec(schedule).value, t)) <= budget
    ensures var s := Exec(schedule + more).value;
            || CameDown(schedule, more)
            || (Guarded(PcOf(s, t)) && Remaining(PcOf(s, t)) + OwnActions(more, t) <= budget)
  {
    if more == [] {
      assert schedule + more == schedule;
    } else {
      var front, a := more[..|more| - 1], more[|more| - 1];
      assert more == front + [a] && schedule + more == schedule + front + [a];
      assert (schedule + more)[..|schedule + more| - 1] == schedule + front;
      OwnProgress(schedule, front, t, budget);
      if CameDown(schedule, front) {
        StaysDown(schedule, front, a);
      } else {
        var s := Exec(schedule + front).value;
        Snoc(schedule + front, a);
        GuardedStep(s, a, t);
        if !Next(s, a).value.sh.inProgress { StaysDown(schedule, front, a); }
      }
    }
  }

  lemma GuardedRemaining(pc: Pc)
    ensures Guarded(pc) ==> 0 < Remaining(pc) <= 10
  {
  }

  /**
    And in every continuation: once the goroutine inside has taken ten actions of
    its own, a panic of the factory among them or not and the others interleaved
    at will, the flag has come down.
  */
  lemma {:induction false} FlagComesDown(schedule: seq<Action>, more: seq<Action>, t: ThreadId)
    requires Exec(schedule).Some? && Guarded(PcOf(Exec(schedule).value, t))
    requires Exec(schedule + more).Some? && OwnActions(more, t) >= 10
    ensures CameDown(schedule, more)
  {
    GuardedRemaining(PcOf(Exec(schedule).value, t));
    OwnProgress(schedule, more, t, 10);
    GuardedRemaining(PcOf(Exec(schedule + more).value, t));
  }

  /** The shared state after one refresh that no one interrupts and that takes no time. */
  function Refreshed(sh: Shared): Shared
    requires sh.current.Some?
  {
    sh.(made := sh.made + 1,
        hooked := sh.hooked + {sh.made},
        current := Some(sh.made),
        closers := sh.closers + multiset{sh.current.value},
        lastRefresh := Some(sh.clock),
        completed := sh.completed + [Refresh(sh.clock, sh.clock, Some(sh.made))],
        inProgress := false)
  }

  function Attempted(sh: Shared): Shared
    requires sh.current.Some?
  {
    var passed := CooledDown(sh.lastRefresh, sh.clock);
    var checked := sh.(checks := sh.checks + [Check(sh.clock, |sh.completed|, passed)], inProgress := false);
    if passed then Refreshed(checked) else checked
  }

  /**
    An attempt that no one interrupts has the sequential effect: it refreshes
    when cooled down and otherwise changes no more than the log of checks.
  */
  lemma {:induction false} SoloAttemptIsSequential(schedule: seq<Action>, t: ThreadId)
    requires Exec(schedule).Some?
    requires !Exec(schedule).value.sh.inProgress && PcOf(Exec(schedule).value, t) == AtLoad
    ensures var sh, r := Exec(schedule).value.sh, Solo(Exec(schedule).value, t).sh;
            var was, op := View(sh.current, sh.lastRefresh), Refresh(sh.clock, sh.clock, Some(sh.made));
            && sh.current.Some? && r == Attempted(sh)
            && View(r.current, r.lastRefresh) == (if Apply(was, op).Some? then Apply(was, op).value else was)
  {
    RunKeepsInv(schedule);
    var s := Exec(schedule).value;
    var s2 := Access(Access(s, t), t);
    assert Solo(s, t) == Solo(s2, t);
    SoloCheck(s2, t);
  }

  lemma SoloCheck(s: State, t: ThreadId)
    requires PcOf(s, t).AtReadLast? && s.sh.current.Some?
    ensures Solo(s, t).sh == Attempted(s.sh)
  {
    var s2 := Access(Access(s, t), t);
    assert Solo(s, t) == Solo(s2, t);
    if CooledDown(s.sh.lastRefresh, s.sh.clock) {
      SoloRefresh(s2, t);
    } else {
      assert Solo(s2, t) == Access(s2, t);
    }
  }

  lemma SoloRefresh(s: State, t: ThreadId)
    requires PcOf(s, t) == AtReadOld(s.sh.clock) && s.sh.current.Some?
    ensures Solo(s, t).sh == Refreshed(s.sh)
  {
    var s1 := Access(s, t);
    var s2 := Access(s1, t);
    var s3 := Access(s2, t);
    var s4 := Access(s3, t);
    assert Solo(s, t) == Solo(s1, t) == Solo(s2, t);
    assert Solo(s2, t) == Solo(s3, t) == Solo(s4, t);
    SoloFinish(s4, t);
  }

  lemma SoloFinish(s: State, t: ThreadId)
    requires PcOf(s, t).AtSpawn? && PcOf(s, t).prior.Some?
    ensures var pc := PcOf(s, t);
            Solo(s, t).sh == s.sh.(closers := s.sh.closers + multiset{pc.prior.value},
                                   lastRefresh := Some(s.sh.clock),
                                   completed := s.sh.completed + [Refresh(pc.start, s.sh.clock, Some(pc.client))],
                                   inProgress := false)
  {
    var s1 := Access(s, t);
    var s2 := Access(s1, t);
    var s3 := Access(s2, t);
    var s4 := Access(s3, t);
    assert Solo(s, t) == Solo(s1, t) == Solo(s2, t);
    assert Solo(s2, t) == Solo(s3, t) == Solo(s4, t) == s4;
  }

  /**
    The factory may panic whenever it is called. The deferred calls then stamp
    the time and lower the flag; the client stays and none is made or closed.
  */
  lemma {:induction false} PanicKeepsClient(s: State, t: ThreadId)
    requires PcOf(s, t).AtFactory?
    ensures var start, panicked := PcOf(s, t).start, Next(s, FactoryPanic(t));
            && panicked.Some?
            && Solo(panicked.value, t).sh
               == s.sh.(panics := s.sh.panics + 1, lastRefresh := Some(s.sh.clock), inProgress := false,
                        completed := s.sh.completed + [Refresh(start, s.sh.clock, None)])
  {
    var s1 := Next(s, FactoryPanic(t)).value;
    var s2 := Access(s1, t);
    var s3 := Access(s2, t);
    var s4 := Access(s3, t);
    assert Solo(s1, t) == Solo(s2, t) == Solo(s3, t) == Solo(s4, t) == s4;
  }

  // ------------------------------------------- what is superseded can be closed

  lemma {:induction false} CloseAll(schedule: seq<Action>) returns (longer: seq<Action>)
    requires Exec(schedule).Some?
    ensures schedule <= longer && Exec(longer).Some?
    ensures var s, r := Exec(schedule).value, Exec(longer).value;
            r.sh.closers == multiset{} && r.sh.inProgress == s.sh.inProgress && r.sh.current == s.sh.current
    decreases |Exec(schedule).value.sh.closers|
  {
    longer := schedule;
    var closers := Exec(schedule).value.sh.closers;
    if closers != multiset{} {
      var c :| c in closers;
      Snoc(schedule, CloseOld(c));
      longer := CloseAll(schedule + [CloseOld(c)]);
    }
  }

  lemma {:induction false} LowerFlag(schedule: seq<Action>) returns (longer: seq<Action>)
    requires Exec(schedule).Some?
    ensures schedule <= longer && FlagDown(longer)
  {
    longer := schedule;
    if Exec(schedule).value.sh.inProgress {
      FlagIsNeverStuck(schedule);
      var s := Exec(schedule).value;
      var t: ThreadId :| Guarded(PcOf(s, t)) && FlagDown(schedule + SoloSchedule(s, t));
      longer := schedule + SoloSchedule(s, t);
    }
  }

  lemma {:induction false} CurrentGrows(schedule: seq<Action>, longer: seq<Action>)
    requires schedule <= longer && Exec(longer).Some?
    ensures Exec(schedule).Some? && Exec(schedule).value.sh.current.Some? && Exec(longer).value.sh.current.Some?
    ensures Exec(schedule).value.sh.current.value <= Exec(longer).value.sh.current.value
    decreases |longer|
  {
    RunKeepsInv(longer);
    if schedule == longer {
    } else {
      var front := longer[..|longer| - 1];
      CurrentGrows(schedule, front);
      RunKeepsInv(front);
      CurrentStep(Exec(front).value, longer[|longer| - 1]);
    }
  }

  lemma {:induction false} CurrentStep(s: State, a: Action)
    requires OwnerInv(s) && LocalsInv(s.sh, OwnerPc(s)) && Next(s, a).Some?
    requires Next(s, a).value.sh.current.Some?
    ensures s.sh.current.value <= Next(s, a).value.sh.current.value
  {
  }

  /**
    No leak for want of a step: every run can be continued until all clients made
    are closed but the current one, and those superseded so far are among them.
  */
  lemma {:induction false} SupersededCanBeClosed(schedule: seq<Action>) returns (longer: seq<Action>)
    requires Exec(schedule).Some?
    ensures schedule <= longer && Exec(longer).Some?
    ensures var s, r := Exec(schedule).value, Exec(longer).value;
            && (forall c: ClientId :: c < r.sh.made ==> (c in r.sh.closed <==> r.sh.current != Some(c)))
            && (forall c: ClientId :: IsSuperseded(s, c) ==> c in r.sh.closed)
  {
    var idle := LowerFlag(schedule);
    longer := CloseAll(idle);
    CurrentGrows(schedule, longer);
    ClientsAreConserved(longer);
    SingleOwner(longer);
    var s, r := Exec(schedule).value, Exec(longer).value;
    forall c: ClientId ensures c < r.sh.made ==> (c in r.sh.closed <==> r.sh.current != Some(c)) {
      assert Places(r, c) == Count(c < r.sh.made);
      assert !IsBuilding(r, c) && !IsSuperseded(r, c);
    }
    forall c: ClientId | IsSuperseded(s, c) ensures c in r.sh.closed {
      SupersededIsOlder(schedule, c);
      CurrentIsMade(longer);
    }
  }

  lemma SupersededIsOlder(schedule: seq<Action>, c: ClientId)
    requires Exec(schedule).Some? && IsSuperseded(Exec(schedule).value, c)
    ensures Exec(schedule).value.sh.current.Some? && c < Exec(schedule).value.sh.current.value
  {
    RunKeepsInv(schedule);
    var s := Exec(schedule).value;
    PlacesOfTheOwner(s, c);
    assert LedgerInv(s.sh, OwnerPc(s));
    assert s.sh.closers[c] + multiset(s.sh.closed)[c] ==
           Count(c < s.sh.current.value && !(OwnerPc(s).AtSpawn? && OwnerPc(s).prior == Some(c)));
  }

  lemma CurrentIsMade(schedule: seq<Action>)
    requires Exec(schedule).Some?
    ensures var sh := Exec(schedule).value.sh; sh.current.Some? && sh.current.value < sh.made
  {
    RunKeepsInv(schedule);
  }

  // ----------------------------------------------------- the rate limit is tight

  /** Goroutine 0 is refused and refreshes at once. */
  lemma {:induction false} RefreshNow(schedule: seq<Action>, err: string) returns (longer: seq<Action>)
    requires Exec(schedule).Some?
    requires ShouldRefresh(Some(err))
    requires var s := Exec(schedule).value;
             PcOf(s, 0) == Outside && !s.sh.inProgress && CooledDown(s.sh.lastRefresh, s.sh.clock)
    ensures Exec(longer).Some? && Exec(schedule).value.sh.current.Some?
    ensures PcOf(Exec(longer).value, 0) == Outside && Exec(longer).value.sh == Attempted(Exec(schedule).value.sh)
  {
    RunKeepsInv(schedule);
    var refused := schedule + [Command(0, Some(err))];
    Snoc(schedule, Command(0, Some(err)));
    assert Exec(refused).value.sh == Exec(schedule).value.sh;
    SoloAttemptIsSequential(refused, 0);
    SoloIsARun(refused, Exec(refused).value, 0);
    SoloLeaves(Exec(refused).value, 0);
    longer := refused + SoloSchedule(Exec(refused).value, 0);
  }

  /**
    The bound of RefreshRateIsBounded is met: n cooldowns can hold n + 1
    refreshes, each set off by a command that returned this refusal.
  */
  lemma {:induction false} RefreshRateIsReached(n: nat, before: string, after: string) returns (schedule: seq<Action>)
    ensures Exec(schedule).Some?
    ensures var s := Exec(schedule).value;
            var passed := PassedTimes(s.sh.checks);
            && CountIn(passed, 0, n * REFRESH_COOLDOWN) == n + 1 == (n * REFRESH_COOLDOWN) / REFRESH_COOLDOWN + 1
            && |passed| == n + 1 && passed[n] == s.sh.clock == n * REFRESH_COOLDOWN
            && PcOf(s, 0) == Outside && !s.sh.inProgress && s.sh.lastRefresh == Some(s.sh.clock)
  {
    var err := before + "connection refused" + after;
    ShouldRefreshIffRefused(Some(err));
    var idle: seq<Action> := [];
    if n > 0 {
      var earlier := RefreshRateIsReached(n - 1, before, after);
      idle := earlier + [Tick(REFRESH_COOLDOWN)];
      Snoc(earlier, Tick(REFRESH_COOLDOWN));
    }
    schedule := RefreshNow(idle, err);
    var sh := Exec(idle).value.sh;
    LogCheck(sh.checks, Check(sh.clock, |sh.completed|, true));
    var passed := PassedTimes(Exec(schedule).value.sh.checks);
    assert passed == PassedTimes(sh.checks) + [sh.clock];
    ReachedInTime(schedule);
    AllCounted(passed, n * REFRESH_COOLDOWN);
  }

  /** Checks that passed are no later than the clock. */
  lemma ReachedInTime(schedule: seq<Action>)
    requires Exec(schedule).Some?
    requires var sh := Exec(schedule).value.sh;
             var passed := PassedTimes(sh.checks);
             passed != [] && sh.clock == passed[|passed| - 1]
    ensures forall i :: 0 <= i < |PassedTimes(Exec(schedule).value.sh.checks)| ==>
              PassedTimes(Exec(schedule).value.sh.checks)[i] <= Exec(schedule).value.sh.clock
  {
    RefreshRateIsBounded(schedule, 0, 0);
  }

  lemma {:induction false} AllCounted(times: seq<Time>, length: Time)
    requires forall i :: 0 <= i < |times| ==> times[i] <= length
    ensures CountIn(times, 0, length) == |times|
  {
    if times != [] { AllCounted(times[..|times| - 1], length); }
  }
}
