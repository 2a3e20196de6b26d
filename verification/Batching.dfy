/**
  The batched eth_call client as a whole: callers submit calls to one of two
  queues, the batchers cut the queues into batches in any way they like, and the
  batches of both run batchCalls at the same time, attempt by attempt, on one
  backoff. Each batch is routed by its first message.
*/
module Batching {
  import opened Wrappers
  import opened EthClients
  import opened EthEncoding
  import opened BatchCalls
  import opened Retry

  type TaskId = nat // calls in the order they were submitted
  type BatchId = nat // batches in the order they were cut

  /** One Resolve call. */
  datatype Resolution = Resolution(id: TaskId, slot: Slot)

  /** The node, the client and the configured MaxRetries. */
  datatype Setup = Setup(node: Node, client: EthClient, maxRetries: nat)

  datatype State = State(
    tasks: seq<Request>,
    main: set<TaskId>,
    archive: set<TaskId>,
    cuts: nat, // batches cut so far
    running: map<BatchId, seq<TaskId>>, // batches inside batchCalls,
    attempts: map<BatchId, seq<Attempt>>, // and how the attempts of those that have started turned out
    granted: nat, // the shared backoff: waits granted since its last reset,
    patience: nat, // and the patience of that reset
    log: seq<Resolution>)

  const INIT := State([], {}, {}, 0, map[], map[], 0, 0, [])

  /**
    What can happen next. The batcher library promises no order: a batch is any
    non-empty selection of one queue. How an attempt turns out is up to the node
    and the network.
  */
  datatype Action =
    | Submit(req: Request)
    | CutMain(ids: seq<TaskId>)
    | CutArchive(ids: seq<TaskId>)
    | Start(b: BatchId, patience: nat, attempt: Attempt) // backoff.Retry resets the backoff and makes an attempt
    | TryAgain(b: BatchId, attempt: Attempt) // NextBackOff allowed another
    | Settle(b: BatchId) // answered, or NextBackOff said stop: every message is resolved

  predicate Selects(ids: seq<TaskId>, queue: set<TaskId>) {
    && ids != []
    && (forall i :: 0 <= i < |ids| ==> ids[i] in queue)
    && forall i, j :: 0 <= i < j < |ids| ==> ids[i] != ids[j]
  }

  function ToSet(ids: seq<TaskId>): set<TaskId> {
    set i | 0 <= i < |ids| :: ids[i]
  }

  function RequestsOf(tasks: seq<Request>, ids: seq<TaskId>): (reqs: seq<Request>)
    requires forall i :: 0 <= i < |ids| ==> ids[i] < |tasks|
    ensures |reqs| == |ids| && forall i :: 0 <= i < |ids| ==> reqs[i] == tasks[ids[i]]
  {
    seq(|ids|, i requires 0 <= i < |ids| => tasks[ids[i]])
  }

  /** The Resolve calls batchCalls makes for a batch that made these attempts. */
  function Resolutions(cfg: Setup, tasks: seq<Request>, ids: seq<TaskId>, attempts: seq<Attempt>): (rs: seq<Resolution>)
    requires attempts != [] && forall i :: 0 <= i < |ids| ==> ids[i] < |tasks|
    ensures |rs| == |ids| && forall i :: 0 <= i < |ids| ==> rs[i].id == ids[i]
  {
    var reqs := RequestsOf(tasks, ids);
    seq(|ids|, i requires 0 <= i < |ids| => Resolution(ids[i], Outcome(cfg.node, cfg.client, reqs, attempts, i)))
  }

  /** CallContract: historic calls wait in the archive queue, the others in the main queue. */
  function Enqueue(s: State, req: Request): State {
    var queued := s.(tasks := s.tasks + [req]);
    if req.block.Some? then queued.(archive := s.archive + {|s.tasks|}) else queued.(main := s.main + {|s.tasks|})
  }

  predicate Exhausted(cfg: Setup, s: State) {
    s.granted >= Budget(cfg.maxRetries, s.patience)
  }

  predicate LastFailed(attempts: seq<Attempt>) {
    attempts != [] && attempts[|attempts| - 1].Failed?
  }

  predicate CanSettle(cfg: Setup, s: State, b: BatchId) {
    && b in s.running && b in s.attempts && s.attempts[b] != []
    && (LastFailed(s.attempts[b]) ==> Exhausted(cfg, s))
    && forall i :: 0 <= i < |s.running[b]| ==> s.running[b][i] < |s.tasks|
  }

  function Cut(s: State, ids: seq<TaskId>): State {
    s.(cuts := s.cuts + 1, running := s.running[s.cuts := ids])
  }

  function Next(cfg: Setup, s: State, a: Action): Option<State> {
    match a
    case Submit(req) => Some(Enqueue(s, req))
    case CutMain(ids) => if Selects(ids, s.main) then Some(Cut(s, ids).(main := s.main - ToSet(ids))) else None
    case CutArchive(ids) =>
      if Selects(ids, s.archive) then Some(Cut(s, ids).(archive := s.archive - ToSet(ids))) else None
    case Start(b, patience, attempt) =>
      if b !in s.running || b in s.attempts then None
      else Some(s.(attempts := s.attempts[b := [attempt]], granted := 0, patience := patience))
    case TryAgain(b, attempt) =>
      if b !in s.attempts || !LastFailed(s.attempts[b]) || Exhausted(cfg, s) then None
      else Some(s.(attempts := s.attempts[b := s.attempts[b] + [attempt]], granted := s.granted + 1))
    case Settle(b) =>
      if !CanSettle(cfg, s, b) then None
      else
        Some(s.(running := s.running - {b}, attempts := s.attempts - {b},
                log := s.log + Resolutions(cfg, s.tasks, s.running[b], s.attempts[b])))
  }

  function Exec(cfg: Setup, actions: seq<Action>): Option<State> {
    if actions == [] then Some(INIT)
    else
      var before := Exec(cfg, actions[..|actions| - 1]);
      if before.None? then None else Next(cfg, before.value, actions[|actions| - 1])
  }

  // ---------------------------------------------------------------- invariant

  ghost predicate InBatch(running: map<BatchId, seq<TaskId>>, id: TaskId) {
    exists b, i :: b in running && 0 <= i < |running[b]| && running[b][i] == id
  }

  ghost predicate Logged(log: seq<Resolution>, id: TaskId) {
    exists k :: 0 <= k < |log| && log[k].id == id
  }

  /** The archive queue holds only calls that name a block, the main queue only calls that do not. */
  ghost predicate QueuesInv(s: State) {
    && (forall id :: id in s.main ==> id < |s.tasks| && s.tasks[id].block.None?)
    && (forall id :: id in s.archive ==> id < |s.tasks| && s.tasks[id].block.Some?)
  }

  ghost predicate BatchInv(s: State, ids: seq<TaskId>) {
    && ids != []
    && (forall i :: 0 <= i < |ids| ==> ids[i] < |s.tasks| && ids[i] !in s.main && ids[i] !in s.archive)
    && (forall i :: 0 <= i < |ids| ==> (s.tasks[ids[i]].block.None? <==> s.tasks[ids[0]].block.None?))
    && (forall i, j :: 0 <= i < j < |ids| ==> ids[i] != ids[j])
  }

  ghost predicate RunningInv(s: State) {
    && (forall b :: b in s.running ==> b < s.cuts && BatchInv(s, s.running[b]))
    && (forall b, c, i, j :: b in s.running && c in s.running && b != c
                             && 0 <= i < |s.running[b]| && 0 <= j < |s.running[c]| ==>
                               s.running[b][i] != s.running[c][j])
  }

  ghost predicate AttemptsInv(s: State) {
    forall b :: b in s.attempts ==> b in s.running && StopsAtAnswer(s.attempts[b])
  }

  ghost predicate LogInv(s: State) {
    && (forall k :: 0 <= k < |s.log| ==>
          s.log[k].id < |s.tasks| && s.log[k].id !in s.main && s.log[k].id !in s.archive)
    && (forall k, b, i :: 0 <= k < |s.log| && b in s.running && 0 <= i < |s.running[b]| ==>
                            s.log[k].id != s.running[b][i])
    && (forall k, l :: 0 <= k < l < |s.log| ==> s.log[k].id != s.log[l].id)
  }

  ghost predicate NoneLost(s: State) {
    forall id :: 0 <= id < |s.tasks| ==>
                   id in s.main || id in s.archive || InBatch(s.running, id) || Logged(s.log, id)
  }

  ghost predicate PlacesInv(s: State) {
    QueuesInv(s) && RunningInv(s) && LogInv(s)
  }

  ghost predicate Inv(s: State) {
    PlacesInv(s) && AttemptsInv(s) && NoneLost(s)
  }

  lemma {:induction false} SubmitKeepsPlaces(s: State, req: Request)
    requires PlacesInv(s)
    ensures PlacesInv(Enqueue(s, req))
  {
    var s' := Enqueue(s, req);
    forall b | b in s'.running ensures BatchInv(s', s'.running[b]) {
      assert BatchInv(s, s.running[b]);
    }
  }

  /** Taking calls from both queues: those selected are in only one of them. */
  function Taken(s: State, ids: seq<TaskId>): State {
    Cut(s, ids).(main := s.main - ToSet(ids), archive := s.archive - ToSet(ids))
  }

  lemma {:induction false} CutIsTaken(cfg: Setup, s: State, a: Action)
    requires QueuesInv(s) && (a.CutMain? || a.CutArchive?) && Next(cfg, s, a).Some?
    ensures Next(cfg, s, a).value == Taken(s, a.ids)
    ensures Selects(a.ids, s.main) || Selects(a.ids, s.archive)
  {
    if a.CutMain? {
      assert s.archive - ToSet(a.ids) == s.archive;
    } else {
      assert s.main - ToSet(a.ids) == s.main;
    }
  }

  /** The new batch is homogeneous, because the queue it was cut from is. */
  lemma {:induction false} CutIsABatch(s: State, ids: seq<TaskId>)
    requires QueuesInv(s) && (Selects(ids, s.main) || Selects(ids, s.archive))
    ensures BatchInv(Taken(s, ids), ids)
  {
    forall i | 0 <= i < |ids| ensures ids[i] in ToSet(ids) {
    }
  }

  lemma {:induction false} CutKeepsRunning(s: State, ids: seq<TaskId>)
    requires QueuesInv(s) && RunningInv(s) && (Selects(ids, s.main) || Selects(ids, s.archive))
    ensures RunningInv(Taken(s, ids))
  {
    var s' := Taken(s, ids);
    CutIsABatch(s, ids);
    forall b | b in s.running ensures BatchInv(s', s.running[b]) && s'.running[b] == s.running[b] {
      assert BatchInv(s, s.running[b]);
    }
    forall b, i, j | b in s.running && 0 <= i < |s.running[b]| && 0 <= j < |ids| ensures s.running[b][i] != ids[j] {
      assert BatchInv(s, s.running[b]);
    }
  }

  lemma {:induction false} CutKeepsPlaces(s: State, ids: seq<TaskId>)
    requires PlacesInv(s) && (Selects(ids, s.main) || Selects(ids, s.archive))
    ensures PlacesInv(Taken(s, ids))
  {
    CutKeepsRunning(s, ids);
  }

  lemma {:induction false} CutNoneLost(s: State, ids: seq<TaskId>)
    requires NoneLost(s) && s.cuts !in s.running
    ensures NoneLost(Taken(s, ids))
  {
    var s' := Taken(s, ids);
    forall id | 0 <= id < |s'.tasks|
      ensures id in s'.main || id in s'.archive || InBatch(s'.running, id) || Logged(s'.log, id)
    {
      if id in ToSet(ids) {
        var i :| 0 <= i < |ids| && ids[i] == id;
        assert s'.running[s.cuts][i] == id;
      } else if InBatch(s.running, id) {
        var c, i :| c in s.running && 0 <= i < |s.running[c]| && s.running[c][i] == id;
        assert s'.running[c][i] == id;
      }
    }
  }

  lemma AttemptKeepsOrder(attempts: seq<Attempt>, attempt: Attempt)
    requires attempts == [] || (StopsAtAnswer(attempts) && attempts[|attempts| - 1].Failed?)
    ensures StopsAtAnswer(attempts + [attempt])
  {
    assert (attempts + [attempt])[..|attempts|] == attempts;
    if attempts != [] {
      forall j | 0 <= j < |attempts| ensures attempts[j].Failed? {
        if j < |attempts| - 1 { assert attempts[..|attempts| - 1][j].Failed?; }
      }
    }
  }

  lemma {:induction false} SettleKeepsPlaces(s: State, s': State, b: BatchId, more: seq<Resolution>)
    requires PlacesInv(s) && b in s.running && |more| == |s.running[b]|
    requires forall i :: 0 <= i < |more| ==> more[i].id == s.running[b][i]
    requires s' == s.(running := s.running - {b}, attempts := s.attempts - {b}, log := s.log + more)
    ensures PlacesInv(s')
  {
    forall c | c in s'.running ensures BatchInv(s', s'.running[c]) {
      assert BatchInv(s, s.running[c]);
    }
    assert BatchInv(s, s.running[b]);
  }

  lemma {:induction false} SettleNoneLost(s: State, s': State, b: BatchId, more: seq<Resolution>)
    requires NoneLost(s) && b in s.running && |more| == |s.running[b]|
    requires forall i :: 0 <= i < |more| ==> more[i].id == s.running[b][i]
    requires s' == s.(running := s.running - {b}, attempts := s.attempts - {b}, log := s.log + more)
    ensures NoneLost(s')
  {
    forall id | 0 <= id < |s'.tasks|
      ensures id in s'.main || id in s'.archive || InBatch(s'.running, id) || Logged(s'.log, id)
    {
      if InBatch(s.running, id) {
        var c, i :| c in s.running && 0 <= i < |s.running[c]| && s.running[c][i] == id;
        if c == b {
          assert s'.log[|s.log| + i].id == id;
        } else {
          assert s'.running[c][i] == id;
        }
      } else if Logged(s.log, id) {
        var k :| 0 <= k < |s.log| && s.log[k].id == id;
        assert s'.log[k].id == id;
      }
    }
  }

  /** Attempts move no call. */
  lemma {:induction false} AttemptsMoveNothing(s: State, s': State)
    requires PlacesInv(s) && NoneLost(s)
    requires s' == s.(attempts := s'.attempts, granted := s'.granted, patience := s'.patience)
    ensures PlacesInv(s') && NoneLost(s')
  {
    forall b | b in s'.running ensures BatchInv(s', s'.running[b]) {
      assert BatchInv(s, s.running[b]);
    }
  }

  lemma {:induction false} SubmitNoneLost(s: State, req: Request)
    requires NoneLost(s)
    ensures NoneLost(Enqueue(s, req))
  {
  }

  lemma {:induction false} StepKeepsPlaces(cfg: Setup, s: State, a: Action)
    requires PlacesInv(s) && NoneLost(s) && Next(cfg, s, a).Some?
    ensures PlacesInv(Next(cfg, s, a).value)
  {
    var s' := Next(cfg, s, a).value;
    if a.Submit? {
      SubmitKeepsPlaces(s, a.req);
    } else if a.Settle? {
      SettleKeepsPlaces(s, s', a.b, Resolutions(cfg, s.tasks, s.running[a.b], s.attempts[a.b]));
    } else if a.CutMain? || a.CutArchive? {
      CutIsTaken(cfg, s, a);
      CutKeepsPlaces(s, a.ids);
    } else {
      AttemptsMoveNothing(s, s');
    }
  }

  lemma {:induction false} StepKeepsAll(cfg: Setup, s: State, a: Action)
    requires PlacesInv(s) && NoneLost(s) && Next(cfg, s, a).Some?
    ensures NoneLost(Next(cfg, s, a).value)
  {
    var s' := Next(cfg, s, a).value;
    if a.Submit? {
      SubmitNoneLost(s, a.req);
    } else if a.Settle? {
      SettleNoneLost(s, s', a.b, Resolutions(cfg, s.tasks, s.running[a.b], s.attempts[a.b]));
    } else if a.CutMain? || a.CutArchive? {
      CutIsTaken(cfg, s, a);
      CutNoneLost(s, a.ids);
    } else {
      AttemptsMoveNothing(s, s');
    }
  }

  lemma {:induction false} StepKeepsAttempts(cfg: Setup, s: State, a: Action)
    requires AttemptsInv(s) && Next(cfg, s, a).Some?
    ensures AttemptsInv(Next(cfg, s, a).value)
  {
    if a.TryAgain? { AttemptKeepsOrder(s.attempts[a.b], a.attempt); }
    if a.Start? { AttemptKeepsOrder([], a.attempt); assert [] + [a.attempt] == [a.attempt]; }
  }

  lemma {:induction false} StepKeepsInv(cfg: Setup, s: State, a: Action)
    requires Inv(s) && Next(cfg, s, a).Some?
    ensures Inv(Next(cfg, s, a).value)
  {
    StepKeepsPlaces(cfg, s, a);
    StepKeepsAll(cfg, s, a);
    StepKeepsAttempts(cfg, s, a);
  }

  lemma {:induction false} RunKeepsInv(cfg: Setup, actions: seq<Action>)
    requires Exec(cfg, actions).Some?
    ensures Inv(Exec(cfg, actions).value)
  {
    if actions != [] {
      var front := actions[..|actions| - 1];
      RunKeepsInv(cfg, front);
      StepKeepsInv(cfg, Exec(cfg, front).value, actions[|actions| - 1]);
    }
  }

  // ------------------------------------------------- every call in one place

  /** Homogeneity, in every reachable state: each queue, and so each batch cut from it, wants one endpoint. */
  lemma {:induction false} QueuesAreHomogeneous(cfg: Setup, actions: seq<Action>)
    requires Exec(cfg, actions).Some?
    ensures var s := Exec(cfg, actions).value;
            && (forall id :: id in s.main ==> id < |s.tasks| && s.tasks[id].block.None?)
            && (forall id :: id in s.archive ==> id < |s.tasks| && s.tasks[id].block.Some?)
            && (forall b :: b in s.running ==>
                  && (forall i :: 0 <= i < |s.running[b]| ==> s.running[b][i] < |s.tasks|)
                  && Homogeneous(RequestsOf(s.tasks, s.running[b])))
  {
    RunKeepsInv(cfg, actions);
    var s := Exec(cfg, actions).value;
    forall b | b in s.running
      ensures forall i :: 0 <= i < |s.running[b]| ==> s.running[b][i] < |s.tasks|
      ensures Homogeneous(RequestsOf(s.tasks, s.running[b]))
    {
      assert BatchInv(s, s.running[b]);
    }
  }

  ghost function RunningIds(s: State): set<TaskId> {
    set id | 0 <= id < |s.tasks| && InBatch(s.running, id)
  }

  /** In how many places a call is. */
  ghost function Places(s: State, id: TaskId): nat {
    Count(id in s.main) + Count(id in s.archive) + Count(InBatch(s.running, id)) + Count(Logged(s.log, id))
  }

  /** Every submitted call is in exactly one place, no other call is anywhere, and none is resolved twice. */
  lemma {:induction false} CallsAreConserved(cfg: Setup, actions: seq<Action>)
    requires Exec(cfg, actions).Some?
    ensures var s := Exec(cfg, actions).value;
            && (forall id: TaskId :: Places(s, id) == Count(id < |s.tasks|))
            && (forall k, l :: 0 <= k < l < |s.log| ==> s.log[k].id != s.log[l].id)
  {
    RunKeepsInv(cfg, actions);
    var s := Exec(cfg, actions).value;
    forall id: TaskId ensures Places(s, id) == Count(id < |s.tasks|) {
      OnePlace(s, id);
    }
  }

  /** So the counts add up: submitted is queued plus running plus resolved. */
  lemma {:induction false} CountsAreConserved(cfg: Setup, actions: seq<Action>)
    requires Exec(cfg, actions).Some?
    ensures var s := Exec(cfg, actions).value;
            |s.tasks| == |s.main| + |s.archive| + |RunningIds(s)| + |s.log|
  {
    CallsAreConserved(cfg, actions);
    CountsAddUp(Exec(cfg, actions).value);
  }

  lemma {:induction false} OnePlace(s: State, id: TaskId)
    requires Inv(s)
    ensures Places(s, id) == Count(id < |s.tasks|)
  {
    if InBatch(s.running, id) {
      var b, i :| b in s.running && 0 <= i < |s.running[b]| && s.running[b][i] == id;
      assert BatchInv(s, s.running[b]);
    }
  }

  function Below(n: nat): (ids: set<TaskId>)
    ensures |ids| == n && forall id: TaskId :: id in ids <==> id < n
  {
    if n == 0 then {} else Below(n - 1) + {n - 1}
  }

  function LoggedIds(log: seq<Resolution>): (ids: set<TaskId>)
    ensures forall id: TaskId :: id in ids <==> Logged(log, id)
  {
    set k | 0 <= k < |log| :: log[k].id
  }

  lemma {:induction false} LogCounts(log: seq<Resolution>)
    requires forall k, l :: 0 <= k < l < |log| ==> log[k].id != log[l].id
    ensures |LoggedIds(log)| == |log|
  {
    if log != [] {
      var front, last := log[..|log| - 1], log[|log| - 1];
      LogCounts(front);
      assert log == front + [last];
      forall id: TaskId ensures id in LoggedIds(log) <==> id in LoggedIds(front) || id == last.id {
        if Logged(front, id) {
          var k :| 0 <= k < |front| && front[k].id == id;
          assert log[k].id == id;
        }
      }
      assert LoggedIds(log) == LoggedIds(front) + {last.id};
    }
  }

  lemma {:induction false} CountsAddUp(s: State)
    requires forall id: TaskId :: Places(s, id) == Count(id < |s.tasks|)
    requires forall k, l :: 0 <= k < l < |s.log| ==> s.log[k].id != s.log[l].id
    ensures |s.tasks| == |s.main| + |s.archive| + |RunningIds(s)| + |s.log|
  {
    LogCounts(s.log);
    var batched, logged := RunningIds(s), LoggedIds(s.log);
    forall id: TaskId
      ensures Count(id in s.main) + Count(id in s.archive) + Count(id in batched) + Count(id in logged)
              == Count(id < |s.tasks|)
    {
      assert Places(s, id) == Count(id < |s.tasks|);
    }
    SizesAddUp(|s.tasks|, s.main, s.archive, batched, logged);
  }

  lemma SizesAddUp(n: nat, a: set<TaskId>, b: set<TaskId>, c: set<TaskId>, d: set<TaskId>)
    requires forall id: TaskId :: Count(id in a) + Count(id in b) + Count(id in c) + Count(id in d) == Count(id < n)
    ensures n == |a| + |b| + |c| + |d|
  {
    forall id: TaskId ensures id in Below(n) <==> id in a + b + c + d
    {
      assert Count(id in a) + Count(id in b) + Count(id in c) + Count(id in d) == Count(id < n);
    }
    assert Below(n) == a + b + c + d;
    forall id: TaskId ensures !(id in a && id in b) && !(id in a + b && id in c) && !(id in a + b + c && id in d)
    {
      assert Count(id in a) + Count(id in b) + Count(id in c) + Count(id in d) == Count(id < n);
    }
    assert |a + b| == |a| + |b|;
    assert |a + b + c| == |a + b| + |c|;
  }

  /** The calls submitted so far, in order, are exactly those of the Submit actions: no step alters or reorders them. */
  function Submitted(actions: seq<Action>): seq<Request> {
    if actions == [] then []
    else
      var a := actions[|actions| - 1];
      Submitted(actions[..|actions| - 1]) + if a.Submit? then [a.req] else []
  }

  lemma {:induction false} CallsAreKept(cfg: Setup, actions: seq<Action>)
    requires Exec(cfg, actions).Some?
    ensures Exec(cfg, actions).value.tasks == Submitted(actions)
  {
    if actions != [] { CallsAreKept(cfg, actions[..|actions| - 1]); }
  }

  // --------------------------------------------------------------- refinement

  /** Action j settles a batch that has r as its i-th resolution, and the slot is right for the call with that id. */
  ghost predicate SettledIn(cfg: Setup, actions: seq<Action>, r: Resolution, req: Request, j: nat, i: nat) {
    && j < |actions| && actions[j].Settle?
    && Exec(cfg, actions[..j]).Some?
    && SettledFrom(cfg, Exec(cfg, actions[..j]).value, actions[j].b, r, req, i)
  }

  ghost predicate SettledFrom(cfg: Setup, s: State, b: BatchId, r: Resolution, req: Request, i: nat) {
    && CanSettle(cfg, s, b) && StopsAtAnswer(s.attempts[b])
    && i < |s.running[b]| && s.running[b][i] == r.id && s.tasks[r.id] == req
    && IsRight(cfg.node, cfg.client, req, s.attempts[b], i, r.slot)
  }

  lemma SettledInPrefix(cfg: Setup, front: seq<Action>, a: Action, r: Resolution, req: Request, j: nat, i: nat)
    requires SettledIn(cfg, front, r, req, j, i)
    ensures SettledIn(cfg, front + [a], r, req, j, i)
  {
    assert (front + [a])[..j] == front[..j];
  }

  lemma SettledLast(
      cfg: Setup, front: seq<Action>, before: State, a: Action, r: Resolution, req: Request, i: nat)
    requires Exec(cfg, front) == Some(before) && a.Settle? && SettledFrom(cfg, before, a.b, r, req, i)
    ensures SettledIn(cfg, front + [a], r, req, |front|, i)
  {
    assert (front + [a])[..|front|] == front;
  }

  /** Entry k of the log stays what it was, or a is the Settle that adds it. */
  ghost predicate EntryIsSettled(cfg: Setup, s: State, a: Action, s': State, k: nat)
    requires k < |s'.log|
  {
    && s.tasks <= s'.tasks
    && if k < |s.log| then s.log[k] == s'.log[k]
       else && a.Settle? && CanSettle(cfg, s, a.b) && k - |s.log| < |s.running[a.b]|
            && s'.log[k] == Resolutions(cfg, s.tasks, s.running[a.b], s.attempts[a.b])[k - |s.log|]
  }

  lemma {:induction false} LogGrows(cfg: Setup, s: State, a: Action, s': State, k: nat)
    requires Next(cfg, s, a) == Some(s') && k < |s'.log|
    ensures EntryIsSettled(cfg, s, a, s', k)
  {
  }

  lemma {:induction false} SettlingIsRight(cfg: Setup, s: State, b: BatchId, i: nat, r: Resolution)
    requires RunningInv(s) && AttemptsInv(s) && CanSettle(cfg, s, b) && i < |s.running[b]|
    requires r == Resolutions(cfg, s.tasks, s.running[b], s.attempts[b])[i]
    ensures r.id < |s.tasks| && SettledFrom(cfg, s, b, r, s.tasks[r.id], i)
  {
    assert BatchInv(s, s.running[b]);
    BatchIsIndividualCalls(cfg.node, cfg.client, RequestsOf(s.tasks, s.running[b]), s.attempts[b], i);
  }

  /** Entry k of the log stays what it was, or a is the Settle that adds it, and it is right. */
  ghost predicate EntryIsRight(cfg: Setup, s: State, a: Action, s': State, k: nat)
    requires k < |s'.log|
  {
    && s'.log[k].id < |s'.tasks|
    && if k < |s.log|
       then s.log[k] == s'.log[k] && s.log[k].id < |s.tasks| && s.tasks[s.log[k].id] == s'.tasks[s.log[k].id]
       else a.Settle? && SettledFrom(cfg, s, a.b, s'.log[k], s'.tasks[s'.log[k].id], k - |s.log|)
  }

  lemma {:induction false} StepLogsRight(cfg: Setup, s: State, a: Action, s': State, k: nat)
    requires RunningInv(s) && AttemptsInv(s) && forall l :: 0 <= l < |s.log| ==> s.log[l].id < |s.tasks|
    requires k < |s'.log| && EntryIsSettled(cfg, s, a, s', k)
    ensures EntryIsRight(cfg, s, a, s', k)
  {
    var r := s'.log[k];
    if k < |s.log| {
      assert r.id < |s.tasks| && s'.tasks[r.id] == s.tasks[r.id];
    } else {
      SettlingIsRight(cfg, s, a.b, k - |s.log|, r);
      assert s'.tasks[r.id] == s.tasks[r.id];
    }
  }

  lemma {:induction false} RunLogsRight(cfg: Setup, front: seq<Action>, s: State, a: Action, s': State, k: nat)
    requires Exec(cfg, front) == Some(s) && Next(cfg, s, a) == Some(s') && k < |s'.log|
    ensures EntryIsRight(cfg, s, a, s', k)
  {
    RunKeepsInv(cfg, front);
    LogGrows(cfg, s, a, s', k);
    StepLogsRight(cfg, s, a, s', k);
  }

  lemma {:induction false} SettleOf(cfg: Setup, actions: seq<Action>, s: State, k: nat) returns (j: nat, i: nat)
    requires Exec(cfg, actions) == Some(s) && k < |s.log|
    ensures s.log[k].id < |s.tasks| && SettledIn(cfg, actions, s.log[k], s.tasks[s.log[k].id], j, i)
  {
    var front, a := actions[..|actions| - 1], actions[|actions| - 1];
    var before := Exec(cfg, front).value;
    RunLogsRight(cfg, front, before, a, s, k);
    var r, req := s.log[k], s.tasks[s.log[k].id];
    if k < |before.log| {
      j, i := SettleOf(cfg, front, before, k);
      SettledInPrefix(cfg, front, a, r, req, j, i);
    } else {
      j, i := |front|, k - |before.log|;
      SettledLast(cfg, front, before, a, r, req, i);
    }
    assert actions == front + [a];
  }

  // ------------------------------------------------------- the shared backoff

  /** What an action does to the backoff, as batch b sees it: at most one event. */
  function EventOf(b: BatchId, a: Action): seq<Event> {
    match a
    case Start(c, patience, _) => [if c == b then Begin(patience) else TheirBegin(patience)]
    case TryAgain(c, _) => [if c == b then Again else TheirAgain]
    case _ => []
  }

  function EventsFor(b: BatchId, actions: seq<Action>): seq<Event> {
    if actions == [] then []
    else EventsFor(b, actions[..|actions| - 1]) + EventOf(b, actions[|actions| - 1])
  }

  /** The machine's backoff and attempts are those batch b sees. */
  ghost predicate Sees(b: BatchId, s: State, shared: Sharing) {
    && shared.granted == s.granted && shared.patience == s.patience
    && (b in s.attempts ==> shared.attempts == |s.attempts[b]| > 0)
    && ((b in s.running || b >= s.cuts) && b !in s.attempts ==> shared.attempts == 0)
  }

  ghost predicate KeysInv(s: State) {
    && (forall b :: b in s.attempts ==> b in s.running && s.attempts[b] != [])
    && (forall b :: b in s.running ==> b < s.cuts)
  }

  /** Each step of the machine is at most one event of the shared backoff. */
  lemma {:induction false} BackoffStep(cfg: Setup, s: State, a: Action, b: BatchId, shared: Sharing)
    requires KeysInv(s) && Next(cfg, s, a).Some? && Sees(b, s, shared)
    ensures if EventOf(b, a) == [] then Sees(b, Next(cfg, s, a).value, shared)
            else && Retry.Next(cfg.maxRetries, shared, EventOf(b, a)[0]).Some?
                 && Sees(b, Next(cfg, s, a).value, Retry.Next(cfg.maxRetries, shared, EventOf(b, a)[0]).value)
  {
    match a
    case Start(c, _, _) => assert EventOf(b, a) != [];
    case TryAgain(c, _) => assert EventOf(b, a) != [];
    case _ => assert EventOf(b, a) == [];
  }

  lemma {:induction false} RunOfEvents(maxRetries: nat, events: seq<Event>, more: seq<Event>)
    requires Run(maxRetries, events).Some? && |more| <= 1
    ensures Run(maxRetries, events + more)
            == if more == [] then Run(maxRetries, events)
               else Retry.Next(maxRetries, Run(maxRetries, events).value, more[0])
  {
    if more == [] {
      assert events + more == events;
    } else {
      assert more == [more[0]];
      Snoc(maxRetries, events, more[0]);
    }
  }

  lemma {:induction false} RunKeepsKeys(cfg: Setup, actions: seq<Action>)
    requires Exec(cfg, actions).Some?
    ensures KeysInv(Exec(cfg, actions).value)
  {
    RunKeepsInv(cfg, actions);
  }

  /** Each batch's view of the machine is a run of the shared backoff. */
  lemma {:induction false} BackoffIsShared(cfg: Setup, actions: seq<Action>, b: BatchId)
    requires Exec(cfg, actions).Some?
    ensures Run(cfg.maxRetries, EventsFor(b, actions)).Some?
    ensures Sees(b, Exec(cfg, actions).value, Run(cfg.maxRetries, EventsFor(b, actions)).value)
  {
    if actions != [] {
      var front, a := actions[..|actions| - 1], actions[|actions| - 1];
      BackoffIsShared(cfg, front, b);
      RunKeepsKeys(cfg, front);
      var events := EventsFor(b, front);
      BackoffStep(cfg, Exec(cfg, front).value, a, b, Run(cfg.maxRetries, events).value);
      RunOfEvents(cfg.maxRetries, events, EventOf(b, a));
    }
  }

  predicate Started(b: BatchId, actions: seq<Action>) {
    exists j :: 0 <= j < |actions| && actions[j].Start? && actions[j].b == b
  }

  /** How many other batches, of either queue, have started since b did. */
  function StartedSince(b: BatchId, actions: seq<Action>): nat {
    if actions == [] then 0
    else
      var front, a := actions[..|actions| - 1], actions[|actions| - 1];
      StartedSince(b, front) + Count(a.Start? && a.b != b && Started(b, front))
  }

  lemma {:induction false} StartedSnoc(b: BatchId, front: seq<Action>, a: Action)
    ensures Started(b, front + [a]) <==> Started(b, front) || (a.Start? && a.b == b)
  {
    var actions := front + [a];
    if Started(b, front) {
      var j :| 0 <= j < |front| && front[j].Start? && front[j].b == b;
      assert actions[j] == front[j];
    }
    assert actions[|front|] == a;
  }

  /** Our Begin makes the first attempt, and every TheirBegin after it is a reset under us. */
  lemma {:induction false} ResetsStep(maxRetries: nat, s: Sharing, e: Event)
    requires Retry.Next(maxRetries, s, e).Some? && (s.attempts == 0 ==> s.resets == 0)
    ensures var s' := Retry.Next(maxRetries, s, e).value;
            && (s'.attempts > 0 <==> s.attempts > 0 || e.Begin?)
            && s'.resets == s.resets + Count(e.TheirBegin? && s.attempts > 0)
  {
  }

  lemma {:induction false} ResetsOfEvents(maxRetries: nat, events: seq<Event>, more: seq<Event>)
    requires Run(maxRetries, events + more).Some? && |more| <= 1
    ensures Run(maxRetries, events).Some?
    ensures var s, s' := Run(maxRetries, events).value, Run(maxRetries, events + more).value;
            && (s'.attempts > 0 <==> s.attempts > 0 || (more != [] && more[0].Begin?))
            && s'.resets == s.resets + Count(more != [] && more[0].TheirBegin? && s.attempts > 0)
  {
    if more == [] {
      assert events + more == events;
    } else {
      assert (events + more)[..|events|] == events;
      AttemptsAreBounded(maxRetries, events);
      ResetsStep(maxRetries, Run(maxRetries, events).value, more[0]);
    }
  }

  lemma {:induction false} StartedSinceSnoc(b: BatchId, front: seq<Action>, a: Action)
    ensures EventsFor(b, front + [a]) == EventsFor(b, front) + EventOf(b, a)
    ensures StartedSince(b, front + [a]) == StartedSince(b, front) + Count(a.Start? && a.b != b && Started(b, front))
    ensures Started(b, front + [a]) <==> Started(b, front) || (a.Start? && a.b == b)
  {
    assert (front + [a])[..|front|] == front;
    StartedSnoc(b, front, a);
  }

  /** The resets a batch suffers are the starts of other batches after its own. */
  lemma {:induction false} ResetsAreStarts(maxRetries: nat, actions: seq<Action>, b: BatchId)
    requires Run(maxRetries, EventsFor(b, actions)).Some?
    ensures var shared := Run(maxRetries, EventsFor(b, actions)).value;
            (shared.attempts > 0 <==> Started(b, actions)) && shared.resets == StartedSince(b, actions)
  {
    if actions != [] {
      var front, a := actions[..|actions| - 1], actions[|actions| - 1];
      assert actions == front + [a];
      StartedSinceSnoc(b, front, a);
      ResetsOfEvents(maxRetries, EventsFor(b, front), EventOf(b, a));
      ResetsAreStarts(maxRetries, front, b);
    }
  }

  /**
    In whole runs: with MaxRetries set, a batch makes at most MaxRetries more
    attempts for each batch of either queue that starts while it runs, and so at
    most MaxRetries + 1 when none does.
  */
  lemma {:induction false} AttemptsAreBoundedInRuns(cfg: Setup, actions: seq<Action>, b: BatchId)
    requires Exec(cfg, actions).Some? && b in Exec(cfg, actions).value.attempts && cfg.maxRetries > 0
    ensures |Exec(cfg, actions).value.attempts[b]| <= 1 + cfg.maxRetries * (StartedSince(b, actions) + 1)
  {
    BackoffIsShared(cfg, actions, b);
    ResetsAreStarts(cfg.maxRetries, actions, b);
    AttemptsAreBounded(cfg.maxRetries, EventsFor(b, actions));
  }

  // ------------------------------------------------- what the actions alone say

  /** The batches cut, in order: batch b is the b-th. */
  function CutsIn(actions: seq<Action>): seq<seq<TaskId>> {
    if actions == [] then []
    else
      var a := actions[|actions| - 1];
      CutsIn(actions[..|actions| - 1]) + if a.CutMain? || a.CutArchive? then [a.ids] else []
  }

  /** How the attempts batch b has made turned out, in order. */
  function AttemptsOf(b: BatchId, actions: seq<Action>): seq<Attempt> {
    if actions == [] then []
    else
      var a := actions[|actions| - 1];
      AttemptsOf(b, actions[..|actions| - 1]) + if (a.Start? || a.TryAgain?) && a.b == b then [a.attempt] else []
  }

  /** Which batches were granted a wait since the latest reset, in order. */
  function Spenders(actions: seq<Action>): seq<BatchId> {
    if actions == [] then []
    else
      var front, a := actions[..|actions| - 1], actions[|actions| - 1];
      if a.Start? then [] else if a.TryAgain? then Spenders(front) + [a.b] else Spenders(front)
  }

  /** The patience of the latest reset. */
  function PatienceOf(actions: seq<Action>): nat {
    if actions == [] then 0
    else
      var a := actions[|actions| - 1];
      if a.Start? then a.patience else PatienceOf(actions[..|actions| - 1])
  }

  ghost predicate BackoffIs(s: State, spenders: seq<BatchId>, patience: nat) {
    s.granted == |spenders| && s.patience == patience
  }

  lemma {:induction false} BackoffIsExact(cfg: Setup, actions: seq<Action>)
    requires Exec(cfg, actions).Some?
    ensures BackoffIs(Exec(cfg, actions).value, Spenders(actions), PatienceOf(actions))
  {
    if actions != [] { BackoffIsExact(cfg, actions[..|actions| - 1]); }
  }

  /** The batches of a state are those cut, and their attempts those made. */
  ghost predicate BatchIs(s: State, b: BatchId, cuts: seq<seq<TaskId>>, attempts: seq<Attempt>) {
    && s.cuts == |cuts|
    && (b in s.running ==> b < |cuts| && s.running[b] == cuts[b])
    && (b in s.attempts ==> b in s.running && s.attempts[b] == attempts)
    && ((b in s.running || b >= s.cuts) && b !in s.attempts ==> attempts == [])
  }

  lemma {:induction false} BatchStep(cfg: Setup, s: State, a: Action, b: BatchId, cuts: seq<seq<TaskId>>,
                                     attempts: seq<Attempt>)
    requires KeysInv(s) && Next(cfg, s, a).Some? && BatchIs(s, b, cuts, attempts)
    ensures BatchIs(Next(cfg, s, a).value, b, cuts + if a.CutMain? || a.CutArchive? then [a.ids] else [],
                    attempts + if (a.Start? || a.TryAgain?) && a.b == b then [a.attempt] else [])
  {
    match a
    case Start(c, _, attempt) => assert [] + [attempt] == [attempt];
    case _ =>
  }

  lemma {:induction false} BatchIsExact(cfg: Setup, actions: seq<Action>, b: BatchId)
    requires Exec(cfg, actions).Some?
    ensures BatchIs(Exec(cfg, actions).value, b, CutsIn(actions), AttemptsOf(b, actions))
  {
    if actions != [] {
      var front := actions[..|actions| - 1];
      BatchIsExact(cfg, front, b);
      RunKeepsKeys(cfg, front);
      BatchStep(cfg, Exec(cfg, front).value, actions[|actions| - 1], b, CutsIn(front), AttemptsOf(b, front));
    }
  }

  lemma {:induction false} GrantedWithinBudget(cfg: Setup, actions: seq<Action>)
    requires Exec(cfg, actions).Some?
    ensures |Spenders(actions)| <= Budget(cfg.maxRetries, PatienceOf(actions))
  {
    BackoffIsExact(cfg, actions);
    BackoffIsShared(cfg, actions, 0);
    AttemptsAreBounded(cfg.maxRetries, EventsFor(0, actions));
  }

  lemma {:induction false} AttemptedIsStarted(cfg: Setup, actions: seq<Action>, b: BatchId)
    requires Exec(cfg, actions).Some? && b in Exec(cfg, actions).value.attempts
    ensures Started(b, actions)
  {
    BackoffIsShared(cfg, actions, b);
    ResetsAreStarts(cfg.maxRetries, actions, b);
  }

  lemma {:induction false} AttemptsStep(cfg: Setup, s: State, a: Action, b: BatchId)
    requires Next(cfg, s, a).Some? && b in Next(cfg, s, a).value.attempts
    ensures b in s.attempts || (a.Start? && a.b == b)
    ensures a.Start? && a.b == b ==> b in s.running && b !in s.attempts
  {
  }

  /** As long as no other batch starts, batch b has made one attempt and one more for each wait granted to it. */
  lemma {:induction false} OwnTriesAreCounted(cfg: Setup, actions: seq<Action>, b: BatchId)
    requires Exec(cfg, actions).Some? && b in Exec(cfg, actions).value.attempts && StartedSince(b, actions) == 0
    ensures |AttemptsOf(b, actions)| == 1 + multiset(Spenders(actions))[b]
  {
    var front, a := actions[..|actions| - 1], actions[|actions| - 1];
    var before := Exec(cfg, front).value;
    AttemptsStep(cfg, before, a, b);
    if a.Start? && a.b == b {
      BatchIsExact(cfg, front, b);
    } else {
      AttemptedIsStarted(cfg, front, b);
      OwnTriesAreCounted(cfg, front, b);
    }
  }

  /**
    The retries are spent before a failure is reported: the waits granted since
    the latest reset are its whole budget, and if that reset was the batch's own
    it has made one attempt and one more for each wait that went to it.
  */
  ghost predicate GaveUp(maxRetries: nat, actions: seq<Action>, b: BatchId) {
    && |Spenders(actions)| == Budget(maxRetries, PatienceOf(actions))
    && (StartedSince(b, actions) == 0 ==> |AttemptsOf(b, actions)| == 1 + multiset(Spenders(actions))[b])
  }

  lemma {:induction false} SettledWhenSpent(cfg: Setup, actions: seq<Action>, s: State, b: BatchId)
    requires Exec(cfg, actions) == Some(s) && CanSettle(cfg, s, b)
    requires var attempts := AttemptsOf(b, actions); attempts != [] && attempts[|attempts| - 1].Failed?
    ensures b in s.attempts && |Spenders(actions)| >= Budget(cfg.maxRetries, PatienceOf(actions))
  {
    BackoffIsExact(cfg, actions);
    BatchIsExact(cfg, actions, b);
  }

  lemma {:induction false} FailureSpendsTheBudget(cfg: Setup, actions: seq<Action>, b: BatchId)
    requires Exec(cfg, actions).Some? && Next(cfg, Exec(cfg, actions).value, Settle(b)).Some?
    requires var attempts := AttemptsOf(b, actions); attempts != [] && attempts[|attempts| - 1].Failed?
    ensures GaveUp(cfg.maxRetries, actions, b)
  {
    SettledWhenSpent(cfg, actions, Exec(cfg, actions).value, b);
    GrantedWithinBudget(cfg, actions);
    if StartedSince(b, actions) == 0 { OwnTriesAreCounted(cfg, actions, b); }
  }

  ghost predicate AllBy(spenders: seq<BatchId>, b: BatchId) {
    forall i :: 0 <= i < |spenders| ==> spenders[i] == b
  }

  lemma {:induction false} SpentAlone(spenders: seq<BatchId>, b: BatchId)
    ensures multiset(spenders)[b] <= |spenders|
    ensures multiset(spenders)[b] == |spenders| <==> AllBy(spenders, b)
  {
    if spenders != [] {
      var front, x := spenders[..|spenders| - 1], spenders[|spenders| - 1];
      SpentAlone(front, b);
      assert spenders == front + [x];
      assert AllBy(spenders, b) <==> AllBy(front, b) && x == b by {
        assert forall i :: 0 <= i < |front| ==> front[i] == spenders[i];
      }
    }
  }

  /**
    A batch that fails with no other started since has made the full Budget + 1
    attempts exactly when no other was granted a wait in the meantime.
  */
  lemma {:induction false} FailsAfterFullBudgetIffAlone(cfg: Setup, actions: seq<Action>, b: BatchId)
    requires Exec(cfg, actions).Some? && Next(cfg, Exec(cfg, actions).value, Settle(b)).Some?
    requires var attempts := AttemptsOf(b, actions); attempts != [] && attempts[|attempts| - 1].Failed?
    requires StartedSince(b, actions) == 0
    ensures var budget := Budget(cfg.maxRetries, PatienceOf(actions));
            && |AttemptsOf(b, actions)| <= budget + 1
            && (|AttemptsOf(b, actions)| == budget + 1 <==> AllBy(Spenders(actions), b))
  {
    FailureSpendsTheBudget(cfg, actions, b);
    SpentAlone(Spenders(actions), b);
  }

  lemma {:induction false} ExecSnoc(cfg: Setup, actions: seq<Action>, a: Action)
    requires Exec(cfg, actions).Some?
    ensures Exec(cfg, actions + [a]) == Next(cfg, Exec(cfg, actions).value, a)
  {
    assert (actions + [a])[..|actions|] == actions;
  }

  lemma {:induction false} Then(cfg: Setup, actions: seq<Action>, a: Action) returns (longer: seq<Action>)
    requires Exec(cfg, actions).Some? && Next(cfg, Exec(cfg, actions).value, a).Some?
    ensures longer == actions + [a] && Exec(cfg, longer) == Next(cfg, Exec(cfg, actions).value, a)
  {
    ExecSnoc(cfg, actions, a);
    longer := actions + [a];
  }

  lemma {:induction false} TwoBatches(cfg: Setup, req: Request) returns (actions: seq<Action>)
    requires req.block.None?
    ensures Exec(cfg, actions) == Some(State([req, req], {}, {}, 2, map[0 := [0], 1 := [1]], map[], 0, 0, []))
  {
    var one := Then(cfg, [], Submit(req));
    var two := Then(cfg, one, Submit(req));
    assert Exec(cfg, two).value.main == {0, 1} && Exec(cfg, two).value.tasks == [req, req];
    assert ToSet([0]) == {0} && ToSet([1]) == {1} by { assert [0][0] == 0 && [1][0] == 1; }
    var cut := Then(cfg, two, CutMain([0]));
    assert Exec(cfg, cut).value.main == {1};
    actions := Then(cfg, cut, CutMain([1]));
    assert Exec(cfg, actions).value.main == {};
    assert Exec(cfg, actions).value.running == map[0 := [0], 1 := [1]];
  }

  /** A running batch that has made no attempt has not started, nor has it seen others start. */
  lemma {:induction false} NoneStarted(cfg: Setup, actions: seq<Action>, b: BatchId)
    requires Exec(cfg, actions).Some?
    requires b in Exec(cfg, actions).value.running && b !in Exec(cfg, actions).value.attempts
    ensures !Started(b, actions) && StartedSince(b, actions) == 0
  {
    BackoffIsShared(cfg, actions, b);
    ResetsAreStarts(cfg.maxRetries, actions, b);
    AttemptsAreBounded(cfg.maxRetries, EventsFor(b, actions));
  }

  const TIMEOUT: Attempt := Failed("timeout", [])

  lemma {:induction false} NoneStartedSince(cut: seq<Action>)
    requires !Started(1, cut) && StartedSince(1, cut) == 0
    ensures StartedSince(1, cut + [Start(0, 1, TIMEOUT)] + [Start(1, 1, TIMEOUT)] + [TryAgain(0, TIMEOUT)]) == 0
  {
    StartedSinceSnoc(1, cut, Start(0, 1, TIMEOUT));
    StartedSinceSnoc(1, cut + [Start(0, 1, TIMEOUT)], Start(1, 1, TIMEOUT));
    StartedSinceSnoc(1, cut + [Start(0, 1, TIMEOUT)] + [Start(1, 1, TIMEOUT)], TryAgain(0, TIMEOUT));
  }

  lemma {:induction false} SpentByTheFirst(cfg: Setup, cut: seq<Action>, s: State)
    requires Exec(cfg, cut) == Some(s) && s.tasks != [] && s.attempts == map[]
    requires 0 in s.running && 1 in s.running && s.running[1] == [1] && |s.tasks| == 2
    ensures var actions := cut + [Start(0, 1, TIMEOUT)] + [Start(1, 1, TIMEOUT)] + [TryAgain(0, TIMEOUT)];
            && Exec(cfg, actions).Some?
            && var r := Exec(cfg, actions).value;
               && 1 in r.attempts && r.attempts[1] == [TIMEOUT] && r.patience == 1 && CanSettle(cfg, r, 1)
  {
    var first := Then(cfg, cut, Start(0, 1, TIMEOUT));
    var second := Then(cfg, first, Start(1, 1, TIMEOUT));
    var third := Then(cfg, second, TryAgain(0, TIMEOUT));
  }

  /**
    Such waits do go to others: a batch that has the backoff to itself when it
    starts fails with no retry, because one that started earlier spends the budget.
  */
  lemma {:induction false} OthersCanSpendTheBudget(cfg: Setup, req: Request) returns (actions: seq<Action>)
    requires req.block.None?
    ensures Exec(cfg, actions).Some? && Next(cfg, Exec(cfg, actions).value, Settle(1)).Some?
    ensures StartedSince(1, actions) == 0 && AttemptsOf(1, actions) == [TIMEOUT]
    ensures Budget(cfg.maxRetries, PatienceOf(actions)) == 1
  {
    var cut := TwoBatches(cfg, req);
    actions := cut + [Start(0, 1, TIMEOUT)] + [Start(1, 1, TIMEOUT)] + [TryAgain(0, TIMEOUT)];
    SpentByTheFirst(cfg, cut, Exec(cfg, cut).value);
    NoneStarted(cfg, cut, 1);
    NoneStartedSince(cut);
    BatchIsExact(cfg, actions, 1);
    BackoffIsExact(cfg, actions);
  }

  // ------------------------------------------------------ the whole refinement

  /**
    Resolution r comes from action j, a Settle: it is the i-th of that batch, the
    id is that of a call like req, and the slot is right for the attempts the
    batch had made by then. A failure means that the backoff had given up.
  */
  ghost predicate SettledBy(cfg: Setup, actions: seq<Action>, r: Resolution, req: Request, j: nat, i: nat) {
    && j < |actions| && actions[j].Settle?
    && SettledAfter(cfg, actions[..j], actions[j].b, r, req, i)
  }

  ghost predicate SettledAfter(cfg: Setup, actions: seq<Action>, b: BatchId, r: Resolution, req: Request, i: nat) {
    && b < |CutsIn(actions)| && i < |CutsIn(actions)[b]| && CutsIn(actions)[b][i] == r.id
    && r.id < |Submitted(actions)| && Submitted(actions)[r.id] == req
    && var attempts := AttemptsOf(b, actions);
       && StopsAtAnswer(attempts) && IsRight(cfg.node, cfg.client, req, attempts, i, r.slot)
       && (attempts[|attempts| - 1].Failed? ==> GaveUp(cfg.maxRetries, actions, b))
  }

  lemma {:induction false} SettledFromIsAfter(
      cfg: Setup, actions: seq<Action>, b: BatchId, r: Resolution, req: Request, i: nat)
    requires Exec(cfg, actions).Some? && SettledFrom(cfg, Exec(cfg, actions).value, b, r, req, i)
    ensures SettledAfter(cfg, actions, b, r, req, i)
  {
    BatchIsExact(cfg, actions, b);
    CallsAreKept(cfg, actions);
    if LastFailed(AttemptsOf(b, actions)) { FailureSpendsTheBudget(cfg, actions, b); }
  }

  /**
    Batching refines individual calls: in every run, however the queues were cut
    and the attempts of the batches interleaved, each resolution comes from one
    Settle of the run, for a call of that batch. If the batch was answered, the
    call gets what its own request, sent alone to the endpoint of its own block,
    got from that attempt; if not, the last failure, and all retries were spent.
  */
  lemma {:induction false} BatchingRefinesIndividualCalls(cfg: Setup, actions: seq<Action>, k: nat)
    requires Exec(cfg, actions).Some? && k < |Exec(cfg, actions).value.log|
    ensures var s := Exec(cfg, actions).value;
            && s.log[k].id < |s.tasks|
            && exists j: nat, i: nat :: SettledBy(cfg, actions, s.log[k], s.tasks[s.log[k].id], j, i)
  {
    var s := Exec(cfg, actions).value;
    var j, i := SettleOf(cfg, actions, s, k);
    SettledFromIsAfter(cfg, actions[..j], actions[j].b, s.log[k], s.tasks[s.log[k].id], i);
    assert SettledBy(cfg, actions, s.log[k], s.tasks[s.log[k].id], j, i);
  }

  // --------------------------------------------------------- every call can end

  lemma {:induction false} Listed(q: set<TaskId>) returns (ids: seq<TaskId>)
    ensures ToSet(ids) == q && |ids| == |q|
    ensures (forall i :: 0 <= i < |ids| ==> ids[i] in q) && forall i, j :: 0 <= i < j < |ids| ==> ids[i] != ids[j]
  {
    ids := [];
    if q != {} {
      var id :| id in q;
      var rest := Listed(q - {id});
      ids := rest + [id];
      forall x ensures x in ToSet(ids) <==> x in q {
        if x in ToSet(rest) {
          var i :| 0 <= i < |rest| && rest[i] == x;
          assert ids[i] == x;
        }
        assert ids[|rest|] == id;
      }
    }
  }

  /** Any part of a queue, up to the whole of it, can be cut into one batch, and that alone leaves it. */
  lemma {:induction false} AnyPartCanBeCut(cfg: Setup, s: State, q: set<TaskId>) returns (a: Action)
    requires q != {} && (q <= s.main || q <= s.archive)
    ensures Next(cfg, s, a).Some?
    ensures var s' := Next(cfg, s, a).value;
            && ((s'.main == s.main - q && s'.archive == s.archive)
                || (s'.main == s.main && s'.archive == s.archive - q))
            && s'.tasks == s.tasks && s'.log == s.log
            && s.cuts in s'.running && ToSet(s'.running[s.cuts]) == q && |s'.running[s.cuts]| == |q|
  {
    var ids := Listed(q);
    a := if q <= s.main then CutMain(ids) else CutArchive(ids);
  }


  /** Batch b retries, its attempts turning out as scripted, until it is answered or the backoff says stop. */
  lemma {:induction false} RetryToTheEnd(cfg: Setup, actions: seq<Action>, b: BatchId, script: nat -> Attempt)
    returns (longer: seq<Action>)
    requires Exec(cfg, actions).Some? && b in Exec(cfg, actions).value.attempts
    ensures actions <= longer && Exec(cfg, longer).Some?
    ensures var s, r := Exec(cfg, actions).value, Exec(cfg, longer).value;
            r.tasks == s.tasks && |s.log| < |r.log|
    decreases var s := Exec(cfg, actions).value; Budget(cfg.maxRetries, s.patience) - s.granted
  {
    var s := Exec(cfg, actions).value;
    var a := if LastFailed(s.attempts[b]) && !Exhausted(cfg, s) then TryAgain(b, script(s.granted)) else Settle(b);
    BatchCanSettle(cfg, actions, b);
    ExecSnoc(cfg, actions, a);
    longer := actions + [a];
    if a.TryAgain? { longer := RetryToTheEnd(cfg, longer, b, script); }
  }

  lemma {:induction false} BatchCanSettle(cfg: Setup, actions: seq<Action>, b: BatchId)
    requires Exec(cfg, actions).Some? && b in Exec(cfg, actions).value.attempts
    ensures var s := Exec(cfg, actions).value;
            && b in s.running && s.attempts[b] != [] && s.running[b] != []
            && forall i :: 0 <= i < |s.running[b]| ==> s.running[b][i] < |s.tasks|
  {
    RunKeepsInv(cfg, actions);
    assert BatchInv(Exec(cfg, actions).value, Exec(cfg, actions).value.running[b]);
  }

  lemma {:induction false} SettleBatch(cfg: Setup, actions: seq<Action>, b: BatchId, patience: nat,
                                       script: nat -> Attempt)
    returns (longer: seq<Action>)
    requires Exec(cfg, actions).Some? && b in Exec(cfg, actions).value.running
    ensures actions <= longer && Exec(cfg, longer).Some?
    ensures var s, r := Exec(cfg, actions).value, Exec(cfg, longer).value;
            r.tasks == s.tasks && |s.log| < |r.log|
  {
    longer := actions;
    if b !in Exec(cfg, actions).value.attempts {
      ExecSnoc(cfg, actions, Start(b, patience, script(0)));
      longer := actions + [Start(b, patience, script(0))];
    }
    longer := RetryToTheEnd(cfg, longer, b, script);
  }

  /** As long as a call is not resolved, some batch is running or a queue can be cut. */
  lemma {:induction false} CutOne(cfg: Setup, actions: seq<Action>) returns (longer: seq<Action>, b: BatchId)
    requires Exec(cfg, actions).Some? && |Exec(cfg, actions).value.log| < |Exec(cfg, actions).value.tasks|
    ensures actions <= longer && Exec(cfg, longer).Some? && b in Exec(cfg, longer).value.running
    ensures var s, r := Exec(cfg, actions).value, Exec(cfg, longer).value;
            r.tasks == s.tasks && r.log == s.log
  {
    var s := Exec(cfg, actions).value;
    CountsAreConserved(cfg, actions);
    longer, b := actions, s.cuts;
    if s.main + s.archive != {} {
      var a := AnyPartCanBeCut(cfg, s, if s.main != {} then s.main else s.archive);
      ExecSnoc(cfg, actions, a);
      longer := actions + [a];
    } else {
      assert RunningIds(s) != {};
      var id :| id in RunningIds(s);
      b :| b in s.running;
    }
  }

  /**
    No call is stuck: every run can be continued, with any outcomes of the
    attempts and any patience of the backoff, until each call submitted so far is
    resolved.
  */
  lemma {:induction false} CallsCanBeResolved(cfg: Setup, actions: seq<Action>, patience: nat,
                                              script: nat -> Attempt)
    returns (longer: seq<Action>)
    requires Exec(cfg, actions).Some?
    ensures actions <= longer && Exec(cfg, longer).Some?
    ensures var s, r := Exec(cfg, actions).value, Exec(cfg, longer).value;
            && r.tasks == s.tasks && r.main == r.archive == {} && |r.log| == |r.tasks|
            && forall id: TaskId :: id < |r.tasks| ==> Logged(r.log, id)
    decreases |Exec(cfg, actions).value.tasks| - |Exec(cfg, actions).value.log|
  {
    var s := Exec(cfg, actions).value;
    CountsAreConserved(cfg, actions);
    if |s.log| < |s.tasks| {
      var cut, b := CutOne(cfg, actions);
      var settled := SettleBatch(cfg, cut, b, patience, script);
      longer := CallsCanBeResolved(cfg, settled, patience, script);
    } else {
      longer := actions;
      CallsAreConserved(cfg, actions);
      forall id: TaskId | id < |s.tasks| ensures Logged(s.log, id) {
        assert Places(s, id) == Count(id < |s.tasks|);
        assert id !in RunningIds(s);
      }
    }
  }
}
