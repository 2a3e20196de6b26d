/**
  One run of batchCalls: prepare a request per message, retry the whole batch on
  one endpoint while reusing the request array, then resolve every message.
*/
module BatchCalls {
  import opened Wrappers
  import opened Hex
  import opened EthClients
  import opened EthEncoding
  import opened Retry

  type Error = string
  type Bytes = seq<Byte>

  /** One eth_call a caller wants: what CallContract is given. */
  datatype Request = Request(msg: CallMsg, block: BlockNumber)

  /** What a node answers to one call: an error, a result, or both. */
  datatype Reply = Reply(result: Option<Bytes>, err: Option<Error>)

  /** A node's answers depend on the moment, the endpoint, and the call and block arguments on the wire. */
  type Node = (nat, ConnId, CallArg, string) -> Reply

  /** What one call is answered when its eth_call request is sent alone, to the endpoint of its block. */
  function IndividualCall(node: Node, at: nat, client: EthClient, r: Request): Reply {
    node(at, client.ClientFor(r.block), ToCallArg(r.msg), ToBlockNumArg(r.block))
  }

  /** A result and an error: the fields of a BatchElem that an attempt writes, and what Resolve is given. */
  datatype Slot = Slot(result: Bytes, err: Option<Error>)

  datatype Elem = Elem(arg: CallArg, block: string, slot: Slot)

  /** An attempt fails, leaving any contents in the first slots, or is answered at some moment. */
  datatype Attempt = Failed(err: Error, left: seq<Slot>) | Answered(at: nat)

  function Prepared(r: Request): Elem {
    Elem(ToCallArg(r.msg), ToBlockNumArg(r.block), Slot([], None))
  }

  /** BatchCallContext on element i: a nil return has set every error, and every result the node gave. */
  function Written(node: Node, conn: ConnId, attempt: Attempt, i: nat, e: Elem): Elem {
    match attempt
    case Failed(_, left) => if i < |left| then e.(slot := left[i]) else e
    case Answered(at) =>
      var reply := node(at, conn, e.arg, e.block);
      e.(slot := Slot(if reply.result.Some? then reply.result.value else e.slot.result, reply.err))
  }

  /** Request i after these attempts on the reused array. */
  function Sent(node: Node, conn: ConnId, attempts: seq<Attempt>, i: nat, r: Request): Elem {
    if attempts == [] then Prepared(r)
    else
      var n := |attempts| - 1;
      Written(node, conn, attempts[n], i, Sent(node, conn, attempts[..n], i, r))
  }

  /** What message i is resolved with when the batch made these attempts and no more. */
  function Outcome(node: Node, client: EthClient, reqs: seq<Request>, attempts: seq<Attempt>, i: nat): Slot
    requires i < |reqs| && attempts != []
  {
    var last := attempts[|attempts| - 1];
    if last.Failed? then Slot([], Some(last.err))
    else Sent(node, client.ClientFor(reqs[0].block), attempts, i, reqs[i]).slot
  }

  /** What failed attempts leave in the result of request i. */
  function Residue(failed: seq<Attempt>, i: nat): Bytes {
    if failed == [] then []
    else
      match failed[|failed| - 1]
      case Failed(_, left) => if i < |left| then left[i].result else Residue(failed[..|failed| - 1], i)
      case Answered(_) => []
  }

  ghost predicate AllFailed(attempts: seq<Attempt>) {
    forall j :: 0 <= j < |attempts| ==> attempts[j].Failed?
  }

  /** The retry loop goes on only after a failure. */
  ghost predicate StopsAtAnswer(attempts: seq<Attempt>) {
    attempts != [] && AllFailed(attempts[..|attempts| - 1])
  }

  /** Every attempt sends the same request. */
  lemma {:induction false} RequestsStayTheSame(node: Node, conn: ConnId, attempts: seq<Attempt>, i: nat, r: Request)
    ensures var e := Sent(node, conn, attempts, i, r);
            e.arg == ToCallArg(r.msg) && e.block == ToBlockNumArg(r.block)
  {
    if attempts != [] { RequestsStayTheSame(node, conn, attempts[..|attempts| - 1], i, r); }
  }

  lemma {:induction false} FailuresLeaveResidue(node: Node, conn: ConnId, failed: seq<Attempt>, i: nat, r: Request)
    requires AllFailed(failed)
    ensures Sent(node, conn, failed, i, r).slot.result == Residue(failed, i)
  {
    if failed != [] { FailuresLeaveResidue(node, conn, failed[..|failed| - 1], i, r); }
  }

  /** The slot is what the request, sent alone, gets from the attempt that was answered, or else the last failure. */
  ghost predicate IsRight(node: Node, client: EthClient, req: Request, attempts: seq<Attempt>, i: nat, slot: Slot)
    requires attempts != []
  {
    var n := |attempts| - 1;
    match attempts[n]
    case Failed(err, _) => slot == Slot([], Some(err))
    case Answered(at) =>
      var reply := IndividualCall(node, at, client, req);
      && slot.err == reply.err
      && slot.result == if reply.result.Some? then reply.result.value else Residue(attempts[..n], i)
  }

  /**
    A batch against individual calls. If a message wants the endpoint the first
    one picks, it is resolved with its own call's error and result from the
    attempt that succeeded; where that gave no result, with whatever failed
    attempts left there. If all attempts failed it is resolved with the last failure.
  */
  lemma {:induction false} BatchIsIndividualCalls(
      node: Node, client: EthClient, reqs: seq<Request>, attempts: seq<Attempt>, i: nat)
    requires i < |reqs| && client.ClientFor(reqs[i].block) == client.ClientFor(reqs[0].block)
    requires StopsAtAnswer(attempts)
    ensures IsRight(node, client, reqs[i], attempts, i, Outcome(node, client, reqs, attempts, i))
  {
    var failed, conn := attempts[..|attempts| - 1], client.ClientFor(reqs[0].block);
    RequestsStayTheSame(node, conn, failed, i, reqs[i]);
    FailuresLeaveResidue(node, conn, failed, i, reqs[i]);
  }

  /** What the answered attempt alone says of a request: its reply, no result being the empty one. */
  function AnswerAlone(reply: Reply): Slot {
    Slot(if reply.result.Some? then reply.result.value else [], reply.err)
  }

  /**
    No residue: an answered batch resolves a message with the successful attempt
    alone exactly when the node gave a result or the failed attempts left none.
  */
  lemma {:induction false} AnswerAloneIffNoResidue(
      node: Node, client: EthClient, reqs: seq<Request>, attempts: seq<Attempt>, i: nat)
    requires i < |reqs| && client.ClientFor(reqs[i].block) == client.ClientFor(reqs[0].block)
    requires StopsAtAnswer(attempts) && attempts[|attempts| - 1].Answered?
    ensures var reply := IndividualCall(node, attempts[|attempts| - 1].at, client, reqs[i]);
            Outcome(node, client, reqs, attempts, i) == AnswerAlone(reply)
            <==> reply.result.Some? || Residue(attempts[..|attempts| - 1], i) == []
  {
    BatchIsIndividualCalls(node, client, reqs, attempts, i);
  }

  /** The residue is what the latest failed attempt that wrote the element wrote there. */
  lemma {:induction false} ResidueIsLatestWritten(failed: seq<Attempt>, i: nat, j: nat)
    requires AllFailed(failed) && j < |failed| && i < |failed[j].left|
    requires forall l :: j < l < |failed| ==> |failed[l].left| <= i
    ensures Residue(failed, i) == failed[j].left[i].result
  {
    if j < |failed| - 1 { ResidueIsLatestWritten(failed[..|failed| - 1], i, j); }
  }

  /** Failed round trips that do not write an element leave nothing there. */
  lemma {:induction false} CleanFailuresLeaveNothing(failed: seq<Attempt>, i: nat)
    requires AllFailed(failed) && forall j :: 0 <= j < |failed| ==> |failed[j].left| <= i
    ensures Residue(failed, i) == []
  {
    if failed != [] { CleanFailuresLeaveNothing(failed[..|failed| - 1], i); }
  }

  /** And one that does not: a result from a failed attempt ends up beside another attempt's error. */
  lemma ResidueCanShow(client: EthClient, req: Request)
    ensures var node: Node := (_, _, _, _) => Reply(None, Some("execution reverted"));
            var attempts := [Failed("timeout", [Slot([1], None)]), Answered(0)];
            && StopsAtAnswer(attempts)
            && Outcome(node, client, [req], attempts, 0) == Slot([1], Some("execution reverted"))
  {
    var node: Node := (_, _, _, _) => Reply(None, Some("execution reverted"));
    var failed := [Failed("timeout", [Slot([1], None)])];
    var attempts := failed + [Answered(0)];
    assert attempts == [Failed("timeout", [Slot([1], None)]), Answered(0)];
    assert attempts[..1] == failed;
    BatchIsIndividualCalls(node, client, [req], attempts, 0);
    assert Residue(failed, 0) == [1];
  }

  ghost predicate Homogeneous(reqs: seq<Request>) {
    forall i :: 0 <= i < |reqs| ==> (reqs[i].block.None? <==> reqs[0].block.None?)
  }

  /** Routing by the first message is right for all exactly when the batch is homogeneous or both endpoints are one. */
  lemma RoutedRightIffHomogeneous(client: EthClient, reqs: seq<Request>)
    ensures (forall i :: 0 <= i < |reqs| ==> client.ClientFor(reqs[i].block) == client.ClientFor(reqs[0].block))
            <==> Homogeneous(reqs) || client.client == client.archive
  {
    if !Homogeneous(reqs) && client.client != client.archive {
      var i :| 0 <= i < |reqs| && !(reqs[i].block.None? <==> reqs[0].block.None?);
      assert client.ClientFor(reqs[i].block) != client.ClientFor(reqs[0].block);
    }
  }

  // --------------------------------------------------------------- the Go code

  /** A queued message: the call and its ChanTask. */
  class CallTask {
    const req: Request
    var resolved: seq<Slot> // every Resolve call so far

    constructor (req: Request)
      ensures this.req == req && resolved == []
    {
      this.req := req;
      resolved := [];
    }

    method Resolve(result: Bytes, err: Option<Error>)
      modifies this
      ensures resolved == old(resolved) + [Slot(result, err)]
    {
      resolved := resolved + [Slot(result, err)];
    }
  }

  function Requests(msgs: seq<CallTask>): (reqs: seq<Request>)
    ensures |reqs| == |msgs| && forall i :: 0 <= i < |msgs| ==> reqs[i] == msgs[i].req
  {
    seq(|msgs|, i requires 0 <= i < |msgs| => msgs[i].req)
  }

  /** The RPC library's part: one round trip over the whole array. */
  method BatchCallContext(node: Node, conn: ConnId, attempt: Attempt, elems: array<Elem>) returns (err: Option<Error>)
    modifies elems
    ensures forall i :: 0 <= i < elems.Length ==> elems[i] == Written(node, conn, attempt, i, old(elems[i]))
    ensures err == if attempt.Failed? then Some(attempt.err) else None
  {
    for i := 0 to elems.Length
      invariant forall j :: 0 <= j < i ==> elems[j] == Written(node, conn, attempt, j, old(elems[j]))
      invariant forall j :: i <= j < elems.Length ==> elems[j] == old(elems[j])
    {
      elems[i] := Written(node, conn, attempt, i, elems[i]);
    }
    err := if attempt.Failed? then Some(attempt.err) else None;
  }

  /** The attempt the loop ends with when it may retry that often: the first that is answered, else the last. */
  function FinalAttempt(script: nat -> Attempt, retries: nat): (k: nat)
    ensures k <= retries
    ensures forall j :: 0 <= j < k ==> script(j).Failed?
    ensures script(k).Answered? || k == retries
  {
    if retries == 0 then 0
    else
      var k := FinalAttempt(script, retries - 1);
      if script(k).Answered? then k else retries
  }

  /** The first n attempts of a script: how the attempts would turn out, if they were all made. */
  function Prefix(script: nat -> Attempt, n: nat): (attempts: seq<Attempt>)
    ensures |attempts| == n && forall j :: 0 <= j < n ==> attempts[j] == script(j)
  {
    seq(n, j requires 0 <= j < n => script(j))
  }

  /** The attempts batchCalls makes. */
  function Made(script: nat -> Attempt, retries: nat): (attempts: seq<Attempt>)
    ensures StopsAtAnswer(attempts) && |attempts| <= retries + 1
    ensures attempts[|attempts| - 1].Answered? || |attempts| == retries + 1
  {
    Prefix(script, FinalAttempt(script, retries) + 1)
  }

  lemma FirstIsFinal(script: nat -> Attempt, retries: nat, k: nat)
    requires k <= retries && AllFailed(Prefix(script, k)) && (script(k).Answered? || k == retries)
    ensures Made(script, retries) == Prefix(script, k + 1)
  {
    assert forall j :: 0 <= j < k ==> script(j) == Prefix(script, k)[j];
  }

  function LastError(attempts: seq<Attempt>): Option<Error>
    requires attempts != []
  {
    var last := attempts[|attempts| - 1];
    if last.Failed? then Some(last.err) else None
  }

  lemma SentOneMore(node: Node, conn: ConnId, script: nat -> Attempt, k: nat, i: nat, r: Request)
    ensures Sent(node, conn, Prefix(script, k + 1), i, r)
            == Written(node, conn, script(k), i, Sent(node, conn, Prefix(script, k), i, r))
  {
    assert Prefix(script, k + 1)[..k] == Prefix(script, k);
  }

  /** The array holds the requests as these attempts leave them. */
  ghost predicate HoldsSent(node: Node, conn: ConnId, attempts: seq<Attempt>, reqs: seq<Request>, elems: seq<Elem>) {
    |elems| == |reqs| && forall i :: 0 <= i < |reqs| ==> elems[i] == Sent(node, conn, attempts, i, reqs[i])
  }

  lemma OneMoreAttempt(node: Node, conn: ConnId, script: nat -> Attempt, k: nat, reqs: seq<Request>,
                       elems: seq<Elem>, elems': seq<Elem>)
    requires HoldsSent(node, conn, Prefix(script, k), reqs, elems) && |elems'| == |elems|
    requires forall i :: 0 <= i < |elems| ==> elems'[i] == Written(node, conn, script(k), i, elems[i])
    ensures HoldsSent(node, conn, Prefix(script, k + 1), reqs, elems')
    ensures AllFailed(Prefix(script, k)) && script(k).Failed? ==> AllFailed(Prefix(script, k + 1))
  {
    forall i | 0 <= i < |reqs| ensures elems'[i] == Sent(node, conn, Prefix(script, k + 1), i, reqs[i]) {
      SentOneMore(node, conn, script, k, i, reqs[i]);
    }
  }

  /** backoff.Retry around BatchCallContext: at most Budget + 1 attempts, stopping at the first that is answered. */
  method RetryBatch(node: Node, conn: ConnId, script: nat -> Attempt, elems: array<Elem>,
                    backOff: BackOff, patience: nat, ghost reqs: seq<Request>)
    returns (err: Option<Error>)
    requires elems.Length == |reqs| && forall i :: 0 <= i < |reqs| ==> elems[i] == Prepared(reqs[i])
    modifies elems, backOff
    ensures var attempts := Made(script, Budget(backOff.maxRetries, patience));
            && HoldsSent(node, conn, attempts, reqs, elems[..])
            && err == LastError(attempts)
  {
    backOff.Reset(patience);
    ghost var budget := Budget(backOff.maxRetries, patience);
    var k := 0;
    while true
      invariant backOff.Valid() && backOff.patience == patience
      invariant backOff.Granted() == k <= budget
      invariant AllFailed(Prefix(script, k)) && HoldsSent(node, conn, Prefix(script, k), reqs, elems[..])
      decreases budget - k
    {
      ghost var before := elems[..];
      err := BatchCallContext(node, conn, script(k), elems);
      OneMoreAttempt(node, conn, script, k, reqs, before, elems[..]);
      var stop := true;
      if err != None { stop := backOff.NextBackOff(); }
      if stop {
        FirstIsFinal(script, budget, k);
        return;
      }
      k := k + 1;
    }
  }

  method PrepareBatch(msgs: seq<CallTask>) returns (elems: array<Elem>)
    ensures fresh(elems) && elems.Length == |msgs|
    ensures forall i :: 0 <= i < |msgs| ==> elems[i] == Prepared(msgs[i].req)
  {
    elems := new Elem[|msgs|];
    for i := 0 to |msgs|
      invariant forall j :: 0 <= j < i ==> elems[j] == Prepared(msgs[j].req)
    {
      elems[i] := Elem(ToCallArg(msgs[i].req.msg), ToBlockNumArg(msgs[i].req.block), Slot([], None));
    }
  }

  ghost predicate Distinct(msgs: seq<CallTask>) {
    forall i, j :: 0 <= i < j < |msgs| ==> msgs[i] != msgs[j]
  }

  method FailAll(msgs: seq<CallTask>, err: Error)
    requires Distinct(msgs)
    modifies msgs
    ensures forall i :: 0 <= i < |msgs| ==> msgs[i].resolved == old(msgs[i].resolved) + [Slot([], Some(err))]
  {
    for i := 0 to |msgs|
      invariant forall j :: 0 <= j < i ==> msgs[j].resolved == old(msgs[j].resolved) + [Slot([], Some(err))]
      invariant forall j :: i <= j < |msgs| ==> msgs[j].resolved == old(msgs[j].resolved)
    {
      msgs[i].Resolve([], Some(err));
    }
  }

  method ResolveAll(msgs: seq<CallTask>, elems: array<Elem>)
    requires Distinct(msgs) && elems.Length == |msgs|
    modifies msgs
    ensures forall i :: 0 <= i < |msgs| ==> msgs[i].resolved == old(msgs[i].resolved) + [elems[i].slot]
  {
    for i := 0 to |msgs|
      invariant forall j :: 0 <= j < i ==> msgs[j].resolved == old(msgs[j].resolved) + [elems[j].slot]
      invariant forall j :: i <= j < |msgs| ==> msgs[j].resolved == old(msgs[j].resolved)
    {
      msgs[i].Resolve(elems[i].slot.result, elems[i].slot.err);
    }
  }

  /** batchCalls: every message is resolved exactly once, with its outcome. */
  method BatchCalls(msgs: seq<CallTask>, client: EthClient, node: Node, script: nat -> Attempt,
                    backOff: BackOff, patience: nat)
    requires Distinct(msgs)
    modifies msgs, backOff
    ensures forall i :: 0 <= i < |msgs| ==>
              msgs[i].resolved == old(msgs[i].resolved)
                 + [Outcome(node, client, Requests(msgs), Made(script, Budget(backOff.maxRetries, patience)), i)]
  {
    if |msgs| == 0 { return; }
    var err, elems := SendBatch(msgs, client, node, script, backOff, patience);
    if err != None {
      FailAll(msgs, err.value);
      return;
    }
    ResolveAll(msgs, elems);
  }

  method SendBatch(msgs: seq<CallTask>, client: EthClient, node: Node, script: nat -> Attempt,
                    backOff: BackOff, patience: nat)
    returns (err: Option<Error>, elems: array<Elem>)
    requires msgs != []
    modifies backOff
    ensures fresh(elems) && elems.Length == |msgs|
    ensures forall i :: 0 <= i < |msgs| ==>
              Outcome(node, client, Requests(msgs), Made(script, Budget(backOff.maxRetries, patience)), i)
              == if err.Some? then Slot([], err) else elems[i].slot
  {
    elems := PrepareBatch(msgs);
    err := RetryBatch(node, client.ClientFor(msgs[0].req.block), script, elems, backOff, patience, Requests(msgs));
  }
}
