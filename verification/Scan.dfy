/** Walking a Redis SCAN cursor, and splitting HSCAN replies into field names and values on the server. */
module Scan {
  import opened Wrappers

  type Cursor = c: int | 0 <= c < 0x1_0000_0000_0000_0000

  datatype Err = RedisNil | Message(text: string) | Wrapping(text: string, inner: Err)

  /** errors.Is(err, redis.Nil) */
  predicate IsNil(e: Err) {
    e.RedisNil? || (e.Wrapping? && IsNil(e.inner))
  }

  /** However often an error has been wrapped, it is the innermost one that counts. */
  function Wrapped(texts: seq<string>, e: Err): Err {
    if texts == [] then e else Wrapping(texts[0], Wrapped(texts[1..], e))
  }

  lemma {:induction false} IsNilIffInnermostIs(texts: seq<string>, e: Err)
    requires !e.Wrapping?
    ensures IsNil(Wrapped(texts, e)) <==> e == RedisNil
  {
    if texts != [] { IsNilIffInnermostIs(texts[1..], e); }
  }

  datatype Reply = Reply(keys: seq<string>, cursor: Cursor, err: Option<Err>)

  /** What the server answers to the k-th call, made with a given cursor: it may change from call to call. */
  type ScanFn = (nat, Cursor) -> Reply

  // -------------------------------------------------- the chain a scan follows

  /** The cursor of call k: zero first, then always the one the previous reply gave. */
  function CursorAt(scan: ScanFn, k: nat): Cursor {
    if k == 0 then 0 else scan(k - 1, CursorAt(scan, k - 1)).cursor
  }

  function ReplyAt(scan: ScanFn, k: nat): Reply {
    scan(k, CursorAt(scan, k))
  }

  predicate Stops(scan: ScanFn, k: nat) {
    ReplyAt(scan, k).err.Some? || ReplyAt(scan, k).cursor == 0
  }

  /** The first call at or before `within` that stops the chain. */
  function FirstStop(scan: ScanFn, within: nat): (n: nat)
    requires Stops(scan, within)
    ensures n <= within && Stops(scan, n) && forall k :: 0 <= k < n ==> !Stops(scan, k)
  {
    FirstStopFrom(scan, 0, within)
  }

  function FirstStopFrom(scan: ScanFn, from: nat, within: nat): (n: nat)
    requires from <= within && Stops(scan, within)
    ensures from <= n <= within && Stops(scan, n) && forall k :: from <= k < n ==> !Stops(scan, k)
    decreases within - from
  {
    if Stops(scan, from) then from else FirstStopFrom(scan, from + 1, within)
  }

  function Pages(scan: ScanFn, n: nat): (pages: seq<seq<string>>)
    ensures |pages| == n && forall k :: 0 <= k < n ==> pages[k] == ReplyAt(scan, k).keys
  {
    seq(n, k requires 0 <= k < n => ReplyAt(scan, k).keys)
  }

  /** The pages before the stop, and the page that brings cursor zero. */
  function Delivered(scan: ScanFn, within: nat): seq<seq<string>>
    requires Stops(scan, within)
  {
    var n := FirstStop(scan, within);
    Pages(scan, if ReplyAt(scan, n).err.Some? then n else n + 1)
  }

  /** The error the scan returns: none for redis.Nil. */
  function Returned(scan: ScanFn, within: nat): Option<Err>
    requires Stops(scan, within)
  {
    var err := ReplyAt(scan, FirstStop(scan, within)).err;
    if err.Some? && IsNil(err.value) then None else err
  }

  /**
    PaginateScanCmd on a chain that stops; `delivered` is what the callback is
    called with, in order, and `replies` what the scan function answered. The
    first call has cursor zero, each later one the cursor of the reply before.
    All but the last reply have no error and another cursor than zero.
  */
  method PaginateScanCmd(scan: ScanFn, ghost within: nat)
    returns (delivered: seq<seq<string>>, err: Option<Err>, ghost replies: seq<Reply>)
    requires Stops(scan, within)
    ensures replies != []
    ensures forall k :: 0 <= k < |replies| ==>
              replies[k] == scan(k, if k == 0 then 0 else replies[k - 1].cursor)
    ensures forall k :: 0 <= k < |replies| - 1 ==> replies[k].err.None? && replies[k].cursor != 0
    ensures var last := replies[|replies| - 1];
            && (last.err.None? ==> last.cursor == 0)
            && |delivered| == |replies| - Count(last.err.Some?)
            && (forall k :: 0 <= k < |delivered| ==> delivered[k] == replies[k].keys)
            && err == if last.err.Some? && !IsNil(last.err.value) then last.err else None
    ensures delivered == Delivered(scan, within) && err == Returned(scan, within)
  {
    delivered, err, replies := [], None, [];
    var cursor: Cursor := 0;
    var calls := 0;
    while true
      invariant calls == |replies| == |delivered| <= within
      invariant forall k :: 0 <= k < calls ==> replies[k] == ReplyAt(scan, k) && !Stops(scan, k)
      invariant cursor == CursorAt(scan, calls)
      invariant delivered == Pages(scan, calls)
      decreases within - calls
    {
      var reply := scan(calls, cursor);
      replies := replies + [reply];
      RepliesFollow(scan, replies);
      cursor, err := reply.cursor, reply.err;
      if Stops(scan, calls) { FirstStopIsUnique(scan, within, calls); }
      if err != None {
        if IsNil(err.value) { err := None; }
        return;
      }
      delivered := delivered + [reply.keys];
      if cursor == 0 { return; }
      calls := calls + 1;
    }
  }

  lemma RepliesFollow(scan: ScanFn, replies: seq<Reply>)
    requires forall k :: 0 <= k < |replies| ==> replies[k] == ReplyAt(scan, k)
    ensures forall k :: 0 <= k < |replies| ==>
              replies[k] == scan(k, if k == 0 then 0 else replies[k - 1].cursor)
  {
    forall k | 0 < k < |replies| ensures CursorAt(scan, k) == replies[k - 1].cursor {
      assert replies[k - 1] == ReplyAt(scan, k - 1);
    }
  }

  // --------------------------------------------------------------- splitting

  /** The field names of a flat HSCAN reply: the 1st, 3rd, ... entry. */
  function KeysOf(flat: seq<string>): (keys: seq<string>)
    ensures |keys| == (|flat| + 1) / 2 && forall j :: 0 <= j < |keys| ==> keys[j] == flat[2 * j]
  {
    seq((|flat| + 1) / 2, j requires 0 <= j < (|flat| + 1) / 2 => flat[2 * j])
  }

  /** The values: the 2nd, 4th, ... entry. */
  function ValuesOf(flat: seq<string>): (values: seq<string>)
    ensures |values| == |flat| / 2 && forall j :: 0 <= j < |values| ==> values[j] == flat[2 * j + 1]
  {
    seq(|flat| / 2, j requires 0 <= j < |flat| / 2 => flat[2 * j + 1])
  }

  /** The Lua loop of LuaHscanOnlyKeys; Lua counts from one. */
  method LuaHscanOnlyKeys(flat: seq<string>) returns (results: seq<string>)
    ensures results == KeysOf(flat)
  {
    results := [];
    var i := 1;
    while i <= |flat|
      invariant i == 2 * |results| + 1 && |results| <= |KeysOf(flat)|
      invariant results == KeysOf(flat)[..|results|]
    {
      results := results + [flat[i - 1]];
      i := i + 2;
    }
  }

  method LuaHscanOnlyValues(flat: seq<string>) returns (results: seq<string>)
    ensures results == ValuesOf(flat)
  {
    results := [];
    var i := 2;
    while i <= |flat|
      invariant i == 2 * |results| + 2 && |results| <= |ValuesOf(flat)|
      invariant results == ValuesOf(flat)[..|results|]
    {
      results := results + [flat[i - 1]];
      i := i + 2;
    }
  }

  /** HscanOnlyKeys and HscanOnlyValues as scans: same cursors and errors, split pages. */
  function KeysScan(raw: ScanFn): ScanFn {
    (k: nat, c: Cursor) => raw(k, c).(keys := KeysOf(raw(k, c).keys))
  }

  function ValuesScan(raw: ScanFn): ScanFn {
    (k: nat, c: Cursor) => raw(k, c).(keys := ValuesOf(raw(k, c).keys))
  }

  function Flatten(pages: seq<seq<string>>): seq<string> {
    if pages == [] then [] else Flatten(pages[..|pages| - 1]) + pages[|pages| - 1]
  }

  function Interleave(keys: seq<string>, values: seq<string>): (flat: seq<string>)
    requires |keys| == |values|
    ensures |flat| == 2 * |keys|
    ensures forall i :: 0 <= i < |flat| ==> flat[i] == if i % 2 == 0 then keys[i / 2] else values[i / 2]
  {
    seq(2 * |keys|, i requires 0 <= i < 2 * |keys| => if i % 2 == 0 then keys[i / 2] else values[i / 2])
  }

  ghost predicate AllEven(pages: seq<seq<string>>) {
    forall k :: 0 <= k < |pages| ==> |pages[k]| % 2 == 0
  }

  /** Splitting leaves the chain alone: same cursors, same stop, same returned error, page by page split. */
  lemma {:induction false} SplitFollowsSameChain(raw: ScanFn, k: nat)
    ensures CursorAt(KeysScan(raw), k) == CursorAt(raw, k) == CursorAt(ValuesScan(raw), k)
    ensures ReplyAt(KeysScan(raw), k) == ReplyAt(raw, k).(keys := KeysOf(ReplyAt(raw, k).keys))
    ensures ReplyAt(ValuesScan(raw), k) == ReplyAt(raw, k).(keys := ValuesOf(ReplyAt(raw, k).keys))
  {
    if k > 0 { SplitFollowsSameChain(raw, k - 1); }
  }

  lemma FirstStopIsUnique(scan: ScanFn, within: nat, n: nat)
    requires Stops(scan, within) && n <= within && Stops(scan, n) && forall k :: 0 <= k < n ==> !Stops(scan, k)
    ensures FirstStop(scan, within) == n
  {
  }

  lemma SplitStopsAlike(raw: ScanFn, within: nat)
    requires Stops(raw, within)
    ensures Stops(KeysScan(raw), within) && Stops(ValuesScan(raw), within)
    ensures FirstStop(KeysScan(raw), within) == FirstStop(raw, within) == FirstStop(ValuesScan(raw), within)
  {
    forall k: nat | k <= within
      ensures Stops(KeysScan(raw), k) == Stops(raw, k) == Stops(ValuesScan(raw), k)
    {
      SplitFollowsSameChain(raw, k);
    }
    FirstStopIsUnique(KeysScan(raw), within, FirstStop(raw, within));
    FirstStopIsUnique(ValuesScan(raw), within, FirstStop(raw, within));
  }

  lemma SplitDelivers(raw: ScanFn, within: nat)
    requires Stops(raw, within)
    ensures Stops(KeysScan(raw), within) && Stops(ValuesScan(raw), within)
    ensures Returned(KeysScan(raw), within) == Returned(raw, within) == Returned(ValuesScan(raw), within)
    ensures var pages := Delivered(raw, within);
            var ks, vs := Delivered(KeysScan(raw), within), Delivered(ValuesScan(raw), within);
            && |pages| == |ks| == |vs|
            && forall k :: 0 <= k < |pages| ==> ks[k] == KeysOf(pages[k]) && vs[k] == ValuesOf(pages[k])
  {
    SplitStopsAlike(raw, within);
    SplitFollowsSameChain(raw, FirstStop(raw, within));
    var pages := Delivered(raw, within);
    forall k | 0 <= k < |pages|
      ensures Delivered(KeysScan(raw), within)[k] == KeysOf(pages[k])
      ensures Delivered(ValuesScan(raw), within)[k] == ValuesOf(pages[k])
    {
      SplitFollowsSameChain(raw, k);
    }
  }

  lemma InterleaveSplit(flat: seq<string>)
    requires |flat| % 2 == 0
    ensures Interleave(KeysOf(flat), ValuesOf(flat)) == flat
  {
    var whole := Interleave(KeysOf(flat), ValuesOf(flat));
    forall i | 0 <= i < |flat| ensures whole[i] == flat[i] {
      HalfOf(i);
    }
  }

  lemma HalfOf(i: nat)
    ensures i == if i % 2 == 0 then 2 * (i / 2) else 2 * (i / 2) + 1
  {
  }

  lemma InterleaveConcat(k1: seq<string>, v1: seq<string>, k2: seq<string>, v2: seq<string>)
    requires |k1| == |v1| && |k2| == |v2|
    ensures Interleave(k1 + k2, v1 + v2) == Interleave(k1, v1) + Interleave(k2, v2)
  {
    var whole, parts := Interleave(k1 + k2, v1 + v2), Interleave(k1, v1) + Interleave(k2, v2);
    forall i | 0 <= i < |whole| ensures whole[i] == parts[i] {
      if i >= 2 * |k1| { HalfAfter(i, |k1|); }
    }
  }

  lemma HalfAfter(i: nat, n: nat)
    requires i >= 2 * n
    ensures (i - 2 * n) % 2 == i % 2 && (i - 2 * n) / 2 == i / 2 - n
  {
  }

  /** Page by page and over the whole: even pages rejoin, and only they split into equally many keys and values. */
  lemma {:induction false} SplitPagesRejoin(pages: seq<seq<string>>, ks: seq<seq<string>>, vs: seq<seq<string>>)
    requires |pages| == |ks| == |vs|
    requires forall k :: 0 <= k < |pages| ==> ks[k] == KeysOf(pages[k]) && vs[k] == ValuesOf(pages[k])
    ensures |Flatten(ks)| >= |Flatten(vs)|
    ensures |Flatten(ks)| == |Flatten(vs)| <==> AllEven(pages)
    ensures AllEven(pages) ==> Interleave(Flatten(ks), Flatten(vs)) == Flatten(pages)
  {
    if pages != [] {
      var n := |pages| - 1;
      SplitPagesRejoin(pages[..n], ks[..n], vs[..n]);
      assert AllEven(pages) <==> AllEven(pages[..n]) && |pages[n]| % 2 == 0 by {
        assert forall k :: 0 <= k < n ==> pages[k] == pages[..n][k];
      }
      if AllEven(pages) {
        InterleaveSplit(pages[n]);
        InterleaveConcat(Flatten(ks[..n]), Flatten(vs[..n]), ks[n], vs[n]);
      }
    }
  }

  /**
    Splitting on the server commutes with paging: the keys scan and the values
    scan of one chain return the same error; they deliver equally many entries
    exactly when every reply was of even length, and then interleave back to
    everything the server sent.
  */
  lemma SplittingCommutesWithPaging(raw: ScanFn, within: nat)
    requires Stops(raw, within)
    ensures Stops(KeysScan(raw), within) && Stops(ValuesScan(raw), within)
    ensures Returned(KeysScan(raw), within) == Returned(raw, within) == Returned(ValuesScan(raw), within)
    ensures var pages := Delivered(raw, within);
            var keys, values := Flatten(Delivered(KeysScan(raw), within)), Flatten(Delivered(ValuesScan(raw), within));
            && (|keys| == |values| <==> AllEven(pages))
            && (AllEven(pages) ==> Interleave(keys, values) == Flatten(pages))
  {
    SplitDelivers(raw, within);
    SplitPagesRejoin(Delivered(raw, within), Delivered(KeysScan(raw), within), Delivered(ValuesScan(raw), within));
  }
}
