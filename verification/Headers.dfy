/**
  The headers a gRPC call goes out with: the configured ones, lower-cased by
  metadata.New, overridden by what the caller already put in the outgoing context.
  Both are Go maps, walked in an order the runtime chooses.
*/
module Headers {
  import opened Wrappers
  import opened Hex

  type Config = map<string, string>
  type Metadata = map<string, seq<string>>

  const CLIENT_ID := "x-client-id" // HeaderXClientId
  const CANONICAL_CLIENT_ID := "X-Client-Id"

  /** md[k], which is an empty list for a missing key. */
  function Get(md: Metadata, k: string): seq<string> {
    if k in md then md[k] else []
  }

  /** What metadata.New builds when it meets the names in the given order: it appends under the lower-cased name. */
  function AddAll(order: seq<string>, h: Config): Metadata
    requires forall i :: 0 <= i < |order| ==> order[i] in h
  {
    if order == [] then map[]
    else
      var name := order[|order| - 1];
      var md := AddAll(order[..|order| - 1], h);
      md[Lower(name) := Get(md, Lower(name)) + [h[name]]]
  }

  ghost predicate IsOrder(order: seq<string>, names: set<string>) {
    && (forall i :: 0 <= i < |order| ==> order[i] in names)
    && (forall name :: name in names ==> name in order)
    && (forall i, j :: 0 <= i < j < |order| ==> order[i] != order[j])
  }

  /** The caller's non-empty lists win, everything else is kept. */
  function Merge(md: Metadata, outgoing: Metadata): Metadata {
    map k | k in md.Keys + outgoing.Keys && (k in md || outgoing[k] != []) ::
      if Get(outgoing, k) != [] then outgoing[k] else md[k]
  }

  // ------------------------------------------------- what one order leads to

  /** The values configured for a lower-cased name, in the order of the walk. */
  function ValuesFor(order: seq<string>, h: Config, k: string): seq<string>
    requires forall i :: 0 <= i < |order| ==> order[i] in h
  {
    if order == [] then []
    else
      var name := order[|order| - 1];
      ValuesFor(order[..|order| - 1], h, k) + if Lower(name) == k then [h[name]] else []
  }

  lemma {:induction false} AddAllCollects(order: seq<string>, h: Config, k: string)
    requires forall i :: 0 <= i < |order| ==> order[i] in h
    ensures Get(AddAll(order, h), k) == ValuesFor(order, h, k)
    ensures k in AddAll(order, h) <==> ValuesFor(order, h, k) != []
  {
    if order != [] { AddAllCollects(order[..|order| - 1], h, k); }
  }

  /** Some name of the walk is lower-cased to k and has value v. */
  ghost predicate HasValue(order: seq<string>, h: Config, k: string, v: string) {
    exists i :: 0 <= i < |order| && order[i] in h && Lower(order[i]) == k && h[order[i]] == v
  }

  lemma HasValueSnoc(front: seq<string>, last: string, h: Config, k: string, v: string)
    requires last in h
    ensures HasValue(front + [last], h, k, v) <==> HasValue(front, h, k, v) || (Lower(last) == k && h[last] == v)
  {
    var order := front + [last];
    if HasValue(front, h, k, v) {
      var i :| 0 <= i < |front| && front[i] in h && Lower(front[i]) == k && h[front[i]] == v;
      assert order[i] == front[i];
    }
    assert order[|front|] == last;
  }

  /** The list holds the value of every such name, and no other value. */
  lemma {:induction false} ValuesForAreConfigured(order: seq<string>, h: Config, k: string)
    requires forall i :: 0 <= i < |order| ==> order[i] in h
    ensures forall v :: v in ValuesFor(order, h, k) <==> HasValue(order, h, k, v)
  {
    if order != [] {
      var front, last := order[..|order| - 1], order[|order| - 1];
      ValuesForAreConfigured(front, h, k);
      assert order == front + [last];
      forall v ensures v in ValuesFor(order, h, k) <==> HasValue(order, h, k, v) {
        HasValueSnoc(front, last, h, k, v);
      }
    }
  }

  ghost function Named(names: set<string>, k: string): set<string> {
    set name | name in names && Lower(name) == k
  }

  lemma {:induction false} ValuesForCount(order: seq<string>, names: set<string>, h: Config, k: string)
    requires IsOrder(order, names) && names <= h.Keys
    ensures |ValuesFor(order, h, k)| == |Named(names, k)|
  {
    if order == [] {
      assert Named(names, k) == {};
    } else {
      var last := order[|order| - 1];
      ValuesForCount(order[..|order| - 1], names - {last}, h, k);
      if Lower(last) == k {
        assert Named(names, k) == Named(names - {last}, k) + {last};
      } else {
        assert Named(names, k) == Named(names - {last}, k);
      }
    }
  }

  lemma {:induction false} ValuesForConcat(a: seq<string>, b: seq<string>, h: Config, k: string)
    requires forall i :: 0 <= i < |a| ==> a[i] in h
    requires forall i :: 0 <= i < |b| ==> b[i] in h
    ensures forall i :: 0 <= i < |a + b| ==> (a + b)[i] in h
    ensures ValuesFor(a + b, h, k) == ValuesFor(a, h, k) + ValuesFor(b, h, k)
  {
    if b == [] {
      assert a + b == a;
    } else {
      ValuesForConcat(a, b[..|b| - 1], h, k);
      assert (a + b)[..|a + b| - 1] == a + b[..|b| - 1];
    }
  }

  // ------------------------------------------------------------ main results

  /** Every order the runtime may choose sends the same headers. */
  ghost predicate OrderDoesNotMatter(h: Config, outgoing: Metadata) {
    forall o1, o2 :: IsOrder(o1, h.Keys) && IsOrder(o2, h.Keys) ==>
                       Merge(AddAll(o1, h), outgoing) == Merge(AddAll(o2, h), outgoing)
  }

  /** Names that become one when lower-cased agree on their value, or the caller overrides them. */
  ghost predicate NoConflict(h: Config, outgoing: Metadata) {
    forall a, b, k :: a in h && b in h && IsLowerCaseOf(a, k) && IsLowerCaseOf(b, k) && h[a] != h[b] ==>
                        Get(outgoing, k) != []
  }

  /** The headers sent are independent of map order exactly when no two configured names conflict. */
  lemma OrderDoesNotMatterIffNoConflict(h: Config, outgoing: Metadata)
    ensures OrderDoesNotMatter(h, outgoing) <==> NoConflict(h, outgoing)
  {
    if NoConflict(h, outgoing) {
      forall o1, o2 | IsOrder(o1, h.Keys) && IsOrder(o2, h.Keys)
        ensures Merge(AddAll(o1, h), outgoing) == Merge(AddAll(o2, h), outgoing)
      {
        SameInBothOrders(h, outgoing, o1, o2);
      }
    } else {
      var a, b, k :| a in h && b in h && IsLowerCaseOf(a, k) && IsLowerCaseOf(b, k) && h[a] != h[b]
                     && Get(outgoing, k) == [];
      LowerIsLowerCase(a, k);
      LowerIsLowerCase(b, k);
      ConflictShows(h, outgoing, a, b);
    }
  }

  lemma SameInBothOrders(h: Config, outgoing: Metadata, o1: seq<string>, o2: seq<string>)
    requires NoConflict(h, outgoing) && IsOrder(o1, h.Keys) && IsOrder(o2, h.Keys)
    ensures Merge(AddAll(o1, h), outgoing) == Merge(AddAll(o2, h), outgoing)
  {
    var md1, md2 := AddAll(o1, h), AddAll(o2, h);
    forall k ensures SentAlike(md1, md2, outgoing, k) {
      SameName(h, outgoing, o1, o2, k);
    }
    MergeAlike(md1, md2, outgoing);
  }

  /** The two maps differ under k at most in values the caller overrides. */
  ghost predicate SentAlike(md1: Metadata, md2: Metadata, outgoing: Metadata, k: string) {
    && (k in md1 <==> k in md2)
    && (Get(outgoing, k) == [] ==> Get(md1, k) == Get(md2, k))
  }

  lemma MergeAlike(md1: Metadata, md2: Metadata, outgoing: Metadata)
    requires forall k :: SentAlike(md1, md2, outgoing, k)
    ensures Merge(md1, outgoing) == Merge(md2, outgoing)
  {
    var s1, s2 := Merge(md1, outgoing), Merge(md2, outgoing);
    forall k ensures (k in s1 <==> k in s2) && (k in s1 ==> s1[k] == s2[k]) {
      assert SentAlike(md1, md2, outgoing, k);
    }
  }

  lemma {:induction false} SameName(h: Config, outgoing: Metadata, o1: seq<string>, o2: seq<string>, k: string)
    requires NoConflict(h, outgoing) && IsOrder(o1, h.Keys) && IsOrder(o2, h.Keys)
    ensures SentAlike(AddAll(o1, h), AddAll(o2, h), outgoing, k)
  {
    AddAllCollects(o1, h, k);
    AddAllCollects(o2, h, k);
    ValuesForCount(o1, h.Keys, h, k);
    ValuesForCount(o2, h.Keys, h, k);
    if Get(outgoing, k) == [] { SameValues(h, outgoing, o1, o2, k); }
  }

  lemma OneValue(h: Config, outgoing: Metadata, k: string, v1: string, v2: string, o1: seq<string>, o2: seq<string>)
    requires NoConflict(h, outgoing) && Get(outgoing, k) == []
    requires HasValue(o1, h, k, v1) && HasValue(o2, h, k, v2)
    ensures v1 == v2
  {
    var i :| 0 <= i < |o1| && o1[i] in h && Lower(o1[i]) == k && h[o1[i]] == v1;
    var j :| 0 <= j < |o2| && o2[j] in h && Lower(o2[j]) == k && h[o2[j]] == v2;
    LowerIsLowerCase(o1[i], k);
    LowerIsLowerCase(o2[j], k);
  }

  lemma SameValues(h: Config, outgoing: Metadata, o1: seq<string>, o2: seq<string>, k: string)
    requires NoConflict(h, outgoing) && IsOrder(o1, h.Keys) && IsOrder(o2, h.Keys) && Get(outgoing, k) == []
    ensures ValuesFor(o1, h, k) == ValuesFor(o2, h, k)
  {
    var v1, v2 := ValuesFor(o1, h, k), ValuesFor(o2, h, k);
    ValuesForCount(o1, h.Keys, h, k);
    ValuesForCount(o2, h.Keys, h, k);
    ValuesForAreConfigured(o1, h, k);
    ValuesForAreConfigured(o2, h, k);
    forall i | 0 <= i < |v1| ensures v1[i] == v2[i] {
      assert v1[i] in v1 && v2[i] in v2;
      OneValue(h, outgoing, k, v1[i], v2[i], o1, o2);
    }
  }

  lemma {:induction false} SomeOrder(names: set<string>) returns (order: seq<string>)
    ensures IsOrder(order, names)
  {
    order := [];
    if names != {} {
      var name :| name in names;
      var rest := SomeOrder(names - {name});
      order := rest + [name];
    }
  }

  lemma ConflictShows(h: Config, outgoing: Metadata, a: string, b: string)
    requires a in h && b in h && Lower(a) == Lower(b) && h[a] != h[b] && Get(outgoing, Lower(a)) == []
    ensures !OrderDoesNotMatter(h, outgoing)
  {
    var o1 := OrderStartingWith(h, outgoing, a, b);
    var o2 := OrderStartingWith(h, outgoing, b, a);
    assert Merge(AddAll(o1, h), outgoing)[Lower(a)][0] != Merge(AddAll(o2, h), outgoing)[Lower(a)][0];
  }

  lemma OrderStartingWith(h: Config, outgoing: Metadata, a: string, b: string) returns (order: seq<string>)
    requires a in h && b in h && a != b && Get(outgoing, Lower(a)) == []
    ensures IsOrder(order, h.Keys)
    ensures var sent := Merge(AddAll(order, h), outgoing);
            Lower(a) in sent && |sent[Lower(a)]| > 0 && sent[Lower(a)][0] == h[a]
  {
    var rest := SomeOrder(h.Keys - {a, b});
    order := [a] + ([b] + rest);
    OrderOfPair(h.Keys, a, b, rest);
    FirstSent(a, [b] + rest, h, outgoing);
  }

  lemma OrderOfPair(names: set<string>, a: string, b: string, rest: seq<string>)
    requires a in names && b in names && a != b && IsOrder(rest, names - {a, b})
    ensures IsOrder([a] + ([b] + rest), names)
  {
    var order := [a] + ([b] + rest);
    assert order[0] == a && order[1] == b;
    assert forall i :: 2 <= i < |order| ==> order[i] == rest[i - 2];
    forall name | name in names ensures name in order {
      if name != a && name != b { assert name in rest; }
    }
  }

  /** The first name walked has the first value sent, unless the caller overrides it. */
  lemma FirstSent(name: string, rest: seq<string>, h: Config, outgoing: Metadata)
    requires name in h && (forall i :: 0 <= i < |rest| ==> rest[i] in h) && Get(outgoing, Lower(name)) == []
    ensures forall i :: 0 <= i < |[name] + rest| ==> ([name] + rest)[i] in h
    ensures var sent := Merge(AddAll([name] + rest, h), outgoing);
            Lower(name) in sent && |sent[Lower(name)]| > 0 && sent[Lower(name)][0] == h[name]
  {
    FirstValue(name, rest, h);
    AddAllCollects([name] + rest, h, Lower(name));
  }

  lemma FirstValue(name: string, rest: seq<string>, h: Config)
    requires name in h && forall i :: 0 <= i < |rest| ==> rest[i] in h
    ensures forall i :: 0 <= i < |[name] + rest| ==> ([name] + rest)[i] in h
    ensures var vs := ValuesFor([name] + rest, h, Lower(name)); |vs| > 0 && vs[0] == h[name]
  {
    ValuesForConcat([name], rest, h, Lower(name));
    assert [name][..0] == [];
  }

  /** The configured names that are k in lower case and have value v. */
  ghost function Configured(h: Config, k: string, v: string): set<string> {
    set name | name in h && IsLowerCaseOf(name, k) && h[name] == v
  }

  /**
    What goes out: the caller's non-empty lists as they are; under any other
    name each value as often as it is configured for that name; no empty list.
  */
  ghost predicate IsSent(h: Config, outgoing: Metadata, sent: Metadata) {
    && (forall k :: k in outgoing && outgoing[k] != [] ==> k in sent && sent[k] == outgoing[k])
    && (forall k, v :: (k in outgoing ==> outgoing[k] == []) ==>
          multiset(if k in sent then sent[k] else [])[v] == |Configured(h, k, v)|)
    && (forall k :: k in sent ==> sent[k] != [])
  }

  ghost function NamedWith(names: set<string>, h: Config, k: string, v: string): set<string> {
    set name | name in names && name in h && Lower(name) == k && h[name] == v
  }

  lemma NamedWithStep(names: set<string>, h: Config, k: string, v: string, last: string)
    requires last in names && last in h
    ensures |NamedWith(names, h, k, v)|
            == |NamedWith(names - {last}, h, k, v)| + Count(Lower(last) == k && h[last] == v)
  {
    var those, others := NamedWith(names, h, k, v), NamedWith(names - {last}, h, k, v);
    if Lower(last) == k && h[last] == v {
      assert those == others + {last};
    } else {
      assert those == others;
    }
  }

  lemma ValuesForStep(order: seq<string>, h: Config, k: string, v: string)
    requires order != [] && forall i :: 0 <= i < |order| ==> order[i] in h
    ensures var front, last := order[..|order| - 1], order[|order| - 1];
            multiset(ValuesFor(order, h, k))[v]
            == multiset(ValuesFor(front, h, k))[v] + Count(Lower(last) == k && h[last] == v)
  {
  }

  lemma OrderOfFront(order: seq<string>, names: set<string>)
    requires IsOrder(order, names) && order != []
    ensures order[|order| - 1] in names && IsOrder(order[..|order| - 1], names - {order[|order| - 1]})
  {
    var front, last := order[..|order| - 1], order[|order| - 1];
    forall name | name in names - {last} ensures name in front {
      var i :| 0 <= i < |order| && order[i] == name;
      assert front[i] == name;
    }
  }

  lemma {:induction false} ValuesForMultiset(order: seq<string>, names: set<string>, h: Config, k: string, v: string)
    requires IsOrder(order, names) && names <= h.Keys
    ensures multiset(ValuesFor(order, h, k))[v] == |NamedWith(names, h, k, v)|
  {
    if order == [] {
      assert NamedWith(names, h, k, v) == {};
    } else {
      var last := order[|order| - 1];
      OrderOfFront(order, names);
      ValuesForMultiset(order[..|order| - 1], names - {last}, h, k, v);
      ValuesForStep(order, h, k, v);
      NamedWithStep(names, h, k, v, last);
    }
  }

  /** In every order, and whatever the names and lists, that is what is sent. */
  lemma HeadersSent(h: Config, outgoing: Metadata, order: seq<string>)
    requires IsOrder(order, h.Keys)
    ensures IsSent(h, outgoing, Merge(AddAll(order, h), outgoing))
  {
    var md := AddAll(order, h);
    var sent := Merge(md, outgoing);
    forall k, v | k in outgoing ==> outgoing[k] == []
      ensures multiset(if k in sent then sent[k] else [])[v] == |Configured(h, k, v)|
    {
      AddAllCollects(order, h, k);
      ValuesForMultiset(order, h.Keys, h, k, v);
      ConfiguredNames(h, k, v);
      assert (if k in sent then sent[k] else []) == ValuesFor(order, h, k);
    }
    forall k | k in sent ensures sent[k] != [] {
      AddAllCollects(order, h, k);
    }
  }

  lemma ConfiguredNames(h: Config, k: string, v: string)
    ensures NamedWith(h.Keys, h, k, v) == Configured(h, k, v)
  {
    forall name | name in h ensures Lower(name) == k <==> IsLowerCaseOf(name, k) {
      LowerIsLowerCase(name, k);
    }
  }

  /** So a header whose name no other configured name coincides with goes out alone, unless the caller overrides it. */
  lemma DistinctHeaderGoesAlone(h: Config, outgoing: Metadata, order: seq<string>, name: string, k: string)
    requires IsOrder(order, h.Keys) && name in h && IsLowerCaseOf(name, k) && Get(outgoing, k) == []
    requires forall a :: a in h && IsLowerCaseOf(a, k) ==> a == name
    ensures var sent := Merge(AddAll(order, h), outgoing); k in sent && sent[k] == [h[name]]
  {
    AddAllCollects(order, h, k);
    ValuesForCount(order, h.Keys, h, k);
    forall a | a in h ensures Lower(a) == k <==> a == name {
      LowerIsLowerCase(a, k);
    }
    assert Named(h.Keys, k) == {name};
    ValuesForAreConfigured(order, h, k);
    assert ValuesFor(order, h, k)[0] in ValuesFor(order, h, k);
  }

  lemma ClientIdIsLower()
    ensures Lower(CLIENT_ID) == CLIENT_ID == Lower(CANONICAL_CLIENT_ID)
  {
    assert Lower(CANONICAL_CLIENT_ID) == CLIENT_ID;
  }

  /**
    In every order, and whatever else is configured, the call goes out with a
    client id: the caller's, or the configured one among any others.
  */
  lemma ClientIdIsSent(h: Config, outgoing: Metadata, order: seq<string>)
    requires IsOrder(order, h.Keys) && CLIENT_ID in h
    ensures var sent := Merge(AddAll(order, h), outgoing);
            && CLIENT_ID in sent
            && if Get(outgoing, CLIENT_ID) != [] then sent[CLIENT_ID] == outgoing[CLIENT_ID]
               else h[CLIENT_ID] in sent[CLIENT_ID]
  {
    ClientIdIsLower();
    AddAllCollects(order, h, CLIENT_ID);
    ValuesForAreConfigured(order, h, CLIENT_ID);
    var i :| 0 <= i < |order| && order[i] == CLIENT_ID;
    assert HasValue(order, h, CLIENT_ID, h[CLIENT_ID]);
  }

  /** The canonical spelling of the header name in a config conflicts with the configured client id. */
  lemma CanonicalClientIdConflicts(h: Config, outgoing: Metadata)
    requires CLIENT_ID in h && CANONICAL_CLIENT_ID in h && h[CANONICAL_CLIENT_ID] != h[CLIENT_ID]
    requires Get(outgoing, CLIENT_ID) == []
    ensures !OrderDoesNotMatter(h, outgoing)
  {
    ClientIdIsLower();
    LowerIsLowerCase(CLIENT_ID, CLIENT_ID);
    LowerIsLowerCase(CANONICAL_CLIENT_ID, CLIENT_ID);
    OrderDoesNotMatterIffNoConflict(h, outgoing);
  }

  // -------------------------------------------------------------- the Go code

  /** metadata.New: it walks the names in some order of the runtime's choosing. */
  method MetadataNew(h: Config) returns (md: Metadata)
    ensures exists order :: IsOrder(order, h.Keys) && md == AddAll(order, h)
  {
    md := map[];
    ghost var order: seq<string> := [];
    var rest := h.Keys;
    while rest != {}
      invariant rest <= h.Keys
      invariant IsOrder(order, h.Keys - rest) && md == AddAll(order, h)
      decreases rest
    {
      var name :| name in rest;
      rest := rest - {name};
      md := md[Lower(name) := Get(md, Lower(name)) + [h[name]]];
      assert (order + [name])[..|order|] == order;
      order := order + [name];
    }
  }

  /** RequestHeadersInterceptor; `outgoing` is what FromOutgoingContext returns, whose keys are lower-case. */
  method RequestHeadersInterceptor(h: Config, outgoing: Metadata) returns (sent: Metadata)
    requires forall k :: k in outgoing ==> IsLowerCaseOf(k, k)
    ensures IsSent(h, outgoing, sent)
    ensures exists order :: IsOrder(order, h.Keys) && sent == Merge(AddAll(order, h), outgoing)
  {
    sent := MetadataNew(h);
    ghost var md := sent;
    var rest := outgoing.Keys;
    assert outgoing - rest == map[];
    while rest != {}
      invariant rest <= outgoing.Keys
      invariant sent == Merge(md, outgoing - rest)
      decreases rest
    {
      var k :| k in rest;
      MergeOne(md, outgoing - rest, k, outgoing[k]);
      assert outgoing - (rest - {k}) == (outgoing - rest)[k := outgoing[k]];
      rest := rest - {k};
      LowerIsLowerCase(k, k);
      if outgoing[k] != [] { // md.Set ignores an empty list
        sent := sent[Lower(k) := outgoing[k]];
      }
    }
    assert outgoing - {} == outgoing;
    ghost var order :| IsOrder(order, h.Keys) && md == AddAll(order, h);
    HeadersSent(h, outgoing, order);
  }

  lemma MergeOne(md: Metadata, seen: Metadata, k: string, values: seq<string>)
    requires k !in seen
    ensures Merge(md, seen[k := values]) == if values == [] then Merge(md, seen) else Merge(md, seen)[k := values]
  {
  }

  class ClientConfig {
    var headers: Option<Config>
    var clientID: string

    constructor (headers: Option<Config>, clientID: string)
      ensures this.headers == headers && this.clientID == clientID
    {
      this.headers, this.clientID := headers, clientID;
    }

    /** requestHeaders; serviceClientId is what GetServiceClientId finds. */
    method RequestHeaders(serviceClientId: string) returns (h: Config)
      modifies this
      ensures headers == Some(h) && CLIENT_ID in h
      ensures clientID == (if old(clientID) == "" then serviceClientId else old(clientID)) == h[CLIENT_ID]
      ensures h - {CLIENT_ID} == (if old(headers).Some? then old(headers).value else map[]) - {CLIENT_ID}
    {
      if headers == None { headers := Some(map[]); }
      if clientID == "" { clientID := serviceClientId; }
      headers := Some(headers.value[CLIENT_ID := clientID]);
      h := headers.value;
    }
  }
}
