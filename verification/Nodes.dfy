/** Node labels (api/types/server.go). */
module NodeLabels {

  type Labels = map<string, string>

  datatype CommandLabel = CommandLabel(result: string)

  datatype Node = Node(name: string, fixed: Labels, dynamic: map<string, CommandLabel>)

  function Results(dynamic: map<string, CommandLabel>): Labels {
    map k | k in dynamic :: dynamic[k].result
  }

  /** All labels of a node; a command label hides a static one with the same key. */
  function AllLabels(n: Node): Labels {
    n.fixed + Results(n.dynamic)
  }

  /** One pass over a map, whatever order its keys come in. */
  method Override(lmap: Labels, more: Labels) returns (lmap': Labels)
    ensures lmap' == lmap + more
  {
    lmap' := lmap;
    var todo := more.Keys;
    while todo != {}
      invariant todo <= more.Keys
      invariant lmap'.Keys == lmap.Keys + (more.Keys - todo)
      invariant forall k :: k in lmap' ==> lmap'[k] == if k in more && k !in todo then more[k] else lmap[k]
      decreases |todo|
    {
      var key :| key in todo;
      lmap' := lmap'[key := more[key]];
      todo := todo - {key};
    }
  }

  method CombineLabels(fixed: Labels, dynamic: map<string, CommandLabel>) returns (lmap: Labels)
    ensures forall k :: k in lmap <==> k in fixed || k in dynamic
    ensures forall k :: k in lmap ==> lmap[k] == if k in dynamic then dynamic[k].result else fixed[k]
    ensures lmap == fixed + Results(dynamic)
  {
    lmap := Override(map[], fixed);
    lmap := Override(lmap, Results(dynamic));
  }

  /** Reading a missing key of a Go map gives the empty string. */
  function Get(m: Labels, key: string): string {
    if key in m then m[key] else ""
  }

  ghost predicate Matches(n: Node, labels: Labels) {
    forall k :: k in labels ==> Get(AllLabels(n), k) == labels[k]
  }

  method MatchAgainst(n: Node, labels: Labels) returns (b: bool)
    ensures b <==> Matches(n, labels)
    ensures b <==> forall k :: k in labels ==>
              labels[k] == if k in n.dynamic then n.dynamic[k].result else if k in n.fixed then n.fixed[k] else ""
  {
    MatchesMeans(n, labels);
    var mine := CombineLabels(n.fixed, n.dynamic);
    var todo := labels.Keys;
    while todo != {}
      invariant todo <= labels.Keys
      invariant forall k :: k in labels && k !in todo ==> Get(mine, k) == labels[k]
      decreases |todo|
    {
      var key :| key in todo;
      if Get(mine, key) != labels[key] {
        return false;
      }
      todo := todo - {key};
    }
    return true;
  }

  /** A node's value for a label is that of its command label, else its static one, else empty. */
  lemma MatchesMeans(n: Node, labels: Labels)
    ensures Matches(n, labels) <==>
              forall k :: k in labels ==>
                labels[k] == if k in n.dynamic then n.dynamic[k].result else if k in n.fixed then n.fixed[k] else ""
  {
    assert forall k :: Get(AllLabels(n), k) == if k in n.dynamic then n.dynamic[k].result else if k in n.fixed then n.fixed[k] else "";
  }

  /** The documented meaning: the node has every one of the labels. */
  ghost predicate HasAll(n: Node, labels: Labels) {
    forall k :: k in labels ==> k in AllLabels(n) && AllLabels(n)[k] == labels[k]
  }

  /** Matching is having all the labels, except that an absent key passes for an empty value. */
  lemma MatchesVersusHasAll(n: Node, labels: Labels)
    ensures HasAll(n, labels) <==> forall k :: k in labels ==>
              (k in n.dynamic && n.dynamic[k].result == labels[k]) || (k !in n.dynamic && k in n.fixed && n.fixed[k] == labels[k])
    ensures HasAll(n, labels) <==> Matches(n, labels) && forall k :: k in labels && labels[k] == "" ==> k in AllLabels(n)
    ensures !HasAll(Node("n", map[], map[]), map["env" := ""]) && Matches(Node("n", map[], map[]), map["env" := ""])
  {
    var empty := map["env" := ""];
    assert "env" in empty && "env" !in AllLabels(Node("n", map[], map[]));
  }
}

/** `GetNodesWithLabels` against a paginated server (api/client/client.go). */
module NodePagination {
  import opened NodeLabels

  /** api/defaults/defaults.go */
  const DEFAULT_CHUNK_SIZE := 1000

  datatype Request = Request(limit: int, startKey: string)

  datatype Response = Page(nodes: seq<Node>, nextKey: string) | LimitExceeded | Failure(err: string)

  /** A server may answer the same request differently at different times, so its answer also
      depends on the number of the call. */
  type Server = (nat, Request) -> Response

  datatype Result = Nodes(nodes: seq<Node>) | TooLarge | Failed(err: string)

  datatype Call = Call(request: Request, response: Response)

  ghost function Filter(nodes: seq<Node>, labels: Labels): seq<Node> {
    if nodes == [] then []
    else Filter(nodes[..|nodes| - 1], labels) + if Matches(nodes[|nodes| - 1], labels) then nodes[|nodes| - 1..] else []
  }

  lemma FilterStep(nodes: seq<Node>, node: Node, labels: Labels)
    ensures Filter(nodes + [node], labels) == Filter(nodes, labels) + if Matches(node, labels) then [node] else []
  {
    assert (nodes + [node])[..|nodes|] == nodes;
  }

  lemma {:induction false} FilterConcat(a: seq<Node>, b: seq<Node>, labels: Labels)
    ensures Filter(a + b, labels) == Filter(a, labels) + Filter(b, labels)
    decreases |b|
  {
    hide Matches;
    if b == [] {
      assert a + b == a;
    } else {
      var n := |b| - 1;
      FilterConcat(a, b[..n], labels);
      hide Filter;
      FilterStep(b[..n], b[n], labels);
      FilterStep(a + b[..n], b[n], labels);
      assert b == b[..n] + [b[n]];
      assert a + b == a + b[..n] + [b[n]];
      var last := if Matches(b[n], labels) then [b[n]] else [];
      assert Filter(a, labels) + Filter(b[..n], labels) + last == Filter(a, labels) + (Filter(b[..n], labels) + last);
    }
  }

  lemma {:induction false} FilterIdempotent(nodes: seq<Node>, labels: Labels)
    ensures Filter(Filter(nodes, labels), labels) == Filter(nodes, labels)
  {
    hide Matches;
    if nodes != [] {
      var n := |nodes| - 1;
      FilterIdempotent(nodes[..n], labels);
      assert nodes[n..] == [nodes[n]];
      if Matches(nodes[n], labels) {
        FilterStep(Filter(nodes[..n], labels), nodes[n], labels);
      } else {
        assert Filter(nodes, labels) == Filter(nodes[..n], labels);
      }
    }
  }

  // ---- what a paginated server promises ----

  /** The full list, and the pagination key of each position in it, one past the end included. */
  datatype Listing = Listing(all: seq<Node>, keys: seq<string>)

  ghost predicate ValidListing(l: Listing) {
    && |l.keys| == |l.all| + 1
    && l.keys[0] == ""
    && (forall p, q :: 0 <= p < q < |l.keys| ==> l.keys[p] != l.keys[q])
  }

  /** A page shows the window as it is, or filtered by the server. */
  ghost predicate Shows(nodes: seq<Node>, window: seq<Node>, labels: Labels) {
    nodes == window || nodes == Filter(window, labels)
  }

  /** A server answers a request at position `p` with an error, with the rest of the list and no
      next key, or with some non-empty window that starts there and the key of its end. */
  ghost predicate Answers(l: Listing, labels: Labels, p: nat, response: Response)
    requires ValidListing(l) && p <= |l.all|
  {
    match response
    case LimitExceeded => true
    case Failure(_) => true
    case Page(nodes, nextKey) =>
      if nextKey == "" then Shows(nodes, l.all[p..], labels)
      else exists q :: p < q <= |l.all| && l.keys[q] == nextKey && Shows(nodes, l.all[p..q], labels)
  }

  ghost predicate Conforms(server: Server, l: Listing, labels: Labels)
    requires ValidListing(l)
  {
    forall n: nat, limit, p :: limit > 0 && 0 <= p <= |l.all| ==> Answers(l, labels, p, server(n, Request(limit, l.keys[p])))
  }

  // ---- the client ----

  function Rejections(calls: seq<Call>): nat {
    if calls == [] then 0
    else Rejections(calls[..|calls| - 1]) + if calls[|calls| - 1].response.LimitExceeded? then 1 else 0
  }

  /** The page size after some rejections. */
  function ChunkAfter(rejections: nat): nat {
    if rejections == 0 then DEFAULT_CHUNK_SIZE else ChunkAfter(rejections - 1) / 2
  }

  /** 1000, 500, 250, 125, 62, 31, 15, 7, 3, 1 and then nothing. */
  lemma ChunkRunsOut(r: nat)
    ensures ChunkAfter(0) == 1000 && ChunkAfter(1) == 500 && ChunkAfter(2) == 250 && ChunkAfter(3) == 125 && ChunkAfter(4) == 62
    ensures ChunkAfter(5) == 31 && ChunkAfter(6) == 15 && ChunkAfter(7) == 7 && ChunkAfter(8) == 3 && ChunkAfter(9) == 1
    ensures ChunkAfter(r) > 0 <==> r < 10
    ensures ChunkAfter(r + 1) == ChunkAfter(r) / 2
    ensures ChunkAfter(r + 1) == 0 && ChunkAfter(r) > 0 ==> r == 9 && ChunkAfter(r) == 1
  {
    assert ChunkAfter(3) == 125;
    assert ChunkAfter(6) == 15;
    assert ChunkAfter(9) == 1;
    assert ChunkAfter(10) == 0;
    if r < 9 {
      ChunkDecreases(r + 1, 9);
    } else {
      ChunkDecreases(9, r);
      if r > 9 { ChunkDecreases(10, r); }
    }
  }

  lemma {:induction false} ChunkDecreases(a: nat, b: nat)
    requires a <= b
    ensures ChunkAfter(b) <= ChunkAfter(a)
    decreases b
  {
    if a < b { ChunkDecreases(a, b - 1); }
  }

  lemma RejectionsStep(calls: seq<Call>, call: Call)
    ensures Rejections(calls + [call]) == Rejections(calls) + if call.response.LimitExceeded? then 1 else 0
  {
    assert (calls + [call])[..|calls|] == calls;
  }

  /** The log of an honest run: call `i` was answered by the server, at the page size left by the
      rejections before it. */
  ghost predicate HonestLog(server: Server, calls: seq<Call>) {
    forall i :: 0 <= i < |calls| ==>
      && calls[i].response == server(i, calls[i].request)
      && calls[i].request.limit == ChunkAfter(Rejections(calls[..i]))
  }

  lemma HonestStep(server: Server, calls: seq<Call>, call: Call)
    requires HonestLog(server, calls)
    requires call.response == server(|calls|, call.request) && call.request.limit == ChunkAfter(Rejections(calls))
    ensures HonestLog(server, calls + [call])
  {
    forall i | 0 <= i < |calls + [call]|
      ensures (calls + [call])[i].response == server(i, (calls + [call])[i].request)
      ensures (calls + [call])[i].request.limit == ChunkAfter(Rejections((calls + [call])[..i]))
    {
      if i < |calls| {
        assert (calls + [call])[..i] == calls[..i];
      } else {
        assert (calls + [call])[..i] == calls;
      }
    }
  }

  /** Client-side filtering of one page. */
  method FilterPage(page: seq<Node>, labels: Labels, nodes: seq<Node>) returns (nodes': seq<Node>)
    ensures nodes' == nodes + Filter(page, labels)
  {
    nodes' := nodes;
    for i := 0 to |page|
      invariant nodes' == nodes + Filter(page[..i], labels)
    {
      var matched := MatchAgainst(page[i], labels);
      if matched {
        nodes' := nodes' + [page[i]];
      }
      FilterStep(page[..i], page[i], labels);
      assert page[..i + 1] == page[..i] + [page[i]];
    }
    assert page[..|page|] == page;
  }

  lemma ShownFilters(nodes: seq<Node>, window: seq<Node>, labels: Labels)
    requires Shows(nodes, window, labels)
    ensures Filter(nodes, labels) == Filter(window, labels)
  {
    FilterIdempotent(window, labels);
  }

  /** The window that a page stands for, and what filtering the page on the client adds. */
  lemma PageWindow(server: Server, l: Listing, labels: Labels, n: nat, limit: int, p: nat) returns (q: nat)
    requires ValidListing(l) && Conforms(server, l, labels) && limit > 0 && p <= |l.all|
    requires server(n, Request(limit, l.keys[p])).Page?
    ensures p <= q <= |l.all|
    ensures var page := server(n, Request(limit, l.keys[p]));
            && (if page.nextKey == "" then q == |l.all| else p < q && l.keys[q] == page.nextKey)
            && Filter(l.all[..q], labels) == Filter(l.all[..p], labels) + Filter(page.nodes, labels)
  {
    hide Filter;
    var page := server(n, Request(limit, l.keys[p]));
    assert Answers(l, labels, p, page);
    q := |l.all|;
    if page.nextKey != "" {
      q :| p < q <= |l.all| && l.keys[q] == page.nextKey && Shows(page.nodes, l.all[p..q], labels);
    }
    assert q == |l.all| ==> l.all[p..] == l.all[p..q];
    ShownFilters(page.nodes, l.all[p..q], labels);
    FilterConcat(l.all[..p], l.all[p..q], labels);
    assert l.all[..p] + l.all[p..q] == l.all[..q];
  }

  /** The loop has collected the matches before position `p` and is about to ask for what follows. */
  ghost predicate AtPosition(server: Server, l: Listing, labels: Labels, p: nat,
                             startKey: string, chunkSize: int, nodes: seq<Node>, calls: seq<Call>)
    requires ValidListing(l)
  {
    && p <= |l.all| && startKey == l.keys[p]
    && nodes == Filter(l.all[..p], labels)
    && HonestLog(server, calls)
    && chunkSize == ChunkAfter(Rejections(calls)) > 0
    && |calls| <= p + Rejections(calls)
  }

  /** What every further call adds to the log. */
  lemma Logged(server: Server, l: Listing, labels: Labels, p: nat, startKey: string, chunkSize: int, nodes: seq<Node>,
               calls: seq<Call>, call: Call)
    requires ValidListing(l) && AtPosition(server, l, labels, p, startKey, chunkSize, nodes, calls)
    requires call.request == Request(chunkSize, startKey) && call.response == server(|calls|, call.request)
    ensures HonestLog(server, calls + [call])
    ensures Rejections(calls) <= 9
    ensures Rejections(calls + [call]) == Rejections(calls) + if call.response.LimitExceeded? then 1 else 0
    ensures |calls + [call]| <= |l.all| + 11
  {
    hide Filter, HonestLog;
    ChunkRunsOut(Rejections(calls));
    HonestStep(server, calls, call);
    RejectionsStep(calls, call);
  }

  lemma AfterRejection(server: Server, l: Listing, labels: Labels, p: nat, startKey: string, chunkSize: int, nodes: seq<Node>,
                       calls: seq<Call>, call: Call)
    requires ValidListing(l) && AtPosition(server, l, labels, p, startKey, chunkSize, nodes, calls)
    requires call.request == Request(chunkSize, startKey) && call.response == server(|calls|, call.request) == LimitExceeded
    ensures if chunkSize / 2 == 0 then chunkSize == 1
            else AtPosition(server, l, labels, p, startKey, chunkSize / 2, nodes, calls + [call])
  {
    hide Filter, HonestLog;
    Logged(server, l, labels, p, startKey, chunkSize, nodes, calls, call);
    ChunkRunsOut(Rejections(calls));
  }

  lemma AfterPage(server: Server, l: Listing, labels: Labels, p: nat, startKey: string, chunkSize: int, nodes: seq<Node>,
                  calls: seq<Call>, call: Call) returns (q: nat)
    requires ValidListing(l) && Conforms(server, l, labels)
    requires AtPosition(server, l, labels, p, startKey, chunkSize, nodes, calls)
    requires call.request == Request(chunkSize, startKey) && call.response == server(|calls|, call.request) && call.response.Page?
    ensures var nodes' := nodes + Filter(call.response.nodes, labels);
            if call.response.nextKey == "" then nodes' == Filter(l.all, labels)
            else p < q <= |l.all| && AtPosition(server, l, labels, q, call.response.nextKey, chunkSize, nodes', calls + [call])
  {
    hide Filter, HonestLog, Conforms;
    Logged(server, l, labels, p, startKey, chunkSize, nodes, calls, call);
    q := PageWindow(server, l, labels, |calls|, chunkSize, p);
    assert l.all[..|l.all|] == l.all;
  }

  lemma AtStart(server: Server, l: Listing, labels: Labels)
    requires ValidListing(l)
    ensures AtPosition(server, l, labels, 0, "", DEFAULT_CHUNK_SIZE, [], [])
  {
    assert Filter(l.all[..0], labels) == [];
  }

  /** A successful call returns exactly the matching nodes of the full list, in order, wherever the
      page sizes were halved and whoever filtered. A failure names the answer that caused it: "too
      large" only after a request for a single node was rejected. At most ten requests are rejected,
      and there are at most ten more than the nodes and one. */
  method GetNodesWithLabels(server: Server, labels: Labels, ghost l: Listing) returns (r: Result, ghost calls: seq<Call>)
    requires ValidListing(l) && Conforms(server, l, labels)
    ensures r.Nodes? ==> r.nodes == Filter(l.all, labels)
    ensures HonestLog(server, calls)
    ensures Rejections(calls) <= 10 && 1 <= |calls| <= |l.all| + 11
    ensures match r
            case Nodes(_) => calls[|calls| - 1].response.Page?
            case TooLarge => calls[|calls| - 1].request.limit == 1 && calls[|calls| - 1].response.LimitExceeded?
            case Failed(err) => calls[|calls| - 1].response == Failure(err)
  {
    hide *;
    var nodes: seq<Node> := [];
    var startKey := "";
    var chunkSize := DEFAULT_CHUNK_SIZE;
    var n := 0;
    ghost var p := 0;
    calls := [];
    AtStart(server, l, labels);
    while true
      invariant n == |calls| && chunkSize >= 0 && p <= |l.all|
      invariant AtPosition(server, l, labels, p, startKey, chunkSize, nodes, calls)
      decreases |l.all| - p, chunkSize
    {
      var request := Request(chunkSize, startKey);
      var response := server(n, request);
      ghost var call, before := Call(request, response), calls;
      Logged(server, l, labels, p, startKey, chunkSize, nodes, calls, call);
      calls := calls + [call];
      n := n + 1;
      if response.LimitExceeded? {
        AfterRejection(server, l, labels, p, startKey, chunkSize, nodes, before, call);
        chunkSize := chunkSize / 2;
        if chunkSize == 0 {
          return TooLarge, calls;
        }
        continue;
      } else if response.Failure? {
        return Failed(response.err), calls;
      }
      p := AfterPage(server, l, labels, p, startKey, chunkSize, nodes, before, call);
      nodes := FilterPage(response.nodes, labels, nodes);
      startKey := response.nextKey;
      if startKey == "" {
        return Nodes(nodes), calls;
      }
    }
  }
}
