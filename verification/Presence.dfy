/** Keys of a backend range and the key after one (lib/backend/backend.go). A key is a string of bytes, one
    character each, in the byte order of `StringOrder`. */
module PageKeys {
  import opened StringOrder

  const LAST := 0xff as char

  predicate IsBytes(s: string) {
    forall i :: 0 <= i < |s| ==> s[i] <= LAST
  }

  /** Some byte can be incremented. */
  predicate HasNext(key: string) {
    exists i :: 0 <= i < |key| && key[i] < LAST
  }

  const NO_END := [0 as char]

  /** The last byte that can be is incremented, and what follows it is dropped. */
  function Bump(key: string): (end: string)
    requires HasNext(key)
    ensures end != []
  {
    if HasNext(key[1..]) then [key[0]] + Bump(key[1..]) else [(key[0] as int + 1) as char]
  }

  /** `nextKey` */
  function NextKey(key: string): string {
    if HasNext(key) then Bump(key) else NO_END
  }

  lemma {:induction false} BumpAt(key: string, i: nat)
    requires i < |key| && key[i] < LAST && forall j :: i < j < |key| ==> key[j] >= LAST
    ensures HasNext(key) && Bump(key) == key[..i] + [(key[i] as int + 1) as char]
  {
    if i == 0 {
      assert !HasNext(key[1..]);
    } else {
      BumpAt(key[1..], i - 1);
      assert key[..i] == [key[0]] + key[1..][..i - 1];
    }
  }

  /** The loop of `nextKey`, from the last byte back. */
  method ComputeNextKey(key: string) returns (end: string)
    ensures end == NextKey(key)
  {
    var i := |key| - 1;
    while i >= 0
      invariant -1 <= i < |key|
      invariant forall j :: i < j < |key| ==> key[j] >= LAST
    {
      if key[i] < LAST {
        BumpAt(key, i);
        end := key[..i] + [(key[i] as int + 1) as char];
        return;
      }
      i := i - 1;
    }
    return NO_END;
  }

  /** The next key from the last byte back: a byte below 0xff is incremented, one that is 0xff is dropped, and without any
      byte to increment there is the key of one zero byte. */
  lemma NextKeyMeans(key: string, c: char)
    ensures NextKey("") == [0 as char]
    ensures (c as int) < 0xff ==> NextKey(key + [c]) == key + [(c as int + 1) as char]
    ensures (c as int) == 0xff ==> NextKey(key + [c]) == NextKey(key)
    ensures IsBytes(key + [c]) <==> IsBytes(key) && c as int <= 0xff
  {
    var k := key + [c];
    assert k[..|key|] == key && k[|key|] == c && forall i :: 0 <= i < |key| ==> k[i] == key[i];
    if (c as int) < 0xff {
      BumpAt(k, |key|);
    } else if HasNext(key) {
      BumpMore(key, c);
    }
  }

  lemma {:induction false} BumpMore(key: string, c: char)
    requires HasNext(key) && c >= LAST
    ensures HasNext(key + [c]) && Bump(key + [c]) == Bump(key)
  {
    var k := key + [c];
    var i :| 0 <= i < |key| && key[i] < LAST;
    assert k[i] < LAST;
    assert k[1..] == key[1..] + [c];
    if HasNext(key[1..]) {
      BumpMore(key[1..], c);
    } else {
      assert forall i :: 0 <= i < |key[1..]| ==> k[1..][i] == key[1..][i];
      assert !HasNext(k[1..]);
    }
  }

  lemma {:induction false} AboveLast(a: string, b: string)
    requires !HasNext(a) && IsBytes(b) && Leq(a, b)
    ensures a <= b
  {
    if a != [] {
      AboveLast(a[1..], b[1..]);
      assert a[0] == b[0] && a == [a[0]] + a[1..] && b == [b[0]] + b[1..];
    }
  }

  /** What comes at the next key or after it: what comes after the key but does not start with it. So every
      key that extends this one is passed over. */
  lemma {:induction false} NextKeyBounds(a: string, b: string)
    requires HasNext(a) && IsBytes(b)
    ensures Leq(NextKey(a), b) <==> Leq(a, b) && !(a <= b)
  {
    if b != [] {
      assert a <= b <==> a[0] == b[0] && a[1..] <= b[1..] by {
        assert a == [a[0]] + a[1..] && b == [b[0]] + b[1..];
      }
      if HasNext(a[1..]) {
        assert Bump(a)[1..] == Bump(a[1..]);
        NextKeyBounds(a[1..], b[1..]);
      } else if a[0] == b[0] && Leq(a[1..], b[1..]) {
        AboveLast(a[1..], b[1..]);
      }
    }
  }
}

/** `PresenceService.ListNodes` over a backend that holds the nodes in key order
    (lib/services/local/presence.go, lib/backend/backend.go). */
module PresenceNodes {
  import opened Options
  import opened StringOrder
  import opened PageKeys
  import opened NodeLabels
  import opened NodePagination

  /** `backend.Key(nodesPrefix, namespace, "")`: what the keys of a namespace start with. */
  type Path = p: string | p != [] && p[|p| - 1] == '/' && IsBytes(p) witness "/"

  /** The nodes of a namespace in the order of their keys. */
  ghost predicate Bucket(all: seq<Node>) {
    && (forall i :: 0 <= i < |all| ==> all[i].name != [] && IsBytes(all[i].name))
    && (forall i, j :: 0 <= i < j < |all| ==> Leq(all[i].name, all[j].name) && all[i].name != all[j].name)
  }

  function KeyOf(path: Path, n: Node): string {
    path + n.name
  }

  /** Where `GetRange` from this key starts reading. */
  function First(all: seq<Node>, path: Path, key: string): (i: nat)
    ensures i <= |all|
    ensures forall j :: 0 <= j < i ==> !Leq(key, KeyOf(path, all[j]))
    ensures i < |all| ==> Leq(key, KeyOf(path, all[i]))
  {
    if all == [] || Leq(key, KeyOf(path, all[0])) then 0 else 1 + First(all[1..], path, key)
  }

  // ---- positions of keys ----

  lemma {:induction false} LeqPath(path: string, a: string, b: string)
    ensures Leq(path + a, path + b) <==> Leq(a, b)
    ensures path + a <= path + b <==> a <= b
  {
    if path == [] {
      assert path + a == a && path + b == b;
    } else {
      assert (path + a)[1..] == path[1..] + a && (path + b)[1..] == path[1..] + b;
      assert path + a == [path[0]] + (path[1..] + a) && path + b == [path[0]] + (path[1..] + b);
      LeqPath(path[1..], a, b);
    }
  }

  /** Position `m` is at the key or after it exactly when its node is. */
  lemma FirstIff(all: seq<Node>, path: Path, key: string, m: nat)
    requires Bucket(all) && m < |all|
    ensures First(all, path, key) <= m <==> Leq(key, KeyOf(path, all[m]))
  {
    var i := First(all, path, key);
    if i < m {
      LeqPath(path, all[i].name, all[m].name);
      LeqTransitive(key, KeyOf(path, all[i]), KeyOf(path, all[m]));
    }
  }

  lemma BucketOrder(all: seq<Node>, j: nat, m: nat)
    requires Bucket(all) && j < |all| && m < |all|
    ensures Leq(all[j].name, all[m].name) <==> j <= m
  {
    LeqRefl(all[j].name);
    if m < j && Leq(all[j].name, all[m].name) { LeqAntisymmetric(all[j].name, all[m].name); }
  }

  /** Reading on after node `j` by its full key passes over the names that extend its name, and no others. */
  lemma ReadOn(all: seq<Node>, path: Path, j: nat, m: nat)
    requires Bucket(all) && j < |all| && m < |all|
    ensures First(all, path, NextKey(KeyOf(path, all[j]))) <= m <==> j < m && !(all[j].name <= all[m].name)
  {
    var a, b := KeyOf(path, all[j]), KeyOf(path, all[m]);
    assert HasNext(a) by { assert a[|path| - 1] < LAST; }
    FirstIff(all, path, NextKey(a), m);
    NextKeyBounds(a, b);
    LeqPath(path, all[j].name, all[m].name);
    BucketOrder(all, j, m);
  }

  /** Starting at the pagination key of node `j` does the same, if its name has a next key. */
  lemma StartAfter(all: seq<Node>, path: Path, j: nat, m: nat)
    requires Bucket(all) && j < |all| && m < |all| && HasNext(all[j].name)
    ensures First(all, path, path + NextKey(all[j].name)) <= m <==> j < m && !(all[j].name <= all[m].name)
  {
    var a, b := all[j].name, all[m].name;
    FirstIff(all, path, path + NextKey(a), m);
    LeqPath(path, NextKey(a), b);
    NextKeyBounds(a, b);
    BucketOrder(all, j, m);
  }

  /** The empty key starts at the first node, and so does the key that stands for "no next key". */
  lemma StartOver(all: seq<Node>, path: Path)
    requires Bucket(all)
    ensures First(all, path, path + "") == 0 && First(all, path, path + NO_END) == 0
  {
    if all != [] {
      LeqPath(path, "", all[0].name);
      LeqPath(path, NO_END, all[0].name);
      assert NO_END[1..] == "";
    }
  }

  // ---- ListNodes ----

  ghost function Upto(nodes: seq<Node>, limit: nat): seq<Node> {
    if |nodes| <= limit then nodes else nodes[..limit]
  }

  ghost function Batch(all: seq<Node>, i: nat, limit: nat): seq<Node>
    requires i <= |all|
  {
    Upto(all[i..], limit)
  }

  /** `IterateRange` with the callback of `ListNodes`: read batches of `limit` nodes, each from the key after the last one
      read, and collect matches until the page is full or a batch falls short. */
  ghost function Iterate(all: seq<Node>, labels: Labels, path: Path, limit: nat, start: string, servers: seq<Node>): seq<Node>
    requires Bucket(all) && limit > 0
    decreases |all| - First(all, path, start)
  {
    var i := First(all, path, start);
    var batch := Batch(all, i, limit);
    var servers' := Upto(servers + Filter(batch, labels), limit);
    if |servers'| == limit || |batch| < limit then servers'
    else
      var next := NextKey(KeyOf(path, batch[limit - 1]));
      assert First(all, path, next) > i + limit - 1 by { ReadOn(all, path, i + limit - 1, i + limit - 1); }
      Iterate(all, labels, path, limit, next, servers')
  }

  ghost function ListNodes(all: seq<Node>, labels: Labels, path: Path, request: Request): Response
    requires Bucket(all) && request.limit > 0
  {
    var page := Iterate(all, labels, path, request.limit, path + request.startKey, []);
    Page(page, if |page| == request.limit then NextKey(page[|page| - 1].name) else "")
  }

  /** Which requests meet with some trouble, by number and content. */
  type Trouble = (nat, Request) -> bool

  /** The server. `tooBig` says which answers the gRPC layer rejects for their size, `broken` which
      requests the backend fails. */
  ghost function Server(all: seq<Node>, labels: Labels, path: Path, tooBig: Trouble, broken: Trouble): NodePagination.Server
    requires Bucket(all)
  {
    (n: nat, request: Request) =>
      if request.limit <= 0 then Failure("nonpositive limit value")
      else if broken(n, request) then Failure("backend error")
      else if tooBig(n, request) then LimitExceeded
      else ListNodes(all, labels, path, request)
  }

  // ---- when it keeps what the client relies on ----

  /** No matching node has a name that extends another node's, or a name without a next key. */
  ghost predicate NothingLost(all: seq<Node>, labels: Labels) {
    && NothingSkipped(all, labels)
    && forall m :: 0 <= m < |all| && Matches(all[m], labels) ==> HasNext(all[m].name)
  }

  ghost predicate NothingSkipped(all: seq<Node>, labels: Labels) {
    forall j, m :: 0 <= j < m < |all| && Matches(all[m], labels) ==> !(all[j].name <= all[m].name)
  }

  lemma {:induction false} FilterMembers(nodes: seq<Node>, labels: Labels)
    ensures forall x :: x in Filter(nodes, labels) <==> x in nodes && Matches(x, labels)
  {
    hide Matches;
    if nodes != [] {
      var n := |nodes| - 1;
      FilterMembers(nodes[..n], labels);
      assert nodes == nodes[..n] + [nodes[n]];
      FilterStep(nodes[..n], nodes[n], labels);
    }
  }

  lemma {:induction false} FilterNone(nodes: seq<Node>, labels: Labels)
    requires forall x :: x in nodes ==> !Matches(x, labels)
    ensures Filter(nodes, labels) == []
  {
    hide Matches;
    if nodes != [] {
      FilterNone(nodes[..|nodes| - 1], labels);
    }
  }

  lemma {:induction false} FilterSize(nodes: seq<Node>, labels: Labels)
    ensures |Filter(nodes, labels)| <= |nodes|
    ensures |Filter(nodes, labels)| == |nodes| ==> Filter(nodes, labels) == nodes
  {
    hide Matches;
    if nodes != [] {
      FilterSize(nodes[..|nodes| - 1], labels);
    }
  }

  /** Positions without a match add nothing. */
  lemma FilterFrom(all: seq<Node>, labels: Labels, p: nat, q: nat)
    requires p <= q <= |all| && forall m :: p <= m < q ==> !Matches(all[m], labels)
    ensures Filter(all[p..], labels) == Filter(all[q..], labels)
  {
    hide Matches, Filter;
    FilterNone(all[p..q], labels);
    FilterConcat(all[p..q], all[q..], labels);
    assert all[p..] == all[p..q] + all[q..];
  }

  lemma ReadOnFilter(all: seq<Node>, labels: Labels, path: Path, j: nat)
    requires Bucket(all) && NothingSkipped(all, labels) && j < |all|
    ensures var next := First(all, path, NextKey(KeyOf(path, all[j])));
            j < next <= |all| && Filter(all[j + 1..], labels) == Filter(all[next..], labels)
  {
    hide Matches, Filter, First, Bucket;
    var next := First(all, path, NextKey(KeyOf(path, all[j])));
    FirstBound(all, path, NextKey(KeyOf(path, all[j])));
    ReadOn(all, path, j, j);
    forall m | j + 1 <= m < next ensures !Matches(all[m], labels) {
      ReadOn(all, path, j, m);
    }
    FilterFrom(all, labels, j + 1, next);
  }

  lemma FirstBound(all: seq<Node>, path: Path, key: string)
    ensures First(all, path, key) <= |all|
  {
  }

  lemma UptoAgain(nodes: seq<Node>, more: seq<Node>, limit: nat)
    ensures Upto(Upto(nodes, limit) + more, limit) == Upto(nodes + more, limit)
    ensures |Upto(nodes, limit)| <= limit
    ensures |Upto(nodes, limit)| == limit ==> Upto(nodes + more, limit) == Upto(nodes, limit)
  {
  }

  /** What a batch takes of the rest of the list. */
  lemma BatchSplit(all: seq<Node>, labels: Labels, i: nat, limit: nat)
    requires i <= |all|
    ensures i + limit > |all| ==> Batch(all, i, limit) == all[i..]
    ensures i + limit <= |all| ==> Filter(all[i..], labels) == Filter(Batch(all, i, limit), labels) + Filter(all[i + limit..], labels)
  {
    hide Filter;
    if i + limit <= |all| {
      FilterConcat(all[i..i + limit], all[i + limit..], labels);
      assert all[i..] == all[i..i + limit] + all[i + limit..];
      assert Batch(all, i, limit) == all[i..i + limit];
    }
  }

  /** Where the next batch starts. */
  function NextStart(all: seq<Node>, path: Path, i: nat, limit: nat): string
    requires limit > 0 && i + limit <= |all|
  {
    NextKey(KeyOf(path, all[i + limit - 1]))
  }

  lemma IterateStep(all: seq<Node>, labels: Labels, path: Path, limit: nat, start: string, servers: seq<Node>)
    requires Bucket(all) && limit > 0
    ensures var i := First(all, path, start);
            var servers' := Upto(servers + Filter(Batch(all, i, limit), labels), limit);
            Iterate(all, labels, path, limit, start, servers)
            == if |servers'| == limit || i + limit > |all| then servers'
               else Iterate(all, labels, path, limit, NextStart(all, path, i, limit), servers')
    ensures var i := First(all, path, start);
            i + limit <= |all| ==> First(all, path, NextStart(all, path, i, limit)) > i
  {
    hide Filter, First;
    FirstBound(all, path, start);
    var i := First(all, path, start);
    if i + limit <= |all| {
      ReadOn(all, path, i + limit - 1, i + limit - 1);
      assert Batch(all, i, limit)[limit - 1] == all[i + limit - 1];
    }
  }

  /** If nothing is skipped, a page holds the next `limit` matches from where the request starts. */
  lemma {:induction false} IterateAll(all: seq<Node>, labels: Labels, path: Path, limit: nat, start: string, servers: seq<Node>)
    requires Bucket(all) && NothingSkipped(all, labels) && limit > 0
    ensures Iterate(all, labels, path, limit, start, servers)
         == Upto(servers + Filter(all[First(all, path, start)..], labels), limit)
    decreases |all| - First(all, path, start)
  {
    hide *;
    var i := First(all, path, start);
    FirstBound(all, path, start);
    IterateStep(all, labels, path, limit, start, servers);
    BatchSplit(all, labels, i, limit);
    var found := Filter(Batch(all, i, limit), labels);
    if i + limit <= |all| {
      var later := Filter(all[i + limit..], labels);
      var next := NextStart(all, path, i, limit);
      UptoAgain(servers + found, later, limit);
      assert servers + found + later == servers + (found + later);
      if |Upto(servers + found, limit)| < limit {
        NextStartFilter(all, labels, path, i, limit);
        IterateAll(all, labels, path, limit, next, Upto(servers + found, limit));
      }
    }
  }

  lemma NextStartFilter(all: seq<Node>, labels: Labels, path: Path, i: nat, limit: nat)
    requires Bucket(all) && NothingSkipped(all, labels) && limit > 0 && i + limit <= |all|
    ensures var next := First(all, path, NextStart(all, path, i, limit));
            i < next <= |all| && Filter(all[i + limit..], labels) == Filter(all[next..], labels)
  {
    hide Filter, First, Bucket, NothingSkipped;
    ReadOnFilter(all, labels, path, i + limit - 1);
  }

  /** Where the matches fill a page. */
  lemma {:induction false} PageEnd(nodes: seq<Node>, labels: Labels, limit: nat) returns (m: nat)
    requires 0 < limit <= |Filter(nodes, labels)|
    ensures m < |nodes| && Matches(nodes[m], labels) && Filter(nodes, labels)[limit - 1] == nodes[m]
    ensures Filter(nodes[..m + 1], labels) == Filter(nodes, labels)[..limit]
  {
    hide Matches;
    var n := |nodes| - 1;
    var before := nodes[..n];
    FilterStep(before, nodes[n], labels);
    assert nodes == before + [nodes[n]];
    if limit <= |Filter(before, labels)| {
      m := PageEnd(before, labels, limit);
      assert before[..m + 1] == nodes[..m + 1];
    } else {
      m := n;
      assert nodes[..m + 1] == nodes;
    }
  }

  /** A key for every position: the one that a page ending there names, or, where none can end, any other. */
  ghost function KeyAfter(n: Node, labels: Labels): string {
    if Matches(n, labels) then NextKey(n.name) else n.name + NO_END
  }

  ghost function Positions(all: seq<Node>, labels: Labels): Listing {
    Listing(all, [""] + seq(|all|, p requires 0 <= p < |all| => KeyAfter(all[p], labels)))
  }

  lemma {:induction false} BumpEnds(key: string)
    requires HasNext(key)
    ensures Bump(key)[|Bump(key)| - 1] != 0 as char
  {
    if HasNext(key[1..]) { BumpEnds(key[1..]); }
  }

  lemma {:induction false} LeqMore(a: string, b: string)
    ensures Leq(a + NO_END, b) <==> Leq(a, b) && a != b
  {
    if a == [] {
      assert a + NO_END == NO_END && NO_END[1..] == [];
    } else {
      assert (a + NO_END)[1..] == a[1..] + NO_END;
      if b != [] {
        assert a == [a[0]] + a[1..] && b == [b[0]] + b[1..];
        LeqMore(a[1..], b[1..]);
      }
    }
  }

  lemma KeysDiffer(all: seq<Node>, labels: Labels, p: nat, q: nat)
    requires Bucket(all) && NothingLost(all, labels) && p < q < |all|
    ensures KeyAfter(all[p], labels) != KeyAfter(all[q], labels)
  {
    var a, b := all[p].name, all[q].name;
    hide Matches;
    match (Matches(all[p], labels), Matches(all[q], labels)) {
      case (true, true) =>
        NextKeyBounds(a, b);
        NextKeyBounds(b, b);
      case (true, false) => BumpEnds(a);
      case (false, true) => BumpEnds(b);
      case (false, false) => assert (a + NO_END)[..|a|] == a && (b + NO_END)[..|b|] == b;
    }
  }

  lemma KeyAfterNotEmpty(n: Node, labels: Labels)
    ensures KeyAfter(n, labels) != ""
  {
    hide Matches;
  }

  lemma PositionsValid(all: seq<Node>, labels: Labels)
    requires Bucket(all) && NothingLost(all, labels)
    ensures ValidListing(Positions(all, labels))
  {
    hide Bucket, NothingLost, KeyAfter;
    var keys := Positions(all, labels).keys;
    forall p, q | 0 <= p < q < |keys| ensures keys[p] != keys[q] {
      if p > 0 { KeysDiffer(all, labels, p - 1, q - 1); } else { KeyAfterNotEmpty(all[q - 1], labels); }
    }
  }

  /** A request at the key of a position sees the matches from that position on. */
  lemma StartsAt(all: seq<Node>, labels: Labels, path: Path, p: nat)
    requires Bucket(all) && NothingLost(all, labels) && p <= |all|
    ensures Filter(all[First(all, path, path + Positions(all, labels).keys[p])..], labels) == Filter(all[p..], labels)
  {
    hide Matches, Filter, First, Bucket;
    var key := Positions(all, labels).keys[p];
    var i := First(all, path, path + key);
    FirstBound(all, path, path + key);
    if p == 0 {
      StartOver(all, path);
    } else {
      PositionIff(all, labels, path, p - 1, p - 1);
      forall m | p <= m < i ensures !Matches(all[m], labels) {
        PositionIff(all, labels, path, p - 1, m);
      }
      FilterFrom(all, labels, p, i);
    }
  }

  /** The key of the position after node `j` starts after it, passing over names that extend its name if a
      page can end there. */
  lemma PositionIff(all: seq<Node>, labels: Labels, path: Path, j: nat, m: nat)
    requires Bucket(all) && NothingLost(all, labels) && j < |all| && m < |all|
    ensures First(all, path, path + KeyAfter(all[j], labels)) <= m
       <==> j < m && !(Matches(all[j], labels) && all[j].name <= all[m].name)
  {
    hide Matches, First;
    var a, b := all[j].name, all[m].name;
    if Matches(all[j], labels) {
      StartAfter(all, path, j, m);
    } else {
      FirstIff(all, path, path + (a + NO_END), m);
      LeqPath(path, a + NO_END, b);
      LeqMore(a, b);
      BucketOrder(all, j, m);
    }
  }

  /** A page of the next matches is an answer at its position. */
  lemma PageAnswers(all: seq<Node>, labels: Labels, limit: nat, p: nat)
    requires ValidListing(Positions(all, labels)) && p <= |all| && limit > 0
    ensures var page := Upto(Filter(all[p..], labels), limit);
            Answers(Positions(all, labels), labels, p, Page(page, if |page| == limit then NextKey(page[limit - 1].name) else ""))
  {
    hide Matches, Filter;
    var l := Positions(all, labels);
    var matches := Filter(all[p..], labels);
    if |matches| >= limit {
      var m := PageEnd(all[p..], labels, limit);
      var q := p + m + 1;
      assert all[p..][..m + 1] == all[p..q];
      assert l.keys[q] == NextKey(all[p + m].name) && l.keys[0] != l.keys[q];
      assert Shows(matches[..limit], l.all[p..q], labels);
    }
  }

  lemma AnswerAt(all: seq<Node>, labels: Labels, path: Path, limit: int, p: nat)
    requires Bucket(all) && NothingLost(all, labels) && p <= |all| && limit > 0
    ensures var l := Positions(all, labels);
            ValidListing(l) && Answers(l, labels, p, ListNodes(all, labels, path, Request(limit, l.keys[p])))
  {
    hide Matches, Filter, First, Iterate, Bucket, Answers, ValidListing;
    PositionsValid(all, labels);
    var start := path + Positions(all, labels).keys[p];
    IterateAll(all, labels, path, limit, start, []);
    StartsAt(all, labels, path, p);
    assert [] + Filter(all[p..], labels) == Filter(all[p..], labels);
    PageAnswers(all, labels, limit, p);
  }

  lemma ServerAnswers(all: seq<Node>, labels: Labels, path: Path, tooBig: Trouble, broken: Trouble, n: nat, limit: int, p: nat)
    requires Bucket(all) && NothingLost(all, labels) && p <= |all| && limit > 0
    ensures var l := Positions(all, labels);
            ValidListing(l) && Answers(l, labels, p, Server(all, labels, path, tooBig, broken)(n, Request(limit, l.keys[p])))
  {
    hide Bucket, NothingLost, ListNodes;
    AnswerAt(all, labels, path, limit, p);
  }

  /** The presence service keeps what the client relies on if no matching node can be lost, whatever is rejected
      for its size and whatever fails. */
  lemma PresenceConforms(all: seq<Node>, labels: Labels, path: Path, tooBig: Trouble, broken: Trouble)
    requires Bucket(all) && NothingLost(all, labels)
    ensures var l := Positions(all, labels);
            ValidListing(l) && Conforms(Server(all, labels, path, tooBig, broken), l, labels)
  {
    var l := Positions(all, labels);
    assert l.all == all;
    PositionsValid(all, labels);
    hide Bucket, NothingLost, Positions, Answers, Server;
    forall n: nat, limit, p | limit > 0 && 0 <= p <= |l.all|
      ensures Answers(l, labels, p, Server(all, labels, path, tooBig, broken)(n, Request(limit, l.keys[p])))
    {
      ServerAnswers(all, labels, path, tooBig, broken, n, limit, p);
    }
  }

  // ---- and when it does not ----

  const NO_TROUBLE: Trouble := (n, r) => false

  /** Some keys make the server's answers those of a listing of these nodes. */
  ghost predicate Paginates(server: NodePagination.Server, all: seq<Node>, labels: Labels) {
    exists keys: seq<string> :: ValidListing(Listing(all, keys)) && Conforms(server, Listing(all, keys), labels)
  }

  /** The server without trouble, and keys that it is supposed to conform to. */
  ghost predicate Supposed(all: seq<Node>, labels: Labels, path: Path, l: Listing) {
    Bucket(all) && l.all == all && ValidListing(l) && Conforms(Server(all, labels, path, NO_TROUBLE, NO_TROUBLE), l, labels)
  }

  /** What a page at a position says about the rest of the list, if the server conforms. */
  lemma Window(all: seq<Node>, labels: Labels, path: Path, l: Listing, limit: int, p: nat) returns (q: nat)
    requires Supposed(all, labels, path, l) && limit > 0 && p <= |all|
    ensures p <= q <= |all|
    ensures var page := ListNodes(all, labels, path, Request(limit, l.keys[p]));
            && (if page.nextKey == "" then q == |all| else l.keys[q] == page.nextKey)
            && Filter(all[..q], labels) == Filter(all[..p], labels) + Filter(page.nodes, labels)
  {
    hide Filter, ListNodes, Bucket, Conforms;
    var server := Server(all, labels, path, NO_TROUBLE, NO_TROUBLE);
    assert server(0, Request(limit, l.keys[p])) == ListNodes(all, labels, path, Request(limit, l.keys[p]));
    assert ListNodes(all, labels, path, Request(limit, l.keys[p])).Page? by { PageAnswer(all, labels, path, Request(limit, l.keys[p])); }
    q := PageWindow(server, l, labels, 0, limit, p);
  }

  lemma PageAnswer(all: seq<Node>, labels: Labels, path: Path, request: Request)
    requires Bucket(all) && request.limit > 0
    ensures ListNodes(all, labels, path, request).Page?
  {
  }

  /** A page with room for everything is read in one batch. */
  lemma OneBatch(all: seq<Node>, labels: Labels, path: Path, startKey: string)
    requires Bucket(all)
    ensures ListNodes(all, labels, path, Request(|all| + 1, startKey)) == Page(Filter(all[First(all, path, path + startKey)..], labels), "")
  {
    hide Filter, First, Bucket;
    var i := First(all, path, path + startKey);
    var batch := Batch(all, i, |all| + 1);
    assert batch == all[i..];
    FilterSize(batch, labels);
    assert [] + Filter(batch, labels) == Filter(batch, labels);
  }

  /** A page that names the key for "no next key" makes reading start over, so it must not show anything. */
  lemma NoStartingOver(all: seq<Node>, labels: Labels, path: Path, l: Listing, limit: int)
    requires Supposed(all, labels, path, l) && limit > 0
    requires ListNodes(all, labels, path, Request(limit, "")).nextKey == NO_END
    ensures Filter(ListNodes(all, labels, path, Request(limit, "")).nodes, labels) == []
  {
    hide Filter, ListNodes, First, Bucket, Conforms;
    var q := Window(all, labels, path, l, limit, 0);
    assert l.keys[q] == NO_END;
    var q' := Window(all, labels, path, l, |all| + 1, q);
    OneBatch(all, labels, path, NO_END);
    StartOver(all, path);
    assert all[..0] == [] && all[0..] == all && all[..|all|] == all;
    FilterIdempotent(all, labels);
    NothingBefore(Filter(all[..q], labels), Filter(all, labels));
    FilterEmpty(labels);
  }

  lemma NothingBefore(a: seq<Node>, b: seq<Node>)
    ensures a + b == b ==> a == []
  {
    assert |a + b| == |a| + |b|;
  }

  lemma FilterEmpty(labels: Labels)
    ensures Filter([], labels) == []
  {
  }

  /** Matches, each at position `i` or later. */
  ghost predicate MatchesFrom(all: seq<Node>, labels: Labels, i: nat, found: seq<Node>) {
    forall x :: x in found ==> Matches(x, labels) && exists k :: i <= k < |all| && x == all[k]
  }

  /** What a batch adds to a page. */
  lemma BatchAdds(all: seq<Node>, labels: Labels, i: nat, limit: nat, servers: seq<Node>) returns (more: seq<Node>)
    requires i <= |all| && |servers| <= limit
    ensures Upto(servers + Filter(Batch(all, i, limit), labels), limit) == servers + more && |servers + more| <= limit
    ensures MatchesFrom(all, labels, i, more)
  {
    hide Matches, Filter;
    var batch := Batch(all, i, limit);
    FilterMembers(batch, labels);
    assert forall k :: 0 <= k < |batch| ==> batch[k] == all[i + k];
    var found := Filter(batch, labels);
    more := Upto(found, limit - |servers|);
    assert forall x :: x in more ==> x in found;
  }

  lemma MatchesJoin(all: seq<Node>, labels: Labels, i: nat, j: nat, more: seq<Node>, rest: seq<Node>)
    requires i <= j && MatchesFrom(all, labels, i, more) && MatchesFrom(all, labels, j, rest)
    ensures MatchesFrom(all, labels, i, more + rest)
  {
    hide Matches;
  }

  /** All matches of a page come from what was there before, and from `start` on. */
  lemma {:induction false} IterateFrom(all: seq<Node>, labels: Labels, path: Path, limit: nat, start: string, servers: seq<Node>)
      returns (more: seq<Node>)
    requires Bucket(all) && limit > 0 && |servers| <= limit
    ensures Iterate(all, labels, path, limit, start, servers) == servers + more
    ensures MatchesFrom(all, labels, First(all, path, start), more)
    decreases |all| - First(all, path, start)
  {
    hide *;
    var i := First(all, path, start);
    FirstBound(all, path, start);
    IterateStep(all, labels, path, limit, start, servers);
    more := BatchAdds(all, labels, i, limit, servers);
    if |servers + more| < limit && i + limit <= |all| {
      var next := NextStart(all, path, i, limit);
      var rest := IterateFrom(all, labels, path, limit, next, servers + more);
      MatchesJoin(all, labels, i, First(all, path, next), more, rest);
      assert servers + more + rest == servers + (more + rest);
      more := more + rest;
    }
  }

  /** The first page of `j + 1` nodes: the matches among the first `j + 1`, and others from after every
      name that extends the name of node `j`. */
  lemma FirstPage(all: seq<Node>, labels: Labels, path: Path, j: nat) returns (more: seq<Node>)
    requires Bucket(all) && j < |all|
    ensures ListNodes(all, labels, path, Request(j + 1, "")).nodes == Filter(all[..j + 1], labels) + more
    ensures |Filter(all[..j + 1], labels)| == j + 1 ==> more == []
    ensures MatchesFrom(all, labels, First(all, path, NextKey(KeyOf(path, all[j]))), more)
  {
    StartOver(all, path);
    IterateStep(all, labels, path, j + 1, path + "", []);
    FirstBatch(all, labels, j);
    hide Iterate, First, Filter, Bucket, MatchesFrom, Upto, Batch;
    var servers := Filter(all[..j + 1], labels);
    if |servers| == j + 1 {
      more := [];
      NoMatchesFrom(all, labels, First(all, path, NextKey(KeyOf(path, all[j]))));
    } else {
      more := IterateFrom(all, labels, path, j + 1, NextStart(all, path, 0, j + 1), servers);
    }
  }

  lemma FirstBatch(all: seq<Node>, labels: Labels, j: nat)
    requires j < |all|
    ensures var servers := Filter(all[..j + 1], labels);
            Upto([] + Filter(Batch(all, 0, j + 1), labels), j + 1) == servers && |servers| <= j + 1
  {
    hide Filter;
    assert Batch(all, 0, j + 1) == all[..j + 1];
    FilterSize(all[..j + 1], labels);
  }

  lemma NoMatchesFrom(all: seq<Node>, labels: Labels, i: nat)
    ensures MatchesFrom(all, labels, i, [])
  {
  }

  lemma BucketIndex(all: seq<Node>, m: nat, i: nat, x: Node)
    requires Bucket(all) && m < |all| && x == all[m] && exists k :: i <= k < |all| && x == all[k]
    ensures i <= m
  {
  }

  /** If filtering loses nothing between two positions, nothing there matches. */
  lemma NoGap(all: seq<Node>, labels: Labels, a: nat, b: nat, m: nat)
    requires a <= m < b <= |all| && Filter(all, labels) == Filter(all[..a], labels) + Filter(all[b..], labels)
    ensures !Matches(all[m], labels)
  {
    hide Filter, Matches;
    FilterConcat(all[..a], all[a..], labels);
    FilterConcat(all[a..b], all[b..], labels);
    assert all == all[..a] + all[a..] && all[a..] == all[a..b] + all[b..];
    assert |Filter(all[a..b], labels)| == 0;
    FilterMembers(all[a..b], labels);
    assert all[a..b][m - a] == all[m];
  }

  lemma FirstPageKey(all: seq<Node>, labels: Labels, path: Path, j: nat)
    requires Bucket(all) && j < |all|
    ensures var page := ListNodes(all, labels, path, Request(j + 1, ""));
            page.Page? && page.nextKey == if |page.nodes| == j + 1 then NextKey(page.nodes[j].name) else ""
  {
    hide Iterate;
  }

  /** If the first `j + 1` nodes fill a page, the next page starts after every name that extends the name
      of node `j`. */
  lemma FullPageSkips(all: seq<Node>, labels: Labels, path: Path, l: Listing, j: nat, m: nat)
    requires Supposed(all, labels, path, l) && j < m < |all| && all[j].name <= all[m].name
    requires |Filter(all[..j + 1], labels)| == j + 1
    ensures !Matches(all[m], labels)
  {
    hide Filter, Matches, First, ListNodes, Conforms, Bucket, NextKey;
    var page := ListNodes(all, labels, path, Request(j + 1, ""));
    var more := FirstPage(all, labels, path, j);
    FirstPageKey(all, labels, path, j);
    FilterSize(all[..j + 1], labels);
    FilterIdempotent(all[..j + 1], labels);
    assert page.nodes == all[..j + 1] && page.nextKey == NextKey(all[j].name);
    if HasNext(all[j].name) {
      assert page.nextKey != "" by { NextKeyNotEmpty(all[j].name); }
      var q := Window(all, labels, path, l, j + 1, 0);
      var q' := Window(all, labels, path, l, |all| + 1, q);
      OneBatch(all, labels, path, page.nextKey);
      StartAfter(all, path, j, m);
      var i := First(all, path, path + page.nextKey);
      FirstBound(all, path, path + page.nextKey);
      FilterIdempotent(all[i..], labels);
      FilterEmpty(labels);
      assert all[..0] == [] && all[..|all|] == all;
      assert [] + Filter(all[..j + 1], labels) == Filter(all[..j + 1], labels);
      NoGap(all, labels, j + 1, i, m);
    } else {
      assert page.nextKey == NO_END by { NextKeyNotEmpty(all[j].name); }
      NoStartingOver(all, labels, path, l, j + 1);
    }
  }

  lemma NextKeyNotEmpty(key: string)
    ensures NextKey(key) != "" && (!HasNext(key) ==> NextKey(key) == NO_END)
  {
  }

  /** If they do not fill it, reading on for the same page starts after those names too. */
  lemma ShortPageSkips(all: seq<Node>, labels: Labels, path: Path, l: Listing, j: nat, m: nat)
    requires Supposed(all, labels, path, l) && j < m < |all| && all[j].name <= all[m].name
    requires |Filter(all[..j + 1], labels)| <= j
    ensures !Matches(all[m], labels)
  {
    hide Filter, Matches, First, ListNodes, Conforms, Bucket, NextKey;
    var page := ListNodes(all, labels, path, Request(j + 1, ""));
    var more := FirstPage(all, labels, path, j);
    FirstPageKey(all, labels, path, j);
    var i := First(all, path, NextKey(KeyOf(path, all[j])));
    ReadOn(all, path, j, m);
    var q := Window(all, labels, path, l, j + 1, 0);
    FilterEmpty(labels);
    assert all[..0] == [] && [] + Filter(page.nodes, labels) == Filter(page.nodes, labels);
    FilterMembers(page.nodes, labels);
    FilterMembers(all[..q], labels);
    FilterMembers(all[..j + 1], labels);
    if more != [] {
      LaterPage(all, labels, q, m, i, more);
    } else {
      assert |page.nodes| <= j;
    }
    if Matches(all[m], labels) {
      assert all[..q][m] == all[m];
      assert all[m] in page.nodes;
      if all[m] in more { BucketIndex(all, m, i, all[m]); }
      assert all[m] in all[..j + 1];
      var k :| 0 <= k < j + 1 && all[k] == all[m];
      BucketIndex(all, k, m, all[m]);
    }
  }

  lemma LaterPage(all: seq<Node>, labels: Labels, q: nat, m: nat, i: nat, more: seq<Node>)
    requires Bucket(all) && m < i && q <= |all| && more != [] && MatchesFrom(all, labels, i, more)
    requires more[0] in all[..q]
    ensures m < q
  {
    hide Matches;
    assert more[0] in more;
    var k :| i <= k < |all| && more[0] == all[k];
    var k' :| 0 <= k' < q && more[0] == all[k'];
    BucketIndex(all, k', i, more[0]);
  }

  /** If a page ends with a name that has no next key, its key starts over. */
  lemma LastNameRepeats(all: seq<Node>, labels: Labels, path: Path, l: Listing, m: nat)
    requires Supposed(all, labels, path, l) && NothingSkipped(all, labels) && m < |all| && !HasNext(all[m].name)
    ensures !Matches(all[m], labels)
  {
    hide Filter, Matches, First, Iterate, Conforms, Bucket, NothingSkipped;
    if Matches(all[m], labels) {
      var before := Filter(all[..m], labels);
      var matches := Filter(all[..m + 1], labels);
      FilterStep(all[..m], all[m], labels);
      assert all[..m + 1] == all[..m] + [all[m]];
      assert matches == before + [all[m]];
      var limit := |matches|;
      StartOver(all, path);
      IterateAll(all, labels, path, limit, path + "", []);
      FilterConcat(all[..m + 1], all[m + 1..], labels);
      assert all[0..] == all && all == all[..m + 1] + all[m + 1..];
      assert [] + Filter(all, labels) == Filter(all, labels);
      assert Upto(Filter(all, labels), limit) == matches;
      FilterIdempotent(all[..m + 1], labels);
      NoStartingOver(all, labels, path, l, limit);
    }
  }

  /** Without trouble the presence service answers like a listing exactly when no matching node's name extends
      another node's name or has no next key. */
  lemma PresencePaginatesIff(all: seq<Node>, labels: Labels, path: Path)
    requires Bucket(all)
    ensures Paginates(Server(all, labels, path, NO_TROUBLE, NO_TROUBLE), all, labels) <==> NothingLost(all, labels)
  {
    var server := Server(all, labels, path, NO_TROUBLE, NO_TROUBLE);
    if NothingLost(all, labels) {
      PresenceConforms(all, labels, path, NO_TROUBLE, NO_TROUBLE);
      assert Positions(all, labels) == Listing(all, Positions(all, labels).keys);
    }
    if Paginates(server, all, labels) {
      hide Matches, Conforms, Bucket, Server;
      var keys: seq<string> :| ValidListing(Listing(all, keys)) && Conforms(server, Listing(all, keys), labels);
      var l := Listing(all, keys);
      assert Supposed(all, labels, path, l);
      forall j, m | 0 <= j < m < |all| && all[j].name <= all[m].name ensures !Matches(all[m], labels) {
        FilterSize(all[..j + 1], labels);
        if |Filter(all[..j + 1], labels)| == j + 1 {
          FullPageSkips(all, labels, path, l, j, m);
        } else {
          ShortPageSkips(all, labels, path, l, j, m);
        }
      }
      forall m | 0 <= m < |all| && !HasNext(all[m].name) ensures !Matches(all[m], labels) {
        LastNameRepeats(all, labels, path, l, m);
      }
    }
  }

  /** So it does for all labels exactly when no name is a proper prefix of another and every name has a
      next key. */
  lemma PresencePaginatesAlwaysIff(all: seq<Node>, path: Path)
    requires Bucket(all)
    ensures (forall labels :: Paginates(Server(all, labels, path, NO_TROUBLE, NO_TROUBLE), all, labels))
       <==> (forall j, m :: 0 <= j < m < |all| ==> !(all[j].name <= all[m].name)) && forall m :: 0 <= m < |all| ==> HasNext(all[m].name)
  {
    hide Paginates, Server, Bucket;
    forall labels ensures Paginates(Server(all, labels, path, NO_TROUBLE, NO_TROUBLE), all, labels) <==> NothingLost(all, labels) {
      PresencePaginatesIff(all, labels, path);
    }
    var none: Labels := map[];
    assert Paginates(Server(all, none, path, NO_TROUBLE, NO_TROUBLE), all, none) <==> NothingLost(all, none);
    assert forall m :: 0 <= m < |all| ==> Matches(all[m], none);
  }

  const WEB := Node("web", map[], map[])
  const WEB2 := Node("web-2", map[], map[])

  const WEBS := [WEB, WEB2]

  lemma {:induction false} LeqPrefix(a: string, b: string)
    requires a <= b
    ensures Leq(a, b)
  {
    if a != [] { LeqPrefix(a[1..], b[1..]); }
  }

  lemma WebsBucket()
    ensures Bucket(WEBS) && "web" <= "web-2" && HasNext("web") && NextKey("web") == "wec"
  {
    BumpAt("web", 2);
    assert "web-2"[..3] == "web";
    LeqPrefix("web", "web-2");
  }

  lemma WebsMatch()
    ensures Filter(WEBS[..1], map[]) == [WEB] && Filter(WEBS, map[]) == WEBS
  {
    hide Filter;
    FilterEmpty(map[]);
    FilterStep([], WEB, map[]);
    FilterStep([WEB], WEB2, map[]);
    assert WEBS[..1] == [WEB] == [] + [WEB] && WEBS == [WEB] + [WEB2];
  }

  lemma EndPage(all: seq<Node>, labels: Labels, path: Path, limit: nat, startKey: string)
    requires Bucket(all) && limit > 0 && First(all, path, path + startKey) == |all|
    ensures ListNodes(all, labels, path, Request(limit, startKey)) == Page([], "")
  {
    hide Filter, First;
    IterateStep(all, labels, path, limit, path + startKey, []);
    assert Batch(all, |all|, limit) == [];
    FilterEmpty(labels);
    assert [] + Filter([], labels) == [];
  }

  /** The listing of "web" and "web-2" by single nodes, as after nine rejections: "web" with the key "wec", and
      from there nothing. The client ends with success and without "web-2". */
  lemma WebHidesWeb2(path: Path)
    ensures Bucket(WEBS) && Filter(WEBS, map[]) == WEBS
    ensures ListNodes(WEBS, map[], path, Request(1, "")) == Page([WEB], "wec")
    ensures ListNodes(WEBS, map[], path, Request(1, "wec")) == Page([], "")
  {
    hide Filter, First, Iterate, Bucket, NextKey;
    WebsBucket();
    WebsMatch();
    var more := FirstPage(WEBS, map[], path, 0);
    FirstPageKey(WEBS, map[], path, 0);
    StartAfter(WEBS, path, 0, 0);
    StartAfter(WEBS, path, 0, 1);
    FirstBound(WEBS, path, path + "wec");
    EndPage(WEBS, map[], path, 1, "wec");
  }
}
