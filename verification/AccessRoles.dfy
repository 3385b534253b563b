/** The order of strings used by sort.Strings, and sorting by it. */
module StringOrder {

  predicate Leq(a: string, b: string) {
    a == [] || (b != [] && (a[0] < b[0] || (a[0] == b[0] && Leq(a[1..], b[1..]))))
  }

  /** The order is that of the first difference; a string comes before those that extend it. */
  lemma {:induction false} LeqMeans(a: string, b: string, i: nat)
    requires i <= |a| && i <= |b| && a[..i] == b[..i]
    ensures i == |a| ==> Leq(a, b)
    ensures i < |a| && i < |b| && a[i] != b[i] ==> (Leq(a, b) <==> a[i] < b[i])
    ensures i < |a| && i == |b| ==> !Leq(a, b)
  {
    if i > 0 {
      assert a[0] == a[..i][0] == b[..i][0] == b[0];
      assert a[1..][..i - 1] == a[..i][1..] == b[..i][1..] == b[1..][..i - 1];
      LeqMeans(a[1..], b[1..], i - 1);
    }
  }

  lemma {:induction false} LeqTotal(a: string, b: string)
    ensures Leq(a, b) || Leq(b, a)
  {
    if a != [] && b != [] { LeqTotal(a[1..], b[1..]); }
  }

  lemma {:induction false} LeqAntisymmetric(a: string, b: string)
    requires Leq(a, b) && Leq(b, a)
    ensures a == b
  {
    if a != [] {
      LeqAntisymmetric(a[1..], b[1..]);
      assert a == [a[0]] + a[1..] && b == [b[0]] + b[1..];
    }
  }

  lemma {:induction false} LeqTransitive(a: string, b: string, c: string)
    requires Leq(a, b) && Leq(b, c)
    ensures Leq(a, c)
  {
    if a != [] && a[0] == b[0] == c[0] { LeqTransitive(a[1..], b[1..], c[1..]); }
  }

  ghost predicate Sorted(s: seq<string>) {
    forall i, j :: 0 <= i < j < |s| ==> Leq(s[i], s[j])
  }

  ghost predicate Distinct(s: seq<string>) {
    forall i, j :: 0 <= i < j < |s| ==> s[i] != s[j]
  }

  function Elements(s: seq<string>): set<string> {
    set x | x in s
  }

  function Insert(s: seq<string>, x: string): seq<string> {
    if s == [] || Leq(x, s[0]) then [x] + s else [s[0]] + Insert(s[1..], x)
  }

  /** `sort.Strings` */
  function Sort(s: seq<string>): seq<string> {
    if s == [] then [] else Insert(Sort(s[1..]), s[0])
  }

  lemma {:induction false} InsertSorts(s: seq<string>, x: string)
    requires Sorted(s)
    ensures Sorted(Insert(s, x)) && multiset(Insert(s, x)) == multiset(s) + multiset{x}
  {
    if s == [] {
    } else if Leq(x, s[0]) {
      forall j | 0 <= j < |s| ensures Leq(x, s[j]) {
        if j > 0 { LeqTransitive(x, s[0], s[j]); }
      }
    } else {
      LeqTotal(x, s[0]);
      InsertSorts(s[1..], x);
      assert s == [s[0]] + s[1..];
      var r := Insert(s[1..], x);
      forall j | 0 <= j < |r| ensures Leq(s[0], r[j]) {
        assert r[j] in multiset(r);
        assert r[j] in s[1..] || r[j] == x;
      }
    }
  }

  lemma {:induction false} SortSorts(s: seq<string>)
    ensures Sorted(Sort(s)) && multiset(Sort(s)) == multiset(s)
  {
    if s != [] {
      SortSorts(s[1..]);
      InsertSorts(Sort(s[1..]), s[0]);
      assert s == [s[0]] + s[1..];
    }
  }

  /** The same contents: same elements, and distinct if the other is. */
  lemma SamePerm(s: seq<string>, t: seq<string>)
    requires multiset(s) == multiset(t)
    ensures Elements(s) == Elements(t) && |s| == |t| && (Distinct(s) ==> Distinct(t))
  {
    assert forall x :: x in s <==> x in multiset(s);
    assert forall x :: x in t <==> x in multiset(t);
    assert |multiset(s)| == |multiset(t)|;
    if Distinct(s) {
      DistinctCount(s);
      CountDistinct(t);
    }
  }

  lemma {:induction false} DistinctCount(s: seq<string>)
    requires Distinct(s)
    ensures forall x :: x in s ==> multiset(s)[x] == 1
  {
    if s != [] {
      DistinctCount(s[1..]);
      assert s == [s[0]] + s[1..];
      assert s[0] !in s[1..];
    }
  }

  lemma CountedTwice(s: seq<string>, i: nat, j: nat)
    requires i < j < |s| && s[i] == s[j]
    ensures multiset(s)[s[i]] >= 2
  {
    assert s == s[..i] + [s[i]] + s[i + 1..j] + [s[j]] + s[j + 1..];
  }

  lemma CountDistinct(s: seq<string>)
    requires forall x :: x in s ==> multiset(s)[x] == 1
    ensures Distinct(s)
  {
    forall i, j | 0 <= i < j < |s| ensures s[i] != s[j] {
      if s[i] == s[j] { CountedTwice(s, i, j); }
    }
  }

  /** A sorted list without duplicates is determined by its elements. */
  lemma {:induction false} SortedDistinctUnique(s: seq<string>, t: seq<string>)
    requires Sorted(s) && Sorted(t) && Distinct(s) && Distinct(t) && Elements(s) == Elements(t)
    ensures s == t
  {
    if s == [] {
      DistinctSize(t);
    } else {
      assert s[0] in Elements(t);
      assert t != [];
      assert t[0] in Elements(s);
      var i :| 0 <= i < |t| && t[i] == s[0];
      var j :| 0 <= j < |s| && s[j] == t[0];
      LeqRefl(s[0]);
      LeqRefl(t[0]);
      assert Leq(t[0], s[0]) && Leq(s[0], t[0]);
      LeqAntisymmetric(s[0], t[0]);
      ElementsTail(s);
      ElementsTail(t);
      SortedDistinctUnique(s[1..], t[1..]);
      assert s == [s[0]] + s[1..] && t == [t[0]] + t[1..];
    }
  }

  lemma LeqRefl(a: string)
    ensures Leq(a, a)
  {
    LeqTotal(a, a);
  }

  lemma ElementsTail(s: seq<string>)
    requires s != [] && Distinct(s)
    ensures Elements(s[1..]) == Elements(s) - {s[0]}
  {
    assert forall x :: x in s <==> x == s[0] || x in s[1..];
  }

  lemma {:induction false} DistinctSize(s: seq<string>)
    requires Distinct(s)
    ensures |Elements(s)| == |s|
  {
    if s != [] {
      ElementsTail(s);
      DistinctSize(s[1..]);
      assert s[0] in Elements(s);
    }
  }

  lemma SubsetSize(a: set<string>, b: set<string>)
    requires a <= b && |a| == |b|
    ensures a == b
  {
    if a != b {
      var x :| x in b && x !in a;
      SubsetCard(a, b - {x});
    }
  }

  lemma {:induction false} SubsetCard(a: set<string>, b: set<string>)
    requires a <= b
    ensures |a| <= |b|
    decreases |a|
  {
    if a != {} {
      var x :| x in a;
      SubsetCard(a - {x}, b - {x});
    }
  }
}

/** Role lists of access requests (api/types/access_request.go, api/utils/slices.go). */
module AccessRoles {
  import opened StringOrder

  /** `utils.Deduplicate`: the first occurrence of each value. */
  method Deduplicate(xs: seq<string>) returns (out: seq<string>)
    ensures out == Dedup(xs)
  {
    if |xs| == 0 {
      return xs;
    }
    out := [];
    var seen: set<string> := {};
    for i := 0 to |xs|
      invariant out == Dedup(xs[..i]) && seen == Elements(xs[..i])
    {
      assert xs[..i + 1][..i] == xs[..i];
      if xs[i] !in seen {
        out := out + [xs[i]];
        seen := seen + {xs[i]};
      }
    }
    assert xs[..|xs|] == xs;
  }

  function Dedup(xs: seq<string>): seq<string> {
    if xs == [] then []
    else
      var n := |xs| - 1;
      Dedup(xs[..n]) + if xs[n] in xs[..n] then [] else [xs[n]]
  }

  lemma {:induction false} DedupDistinct(xs: seq<string>)
    ensures Distinct(Dedup(xs)) && Elements(Dedup(xs)) == Elements(xs)
  {
    if xs != [] {
      var n := |xs| - 1;
      DedupDistinct(xs[..n]);
      assert xs == xs[..n] + [xs[n]];
      assert forall x :: x in Dedup(xs[..n]) <==> x in Elements(Dedup(xs[..n]));
      assert forall x :: x in xs[..n] <==> x in Elements(xs[..n]);
    }
  }

  /** Where a value first occurs, or the length. */
  function FirstIndex(xs: seq<string>, x: string): (i: nat)
    ensures i <= |xs| && (i < |xs| ==> xs[i] == x) && forall j :: 0 <= j < i ==> xs[j] != x
  {
    if xs == [] || xs[0] == x then 0 else 1 + FirstIndex(xs[1..], x)
  }

  lemma FirstIndexUnique(xs: seq<string>, i: nat)
    requires i < |xs| && forall j :: 0 <= j < i ==> xs[j] != xs[i]
    ensures FirstIndex(xs, xs[i]) == i
  {
  }

  lemma FirstIndexPrefix(xs: seq<string>, n: nat, x: string)
    requires n <= |xs| && x in xs[..n]
    ensures FirstIndex(xs, x) == FirstIndex(xs[..n], x) < n
  {
    var i := FirstIndex(xs[..n], x);
    var front := xs[..n];
    assert forall j :: 0 <= j < n ==> front[j] == xs[j];
    FirstIndexUnique(xs, i);
  }

  /** The survivors are the values in the order of their first occurrences. */
  lemma {:induction false} DedupOrder(xs: seq<string>)
    ensures forall i, j :: 0 <= i < j < |Dedup(xs)| ==> FirstIndex(xs, Dedup(xs)[i]) < FirstIndex(xs, Dedup(xs)[j])
    ensures Elements(Dedup(xs)) == Elements(xs)
  {
    DedupDistinct(xs);
    if xs != [] {
      var n := |xs| - 1;
      var before, all := Dedup(xs[..n]), Dedup(xs);
      DedupOrder(xs[..n]);
      assert all == if xs[n] in xs[..n] then before else before + [xs[n]];
      hide Dedup, FirstIndex;
      forall k | 0 <= k < |before| ensures before[k] in xs[..n] {
        assert before[k] in Elements(before);
      }
      forall i, j | 0 <= i < j < |all| ensures FirstIndex(xs, all[i]) < FirstIndex(xs, all[j]) {
        DedupOrderAt(xs, before, all, i, j);
      }
    }
  }

  lemma FirstIndexLast(xs: seq<string>, n: nat)
    requires n < |xs| && xs[n] !in xs[..n]
    ensures FirstIndex(xs, xs[n]) == n
  {
    var front := xs[..n];
    assert forall k :: 0 <= k < n ==> front[k] == xs[k] && front[k] in front;
    FirstIndexUnique(xs, n);
  }

  lemma DedupOrderAt(xs: seq<string>, before: seq<string>, all: seq<string>, i: nat, j: nat)
    requires xs != [] && i < j < |all|
    requires var n := |xs| - 1;
             && all == (if xs[n] in xs[..n] then before else before + [xs[n]])
             && (forall k :: 0 <= k < |before| ==> before[k] in xs[..n])
             && forall k, l :: 0 <= k < l < |before| ==> FirstIndex(xs[..n], before[k]) < FirstIndex(xs[..n], before[l])
    ensures FirstIndex(xs, all[i]) < FirstIndex(xs, all[j])
  {
    hide FirstIndex;
    var n := |xs| - 1;
    FirstIndexPrefix(xs, n, before[i]);
    if j < |before| {
      FirstIndexPrefix(xs, n, before[j]);
    } else {
      FirstIndexLast(xs, n);
    }
  }

  /** What `CheckAndSetDefaults` makes of a role list. */
  function Normal(roles: seq<string>): seq<string> {
    Sort(Dedup(roles))
  }

  lemma NormalForm(roles: seq<string>)
    ensures var r := Normal(roles); Sorted(r) && Distinct(r) && Elements(r) == Elements(roles)
  {
    DedupDistinct(roles);
    SortSorts(Dedup(roles));
    SamePerm(Dedup(roles), Normal(roles));
  }

  /** Two lists normalise alike exactly when they name the same roles; so normalising is idempotent. */
  lemma NormalEqualIff(a: seq<string>, b: seq<string>)
    ensures Normal(a) == Normal(b) <==> Elements(a) == Elements(b)
    ensures Normal(Normal(a)) == Normal(a)
  {
    NormalForm(a);
    NormalForm(b);
    NormalForm(Normal(a));
    SortedDistinctUnique(Normal(Normal(a)), Normal(a));
    if Elements(a) == Elements(b) {
      SortedDistinctUnique(Normal(a), Normal(b));
    }
  }

  datatype RequestState = NoState | Pending | Approved | Denied

  /** The fields that decide about a request; `thresholdRoles` are the keys of the role threshold mapping. */
  class AccessRequestV3 {
    var state: RequestState
    var resolveReason: string
    var resolveAnnotations: map<string, seq<string>>
    var user: string
    var roles: seq<string>
    var thresholdRoles: set<string>

    constructor (user: string, roles: seq<string>)
      ensures this.user == user && this.roles == roles && thresholdRoles == {}
      ensures state == NoState && resolveReason == "" && resolveAnnotations == map[]
    {
      this.state, this.resolveReason, this.resolveAnnotations := NoState, "", map[];
      this.user, this.roles, this.thresholdRoles := user, roles, {};
    }

    /** `CheckAndSetDefaults`, given whether the check of the metadata passes: a missing state becomes pending even if
        a later check fails. */
    method CheckAndSetDefaults(metadataOk: bool) returns (ok: bool)
      modifies this`roles, this`state
      ensures ok <==> && metadataOk && user != "" && old(roles) != []
                      && (state == Pending ==> resolveReason == "" && resolveAnnotations == map[])
      ensures state == if metadataOk && old(state) == NoState then Pending else old(state)
      ensures roles == if ok then Normal(old(roles)) else old(roles)
    {
      if !metadataOk {
        return false;
      }
      if state == NoState {
        state := Pending;
      }
      if state == Pending {
        if resolveReason != "" {
          return false;
        }
        if |resolveAnnotations| != 0 {
          return false;
        }
      }
      if user == "" || |roles| < 1 {
        return false;
      }
      roles := Deduplicate(roles);
      roles := Sort(roles);
      return true;
    }

    /** `GetOriginalRoles`; the mapping's keys come in any order and are sorted. */
    method GetOriginalRoles() returns (r: seq<string>)
      ensures r == OriginalRoles(roles, thresholdRoles)
      ensures thresholdRoles == {} || |thresholdRoles| == |roles| ==> r == roles
      ensures thresholdRoles != {} && |thresholdRoles| != |roles| ==> Sorted(r) && Distinct(r) && Elements(r) == thresholdRoles
    {
      if |thresholdRoles| == 0 || |thresholdRoles| == |roles| {
        return roles;
      }
      var collected: seq<string> := [];
      var todo := thresholdRoles;
      while todo != {}
        invariant todo <= thresholdRoles && Distinct(collected) && Elements(collected) == thresholdRoles - todo
        decreases |todo|
      {
        var role :| role in todo;
        assert forall x :: x in collected <==> x in Elements(collected);
        collected := collected + [role];
        todo := todo - {role};
      }
      SortSorts(collected);
      SamePerm(collected, Sort(collected));
      SortedKeysUnique(Sort(collected), thresholdRoles);
      r := Sort(collected);
    }
  }

  ghost predicate IsListing(s: seq<string>, keys: set<string>) {
    Sorted(s) && Distinct(s) && Elements(s) == keys
  }

  /** The one sorted listing of a set. */
  ghost function SortedKeys(keys: set<string>): (s: seq<string>)
    ensures IsListing(s, keys)
  {
    ListingExists(keys);
    var s :| IsListing(s, keys);
    s
  }

  lemma {:induction false} ListingExists(keys: set<string>)
    ensures exists s :: IsListing(s, keys)
    decreases |keys|
  {
    if keys == {} {
      assert IsListing([], keys);
    } else {
      var x :| x in keys;
      ListingExists(keys - {x});
      var s :| IsListing(s, keys - {x});
      NormalForm(s + [x]);
      assert forall y :: y in s <==> y in Elements(s);
      assert Elements(s + [x]) == keys;
      assert IsListing(Normal(s + [x]), keys);
    }
  }

  lemma SortedKeysUnique(s: seq<string>, keys: set<string>)
    requires IsListing(s, keys)
    ensures s == SortedKeys(keys)
  {
    SortedDistinctUnique(s, SortedKeys(keys));
  }

  ghost function OriginalRoles(roles: seq<string>, keys: set<string>): seq<string> {
    if |keys| == 0 || |keys| == |roles| then roles else SortedKeys(keys)
  }

  /** When the mapping's keys are the original roles, the original list comes back exactly if the current list
      is that list, or has another length while there are keys. The shortcut gives the wrong list for
      other roles of the same number, or when there are no keys. */
  lemma OriginalRolesRecoveredIff(original: seq<string>, current: seq<string>)
    requires Normal(original) == original && Normal(current) == current
    ensures OriginalRoles(current, Elements(original)) == original
       <==> current == original || (original != [] && |current| != |original|)
  {
    NormalForm(original);
    DistinctSize(original);
    SortedKeysUnique(original, Elements(original));
  }

  /** So it comes back, from the shortcut as from the rebuild, whenever the current list is a normalised
      selection of the original roles. */
  lemma OriginalRolesRecovered(original: seq<string>, current: seq<string>)
    requires Normal(original) == original && Normal(current) == current && Elements(current) <= Elements(original)
    ensures OriginalRoles(current, Elements(original)) == original
  {
    NormalForm(original);
    NormalForm(current);
    DistinctSize(original);
    DistinctSize(current);
    OriginalRolesRecoveredIff(original, current);
    if |current| == |original| {
      SubsetSize(Elements(current), Elements(original));
      SortedDistinctUnique(current, original);
    } else {
      SubsetCard(Elements(current), Elements(original));
    }
  }
}
