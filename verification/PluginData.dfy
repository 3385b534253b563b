/** The per-plugin key-value store with compare-and-set updates (api/types/plugin_data.go). A nil
    map is the empty one. */
module PluginData {

  type Data = map<string, string>

  /** plugin -> key -> value, stored sparsely. */
  type Entries = map<string, Data>

  datatype Params = Params(kind: string, resource: string, plugin: string, updates: Data, wanted: Data)

  datatype Result = Ok | KindMismatch | ResourceMismatch | ExpectationFailed

  /** The store as a total map whose default is the empty string. */
  function Lookup(e: Entries, plugin: string, key: string): string {
    if plugin in e && key in e[plugin] then e[plugin][key] else ""
  }

  /** The resource whose data this is. */
  datatype Resource = Resource(kind: string, name: string)

  /** When an update goes through: kind, resource and every expectation match. */
  predicate Accepted(res: Resource, e: Entries, p: Params) {
    p.kind == res.kind && p.resource == res.name && forall k :: k in p.wanted ==> Lookup(e, p.plugin, k) == p.wanted[k]
  }

  function DataOf(e: Entries, plugin: string): Data {
    if plugin in e then e[plugin] else map[]
  }

  /** A key set to the empty string is deleted. */
  function Written(d: Data, updates: Data): Data {
    map k | k in d.Keys + updates.Keys && (k in updates ==> updates[k] != "") :: if k in updates then updates[k] else d[k]
  }

  function Updated(e: Entries, p: Params): Entries {
    var d := Written(DataOf(e, p.plugin), p.updates);
    if d == map[] then e - {p.plugin} else e[p.plugin := d]
  }

  lemma EntryReplaced(e: Entries, plugin: string, d: Data, d': Data)
    ensures e[plugin := d][plugin := d'] == e[plugin := d']
    ensures e[plugin := d'] - {plugin} == e - {plugin}
  {
  }

  class PluginDataV3 {
    const subKind: string
    const name: string
    var entries: Entries

    constructor (resourceName: string, resourceKind: string)
      ensures subKind == resourceKind && name == resourceName && entries == map[]
    {
      subKind, name, entries := resourceKind, resourceName, map[];
    }

    method CheckExpectations(plugin: string, wanted: Data) returns (ok: bool)
      ensures ok <==> forall k :: k in wanted ==> Lookup(entries, plugin, k) == wanted[k]
    {
      var todo := wanted.Keys;
      while todo != {}
        invariant todo <= wanted.Keys
        invariant forall k :: k in wanted && k !in todo ==> Lookup(entries, plugin, k) == wanted[k]
        decreases |todo|
      {
        var key :| key in todo;
        if plugin !in entries {
          // Without an entry only absent fields can be expected.
          if wanted[key] != "" {
            return false;
          }
        } else if (if key in entries[plugin] then entries[plugin][key] else "") != wanted[key] {
          return false;
        }
        todo := todo - {key};
      }
      return true;
    }

    /** `Update`, whose loop visits the keys of `Set` in any order: it succeeds exactly when kind,
        resource and every expectation match, and otherwise changes nothing. */
    method Update(p: Params) returns (r: Result)
      modifies this`entries
      ensures r == Ok <==> Accepted(Resource(subKind, name), old(entries), p)
      ensures r == KindMismatch <==> p.kind != subKind
      ensures r == ResourceMismatch <==> p.kind == subKind && p.resource != name
      ensures r == Ok <==> && p.kind == subKind && p.resource == name
                           && forall k :: k in p.wanted ==> Lookup(old(entries), p.plugin, k) == p.wanted[k]
      ensures entries == if r == Ok then Updated(old(entries), p) else old(entries)
    {
      hide Written, Lookup;
      if p.kind != subKind {
        return KindMismatch;
      }
      if p.resource != name {
        return ResourceMismatch;
      }
      var met := CheckExpectations(p.plugin, p.wanted);
      if !met {
        return ExpectationFailed;
      }
      if p.plugin !in entries {
        entries := entries[p.plugin := map[]];
      }
      var data := WriteAll(entries[p.plugin], p.updates);
      EntryReplaced(old(entries), p.plugin, map[], data);
      entries := entries[p.plugin := data];
      if data == map[] {
        entries := entries - {p.plugin};
      }
      r := Ok;
    }
  }

  /** `NewPluginData`: a resource name and kind are needed. */
  method NewPluginData(resourceName: string, resourceKind: string) returns (data: PluginDataV3?)
    ensures data != null <==> resourceName != "" && resourceKind != ""
    ensures data != null ==> fresh(data) && data.subKind == resourceKind && data.name == resourceName && data.entries == map[]
  {
    if resourceName == "" || resourceKind == "" {
      return null;
    }
    data := new PluginDataV3(resourceName, resourceKind);
  }

  /** What one turn of the loop over `Set` does. */
  function WriteOne(data: Data, key: string, val: string): Data {
    if val == "" then data - {key} else data[key := val]
  }

  function Without(updates: Data, todo: set<string>): Data {
    updates - todo
  }

  lemma WrittenStep(d: Data, updates: Data, todo: set<string>, key: string)
    requires key in todo && todo <= updates.Keys
    ensures Written(d, Without(updates, todo - {key})) == WriteOne(Written(d, Without(updates, todo)), key, updates[key])
  {
    var done := updates - todo;
    assert updates - (todo - {key}) == done[key := updates[key]];
  }

  lemma WrittenEnds(d: Data, updates: Data)
    ensures Written(d, Without(updates, updates.Keys)) == d && Without(updates, {}) == updates
  {
  }

  method WriteAll(d: Data, updates: Data) returns (data: Data)
    ensures data == Written(d, updates)
  {
    data := d;
    var todo := updates.Keys;
    hide Written, Without, WriteOne;
    WrittenEnds(d, updates);
    while todo != {}
      invariant todo <= updates.Keys && data == Written(d, Without(updates, todo))
      decreases |todo|
    {
      var key :| key in todo;
      WrittenStep(d, updates, todo, key);
      data := WriteOne(data, key, updates[key]);
      todo := todo - {key};
    }
  }

  // ---- refinement of a total map ----

  /** Nothing empty is stored. */
  ghost predicate Sparse(e: Entries) {
    forall p :: p in e ==> e[p] != map[] && forall k :: k in e[p] ==> e[p][k] != ""
  }

  /** The effect of a successful update is pointwise override, and it keeps the store sparse. */
  lemma UpdatedLookup(e: Entries, p: Params)
    ensures forall q, k :: Lookup(Updated(e, p), q, k) == if q == p.plugin && k in p.updates then p.updates[k] else Lookup(e, q, k)
    ensures Sparse(e) ==> Sparse(Updated(e, p))
  {
    var d := Written(DataOf(e, p.plugin), p.updates);
    forall q, k
      ensures Lookup(Updated(e, p), q, k) == if q == p.plugin && k in p.updates then p.updates[k] else Lookup(e, q, k)
    {
      if q == p.plugin && d == map[] && k in DataOf(e, p.plugin) {
        assert k !in d;
      }
    }
  }

  /** What looking up means on the stored maps. */
  lemma LookupMeans(e: Entries, plugin: string, key: string)
    ensures plugin in e && key in e[plugin] ==> Lookup(e, plugin, key) == e[plugin][key]
    ensures plugin !in e || key !in e[plugin] ==> Lookup(e, plugin, key) == ""
  {
  }

  /** What a successful update leaves stored: of the plugin's entry exactly the fields that are set to something or that
      were there and are not set, if there are any; other plugins' entries as they were. */
  lemma UpdatedMeans(e: Entries, p: Params)
    ensures forall q :: q != p.plugin ==> (q in Updated(e, p) <==> q in e) && (q in e ==> Updated(e, p)[q] == e[q])
    ensures var stored := Updated(e, p);
            var had := if p.plugin in e then e[p.plugin] else map[];
            && (p.plugin in stored <==>
                  exists k :: (k in p.updates && p.updates[k] != "") || (k in had && k !in p.updates))
            && (p.plugin in stored ==> forall k ::
                  && (k in stored[p.plugin] <==> (k in p.updates && p.updates[k] != "") || (k in had && k !in p.updates))
                  && (k in stored[p.plugin] ==> stored[p.plugin][k] == if k in p.updates then p.updates[k] else had[k]))
  {
    var d := Written(DataOf(e, p.plugin), p.updates);
    var had := if p.plugin in e then e[p.plugin] else map[];
    assert forall k :: k in d <==> (k in p.updates && p.updates[k] != "") || (k in had && k !in p.updates);
    if d != map[] { var k :| k in d; }
  }

  /** A sparse store holds no more than its total map says: equal maps mean equal stores. */
  lemma SparseIsCanonical(a: Entries, b: Entries)
    requires Sparse(a) && Sparse(b) && forall q, k :: Lookup(a, q, k) == Lookup(b, q, k)
    ensures a == b
  {
    SameEntry(a, b);
    SameEntry(b, a);
  }

  lemma SameEntry(a: Entries, b: Entries)
    requires Sparse(a) && Sparse(b) && forall q, k :: Lookup(a, q, k) == Lookup(b, q, k)
    ensures forall q :: q in a ==> q in b && a[q] == b[q]
  {
    forall q | q in a
      ensures q in b && a[q] == b[q]
    {
      var k :| k in a[q];
      assert Lookup(b, q, k) == Lookup(a, q, k) != "";
      forall k | k in a[q] ensures k in b[q] && b[q][k] == a[q][k] {
        assert Lookup(b, q, k) == Lookup(a, q, k) != "";
      }
      forall k | k in b[q] ensures k in a[q] {
        assert Lookup(a, q, k) == Lookup(b, q, k) != "";
      }
    }
  }

  // ---- every run ----

  function Exec(res: Resource, e: Entries, ops: seq<Params>): Entries {
    if ops == [] then e
    else
      var before := Exec(res, e, ops[..|ops| - 1]);
      if Accepted(res, before, ops[|ops| - 1]) then Updated(before, ops[|ops| - 1]) else before
  }

  type TotalMap = (string, string) -> string

  ghost predicate TotalAccepted(res: Resource, f: TotalMap, p: Params) {
    p.kind == res.kind && p.resource == res.name && forall k :: k in p.wanted ==> f(p.plugin, k) == p.wanted[k]
  }

  ghost function TotalExec(res: Resource, f: TotalMap, ops: seq<Params>): TotalMap {
    if ops == [] then f
    else
      var g := TotalExec(res, f, ops[..|ops| - 1]);
      var p := ops[|ops| - 1];
      if TotalAccepted(res, g, p) then (q, k) => if q == p.plugin && k in p.updates then p.updates[k] else g(q, k) else g
  }

  ghost predicate Refines(e: Entries, f: TotalMap) {
    forall q, k :: Lookup(e, q, k) == f(q, k)
  }

  /** From a new store every run stays sparse and refines the same run of a total map that starts out
      empty everywhere; so what is stored depends only on that map. */
  lemma {:induction false} RunRefines(res: Resource, ops: seq<Params>)
    ensures Sparse(Exec(res, map[], ops))
    ensures Refines(Exec(res, map[], ops), TotalExec(res, (_, _) => "", ops))
    decreases |ops|
  {
    if ops != [] {
      var p := ops[|ops| - 1];
      RunRefines(res, ops[..|ops| - 1]);
      var e := Exec(res, map[], ops[..|ops| - 1]);
      var f := TotalExec(res, (_, _) => "", ops[..|ops| - 1]);
      assert Accepted(res, e, p) <==> TotalAccepted(res, f, p) by {
        assert forall k :: Lookup(e, p.plugin, k) == f(p.plugin, k);
      }
      UpdatedLookup(e, p);
    }
  }

  // ---- compare and set ----

  /** Updates that compete for the same state: same plugin and expectations, and each would change an
      expected key. */
  ghost predicate Competing(ops: seq<Params>, plugin: string, wanted: Data) {
    forall i :: 0 <= i < |ops| ==> ops[i].plugin == plugin && ops[i].wanted == wanted && Changes(ops[i])
  }

  ghost predicate Changes(p: Params) {
    exists k :: k in p.wanted && k in p.updates && p.updates[k] != p.wanted[k]
  }

  function Successes(res: Resource, e: Entries, ops: seq<Params>): nat {
    if ops == [] then 0
    else
      var before := ops[..|ops| - 1];
      Successes(res, e, before) + if Accepted(res, Exec(res, e, before), ops[|ops| - 1]) then 1 else 0
  }

  /** However many competing updates are made, at most one succeeds. */
  lemma {:induction false} AtMostOneWins(res: Resource, e: Entries, ops: seq<Params>, plugin: string, wanted: Data)
    requires Competing(ops, plugin, wanted)
    ensures Successes(res, e, ops) <= 1
    ensures Successes(res, e, ops) == 1 ==> exists k :: k in wanted && Lookup(Exec(res, e, ops), plugin, k) != wanted[k]
    decreases |ops|
  {
    if ops != [] {
      var before, p := ops[..|ops| - 1], ops[|ops| - 1];
      AtMostOneWins(res, e, before, plugin, wanted);
      var s := Exec(res, e, before);
      if Accepted(res, s, p) {
        UpdatedLookup(s, p);
        assert Changes(p);
        var k :| k in p.wanted && k in p.updates && p.updates[k] != p.wanted[k];
        assert Lookup(Exec(res, e, ops), plugin, k) == p.updates[k];
      }
    }
  }
}
