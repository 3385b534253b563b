/** Splitting on and joining with the document separator, as bytes.Split and bytes.Join do. The
    separator overlaps itself: its last byte is its first. */
module Separator {
  import opened Bytes

  const SEP := Ascii("\n---\n")

  /** A separator starts at `j`. */
  predicate SepAt(s: bytes, j: nat) {
    j + |SEP| <= |s| && s[j..j + |SEP|] == SEP
  }

  /** Where the first separator starts, or the length if there is none. */
  function Cut(s: bytes): (i: nat)
    ensures i <= |s|
  {
    if s == [] || SepAt(s, 0) then 0 else 1 + Cut(s[1..])
  }

  lemma SepAtTail(s: bytes, j: nat)
    requires s != []
    ensures SepAt(s[1..], j) <==> SepAt(s, j + 1)
  {
    if j + 1 + |SEP| <= |s| {
      assert s[1..][j..j + |SEP|] == s[j + 1..j + 1 + |SEP|];
    }
  }

  lemma {:induction false} CutFirst(s: bytes)
    ensures Cut(s) < |s| ==> SepAt(s, Cut(s))
    ensures forall j :: 0 <= j < Cut(s) ==> !SepAt(s, j)
  {
    hide SepAt;
    if s != [] && !SepAt(s, 0) {
      CutFirst(s[1..]);
      forall j | 0 <= j < |s| - 1 ensures SepAt(s[1..], j) <==> SepAt(s, j + 1) {
        SepAtTail(s, j);
      }
      forall j | 0 < j < Cut(s) ensures !SepAt(s, j) {
        SepAtTail(s, j - 1);
      }
    }
  }

  lemma CutUnique(s: bytes, i: nat)
    requires SepAt(s, i) && forall j :: 0 <= j < i ==> !SepAt(s, j)
    ensures Cut(s) == i
  {
    CutFirst(s);
    assert i < |s|;
    hide SepAt;
  }

  function Split(s: bytes): (cs: seq<bytes>)
    ensures cs != []
    decreases |s|
  {
    CutFirst(s);
    var i := Cut(s);
    if i == |s| then [s] else [s[..i]] + Split(s[i + |SEP|..])
  }

  function Join(cs: seq<bytes>): bytes {
    if cs == [] then []
    else if |cs| == 1 then cs[0]
    else cs[0] + SEP + Join(cs[1..])
  }

  /** No separator starts in `c` when one follows it. */
  predicate Closed(c: bytes) {
    Cut(c + SEP) == |c|
  }

  /** The lists of chunks that splitting can give back. */
  predicate Clean(cs: seq<bytes>) {
    if cs == [] then false
    else if |cs| == 1 then Cut(cs[0]) == |cs[0]|
    else Closed(cs[0]) && Clean(cs[1..])
  }

  lemma SepAtPrefix(s: bytes, rest: bytes, j: nat)
    requires j + |SEP| <= |s|
    ensures SepAt(s + rest, j) <==> SepAt(s, j)
  {
    assert (s + rest)[j..j + |SEP|] == s[j..j + |SEP|];
  }

  /** What follows the separator does not matter: no separator can start earlier than in `c + SEP`. */
  lemma CutThrough(c: bytes, rest: bytes)
    ensures Cut(c + SEP + rest) == Cut(c + SEP) <= |c|
  {
    var t := c + SEP;
    assert t[|c|..|c| + |SEP|] == SEP;
    assert SepAt(t, |c|);
    CutFirst(t);
    hide SepAt;
    var i := Cut(t);
    forall j | 0 <= j <= i ensures SepAt(t + rest, j) <==> SepAt(t, j) {
      SepAtPrefix(t, rest, j);
    }
    CutUnique(t + rest, i);
  }

  lemma ClosedAlone(c: bytes)
    requires Closed(c)
    ensures Cut(c) == |c|
  {
    CutFirst(c);
    CutFirst(c + SEP);
    if Cut(c) < |c| { SepAtPrefix(c, SEP, Cut(c)); }
  }

  lemma ApartAt(s: bytes, i: nat)
    requires SepAt(s, i)
    ensures i + |SEP| <= |s| && s == s[..i] + SEP + s[i + |SEP|..]
  {
    assert s == s[..i] + s[i..i + |SEP|] + s[i + |SEP|..];
  }

  /** A text with a separator is its part before the first one, the separator and the rest. */
  lemma CutApart(s: bytes)
    requires Cut(s) < |s|
    ensures Cut(s) + |SEP| <= |s| && s == s[..Cut(s)] + SEP + s[Cut(s) + |SEP|..] && Closed(s[..Cut(s)])
  {
    hide Cut, SepAt;
    CutFirst(s);
    ApartAt(s, Cut(s));
    CutThrough(s[..Cut(s)], s[Cut(s) + |SEP|..]);
  }

  /** Joining undoes splitting, for every input. */
  lemma {:induction false} JoinSplit(s: bytes)
    ensures Join(Split(s)) == s
    decreases |s|
  {
    hide Cut, Closed;
    var i := Cut(s);
    if i < |s| {
      CutApart(s);
      JoinSplit(s[i + |SEP|..]);
      assert Split(s)[0] == s[..i] && Split(s)[1..] == Split(s[i + |SEP|..]);
    }
  }

  lemma {:induction false} SplitClean(s: bytes)
    ensures Clean(Split(s))
    decreases |s|
  {
    hide Cut, Closed;
    var i := Cut(s);
    if i < |s| {
      CutApart(s);
      SplitClean(s[i + |SEP|..]);
      assert Split(s)[0] == s[..i] && Split(s)[1..] == Split(s[i + |SEP|..]);
    }
  }

  lemma SplitStep(c: bytes, rest: bytes)
    requires Closed(c)
    ensures Split(c + SEP + rest) == [c] + Split(rest)
  {
    CutThrough(c, rest);
    hide Cut;
    var s := c + SEP + rest;
    assert s[..|c|] == c && s[|c| + |SEP|..] == rest;
  }

  lemma {:induction false} SplitJoin(cs: seq<bytes>)
    requires Clean(cs)
    ensures Split(Join(cs)) == cs
  {
    hide Cut, Closed;
    if |cs| > 1 {
      SplitJoin(cs[1..]);
      SplitStep(cs[0], Join(cs[1..]));
      assert cs == [cs[0]] + cs[1..];
    }
  }

  /** Joining puts one line of three dashes, with the ends of line around it, between neighbours. */
  lemma {:induction false} JoinMeans(cs: seq<bytes>, c: bytes)
    ensures Join([]) == [] && Join([c]) == c
    ensures cs != [] ==> Join(cs + [c]) == Join(cs) + [10, 45, 45, 45, 10] + c
  {
    assert SEP == [10, 45, 45, 45, 10];
    if |cs| == 1 {
      assert cs + [c] == [cs[0], c];
    } else if |cs| > 1 {
      JoinMeans(cs[1..], c);
      assert (cs + [c])[1..] == cs[1..] + [c];
    }
  }

  /** Splitting undoes joining exactly for the clean lists of chunks. */
  lemma SplitJoinIff(cs: seq<bytes>)
    ensures Split(Join(cs)) == cs <==> Clean(cs)
  {
    if Clean(cs) { SplitJoin(cs); } else { SplitClean(Join(cs)); }
  }
}

/** Merging generated pipelines into an existing file (dronegen/main.go), for any YAML codec. */
module Pipelines {
  import opened Bytes
  import opened Options
  import opened Separator

  datatype Pipeline = Pipeline(name: string, comment: bytes, definition: bytes)

  /** `unmarshal` gives the name of a chunk that is a pipeline; `marshal` may fail. */
  datatype Yaml = Yaml(unmarshal: bytes -> Option<string>, marshal: Pipeline -> Option<bytes>)

  datatype Parsed = Parsed(name: string, raw: bytes)

  datatype Outcome = Written(data: bytes) | ParseFailed | EncodeFailed | Missing(names: set<string>)

  const SIGNATURE := Ascii("kind: signature")

  predicate IsSignature(c: bytes) { HasPrefix(c, SIGNATURE) }

  // ---- what the merge means ----

  /** The pipelines of a list of chunks; signatures are discarded. */
  function Parse(yaml: Yaml, cs: seq<bytes>): Option<seq<Parsed>> {
    if cs == [] then Some([])
    else
      var n := |cs| - 1;
      var c := cs[n];
      var before := Parse(yaml, cs[..n]);
      if before.None? || IsSignature(c) then before
      else
        match yaml.unmarshal(c)
        case None => None
        case Some(name) => Some(before.value + [Parsed(name, c)])
  }

  /** The generated pipelines by name: unnamed ones are skipped and later ones win. */
  function ByName(ps: seq<Pipeline>): (m: map<string, Pipeline>)
    ensures "" !in m && forall n :: n in m ==> m[n].name == n
  {
    if ps == [] then map[]
    else
      var p := ps[|ps| - 1];
      var m := ByName(ps[..|ps| - 1]);
      if p.name == "" then m else m[p.name := p]
  }

  predicate FirstOfName(ps: seq<Parsed>, i: nat)
    requires i < |ps|
  {
    forall j :: 0 <= j < i ==> ps[j].name != ps[i].name
  }

  function Names(ps: seq<Parsed>): set<string> {
    set i | 0 <= i < |ps| :: ps[i].name
  }

  predicate Replaced(ps: seq<Parsed>, generated: map<string, Pipeline>, i: nat)
    requires i < |ps|
  {
    ps[i].name in generated && FirstOfName(ps, i)
  }

  function Rendered(yaml: Yaml, p: Pipeline): Option<bytes> {
    match yaml.marshal(p)
    case None => None
    case Some(out) => Some(p.comment + out)
  }

  /** The text of chunk `i` after the merge: only the first chunk of a generated name changes. */
  function MergedRaw(yaml: Yaml, ps: seq<Parsed>, generated: map<string, Pipeline>, i: nat): bytes
    requires i < |ps|
  {
    if Replaced(ps, generated, i) && Rendered(yaml, generated[ps[i].name]).Some? then Rendered(yaml, generated[ps[i].name]).value else ps[i].raw
  }

  function MergedRaws(yaml: Yaml, ps: seq<Parsed>, generated: map<string, Pipeline>): seq<bytes> {
    seq(|ps|, i requires 0 <= i < |ps| => MergedRaw(yaml, ps, generated, i))
  }

  ghost predicate Encodes(yaml: Yaml, ps: seq<Parsed>, generated: map<string, Pipeline>) {
    forall i :: 0 <= i < |ps| && Replaced(ps, generated, i) ==> yaml.marshal(generated[ps[i].name]).Some?
  }

  /** The merge succeeds exactly when every chunk but signatures parses, every replacement can be
      encoded and every generated name occurs in the file. */
  ghost function Merge(yaml: Yaml, data: bytes, generated: map<string, Pipeline>): Outcome {
    match Parse(yaml, Split(data))
    case None => ParseFailed
    case Some(ps) =>
      if !Encodes(yaml, ps, generated) then EncodeFailed
      else if !(generated.Keys <= Names(ps)) then Missing(generated.Keys - Names(ps))
      else Written(Join(MergedRaws(yaml, ps, generated)))
  }

  // ---- the loops ----

  method ParsePipelines(yaml: Yaml, data: bytes) returns (r: Option<seq<Parsed>>)
    ensures r == Parse(yaml, Split(data))
  {
    var chunks := Split(data);
    var pipelines: seq<Parsed> := [];
    for i := 0 to |chunks|
      invariant Parse(yaml, chunks[..i]) == Some(pipelines)
    {
      assert chunks[..i + 1][..i] == chunks[..i];
      if IsSignature(chunks[i]) {
        continue;
      }
      var name := yaml.unmarshal(chunks[i]);
      if name.None? {
        ParseStuck(yaml, chunks, i + 1);
        return None;
      }
      pipelines := pipelines + [Parsed(name.value, chunks[i])];
    }
    assert chunks[..|chunks|] == chunks;
    r := Some(pipelines);
  }

  lemma {:induction false} ParseStuck(yaml: Yaml, cs: seq<bytes>, i: nat)
    requires i <= |cs| && Parse(yaml, cs[..i]).None?
    ensures Parse(yaml, cs).None?
    decreases |cs| - i
  {
    if i < |cs| {
      assert cs[..i + 1][..i] == cs[..i];
      ParseStuck(yaml, cs, i + 1);
    } else {
      assert cs[..i] == cs;
    }
  }

  method NamedPipelines(ps: seq<Pipeline>) returns (m: map<string, Pipeline>)
    ensures m == ByName(ps)
  {
    m := map[];
    for i := 0 to |ps|
      invariant m == ByName(ps[..i])
    {
      assert ps[..i + 1][..i] == ps[..i];
      if ps[i].name == "" {
        continue;
      }
      m := m[ps[i].name := ps[i]];
    }
    assert ps[..|ps|] == ps;
  }

  lemma NamesStep(ps: seq<Parsed>, i: nat)
    requires i < |ps|
    ensures Names(ps[..i + 1]) == Names(ps[..i]) + {ps[i].name}
    ensures ps[i].name in Names(ps[..i]) <==> !FirstOfName(ps, i)
  {
  }

  /** The loop that overwrites elements of `pipelines` and deletes the names it has used. */
  method ReplaceByName(yaml: Yaml, ps: seq<Parsed>, generated: map<string, Pipeline>)
    returns (ok: bool, pipelines: seq<Parsed>, remaining: map<string, Pipeline>)
    requires forall n :: n in generated ==> generated[n].name == n
    ensures ok <==> Encodes(yaml, ps, generated)
    ensures ok ==> remaining.Keys == generated.Keys - Names(ps)
    ensures ok ==> |pipelines| == |ps| && forall j :: 0 <= j < |ps| ==> pipelines[j].raw == MergedRaw(yaml, ps, generated, j)
  {
    pipelines, remaining := ps, generated;
    assert Names(ps[..0]) == {};
    hide Names, FirstOfName;
    for i := 0 to |ps|
      invariant |pipelines| == |ps|
      invariant remaining.Keys == generated.Keys - Names(ps[..i]) && forall n :: n in remaining ==> remaining[n] == generated[n]
      invariant forall j :: 0 <= j < i ==> pipelines[j].raw == MergedRaw(yaml, ps, generated, j)
      invariant forall j :: 0 <= j < i && Replaced(ps, generated, j) ==> yaml.marshal(generated[ps[j].name]).Some?
      invariant forall j :: i <= j < |ps| ==> pipelines[j] == ps[j]
    {
      var p := pipelines[i];
      NamesStep(ps, i);
      if p.name in remaining {
        var np := remaining[p.name];
        var out := yaml.marshal(np);
        if out.None? {
          assert Replaced(ps, generated, i);
          return false, pipelines, remaining;
        }
        // Add the note about this being generated.
        pipelines := pipelines[i := Parsed(np.name, np.comment + out.value)];
        remaining := remaining - {np.name};
      }
    }
    assert ps[..|ps|] == ps;
    ok := true;
  }

  lemma DifferenceEmpty(a: set<string>, b: set<string>)
    ensures a - b == {} <==> a <= b
  {
    assert forall x :: x in a && x !in b ==> x in a - b;
  }

  method WritePipelines(yaml: Yaml, existing: bytes, newPipelines: seq<Pipeline>) returns (r: Outcome)
    ensures r == Merge(yaml, existing, ByName(newPipelines))
  {
    hide Encodes, Names, MergedRaw, Parse, Split, ByName;
    var parsed := ParsePipelines(yaml, existing);
    if parsed.None? {
      return ParseFailed;
    }
    var generated := NamedPipelines(newPipelines);
    var ok, pipelines, remaining := ReplaceByName(yaml, parsed.value, generated);
    if !ok {
      return EncodeFailed;
    }
    DifferenceEmpty(generated.Keys, Names(parsed.value));
    if remaining.Keys != {} {
      return Missing(remaining.Keys);
    }
    var encoded := seq(|pipelines|, i requires 0 <= i < |pipelines| => pipelines[i].raw);
    assert encoded == MergedRaws(yaml, parsed.value, generated);
    r := Written(Join(encoded));
  }

  // ---- what parsing and merging mean, on chunks and names alone ----

  /** Parsing goes chunk by chunk in order. A chunk that starts with "kind: signature" is discarded; any other
      must parse, and keeps its bytes. */
  lemma ParseMeans(yaml: Yaml, cs: seq<bytes>, c: bytes)
    ensures Parse(yaml, []) == Some([])
    ensures |c| >= 15 && c[..15] == Ascii("kind: signature") ==> Parse(yaml, cs + [c]) == Parse(yaml, cs)
    ensures (|c| < 15 || c[..15] != Ascii("kind: signature")) && yaml.unmarshal(c).None? ==> Parse(yaml, cs + [c]).None?
    ensures (|c| < 15 || c[..15] != Ascii("kind: signature")) && yaml.unmarshal(c).Some? && Parse(yaml, cs).Some? ==>
              Parse(yaml, cs + [c]) == Some(Parse(yaml, cs).value + [Parsed(yaml.unmarshal(c).value, c)])
    ensures Parse(yaml, cs).None? ==> Parse(yaml, cs + [c]).None?
  {
    assert (cs + [c])[..|cs|] == cs;
  }

  /** By name are kept the named pipelines, the last of each name. */
  lemma ByNameMeans(ps: seq<Pipeline>, p: Pipeline)
    ensures ByName([]) == map[]
    ensures p.name == "" ==> ByName(ps + [p]) == ByName(ps)
    ensures p.name != "" ==> ByName(ps + [p]) == ByName(ps)[p.name := p]
  {
    assert (ps + [p])[..|ps|] == ps;
  }

  /** What stands for chunk `i` in a written file: for the first chunk of a generated name its comment and what the pipeline
      is encoded as, for every other chunk its own bytes. */
  ghost predicate Stands(yaml: Yaml, ps: seq<Parsed>, generated: map<string, Pipeline>, i: nat, raw: bytes)
    requires i < |ps|
  {
    var first := forall j :: 0 <= j < i ==> ps[j].name != ps[i].name;
    if ps[i].name in generated && first
    then var p := generated[ps[i].name]; yaml.marshal(p).Some? && raw == p.comment + yaml.marshal(p).value
    else raw == ps[i].raw
  }

  /** A written file holds the new text of exactly the generated pipelines, each at the first chunk of its name, and the old
      text of all others. */
  lemma WrittenFile(yaml: Yaml, data: bytes, generated: map<string, Pipeline>)
    requires Merge(yaml, data, generated).Written?
    ensures Parse(yaml, Split(data)).Some?
    ensures var ps := Parse(yaml, Split(data)).value;
            && (forall n :: n in generated ==> exists i :: 0 <= i < |ps| && ps[i].name == n)
            && exists raws: seq<bytes> :: |raws| == |ps| && Merge(yaml, data, generated) == Written(Join(raws))
                                          && forall i :: 0 <= i < |ps| ==> Stands(yaml, ps, generated, i, raws[i])
  {
    hide Parse, Split, Join;
    var ps := Parse(yaml, Split(data)).value;
    var raws := MergedRaws(yaml, ps, generated);
    forall n | n in generated ensures exists i :: 0 <= i < |ps| && ps[i].name == n {
      assert n in Names(ps);
    }
    forall i | 0 <= i < |ps| ensures Stands(yaml, ps, generated, i, raws[i]) {
      assert Replaced(ps, generated, i) <==>
        ps[i].name in generated && forall j :: 0 <= j < i ==> ps[j].name != ps[i].name;
    }
  }

  /** When nothing is written, and why: a chunk does not parse, a pipeline to be placed does not encode, or generated
      names occur nowhere in the file; these are then named. */
  lemma MergeFails(yaml: Yaml, data: bytes, generated: map<string, Pipeline>)
    ensures var parsed, r := Parse(yaml, Split(data)), Merge(yaml, data, generated);
            && (r == ParseFailed <==> parsed.None?)
            && (parsed.Some? ==>
                  var ps := parsed.value;
                  var stuck := exists i :: 0 <= i < |ps| && ps[i].name in generated && yaml.marshal(generated[ps[i].name]).None?;
                  var missing := set n | n in generated && forall i :: 0 <= i < |ps| ==> ps[i].name != n;
                  && (r == EncodeFailed <==> stuck)
                  && (r.Missing? <==> !stuck && missing != {})
                  && (r.Missing? ==> r.names == missing))
  {
    hide Parse, Split, Join;
    if Parse(yaml, Split(data)).Some? {
      var ps := Parse(yaml, Split(data)).value;
      MissingNames(ps, generated);
      StuckMeans(yaml, ps, generated);
      hide Names, Encodes;
    }
  }

  lemma MissingNames(ps: seq<Parsed>, generated: map<string, Pipeline>)
    ensures var missing := set n | n in generated && forall i :: 0 <= i < |ps| ==> ps[i].name != n;
            missing == generated.Keys - Names(ps) && (generated.Keys <= Names(ps) <==> missing == {})
  {
    DifferenceEmpty(generated.Keys, Names(ps));
  }

  lemma StuckMeans(yaml: Yaml, ps: seq<Parsed>, generated: map<string, Pipeline>)
    ensures Encodes(yaml, ps, generated) <==>
              !exists i :: 0 <= i < |ps| && ps[i].name in generated && yaml.marshal(generated[ps[i].name]).None?
  {
    forall i | 0 <= i < |ps| && ps[i].name in generated && yaml.marshal(generated[ps[i].name]).None?
      ensures !Encodes(yaml, ps, generated)
    {
      var k := FirstWith(ps, i);
      assert Replaced(ps, generated, k);
    }
  }

  lemma {:induction false} FirstWith(ps: seq<Parsed>, i: nat) returns (k: nat)
    requires i < |ps|
    ensures k <= i && ps[k].name == ps[i].name && FirstOfName(ps, k)
  {
    k := i;
    if !FirstOfName(ps, i) {
      var j :| 0 <= j < i && ps[j].name == ps[i].name;
      k := FirstWith(ps, j);
    }
  }

  // ---- the theorems ----

  lemma {:induction false} ParseKeeps(yaml: Yaml, cs: seq<bytes>)
    requires Parse(yaml, cs).Some? && forall i :: 0 <= i < |cs| ==> !IsSignature(cs[i])
    ensures var ps := Parse(yaml, cs).value;
            |ps| == |cs| && forall i :: 0 <= i < |cs| ==> ps[i].raw == cs[i]
  {
    if cs != [] {
      ParseKeeps(yaml, cs[..|cs| - 1]);
    }
  }

  /** With nothing to replace and no signature, the file is rewritten byte for byte. */
  lemma MergeNothing(yaml: Yaml, data: bytes)
    requires Parse(yaml, Split(data)).Some? && forall c :: c in Split(data) ==> !IsSignature(c)
    ensures Merge(yaml, data, map[]) == Written(data)
  {
    hide IsSignature, Parse, Split, Join;
    var ps := Parse(yaml, Split(data)).value;
    ParseKeeps(yaml, Split(data));
    assert MergedRaws(yaml, ps, map[]) == Split(data);
    JoinSplit(data);
  }

  /** What a parsed chunk came from. */
  ghost predicate FromChunk(yaml: Yaml, p: Parsed) {
    !IsSignature(p.raw) && yaml.unmarshal(p.raw) == Some(p.name)
  }

  function Raws(ps: seq<Parsed>): seq<bytes> {
    seq(|ps|, i requires 0 <= i < |ps| => ps[i].raw)
  }

  /** Every chunk is closed, except that the last need only be free of separators. */
  ghost predicate CleanAt(cs: seq<bytes>) {
    && (forall i :: 0 <= i < |cs| - 1 ==> Closed(cs[i]))
    && (cs != [] ==> Cut(cs[|cs| - 1]) == |cs[|cs| - 1]|)
  }

  lemma {:induction false} CleanIff(cs: seq<bytes>)
    ensures Clean(cs) <==> cs != [] && CleanAt(cs)
  {
    hide Closed, Cut;
    if |cs| > 1 {
      CleanIff(cs[1..]);
      assert forall i :: 0 < i < |cs| ==> cs[i] == cs[1..][i - 1];
      assert forall i :: 0 <= i < |cs| - 1 ==> cs[1..][i] == cs[i + 1];
    }
  }

  /** Discarding signatures keeps the chunks clean. */
  lemma {:induction false} ParseClean(yaml: Yaml, cs: seq<bytes>)
    requires Parse(yaml, cs).Some? && forall i :: 0 <= i < |cs| ==> Closed(cs[i])
    ensures var ps := Parse(yaml, cs).value;
            (forall i :: 0 <= i < |ps| ==> FromChunk(yaml, ps[i]) && Closed(ps[i].raw))
  {
    hide IsSignature, Closed;
    if cs != [] {
      ParseClean(yaml, cs[..|cs| - 1]);
    }
  }

  /** The pipelines of a file are clean chunks. */
  lemma FileClean(yaml: Yaml, data: bytes)
    requires Parse(yaml, Split(data)).Some?
    ensures var ps := Parse(yaml, Split(data)).value;
            CleanAt(Raws(ps)) && forall i :: 0 <= i < |ps| ==> FromChunk(yaml, ps[i])
  {
    hide IsSignature, Closed, Cut, Split;
    var cs := Split(data);
    SplitClean(data);
    CleanIff(cs);
    var n := |cs| - 1;
    ParseClean(yaml, cs[..n]);
    var ps := Parse(yaml, cs).value;
    var before := Parse(yaml, cs[..n]).value;
    if ps != [] && ps == before {
      ClosedAlone(ps[|ps| - 1].raw);
    }
  }

  lemma {:induction false} ParseBack(yaml: Yaml, ps: seq<Parsed>)
    requires forall i :: 0 <= i < |ps| ==> FromChunk(yaml, ps[i])
    ensures Parse(yaml, Raws(ps)) == Some(ps)
  {
    hide IsSignature;
    if ps != [] {
      var n := |ps| - 1;
      ParseBack(yaml, ps[..n]);
      assert Raws(ps)[..n] == Raws(ps[..n]);
      assert ps == ps[..n] + [ps[n]];
    }
  }

  /** The generator's own output is a well-formed chunk: it names its pipeline, is no signature and
      does not run into the separator that follows it. */
  ghost predicate GeneratesChunks(yaml: Yaml, generated: map<string, Pipeline>) {
    forall n :: n in generated && Rendered(yaml, generated[n]).Some? ==>
      var raw := Rendered(yaml, generated[n]).value; FromChunk(yaml, Parsed(n, raw)) && Closed(raw)
  }

  function MergedParsed(yaml: Yaml, ps: seq<Parsed>, generated: map<string, Pipeline>): seq<Parsed> {
    seq(|ps|, i requires 0 <= i < |ps| => Parsed(ps[i].name, MergedRaw(yaml, ps, generated, i)))
  }

  lemma MergedAgain(yaml: Yaml, ps: seq<Parsed>, generated: map<string, Pipeline>)
    ensures var qs := MergedParsed(yaml, ps, generated);
            && Names(qs) == Names(ps) && (Encodes(yaml, qs, generated) <==> Encodes(yaml, ps, generated))
            && MergedRaws(yaml, qs, generated) == MergedRaws(yaml, ps, generated) == Raws(qs)
  {
    var qs := MergedParsed(yaml, ps, generated);
    assert |qs| == |ps| && forall i :: 0 <= i < |ps| ==> qs[i].name == ps[i].name;
    assert forall i :: 0 <= i < |ps| ==> (Replaced(qs, generated, i) <==> Replaced(ps, generated, i));
  }

  lemma MergedClean(yaml: Yaml, ps: seq<Parsed>, generated: map<string, Pipeline>)
    requires GeneratesChunks(yaml, generated) && CleanAt(Raws(ps)) && forall i :: 0 <= i < |ps| ==> FromChunk(yaml, ps[i])
    ensures CleanAt(Raws(MergedParsed(yaml, ps, generated)))
    ensures forall i :: 0 <= i < |ps| ==> FromChunk(yaml, MergedParsed(yaml, ps, generated)[i])
  {
    hide IsSignature, Closed, Cut, FirstOfName;
    var qs := MergedParsed(yaml, ps, generated);
    forall i | 0 <= i < |ps|
      ensures FromChunk(yaml, qs[i]) && (i < |ps| - 1 ==> Closed(qs[i].raw)) && Cut(qs[|qs| - 1].raw) == |qs[|qs| - 1].raw|
    {
      assert ps[i].raw == Raws(ps)[i];
      var l := |ps| - 1;
      assert ps[l].raw == Raws(ps)[l];
      if qs[l].raw != ps[l].raw { ClosedAlone(qs[l].raw); }
    }
  }

  /** Merging is idempotent: running the generator on its own output changes nothing. */
  lemma MergeIdempotent(yaml: Yaml, data: bytes, generated: map<string, Pipeline>)
    requires yaml.unmarshal([]).Some? && GeneratesChunks(yaml, generated) && Merge(yaml, data, generated).Written?
    ensures var out := Merge(yaml, data, generated).data; Merge(yaml, out, generated) == Written(out)
  {
    hide Split, Join, Names, Encodes, MergedRaws, GeneratesChunks, CleanAt, FromChunk;
    var out := Merge(yaml, data, generated).data;
    var ps := Parse(yaml, Split(data)).value;
    FileClean(yaml, data);
    MergedClean(yaml, ps, generated);
    var qs := MergedParsed(yaml, ps, generated);
    MergedAgain(yaml, ps, generated);
    if ps == [] {
      EmptyFile(yaml, generated);
    } else {
      CleanIff(Raws(qs));
      SplitJoin(Raws(qs));
      ParseBack(yaml, qs);
    }
  }

  /** A file of signatures only becomes the empty file, whose one chunk is empty. */
  lemma EmptyFile(yaml: Yaml, generated: map<string, Pipeline>)
    requires yaml.unmarshal([]).Some? && generated.Keys <= Names([])
    ensures Join(MergedRaws(yaml, [], generated)) == [] && Merge(yaml, [], generated) == Written([])
  {
    var chunks: seq<bytes> := [[]];
    assert Split([]) == chunks;
    assert chunks[..0] == [] && !IsSignature([]);
    var ps := [Parsed(yaml.unmarshal([]).value, [])];
    assert Parse(yaml, []) == Some([]);
    var none: seq<Parsed> := [];
    assert none + ps == ps;
    assert Parse(yaml, chunks) == Some(ps);
    assert MergedRaws(yaml, ps, generated) == chunks;
  }
}
