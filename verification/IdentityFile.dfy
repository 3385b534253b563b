/** The identity file codec (api/identityfile/identityfile.go). A nil slice is the empty one:
    the decoder never stores an empty field and the encoder writes both alike. */
module IdentityFile {
  import opened Bytes
  import opened Options

  datatype Identity = Identity(privateKey: bytes, sshCert: bytes, tlsCert: bytes, sshCAs: seq<bytes>, tlsCAs: seq<bytes>)

  datatype DecodeError = LineTooLong | PemFragment

  datatype Result = Ok(ident: Identity) | Err(error: DecodeError)

  const EMPTY := Identity([], [], [], [], [])

  /** bufio.MaxScanTokenSize: the scanner gives up on a line that fills its buffer. */
  const MAX_TOKEN := 65536

  const SSH := Ascii("ssh")
  const CERT_AUTHORITY := Ascii("@cert-authority")
  const BEGIN := Ascii("-----BEGIN")
  const END := Ascii("-----END")

  // ---- the encoder ----

  /** What `writeWithNewline` writes. */
  function Written(data: bytes): bytes {
    if data != [] && data[|data| - 1] == NL then data else data + [NL]
  }

  function WrittenAll(items: seq<bytes>): bytes {
    if items == [] then [] else Written(items[0]) + WrittenAll(items[1..])
  }

  function Encode(id: Identity): bytes {
    Written(id.privateKey) + (Written(id.sshCert) + (Written(id.tlsCert) + (WrittenAll(id.sshCAs) + WrittenAll(id.tlsCAs))))
  }

  lemma {:induction false} WrittenAllSnoc(items: seq<bytes>, item: bytes)
    ensures WrittenAll(items + [item]) == WrittenAll(items) + Written(item)
  {
    hide Written;
    if items == [] {
      assert [item][1..] == [] && WrittenAll([]) == [];
      assert items + [item] == [item];
    } else {
      WrittenAllSnoc(items[1..], item);
      assert (items + [item])[0] == items[0] && (items + [item])[1..] == items[1..] + [item];
      assert WrittenAll(items + [item]) == Written(items[0]) + (WrittenAll(items[1..]) + Written(item));
    }
  }

  method WriteWithNewline(buf: bytes, data: bytes) returns (buf': bytes)
    ensures buf' == buf + Written(data)
  {
    buf' := buf + data;
    if data != [] && data[|data| - 1] == NL {
      return;
    }
    buf' := buf' + [NL];
  }

  method WriteAllWithNewline(buf: bytes, items: seq<bytes>) returns (buf': bytes)
    ensures buf' == buf + WrittenAll(items)
  {
    hide Written;
    buf' := buf;
    for i := 0 to |items|
      invariant buf' == buf + WrittenAll(items[..i])
    {
      buf' := WriteWithNewline(buf', items[i]);
      WrittenAllSnoc(items[..i], items[i]);
      assert items[..i + 1] == items[..i] + [items[i]];
    }
    assert items[..|items|] == items;
  }

  method EncodeIdentityFile(id: Identity) returns (buf: bytes)
    ensures buf == Encode(id)
  {
    hide Written;
    buf := WriteWithNewline([], id.privateKey);
    buf := WriteWithNewline(buf, id.sshCert);
    buf := WriteWithNewline(buf, id.tlsCert);
    buf := WriteAllWithNewline(buf, id.sshCAs);
    buf := WriteAllWithNewline(buf, id.tlsCAs);
  }

  // ---- the decoder ----

  /** bufio.ScanLines drops one carriage return at the end of a line. */
  function DropCR(line: bytes): bytes {
    if line != [] && line[|line| - 1] == CR then line[..|line| - 1] else line
  }

  /** A line that scanning reproduces as it is. */
  predicate CleanLine(l: bytes) {
    IsLine(l) && Trimmed(l) && |l| < MAX_TOKEN
  }

  datatype Token = Eof | TooLong | Line(line: bytes, rest: bytes)

  /** One `scanln`: the next line, trimmed, and the input after it. */
  function NextLine(input: bytes): (t: Token)
    ensures t.Line? ==> |t.rest| < |input|
  {
    if input == [] then Eof
    else
      var i := FirstNewline(input);
      if i >= MAX_TOKEN then TooLong
      else Line(TrimSpace(DropCR(input[..i])), if i < |input| then input[i + 1..] else [])
  }

  lemma NextLineClean(input: bytes)
    ensures NextLine(input).Line? ==> CleanLine(NextLine(input).line)
  {
    hide Trimmed, TrimSpace;
    if NextLine(input).Line? {
      TrimSpaceTrims(DropCR(input[..FirstNewline(input)]));
    }
  }

  /** The decoder between lines: the fields found, and the open PEM block if it is inside one. */
  datatype Scan = Scan(ident: Identity, pem: Option<bytes>)

  /** Place a block by which blocks were found before. */
  function Place(id: Identity, block: bytes): Identity {
    if id.privateKey == [] then id.(privateKey := block)
    else if id.tlsCert == [] then id.(tlsCert := block)
    else id.(tlsCAs := id.tlsCAs + [block])
  }

  function FeedPem(id: Identity, block: bytes, line: bytes): Scan {
    var block' := block + line + [NL];
    if HasPrefix(line, END) then Scan(Place(id, block'), None) else Scan(id, Some(block'))
  }

  function Feed(s: Scan, line: bytes): Scan {
    if s.pem.Some? then FeedPem(s.ident, s.pem.value, line)
    else if HasPrefix(line, SSH) then s.(ident := s.ident.(sshCert := line))
    else if HasPrefix(line, CERT_AUTHORITY) then s.(ident := s.ident.(sshCAs := s.ident.sshCAs + [line]))
    else if HasPrefix(line, BEGIN) then FeedPem(s.ident, [], line)
    else s
  }

  function DecodeFrom(s: Scan, input: bytes): Result
    decreases |input|
  {
    match NextLine(input)
    case TooLong => Err(LineTooLong)
    case Eof => if s.pem.Some? then Err(PemFragment) else Ok(s.ident)
    case Line(line, rest) => DecodeFrom(Feed(s, line), rest)
  }

  function Decode(input: bytes): Result {
    DecodeFrom(Scan(EMPTY, None), input)
  }

  /** The decoder's two nested loops compute `Decode`. */
  method DecodeIdentityFile(input: bytes) returns (r: Result)
    ensures r == Decode(input)
  {
    var ident := EMPTY;
    var rest := input;
    while true
      invariant Decode(input) == DecodeFrom(Scan(ident, None), rest)
      decreases |rest|
    {
      var token := NextLine(rest);
      if !token.Line? {
        return if token.TooLong? then Err(LineTooLong) else Ok(ident);
      }
      var line := token.line;
      rest := token.rest;
      if HasPrefix(line, SSH) {
        ident := ident.(sshCert := line);
      } else if HasPrefix(line, CERT_AUTHORITY) {
        ident := ident.(sshCAs := ident.sshCAs + [line]);
      } else if HasPrefix(line, BEGIN) {
        var pemBlock := [];
        while true
          invariant Decode(input) == DecodeFrom(FeedPem(ident, pemBlock, line), rest)
          invariant |rest| <= |token.rest|
          decreases |rest|
        {
          pemBlock := pemBlock + line;
          pemBlock := pemBlock + [NL];
          if HasPrefix(line, END) {
            break;
          }
          var next := NextLine(rest);
          if !next.Line? {
            return if next.TooLong? then Err(LineTooLong) else Err(PemFragment);
          }
          line, rest := next.line, next.rest;
        }
        if ident.privateKey == [] {
          ident := ident.(privateKey := pemBlock);
        } else if ident.tlsCert == [] {
          ident := ident.(tlsCert := pemBlock);
        } else {
          ident := ident.(tlsCAs := ident.tlsCAs + [pemBlock]);
        }
      }
    }
  }

  // ---- canonical identities ----

  /** The lines of a text, each terminated by a newline. */
  function Unlines(ls: seq<bytes>): bytes {
    if ls == [] then [] else ls[0] + [NL] + Unlines(ls[1..])
  }

  function Lines(text: bytes): seq<bytes>
    decreases |text|
  {
    if text == [] then []
    else
      var i := FirstNewline(text);
      [text[..i]] + if i < |text| then Lines(text[i + 1..]) else []
  }

  /** The lines of one PEM block: the first END line closes it. */
  predicate PemLines(ls: seq<bytes>) {
    && ls != [] && HasPrefix(ls[0], BEGIN) && PemTail(ls)
  }

  predicate PemTail(ls: seq<bytes>) {
    && ls != []
    && (forall i :: 0 <= i < |ls| ==> CleanLine(ls[i]))
    && (forall i :: 0 <= i < |ls| ==> (HasPrefix(ls[i], END) <==> i == |ls| - 1))
  }

  predicate CanonicalPem(b: bytes) {
    PemLines(Lines(b)) && b == Unlines(Lines(b))
  }

  predicate CanonicalEntry(line: bytes, prefix: bytes) {
    CleanLine(line) && HasPrefix(line, prefix)
  }

  /** The identities that survive a write and a read: single clean lines with the right prefix,
      single clean PEM blocks, and no PEM slot filled before an earlier one. */
  predicate Canonical(id: Identity) {
    && (id.privateKey == [] || CanonicalPem(id.privateKey))
    && (id.tlsCert == [] || CanonicalPem(id.tlsCert))
    && (id.sshCert == [] || CanonicalEntry(id.sshCert, SSH))
    && (forall i :: 0 <= i < |id.sshCAs| ==> CanonicalEntry(id.sshCAs[i], CERT_AUTHORITY))
    && (forall i :: 0 <= i < |id.tlsCAs| ==> CanonicalPem(id.tlsCAs[i]))
    && (id.tlsCert != [] ==> id.privateKey != [])
    && (id.tlsCAs != [] ==> id.tlsCert != [])
  }

  // ---- everything the decoder accepts is canonical ----

  lemma {:induction false} UnlinesSnoc(ls: seq<bytes>, l: bytes)
    ensures Unlines(ls + [l]) == Unlines(ls) + l + [NL]
  {
    if ls == [] {
      assert Unlines([]) == [];
    } else {
      UnlinesSnoc(ls[1..], l);
      assert (ls + [l])[1..] == ls[1..] + [l];
    }
  }

  lemma FirstNewlineAt(l: bytes, rest: bytes)
    requires IsLine(l)
    ensures FirstNewline(l + [NL] + rest) == |l|
  {
    var t := l + [NL] + rest;
    var i := FirstNewline(t);
    assert t[|l|] == NL;
    assert forall j :: 0 <= j < |l| ==> t[j] == l[j];
  }

  lemma {:induction false} LinesUnlines(ls: seq<bytes>)
    requires forall i :: 0 <= i < |ls| ==> IsLine(ls[i])
    ensures Lines(Unlines(ls)) == ls
  {
    if ls != [] {
      FirstNewlineAt(ls[0], Unlines(ls[1..]));
      assert Unlines(ls)[|ls[0]| + 1..] == Unlines(ls[1..]);
      assert Unlines(ls)[..|ls[0]|] == ls[0];
      LinesUnlines(ls[1..]);
    }
  }

  lemma LinesOfClean(ls: seq<bytes>)
    requires forall i :: 0 <= i < |ls| ==> CleanLine(ls[i])
    ensures Lines(Unlines(ls)) == ls
  {
    hide Trimmed;
    LinesUnlines(ls);
  }

  /** The lines read so far of an open block. */
  ghost predicate OpenBlock(block: bytes, ls: seq<bytes>) {
    && block == Unlines(ls)
    && ls != [] && HasPrefix(ls[0], BEGIN)
    && (forall i :: 0 <= i < |ls| ==> CleanLine(ls[i]) && !HasPrefix(ls[i], END))
  }

  ghost predicate CanonicalScan(s: Scan) {
    Canonical(s.ident) && (s.pem.Some? ==> exists ls :: OpenBlock(s.pem.value, ls))
  }

  lemma CloseBlock(ls: seq<bytes>, line: bytes)
    requires forall i :: 0 <= i < |ls| ==> CleanLine(ls[i]) && !HasPrefix(ls[i], END)
    requires HasPrefix((ls + [line])[0], BEGIN) && CleanLine(line) && HasPrefix(line, END)
    ensures CanonicalPem(Unlines(ls + [line]))
  {
    hide CleanLine, HasPrefix, Lines, Unlines;
    LinesOfClean(ls + [line]);
  }

  lemma PlaceCanonical(id: Identity, block: bytes)
    requires Canonical(id) && CanonicalPem(block)
    ensures Canonical(Place(id, block))
  {
    assert block != [];
  }

  lemma FeedCanonical(s: Scan, line: bytes)
    requires CanonicalScan(s) && CleanLine(line)
    ensures CanonicalScan(Feed(s, line))
  {
    hide CleanLine, HasPrefix, CanonicalPem;
    if s.pem.Some? || (HasPrefix(line, BEGIN) && !HasPrefix(line, SSH) && !HasPrefix(line, CERT_AUTHORITY)) {
      var ls: seq<bytes> := [];
      var block := [];
      if s.pem.Some? {
        block := s.pem.value;
        ls :| OpenBlock(block, ls);
      } else {
        assert block == Unlines(ls);
      }
      UnlinesSnoc(ls, line);
      if HasPrefix(line, END) {
        CloseBlock(ls, line);
        PlaceCanonical(s.ident, block + line + [NL]);
      } else {
        assert OpenBlock(block + line + [NL], ls + [line]);
      }
    }
  }

  lemma {:induction false} DecodeFromCanonical(s: Scan, input: bytes)
    requires CanonicalScan(s) && DecodeFrom(s, input).Ok?
    ensures Canonical(DecodeFrom(s, input).ident)
    decreases |input|
  {
    hide Feed, NextLine, CleanLine, Canonical;
    var t := NextLine(input);
    if t.Line? {
      NextLineClean(input);
      FeedCanonical(s, t.line);
      DecodeFromCanonical(Feed(s, t.line), t.rest);
    }
  }

  // ---- every canonical identity survives encoding ----

  lemma NoCarriageReturn(l: bytes)
    requires Trimmed(l)
    ensures DropCR(l) == l
  {
    if l != [] { assert l[|l| - 1..] == [l[|l| - 1]]; }
  }

  /** Scanning clean lines feeds exactly those lines. */
  lemma NextLineOfClean(l: bytes, rest: bytes)
    requires CleanLine(l)
    ensures NextLine(l + [NL] + rest) == Line(l, rest)
  {
    hide Trimmed, TrimSpace;
    var t := l + [NL] + rest;
    FirstNewlineAt(l, rest);
    assert t[..|l|] == l && t[|l| + 1..] == rest;
    NoCarriageReturn(l);
    TrimSpaceTrims(l);
  }

  lemma DecodeLine(s: Scan, l: bytes, rest: bytes)
    requires CleanLine(l)
    ensures DecodeFrom(s, l + [NL] + rest) == DecodeFrom(Feed(s, l), rest)
  {
    NextLineOfClean(l, rest);
  }

  lemma {:induction false} DecodePemTail(id: Identity, block: bytes, ls: seq<bytes>, rest: bytes)
    requires PemTail(ls)
    ensures DecodeFrom(Scan(id, Some(block)), Unlines(ls) + rest) == DecodeFrom(Scan(Place(id, block + Unlines(ls)), None), rest)
    decreases |ls|
  {
    hide CleanLine, HasPrefix, NextLine;
    var l, tail := ls[0], ls[1..];
    var s := Scan(id, Some(block));
    var more := Unlines(tail) + rest;
    assert Unlines(ls) + rest == l + [NL] + more;
    DecodeLine(s, l, more);
    assert Feed(s, l) == FeedPem(id, block, l);
    assert block + Unlines(ls) == block + l + [NL] + Unlines(tail);
    if tail == [] {
      assert HasPrefix(l, END);
      assert Unlines(tail) == [];
      assert more == rest;
      assert block + Unlines(ls) == block + l + [NL];
    } else {
      assert !HasPrefix(l, END);
      DecodePemTail(id, block + l + [NL], tail, rest);
    }
  }

  lemma PrefixAt(l: bytes, p: bytes, i: nat)
    requires i < |p|
    ensures HasPrefix(l, p) ==> l[i] == p[i]
  {
    if HasPrefix(l, p) { assert l[..|p|][i] == l[i]; }
  }

  /** The four prefixes exclude each other. */
  lemma PrefixesExclusive(l: bytes)
    requires HasPrefix(l, BEGIN)
    ensures !HasPrefix(l, END) && !HasPrefix(l, SSH) && !HasPrefix(l, CERT_AUTHORITY)
  {
    PrefixAt(l, BEGIN, 0);
    PrefixAt(l, BEGIN, 5);
    PrefixAt(l, END, 5);
    PrefixAt(l, SSH, 0);
    PrefixAt(l, CERT_AUTHORITY, 0);
  }

  lemma DecodePem(id: Identity, b: bytes, rest: bytes)
    requires CanonicalPem(b)
    ensures DecodeFrom(Scan(id, None), Written(b) + rest) == DecodeFrom(Scan(Place(id, b), None), rest)
  {
    hide CleanLine, HasPrefix, NextLine;
    var ls := Lines(b);
    var l, tail := ls[0], ls[1..];
    PrefixesExclusive(l);
    UnlinesEndsInNewline(ls);
    assert Written(b) + rest == l + [NL] + (Unlines(tail) + rest);
    DecodeLine(Scan(id, None), l, Unlines(tail) + rest);
    assert [] + l + [NL] == l + [NL];
    assert Feed(Scan(id, None), l) == Scan(id, Some(l + [NL]));
    DecodePemTail(id, l + [NL], tail, rest);
    assert l + [NL] + Unlines(tail) == b;
  }

  lemma {:induction false} UnlinesEndsInNewline(ls: seq<bytes>)
    requires ls != []
    ensures Unlines(ls) != [] && Unlines(ls)[|Unlines(ls)| - 1] == NL
  {
    if |ls| > 1 {
      UnlinesEndsInNewline(ls[1..]);
    } else {
      assert Unlines(ls[1..]) == [];
    }
  }

  /** A field that is absent is written as an empty line, which the decoder ignores. */
  lemma DecodeBlank(id: Identity, rest: bytes)
    ensures DecodeFrom(Scan(id, None), Written([]) + rest) == DecodeFrom(Scan(id, None), rest)
  {
    assert [] + [NL] + rest == Written([]) + rest;
    DecodeLine(Scan(id, None), [], rest);
  }

  lemma DecodeEntry(id: Identity, line: bytes, prefix: bytes, rest: bytes)
    requires CanonicalEntry(line, prefix) && (prefix == SSH || prefix == CERT_AUTHORITY)
    ensures DecodeFrom(Scan(id, None), Written(line) + rest)
         == DecodeFrom(Scan(if prefix == SSH then id.(sshCert := line) else id.(sshCAs := id.sshCAs + [line]), None), rest)
  {
    assert line != [] ==> line[|line| - 1] in line;
    DecodeLine(Scan(id, None), line, rest);
    PrefixAt(line, prefix, 0);
    PrefixAt(line, SSH, 0);
  }

  lemma {:induction false} DecodeSshCAs(id: Identity, cas: seq<bytes>, rest: bytes)
    requires forall i :: 0 <= i < |cas| ==> CanonicalEntry(cas[i], CERT_AUTHORITY)
    ensures DecodeFrom(Scan(id, None), WrittenAll(cas) + rest) == DecodeFrom(Scan(id.(sshCAs := id.sshCAs + cas), None), rest)
    decreases |cas|
  {
    hide CanonicalEntry, DecodeFrom;
    if cas == [] {
      assert WrittenAll(cas) + rest == rest && id.sshCAs + cas == id.sshCAs;
    } else {
      assert WrittenAll(cas) + rest == Written(cas[0]) + (WrittenAll(cas[1..]) + rest);
      DecodeEntry(id, cas[0], CERT_AUTHORITY, WrittenAll(cas[1..]) + rest);
      DecodeSshCAs(id.(sshCAs := id.sshCAs + [cas[0]]), cas[1..], rest);
      assert id.sshCAs + [cas[0]] + cas[1..] == id.sshCAs + cas;
    }
  }

  lemma DecodeEnd(id: Identity)
    ensures DecodeFrom(Scan(id, None), []) == Ok(id)
  {
  }

  lemma {:induction false} DecodeTlsCAs(id: Identity, cas: seq<bytes>)
    requires cas != [] ==> id.privateKey != [] && id.tlsCert != []
    requires forall i :: 0 <= i < |cas| ==> CanonicalPem(cas[i])
    ensures DecodeFrom(Scan(id, None), WrittenAll(cas)) == Ok(id.(tlsCAs := id.tlsCAs + cas))
    decreases |cas|
  {
    hide CanonicalPem, DecodeFrom, Written;
    if cas == [] {
      DecodeEnd(id);
      assert id.tlsCAs + cas == id.tlsCAs;
    } else {
      DecodePem(id, cas[0], WrittenAll(cas[1..]));
      DecodeTlsCAs(id.(tlsCAs := id.tlsCAs + [cas[0]]), cas[1..]);
      assert id.tlsCAs + [cas[0]] + cas[1..] == id.tlsCAs + cas;
    }
  }

  lemma EncodeThenDecode(id: Identity)
    requires Canonical(id)
    ensures Decode(Encode(id)) == Ok(id)
  {
    hide CanonicalPem, CanonicalEntry, DecodeFrom, Written;
    var r4 := WrittenAll(id.sshCAs) + WrittenAll(id.tlsCAs);
    var r3 := Written(id.tlsCert) + r4;
    var r2 := Written(id.sshCert) + r3;
    var i1 := EMPTY.(privateKey := id.privateKey);
    var i2 := i1.(sshCert := id.sshCert);
    var i3 := i2.(tlsCert := id.tlsCert);
    var i4 := i3.(sshCAs := id.sshCAs);
    assert Decode(Encode(id)) == DecodeFrom(Scan(i1, None), r2) by {
      if id.privateKey == [] { DecodeBlank(EMPTY, r2); } else { DecodePem(EMPTY, id.privateKey, r2); }
    }
    assert DecodeFrom(Scan(i1, None), r2) == DecodeFrom(Scan(i2, None), r3) by {
      if id.sshCert == [] { DecodeBlank(i1, r3); } else { DecodeEntry(i1, id.sshCert, SSH, r3); }
    }
    assert DecodeFrom(Scan(i2, None), r3) == DecodeFrom(Scan(i3, None), r4) by {
      if id.tlsCert == [] { DecodeBlank(i2, r4); } else { DecodePem(i2, id.tlsCert, r4); }
    }
    assert DecodeFrom(Scan(i3, None), r4) == DecodeFrom(Scan(i4, None), WrittenAll(id.tlsCAs)) by {
      DecodeSshCAs(i3, id.sshCAs, WrittenAll(id.tlsCAs));
      assert [] + id.sshCAs == id.sshCAs;
    }
    DecodeTlsCAs(i4, id.tlsCAs);
    assert [] + id.tlsCAs == id.tlsCAs;
  }

  // ---- the theorems ----

  ghost predicate HasLongLine(text: bytes) {
    exists l :: l in Lines(text) && |l| >= MAX_TOKEN
  }

  /** The input after its first line. */
  function AfterLine(input: bytes): (rest: bytes)
    requires input != []
    ensures |rest| < |input|
  {
    var i := FirstNewline(input);
    if i < |input| then input[i + 1..] else []
  }

  lemma LinesStep(input: bytes)
    requires input != []
    ensures Lines(input) == [input[..FirstNewline(input)]] + Lines(AfterLine(input))
  {
    assert Lines([]) == [];
  }

  lemma LongLineStep(input: bytes)
    requires input != []
    ensures HasLongLine(input) <==> FirstNewline(input) >= MAX_TOKEN || HasLongLine(AfterLine(input))
  {
    var first, rest := input[..FirstNewline(input)], Lines(AfterLine(input));
    LinesStep(input);
    hide Lines;
    assert Lines(input)[0] == first;
    assert forall l :: l in Lines(input) <==> l == first || l in rest;
  }

  lemma {:induction false} TooLongFrom(s: Scan, input: bytes)
    ensures DecodeFrom(s, input) == Err(LineTooLong) <==> HasLongLine(input)
    decreases |input|
  {
    hide Feed, TrimSpace, DropCR;
    if input == [] {
      assert Lines(input) == [];
    } else {
      LongLineStep(input);
      hide HasLongLine;
      var t := NextLine(input);
      if t.Line? {
        TooLongFrom(Feed(s, t.line), t.rest);
      }
    }
  }

  /** The lines of a text as the scanner hands them out. */
  function ScannedLines(text: bytes): seq<bytes> {
    var ls := Lines(text);
    seq(|ls|, i requires 0 <= i < |ls| => TrimSpace(DropCR(ls[i])))
  }

  predicate NoEnd(ls: seq<bytes>) {
    forall i :: 0 <= i < |ls| ==> !HasPrefix(ls[i], END)
  }

  /** Some BEGIN line has no END line after it. */
  predicate Unfinished(ls: seq<bytes>) {
    exists i :: 0 <= i < |ls| && HasPrefix(ls[i], BEGIN) && NoEnd(ls[i + 1..])
  }

  lemma ScannedStep(input: bytes)
    requires NextLine(input).Line?
    ensures ScannedLines(input) == [NextLine(input).line] + ScannedLines(NextLine(input).rest)
  {
    hide TrimSpace, DropCR, Lines;
    LinesStep(input);
    var ls, rest := Lines(input), Lines(AfterLine(input));
    assert forall i :: 0 < i < |ls| ==> ls[i] == rest[i - 1];
  }

  lemma UnfinishedStep(l: bytes, ls: seq<bytes>)
    ensures NoEnd([l] + ls) <==> !HasPrefix(l, END) && NoEnd(ls)
    ensures Unfinished([l] + ls) <==> (HasPrefix(l, BEGIN) && NoEnd(ls)) || Unfinished(ls)
  {
    hide HasPrefix;
    var all := [l] + ls;
    assert all[1..] == ls;
    assert forall i :: 0 < i < |all| ==> all[i] == ls[i - 1] && all[i + 1..] == ls[i..];
    if Unfinished(ls) {
      var i :| 0 <= i < |ls| && HasPrefix(ls[i], BEGIN) && NoEnd(ls[i + 1..]);
      assert HasPrefix(all[i + 1], BEGIN) && NoEnd(all[i + 2..]);
    }
    if NoEnd(all) {
      assert all[0] == l;
      assert forall i :: 0 <= i < |ls| ==> ls[i] == all[i + 1];
    }
    if HasPrefix(l, BEGIN) && NoEnd(ls) { assert HasPrefix(all[0], BEGIN) && NoEnd(all[1..]); }
  }

  /** A line keeps the decoder inside a block unless it is an END line, and takes it into one if it is
      a BEGIN line. */
  lemma FeedInside(s: Scan, line: bytes)
    ensures Feed(s, line).pem.Some? <==> if s.pem.Some? then !HasPrefix(line, END) else HasPrefix(line, BEGIN)
  {
    hide HasPrefix;
    if HasPrefix(line, BEGIN) { PrefixesExclusive(line); }
  }

  lemma {:induction false} FragmentFrom(s: Scan, input: bytes)
    requires !HasLongLine(input)
    ensures var ls := ScannedLines(input);
            DecodeFrom(s, input) == Err(PemFragment) <==> (s.pem.Some? && NoEnd(ls)) || Unfinished(ls)
    decreases |input|
  {
    hide Feed, TrimSpace, DropCR, HasPrefix, Unfinished, NoEnd;
    if input == [] {
      FragmentAtEnd(s);
    } else {
      LongLineStep(input);
      hide HasLongLine, ScannedLines;
      var t := NextLine(input);
      ScannedStep(input);
      UnfinishedStep(t.line, ScannedLines(t.rest));
      FeedInside(s, t.line);
      if HasPrefix(t.line, BEGIN) { PrefixesExclusive(t.line); }
      FragmentFrom(Feed(s, t.line), t.rest);
    }
  }

  lemma FragmentAtEnd(s: Scan)
    ensures DecodeFrom(s, []) == Err(PemFragment) <==> s.pem.Some?
    ensures ScannedLines([]) == [] && NoEnd([]) && !Unfinished([])
  {
    assert Lines([]) == [];
  }

  /** A text is its lines: a rest without newline is one, unless it is empty. */
  lemma LastLine(last: bytes)
    requires IsLine(last)
    ensures Lines(last) == if last == [] then [] else [last]
  {
    if last != [] {
      assert forall i :: 0 <= i < |last| ==> last[i] != NL;
      assert last[..|last|] == last;
    }
  }

  /** And a line with its newline is one before those of the rest. */
  lemma FirstLine(l: bytes, rest: bytes)
    requires IsLine(l)
    ensures Lines(l + [NL] + rest) == [l] + Lines(rest)
  {
    var text := l + [NL] + rest;
    FirstNewlineAt(l, rest);
    LinesStep(text);
    hide Lines;
    assert text[..|l|] == l && text[|l| + 1..] == rest;
  }

  /** When a text is refused, and why. A line over the scanner's limit is reported wherever it stands,
      before or inside a block; otherwise a text is refused exactly when some BEGIN line has no END
      line after it. */
  lemma DecodeErrors(text: bytes)
    ensures HasLongLine(text) <==> exists l :: l in Lines(text) && |l| >= 65536
    ensures Decode(text) == Err(LineTooLong) <==> HasLongLine(text)
    ensures Decode(text) == Err(PemFragment) <==> !HasLongLine(text) && Unfinished(ScannedLines(text))
    ensures Decode(text).Ok? <==> !HasLongLine(text) && !Unfinished(ScannedLines(text))
  {
    assert HasLongLine(text) <==> exists l :: l in Lines(text) && |l| >= 65536;
    hide DecodeFrom, HasLongLine, ScannedLines, Unfinished;
    var start := Scan(EMPTY, None);
    TooLongFrom(start, text);
    if !HasLongLine(text) { FragmentFrom(start, text); }
    match Decode(text) {
      case Ok(_) =>
      case Err(e) => match e { case LineTooLong => case PemFragment => }
    }
  }

  lemma {:induction false} SameLinesFrom(s: Scan, a: bytes, b: bytes)
    requires !HasLongLine(a) && !HasLongLine(b) && ScannedLines(a) == ScannedLines(b)
    ensures DecodeFrom(s, a) == DecodeFrom(s, b)
    decreases |a|
  {
    ScannedEmpty(a);
    ScannedEmpty(b);
    hide Feed, ScannedLines;
    if a != [] {
      LongLineStep(a);
      LongLineStep(b);
      ScannedStep(a);
      ScannedStep(b);
      hide HasLongLine;
      var t, u := NextLine(a), NextLine(b);
      assert ScannedLines(a)[0] == t.line && ScannedLines(b)[0] == u.line;
      assert ScannedLines(a)[1..] == ScannedLines(t.rest) && ScannedLines(b)[1..] == ScannedLines(u.rest);
      hide NextLine;
      SameLinesFrom(Feed(s, t.line), t.rest, u.rest);
    }
  }

  lemma ScannedEmpty(text: bytes)
    ensures ScannedLines(text) == [] <==> text == []
  {
    if text == [] { assert Lines(text) == []; } else { LinesStep(text); }
  }

  /** Only the trimmed lines of a text matter: ends of lines, space around lines and a missing last newline do not. */
  lemma SameLines(a: bytes, b: bytes)
    requires !HasLongLine(a) && !HasLongLine(b) && ScannedLines(a) == ScannedLines(b)
    ensures Decode(a) == Decode(b)
  {
    SameLinesFrom(Scan(EMPTY, None), a, b);
  }

  /** Everything the decoder accepts is canonical. */
  lemma DecodeCanonical(text: bytes)
    requires Decode(text).Ok?
    ensures Canonical(Decode(text).ident)
  {
    DecodeFromCanonical(Scan(EMPTY, None), text);
  }

  /** An identity is read back unchanged exactly when it is canonical. */
  lemma RoundTripIff(id: Identity)
    ensures Decode(Encode(id)) == Ok(id) <==> Canonical(id)
  {
    hide Canonical, Decode, Encode;
    if Canonical(id) {
      EncodeThenDecode(id);
    } else if Decode(Encode(id)) == Ok(id) {
      DecodeCanonical(Encode(id));
    }
  }

  /** Whatever text the decoder accepts, writing the result and reading it again gives the
      same identity. */
  lemma DecodeEncodeDecode(text: bytes)
    requires Decode(text).Ok?
    ensures Decode(Encode(Decode(text).ident)) == Decode(text)
  {
    hide Canonical, Decode, Encode;
    DecodeCanonical(text);
    EncodeThenDecode(Decode(text).ident);
  }

  /** A field without its final newline, if it has one. */
  function Chomp(d: bytes): bytes {
    if d != [] && d[|d| - 1] == NL then d[..|d| - 1] else d
  }

  function ChompAll(items: seq<bytes>): seq<bytes> {
    seq(|items|, i requires 0 <= i < |items| => Chomp(items[i]))
  }

  function Chomped(id: Identity): Identity {
    Identity(Chomp(id.privateKey), Chomp(id.sshCert), Chomp(id.tlsCert), ChompAll(id.sshCAs), ChompAll(id.tlsCAs))
  }

  lemma WrittenChomp(a: bytes, b: bytes)
    requires Chomp(a) == Chomp(b)
    ensures Written(a) == Written(b)
  {
    if a != [] && a[|a| - 1] == NL { assert a == Chomp(a) + [NL]; }
    if b != [] && b[|b| - 1] == NL { assert b == Chomp(b) + [NL]; }
  }

  lemma {:induction false} WrittenAllChomp(a: seq<bytes>, b: seq<bytes>)
    requires ChompAll(a) == ChompAll(b)
    ensures WrittenAll(a) == WrittenAll(b)
  {
    hide Chomp, Written;
    assert |a| == |ChompAll(a)| == |b|;
    if a != [] {
      assert Chomp(a[0]) == ChompAll(a)[0] == Chomp(b[0]);
      WrittenChomp(a[0], b[0]);
      assert ChompAll(a[1..]) == ChompAll(a)[1..] == ChompAll(b[1..]);
      WrittenAllChomp(a[1..], b[1..]);
    }
  }

  /** Whether a field ends in a newline does not matter: any identity whose fields are those of a
      canonical one, each with or without its final newline, is read back as the canonical one. */
  lemma FinalNewlinesIgnored(x: Identity, id: Identity)
    requires Canonical(id) && Chomped(x) == Chomped(id)
    ensures Encode(x) == Encode(id)
    ensures Decode(Encode(x)) == Ok(id)
  {
    hide Canonical, Decode, Written, Chomp;
    WrittenChomp(x.privateKey, id.privateKey);
    WrittenChomp(x.sshCert, id.sshCert);
    WrittenChomp(x.tlsCert, id.tlsCert);
    WrittenAllChomp(x.sshCAs, id.sshCAs);
    WrittenAllChomp(x.tlsCAs, id.tlsCAs);
    EncodeThenDecode(id);
  }

  // ---- the format, on literal lines ----

  lemma {:induction false} UnlinesConcat(a: seq<bytes>, b: seq<bytes>)
    ensures Unlines(a + b) == Unlines(a) + Unlines(b)
  {
    if a == [] {
      assert a + b == b;
    } else {
      UnlinesConcat(a[1..], b);
      assert (a + b)[1..] == a[1..] + b;
    }
  }

  lemma WrittenBlock(ls: seq<bytes>)
    requires ls != []
    ensures Written(Unlines(ls)) == Unlines(ls)
  {
    UnlinesEndsInNewline(ls);
  }

  lemma WrittenLine(l: bytes)
    requires IsLine(l)
    ensures Written(l) == l + [NL]
  {
    assert l != [] ==> l[|l| - 1] in l;
  }

  lemma {:induction false} WrittenLines(ls: seq<bytes>)
    requires forall i :: 0 <= i < |ls| ==> IsLine(ls[i])
    ensures WrittenAll(ls) == Unlines(ls)
  {
    if ls != [] {
      WrittenLine(ls[0]);
      WrittenLines(ls[1..]);
    }
  }

  lemma UnlinesOne(l: bytes)
    ensures Unlines([l]) == l + [NL]
  {
    assert Unlines([l][1..]) == [];
  }

  lemma WrittenAllOne(item: bytes)
    ensures WrittenAll([item]) == Written(item)
  {
    assert WrittenAll([item][1..]) == [];
  }

  /** The file holds the lines of the private key, the SSH certificate, the TLS certificate, the SSH authorities and the TLS
      authorities, in this order. */
  lemma EncodeLayout(key: seq<bytes>, cert: bytes, tls: seq<bytes>, cas: seq<bytes>, tlsCA: seq<bytes>)
    requires key != [] && tls != [] && tlsCA != [] && IsLine(cert) && forall i :: 0 <= i < |cas| ==> IsLine(cas[i])
    ensures Encode(Identity(Unlines(key), cert, Unlines(tls), cas, [Unlines(tlsCA)])) == Unlines(key + ([cert] + (tls + (cas + tlsCA))))
  {
    WrittenBlock(key);
    WrittenBlock(tls);
    WrittenBlock(tlsCA);
    WrittenLine(cert);
    WrittenLines(cas);
    WrittenAllOne(Unlines(tlsCA));
    UnlinesOne(cert);
    hide Written, WrittenAll, Unlines, IsLine;
    UnlinesConcat(key, [cert] + (tls + (cas + tlsCA)));
    UnlinesConcat([cert], tls + (cas + tlsCA));
    UnlinesConcat(tls, cas + tlsCA);
    UnlinesConcat(cas, tlsCA);
  }

  lemma AppendLast(a: bytes, b: bytes, c: bytes, d: bytes, e: bytes, x: bytes)
    ensures a + (b + (c + (d + (e + x)))) == a + (b + (c + (d + e))) + x
  {
  }

  /** Authorities of both kinds are written in their order. */
  lemma EncodeMore(id: Identity, sshCA: bytes, tlsCA: bytes)
    ensures id.tlsCAs == [] ==> Encode(id.(sshCAs := id.sshCAs + [sshCA])) == Encode(id) + Written(sshCA)
    ensures Encode(id.(tlsCAs := id.tlsCAs + [tlsCA])) == Encode(id) + Written(tlsCA)
  {
    WrittenAllSnoc(id.sshCAs, sshCA);
    WrittenAllSnoc(id.tlsCAs, tlsCA);
    assert WrittenAll([]) == [];
    hide Written, WrittenAll;
    var k, c, t := Written(id.privateKey), Written(id.sshCert), Written(id.tlsCert);
    AppendLast(k, c, t, WrittenAll(id.sshCAs), WrittenAll(id.tlsCAs), Written(tlsCA));
    if id.tlsCAs == [] {
      AppendLast(k, c, t, WrittenAll(id.sshCAs), [], Written(sshCA));
      assert WrittenAll(id.sshCAs) + ([] + Written(sshCA)) == WrittenAll(id.sshCAs) + Written(sshCA) + [];
    }
  }

  /** An absent field is an empty line. */
  lemma EncodeEmpty()
    ensures Encode(Identity([], [], [], [], [])) == [10, 10, 10]
  {
    assert WrittenAll([]) == [] && Written([]) == [10];
  }

  /** How the lines begin that the decoder looks for: "ssh", "@cert-authority", "-----BEGIN" and "-----END". */
  lemma Prefixes()
    ensures SSH == [115, 115, 104]
    ensures CERT_AUTHORITY == [64, 99, 101, 114, 116, 45, 97, 117, 116, 104, 111, 114, 105, 116, 121]
    ensures BEGIN == [45, 45, 45, 45, 45, 66, 69, 71, 73, 78]
    ensures END == [45, 45, 45, 45, 45, 69, 78, 68]
  {
  }

  /** A block of three lines as it stands in a file. */
  predicate IsBlock(block: bytes, begin: bytes, body: bytes, end: bytes) {
    && CleanLine(begin) && CleanLine(body) && CleanLine(end)
    && HasPrefix(begin, BEGIN) && HasPrefix(end, END) && !HasPrefix(body, END)
    && block == begin + [10] + (body + [10] + (end + [10]))
  }

  lemma UnlinesThree(a: bytes, b: bytes, c: bytes)
    ensures Unlines([a, b, c]) == a + [10] + (b + [10] + (c + [10]))
  {
    var none: seq<bytes> := [];
    assert Unlines(none) == [] && [c][1..] == none;
    assert Unlines([c]) == c + [NL];
    assert [b, c][1..] == [c] && [a, b, c][1..] == [b, c];
    assert Unlines([b, c]) == b + [NL] + (c + [NL]);
  }

  lemma BlockCanonical(block: bytes, begin: bytes, body: bytes, end: bytes)
    requires IsBlock(block, begin, body, end)
    ensures CanonicalPem(block) && Written(block) == block && block != []
  {
    hide CleanLine, HasPrefix, Unlines, Lines;
    var ls := [begin, body, end];
    UnlinesThree(begin, body, end);
    PrefixesExclusive(begin);
    LinesOfClean(ls);
    WrittenBlock(ls);
  }

  lemma DecodeOther(id: Identity, other: bytes, rest: bytes)
    requires CleanLine(other) && !HasPrefix(other, SSH) && !HasPrefix(other, CERT_AUTHORITY) && !HasPrefix(other, BEGIN)
    ensures DecodeFrom(Scan(id, None), other + [10] + rest) == DecodeFrom(Scan(id, None), rest)
  {
    hide CleanLine, HasPrefix, NextLine;
    DecodeLine(Scan(id, None), other, rest);
  }

  lemma DecodeAuthorityAndBlock(block: bytes, authority: bytes, rest: bytes)
    requires CanonicalPem(block) && Written(block) == block && CleanLine(authority) && HasPrefix(authority, CERT_AUTHORITY)
    ensures Decode(authority + [10] + (block + rest)) == DecodeFrom(Scan(Identity(block, [], [], [authority], []), None), rest)
  {
    WrittenLine(authority);
    hide CleanLine, HasPrefix, CanonicalPem, Written, DecodeFrom;
    DecodeEntry(EMPTY, authority, CERT_AUTHORITY, block + rest);
    assert [] + [authority] == [authority] && CERT_AUTHORITY != SSH;
    DecodePem(Identity([], [], [], [authority], []), block, rest);
  }

  lemma DecodeCertAndOther(id: Identity, cert: bytes, other: bytes, rest: bytes)
    requires CleanLine(cert) && HasPrefix(cert, SSH)
    requires CleanLine(other) && !HasPrefix(other, SSH) && !HasPrefix(other, CERT_AUTHORITY) && !HasPrefix(other, BEGIN)
    ensures DecodeFrom(Scan(id, None), cert + [10] + (other + [10] + rest)) == DecodeFrom(Scan(id.(sshCert := cert), None), rest)
  {
    WrittenLine(cert);
    hide CleanLine, HasPrefix, Written, DecodeFrom;
    DecodeEntry(id, cert, SSH, other + [10] + rest);
    DecodeOther(id.(sshCert := cert), other, rest);
  }

  lemma DecodeTwoBlocks(id: Identity, block: bytes)
    requires CanonicalPem(block) && Written(block) == block && block != []
    requires id.privateKey != [] && id.tlsCert == [] && id.tlsCAs == []
    ensures DecodeFrom(Scan(id, None), block + block) == Ok(id.(tlsCert := block, tlsCAs := [block]))
  {
    hide CanonicalPem, Written, DecodeFrom;
    DecodePem(id, block, block);
    assert block + [] == block && [] + [block] == [block];
    DecodePem(id.(tlsCert := block), block, []);
    DecodeEnd(id.(tlsCert := block, tlsCAs := [block]));
  }

  /** What the decoder makes of a file with one line or block of each kind: the SSH certificate is the line that starts with "ssh",
      authorities start with "@cert-authority", and of three blocks the first is the private key, the second the
      certificate and the third an authority, wherever the other lines stand; a line of no kind is ignored. */
  lemma DecodeLayout(block: bytes, begin: bytes, body: bytes, end: bytes, cert: bytes, authority: bytes, other: bytes)
    requires IsBlock(block, begin, body, end) && CleanLine(cert) && CleanLine(authority) && CleanLine(other)
    requires HasPrefix(cert, SSH) && HasPrefix(authority, CERT_AUTHORITY)
    requires !HasPrefix(other, SSH) && !HasPrefix(other, CERT_AUTHORITY) && !HasPrefix(other, BEGIN)
    ensures Decode(authority + [10] + (block + (cert + [10] + (other + [10] + (block + block)))))
         == Ok(Identity(block, cert, block, [authority], [block]))
  {
    BlockCanonical(block, begin, body, end);
    hide *;
    DecodeAuthorityAndBlock(block, authority, cert + [10] + (other + [10] + (block + block)));
    DecodeCertAndOther(Identity(block, [], [], [authority], []), cert, other, block + block);
    DecodeTwoBlocks(Identity(block, cert, [], [authority], []), block);
  }
}
