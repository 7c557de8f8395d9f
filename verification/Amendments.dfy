/** The amendment file loop equals one simultaneous update of the base files. */
module Amendments {
  import opened Sequences

  type Bytes = seq<bv8>

  datatype Kind = AddFile | ReplaceFile | DeleteFile
  datatype Operation = Operation(kind: Kind, path: string, expected: Option<string>, content: Option<string>)

  /** A digest and base64 are left uninterpreted; decoding fails on other text. */
  datatype Codec = Codec(sha256: Bytes -> string, encode: Bytes -> string, decode: string -> Option<Bytes>)

  const MAX_BASE64 := 8 * 1024 * 1024

  function DecodeBase64(codec: Codec, value: string): Option<Bytes> {
    if |value| > MAX_BASE64 then None else codec.decode(value)
  }

  datatype Outcome = Amended(files: map<string, Bytes>) | Rejected

  // ---- The simultaneous update ---------------------------------------------------------

  function Content(codec: Codec, op: Operation): Option<Bytes> {
    if op.content.None? then None else DecodeBase64(codec, op.content.value)
  }

  /** Whether one operation could be applied to a set of files. */
  predicate Applicable(codec: Codec, files: map<string, Bytes>, op: Operation) {
    match op.kind
    case AddFile => op.path !in files && Content(codec, op).Some?
    case ReplaceFile => Matches(codec, files, op) && Content(codec, op).Some?
    case DeleteFile => Matches(codec, files, op)
  }

  predicate Matches(codec: Codec, files: map<string, Bytes>, op: Operation) {
    op.path in files && op.expected == Some(codec.sha256(files[op.path]))
  }

  ghost predicate DistinctPaths(ops: seq<Operation>) {
    forall i, j :: 0 <= i < j < |ops| ==> ops[i].path != ops[j].path
  }

  /** The files from which every amendment starts: the base without its manifest. */
  function Start(base: map<string, Bytes>): map<string, Bytes> { base - {"skill.json"} }

  /** r is base with every operation's path set or removed and every other path as it was. */
  ghost predicate Simultaneous(codec: Codec, files: map<string, Bytes>, ops: seq<Operation>, r: map<string, Bytes>) {
    && (forall op :: op in ops && op.kind.DeleteFile? ==> op.path !in r)
    && (forall op :: op in ops && !op.kind.DeleteFile? ==> op.path in r && Content(codec, op) == Some(r[op.path]))
    && (forall p :: (forall op :: op in ops ==> op.path != p) ==>
      (p in r <==> p in files) && (p in r ==> r[p] == files[p]))
  }

  ghost predicate AllApplicable(codec: Codec, files: map<string, Bytes>, ops: seq<Operation>) {
    forall op :: op in ops ==> Applicable(codec, files, op)
  }

  // ---- The loop -----------------------------------------------------------------------------

  /** Two sets of files that agree on one path. */
  ghost predicate SameAt(files: map<string, Bytes>, files': map<string, Bytes>, p: string) {
    (p in files <==> p in files') && (p in files ==> files[p] == files'[p])
  }

  /** None of the first i operations is about path p. */
  ghost predicate Untouched(ops: seq<Operation>, i: nat, p: string)
    requires i <= |ops|
  {
    forall j :: 0 <= j < i ==> ops[j].path != p
  }

  /** applyAmendmentOperations: one operation after the other on a copy of the base. */
  method ApplyAmendmentOperations(codec: Codec, base: map<string, Bytes>, ops: seq<Operation>) returns (r: Outcome)
    requires DistinctPaths(ops)
    ensures r.Amended? <==> AllApplicable(codec, base - {"skill.json"}, ops)
    ensures r.Amended? ==> Simultaneous(codec, base - {"skill.json"}, ops, r.files)
  {
    var files := Start(base);
    for i := 0 to |ops|
      invariant forall j :: 0 <= j < i ==> Applicable(codec, Start(base), ops[j])
      invariant forall j :: 0 <= j < i && ops[j].kind.DeleteFile? ==> ops[j].path !in files
      invariant forall j :: 0 <= j < i && !ops[j].kind.DeleteFile? ==>
        ops[j].path in files && Content(codec, ops[j]) == Some(files[ops[j].path])
      invariant forall p :: Untouched(ops, i, p) ==> SameAt(Start(base), files, p)
    {
      var op := ops[i];
      ghost var before := files;
      assert Untouched(ops, i, op.path);
      assert SameAt(Start(base), files, op.path);
      if op.kind.AddFile? {
        if op.path in files || Content(codec, op).None? {
          assert op in ops && !Applicable(codec, Start(base), op);
          return Rejected;
        }
        files := files[op.path := Content(codec, op).value];
      } else {
        if op.path !in files || op.expected != Some(codec.sha256(files[op.path])) {
          assert op in ops && !Applicable(codec, Start(base), op);
          return Rejected;
        }
        if op.kind.DeleteFile? {
          files := files - {op.path};
        } else {
          if Content(codec, op).None? {
            assert op in ops && !Applicable(codec, Start(base), op);
            return Rejected;
          }
          files := files[op.path := Content(codec, op).value];
        }
      }
      forall p | Untouched(ops, i + 1, p) ensures SameAt(Start(base), files, p) {
        assert op.path != p && Untouched(ops, i, p);
        assert SameAt(Start(base), before, p);
      }
    }
    Gathered(codec, Start(base), ops, files);
    r := Amended(files);
  }

  lemma Gathered(codec: Codec, start: map<string, Bytes>, ops: seq<Operation>, files: map<string, Bytes>)
    requires forall j :: 0 <= j < |ops| && ops[j].kind.DeleteFile? ==> ops[j].path !in files
    requires forall j :: 0 <= j < |ops| && !ops[j].kind.DeleteFile? ==>
      ops[j].path in files && Content(codec, ops[j]) == Some(files[ops[j].path])
    requires forall p :: Untouched(ops, |ops|, p) ==> SameAt(start, files, p)
    ensures Simultaneous(codec, start, ops, files)
  {
    forall p | forall op :: op in ops ==> op.path != p
      ensures (p in files <==> p in start) && (p in files ==> files[p] == start[p])
    {
      assert forall j :: 0 <= j < |ops| ==> ops[j] in ops;
      assert Untouched(ops, |ops|, p);
      assert SameAt(start, files, p);
    }
  }

  /** The update is determined by the set of operations: their order does not matter. */
  lemma OrderDoesNotMatter(codec: Codec, files: map<string, Bytes>, ops: seq<Operation>, ops': seq<Operation>,
                           r: map<string, Bytes>, r': map<string, Bytes>)
    requires forall op :: op in ops <==> op in ops'
    requires Simultaneous(codec, files, ops, r) && Simultaneous(codec, files, ops', r')
    ensures r == r'
  {
    forall p ensures SameAt(r, r', p) {
      if op :| op in ops && op.path == p {
        assert op in ops';
      } else {
        assert forall op :: op in ops' ==> op.path != p;
      }
    }
    assert forall p :: p in r <==> p in r' by { forall p ensures p in r <==> p in r' { assert SameAt(r, r', p); } }
    forall p | p in r ensures r[p] == r'[p] { assert SameAt(r, r', p); }
  }

  // ---- Where the operations come from ----------------------------------------------------------

  /** One entry of changes; text is content. */
  datatype Change = Change(
    operation: string, path: string, expected: Option<string>, text: Option<string>, base64: Option<string>)

  /** normalize fails on a path that is no bundle path; lower is toLocaleLowerCase. */
  datatype Reader = Reader(normalize: string -> Option<string>, lower: string -> string, utf8: string -> Bytes)

  datatype Parsed = Parsed(ops: seq<Operation>) | Invalid

  function KindOf(operation: string): Option<Kind> {
    if operation == "add" then Some(AddFile)
    else if operation == "replace" then Some(ReplaceFile)
    else if operation == "delete" then Some(DeleteFile)
    else None
  }

  predicate Digest(s: string) { |s| == 64 && forall c :: c in s ==> 'a' <= c <= 'f' || '0' <= c <= '9' }

  predicate ExpectedOk(kind: Kind, expected: Option<string>) {
    if kind.AddFile? then expected.None? else expected.Some? && Digest(expected.value)
  }

  /** The bytes that a change carries; None when they are missing, doubled or misplaced. */
  function Carried(codec: Codec, reader: Reader, kind: Kind, c: Change): Option<Option<Bytes>> {
    if kind.DeleteFile? then (if c.text.None? && c.base64.None? then Some(None) else None)
    else if c.text.Some? && c.base64.None? then Some(Some(reader.utf8(c.text.value)))
    else if c.text.None? && c.base64.Some? && DecodeBase64(codec, c.base64.value).Some?
    then Some(DecodeBase64(codec, c.base64.value))
    else None
  }

  predicate PathOk(path: Option<string>) { path.Some? && path.value != "skill.json" && path.value != "skill.lock.json" }

  /** One change read on its own. */
  function Read(codec: Codec, reader: Reader, c: Change): Option<Operation> {
    var kind, path := KindOf(c.operation), reader.normalize(c.path);
    if kind.None? || !PathOk(path) || !ExpectedOk(kind.value, c.expected) then None
    else
      var carried := Carried(codec, reader, kind.value, c);
      if carried.None? then None
      else Some(Operation(kind.value, path.value, c.expected,
                          if carried.value.None? then None else Some(codec.encode(carried.value.value))))
  }

  /** A change is readable exactly when its operation is known, its path is a bundle path and not
      a generated one, an add expects no digest and the others one, a delete carries nothing and
      the others exactly one encoding of their bytes, which decodes. */
  lemma ReadExactly(codec: Codec, reader: Reader, c: Change)
    ensures Read(codec, reader, c).Some? <==>
      && c.operation in {"add", "replace", "delete"}
      && reader.normalize(c.path) !in {None, Some("skill.json"), Some("skill.lock.json")}
      && (c.operation == "add" ==> c.expected == None)
      && (c.operation != "add" ==> c.expected != None && |c.expected.value| == 64)
      && (c.operation != "add" ==> forall x :: x in c.expected.value ==> 'a' <= x <= 'f' || '0' <= x <= '9')
      && (c.operation == "delete" ==> c.text == None && c.base64 == None)
      && (c.operation != "delete" ==> (c.text == None <==> c.base64 != None))
      && (c.operation != "delete" && c.base64 != None ==>
            |c.base64.value| <= 8388608 && codec.decode(c.base64.value) != None)
    ensures Read(codec, reader, c).Some? ==>
      var op := Read(codec, reader, c).value;
      && op.kind == (match c.operation case "add" => AddFile case "replace" => ReplaceFile case _ => DeleteFile)
      && Some(op.path) == reader.normalize(c.path) && op.expected == c.expected
      && op.content == if c.text != None then Some(codec.encode(reader.utf8(c.text.value)))
           else if c.base64 != None then Some(codec.encode(codec.decode(c.base64.value).value))
           else None
  {
  }

  /** Both changes are readable and name one path, apart from letter case. */
  predicate Clash(codec: Codec, reader: Reader, a: Change, b: Change) {
    var x, y := Read(codec, reader, a), Read(codec, reader, b);
    x.Some? && y.Some? && reader.lower(x.value.path) == reader.lower(y.value.path)
  }

  /** Between one and a hundred changes, each readable, no two on one path in any letter case. */
  ghost predicate Amendable(codec: Codec, reader: Reader, changes: seq<Change>) {
    && 1 <= |changes| <= 100
    && (forall i :: 0 <= i < |changes| ==> Read(codec, reader, changes[i]).Some?)
    && (forall i, j :: 0 <= i < j < |changes| ==> !Clash(codec, reader, changes[i], changes[j]))
  }

  /** parseAmendmentOperations */
  method ParseAmendmentOperations(codec: Codec, reader: Reader, changes: seq<Change>) returns (r: Parsed)
    ensures r.Parsed? <==> Amendable(codec, reader, changes)
    ensures r.Parsed? ==> |r.ops| == |changes| && DistinctPaths(r.ops)
    ensures r.Parsed? ==> forall i :: 0 <= i < |changes| ==> Read(codec, reader, changes[i]) == Some(r.ops[i])
  {
    if |changes| < 1 || |changes| > 100 {
      return Invalid;
    }
    var paths: set<string> := {};
    var ops: seq<Operation> := [];
    for i := 0 to |changes|
      invariant |ops| == i && forall j :: 0 <= j < i ==> Read(codec, reader, changes[j]) == Some(ops[j])
      invariant forall j, k :: 0 <= j < k < i ==> reader.lower(ops[j].path) != reader.lower(ops[k].path)
      invariant paths == set j | 0 <= j < i :: reader.lower(ops[j].path)
    {
      var c := changes[i];
      var kind, path := KindOf(c.operation), reader.normalize(c.path);
      if kind.None? || !PathOk(path) || reader.lower(path.value) in paths || !ExpectedOk(kind.value, c.expected) {
        return Invalid;
      }
      paths := paths + {reader.lower(path.value)};
      var carried := Carried(codec, reader, kind.value, c);
      if carried.None? {
        return Invalid;
      }
      ops := ops + [Operation(kind.value, path.value, c.expected,
                              if carried.value.None? then None else Some(codec.encode(carried.value.value)))];
    }
    assert DistinctPaths(ops) by {
      forall i, j | 0 <= i < j < |ops| ensures ops[i].path != ops[j].path {
        assert reader.lower(ops[i].path) != reader.lower(ops[j].path);
      }
    }
    r := Parsed(ops);
  }

  // ---- What was read but cannot be written -----------------------------------------------------

  /** Base64 writes each three bytes, or what is left of three, as four characters; only such
      text decodes. */
  ghost predicate Base64(codec: Codec) {
    && (forall b: Bytes :: codec.decode(codec.encode(b)) == Some(b) && |codec.encode(b)| == Padded(|b|))
    && (forall s: string :: codec.decode(s).Some? ==> |s| == Padded(|codec.decode(s).value|))
  }

  function Padded(bytes: nat): nat { 4 * ((bytes + 2) / 3) }

  const MAX_TEXT := 6 * 1024 * 1024

  /** The content of a change that was read can be written exactly when the change carried it
      as base64, or as text of at most six mebibytes; and then with the bytes it carried. */
  lemma ReadIsWritable(codec: Codec, reader: Reader, c: Change)
    requires Base64(codec) && Read(codec, reader, c).Some? && c.operation != "delete"
    ensures var op := Read(codec, reader, c).value;
      && (Content(codec, op).Some? <==> c.base64.Some? || |reader.utf8(c.text.value)| <= MAX_TEXT)
      && (Content(codec, op).Some? ==> Content(codec, op) == Carried(codec, reader, op.kind, c).value)
  {
    var op := Read(codec, reader, c).value;
    var bytes := Carried(codec, reader, op.kind, c).value.value;
    assert op.content == Some(codec.encode(bytes)) && |op.content.value| == Padded(|bytes|);
    if c.base64.Some? {
      assert codec.decode(c.base64.value) == Some(bytes) && |c.base64.value| == Padded(|bytes|);
    }
  }

  function Letters(n: nat): (s: string)
    ensures |s| == n && forall c :: c in s ==> c == 'a'
  {
    seq(n, i => 'a')
  }

  /** Adding a file of 6291457 letters is accepted, and then fails on every set of files. */
  lemma UnwritableText(codec: Codec, reader: Reader, path: string, base: map<string, Bytes>) returns (c: Change)
    requires Base64(codec) && reader.normalize(path) == Some(path) && PathOk(Some(path))
    requires forall s: string :: (forall x :: x in s ==> x == 'a') ==> |reader.utf8(s)| == |s|
    ensures c == Change("add", path, None, Some(Letters(MAX_TEXT + 1)), None)
    ensures Amendable(codec, reader, [c]) && !AllApplicable(codec, Start(base), [Read(codec, reader, c).value])
  {
    c := Change("add", path, None, Some(Letters(MAX_TEXT + 1)), None);
    ReadIsWritable(codec, reader, c);
    var op := Read(codec, reader, c).value;
    assert op in [op] && !Applicable(codec, Start(base), op);
  }
}
