/** A whole patch over a tree of files: the envelope, its file operations, and what happens when one fails. */
module PatchRun {
  import opened PatchHunks
  import opened PatchUpdate
  import opened PatchText

  const SIZE_LIMIT: nat := 65536
  const BEGIN: Line := "*** Begin Patch"
  const END: Line := "*** End Patch"
  const UPDATE: Line := "*** Update File: "
  const ADD: Line := "*** Add File: "
  const DELETE: Line := "*** Delete File: "

  datatype Op =
    | UpdateFile(path: string, body: seq<Line>)
    | AddFile(path: string, body: seq<Line>)
    | DeleteFile(path: string)

  /** The files, and the paths recorded as changed, created, deleted and written. */
  datatype Tree = Tree(
    files: map<string, string>,
    changed: seq<string>,
    created: seq<string>,
    deleted: seq<string>,
    writes: seq<string>)

  /** A run ends with a tree and, when an operation failed, the reason; earlier operations stay done. */
  datatype Run = Run(tree: Tree, error: seq<PatchError>)

  function Utf8Length(text: string): nat {
    if text == "" then 0
    else
      (var c := text[0] as int; if c < 0x80 then 1 else if c < 0x800 then 2 else if c < 0x10000 then 3 else 4)
      + Utf8Length(text[1..])
  }

  /** The lines an add patch contributes. */
  function AddedLines(body: seq<Line>): Result<seq<Line>> {
    if body == [] then Ok([])
    else if StartsWith(body[0], "@@") then AddedLines(body[1..])
    else if !StartsWith(body[0], "+") then Err(BadLine)
    else
      var rest :- AddedLines(body[1..]);
      Ok([body[0][1..]] + rest)
  }

  function Apply(t: Tree, op: Op): Result<Tree> {
    match op
    case UpdateFile(path, body) =>
      if path !in t.files then Err(Missing)
      else
        var text :- UpdateText(t.files[path], body);
        Ok(t.(files := t.files[path := text], changed := t.changed + [path], writes := t.writes + [path]))
    case AddFile(path, body) =>
      if path in t.files then Err(Exists)
      else
        var lines :- AddedLines(body);
        Ok(t.(files := t.files[path := Join(lines, lines != [])], changed := t.changed + [path],
              created := t.created + [path], writes := t.writes + [path]))
    case DeleteFile(path) =>
      if path !in t.files then Err(NotFound)
      else Ok(t.(files := t.files - {path}, changed := t.changed + [path], deleted := t.deleted + [path]))
  }

  /** Operations in order, stopping at the first failure. */
  function ApplyAll(t: Tree, ops: seq<Op>): Run
    decreases |ops|
  {
    if ops == [] then Run(t, [])
    else match Apply(t, ops[0])
      case Err(e) => Run(t, [e])
      case Ok(t') => ApplyAll(t', ops[1..])
  }

  /** The first line at or after `i` that starts an operation, or the envelope's end. */
  function BodyEnd(lines: seq<Line>, i: nat): (k: nat)
    requires i < |lines|
    ensures i <= k < |lines|
    decreases |lines| - i
  {
    if i == |lines| - 1 || StartsWith(lines[i], "*** ") then i else BodyEnd(lines, i + 1)
  }

  function ReadOp(lines: seq<Line>, i: nat): Result<(Op, nat)>
    requires i < |lines| - 1
    ensures ReadOp(lines, i).Ok? ==> i < ReadOp(lines, i).value.1 < |lines|
  {
    var line := lines[i];
    var k := BodyEnd(lines, i + 1);
    if StartsWith(line, UPDATE) then Ok((UpdateFile(line[|UPDATE|..], lines[i + 1..k]), k))
    else if StartsWith(line, ADD) then Ok((AddFile(line[|ADD|..], lines[i + 1..k]), k))
    else if StartsWith(line, DELETE) then Ok((DeleteFile(line[|DELETE|..]), i + 1))
    else Err(BadOperation)
  }

  /** Read and apply operations from line `i` on. */
  function RunFrom(t: Tree, lines: seq<Line>, i: nat): Run
    requires i < |lines|
    decreases |lines| - i
  {
    if i >= |lines| - 1 then Run(t, [])
    else match ReadOp(lines, i)
      case Err(e) => Run(t, [e])
      case Ok((op, k)) =>
        match Apply(t, op)
        case Err(e) => Run(t, [e])
        case Ok(t') => RunFrom(t', lines, k)
  }

  /** The files as given, with nothing recorded yet. */
  function Start(files: map<string, string>): Tree {
    Tree(files, [], [], [], [])
  }

  function RunPatch(files: map<string, string>, patch: string): Run {
    var t := Start(files);
    if Utf8Length(patch) > SIZE_LIMIT then Run(t, [TooLarge])
    else
      var lines := Split(patch);
      if lines == [] || lines[0] != BEGIN || lines[|lines| - 1] != END then Run(t, [BadEnvelope])
      else RunFrom(t, lines, 1)
  }

  function PrintOp(op: Op): seq<Line> {
    match op
    case UpdateFile(path, body) => [UPDATE + path] + body
    case AddFile(path, body) => [ADD + path] + body
    case DeleteFile(path) => [DELETE + path]
  }

  function PrintOps(ops: seq<Op>): seq<Line> {
    if ops == [] then [] else PrintOp(ops[0]) + PrintOps(ops[1..])
  }

  predicate PlainBody(op: Op) {
    op.DeleteFile? || forall i :: 0 <= i < |op.body| ==> !StartsWith(op.body[i], "*** ")
  }

  lemma {:induction false} BodyEndIs(lines: seq<Line>, i: nat, k: nat)
    requires i <= k < |lines|
    requires forall j :: i <= j < k ==> !StartsWith(lines[j], "*** ")
    requires k == |lines| - 1 || StartsWith(lines[k], "*** ")
    ensures BodyEnd(lines, i) == k
    decreases k - i
  {
    if i < k {
      BodyEndIs(lines, i + 1, k);
    }
  }

  lemma HeadersApart(path: string)
    ensures StartsWith(UPDATE + path, "*** ") && StartsWith(ADD + path, "*** ") && StartsWith(DELETE + path, "*** ")
    ensures !StartsWith(ADD + path, UPDATE) && !StartsWith(DELETE + path, UPDATE) && !StartsWith(DELETE + path, ADD)
  {
    assert (ADD + path)[4] == 'A' && (DELETE + path)[4] == 'D' && UPDATE[4] == 'U' && ADD[4] == 'A';
  }

  /** The body of a printed operation is found again. */
  lemma ReadBody(before: seq<Line>, header: Line, body: seq<Line>, rest: seq<Line>)
    requires forall i :: 0 <= i < |body| ==> !StartsWith(body[i], "*** ")
    requires rest != [] && StartsWith(rest[0], "*** ")
    ensures var lines, k := before + ([header] + body) + rest, |before| + 1 + |body|;
            BodyEnd(lines, |before| + 1) == k && lines[|before| + 1..k] == body
  {
    hide StartsWith;
    var lines, k := before + ([header] + body) + rest, |before| + 1 + |body|;
    forall j | |before| + 1 <= j < k ensures !StartsWith(lines[j], "*** ") {
      assert lines[j] == body[j - |before| - 1];
    }
    assert lines[k] == rest[0];
    BodyEndIs(lines, |before| + 1, k);
  }

  /** Reading back one printed operation. */
  lemma ReadPrintedOp(before: seq<Line>, op: Op, rest: seq<Line>)
    requires PlainBody(op) && rest != [] && StartsWith(rest[0], "*** ")
    ensures ReadOp(before + PrintOp(op) + rest, |before|) == Ok((op, |before| + |PrintOp(op)|))
  {
    hide StartsWith, BodyEnd;
    HeadersApart(op.path);
    Prefixed(op.path);
    assert (before + PrintOp(op) + rest)[|before|] == PrintOp(op)[0];
    if !op.DeleteFile? {
      ReadBody(before, PrintOp(op)[0], op.body, rest);
    }
  }

  lemma Prefixed(path: string)
    ensures StartsWith(UPDATE + path, UPDATE) && StartsWith(ADD + path, ADD) && StartsWith(DELETE + path, DELETE)
    ensures (UPDATE + path)[|UPDATE|..] == path && (ADD + path)[|ADD|..] == path && (DELETE + path)[|DELETE|..] == path
  {
  }

  /** Printing a list of operations inside the envelope and running the patch applies exactly those operations. */
  lemma {:induction false} RunPrinted(t: Tree, before: seq<Line>, ops: seq<Op>)
    requires forall op :: op in ops ==> PlainBody(op)
    ensures RunFrom(t, before + PrintOps(ops) + [END], |before|) == ApplyAll(t, ops)
    decreases |ops|
  {
    hide ReadOp, Apply, PlainBody;
    var lines := before + PrintOps(ops) + [END];
    if ops != [] {
      var head, rest := PrintOp(ops[0]), PrintOps(ops[1..]) + [END];
      assert lines == before + head + rest;
      RestStarts(ops[1..]);
      ReadPrintedOp(before, ops[0], rest);
      if Apply(t, ops[0]).Ok? {
        assert before + head + PrintOps(ops[1..]) + [END] == lines;
        RunPrinted(Apply(t, ops[0]).value, before + head, ops[1..]);
      }
    }
  }

  lemma RestStarts(ops: seq<Op>)
    ensures StartsWith((PrintOps(ops) + [END])[0], "*** ")
  {
    if ops != [] {
      HeadersApart(ops[0].path);
    }
  }

  lemma ApplyTouchesOne(t: Tree, op: Op, path: string)
    requires Apply(t, op).Ok?
    ensures var t' := Apply(t, op).value;
            && t'.changed == t.changed + [op.path]
            && (path != op.path ==> (path in t'.files <==> path in t.files) &&
                                    (path in t.files ==> t'.files[path] == t.files[path]))
  {
    hide UpdateText, AddedLines, Join;
  }

  lemma {:induction false} OthersUntouched(t: Tree, ops: seq<Op>, path: string)
    ensures var end := ApplyAll(t, ops).tree;
            && t.changed <= end.changed
            && (path !in end.changed ==> (path in end.files <==> path in t.files) &&
                                         (path in t.files ==> end.files[path] == t.files[path]))
    decreases |ops|
  {
    hide Apply;
    if ops != [] && Apply(t, ops[0]).Ok? {
      var t' := Apply(t, ops[0]).value;
      ApplyTouchesOne(t, ops[0], path);
      OthersUntouched(t', ops[1..], path);
      assert t'.changed[|t.changed|] == ops[0].path;
      assert ops[0].path in ApplyAll(t, ops).tree.changed;
    }
  }

  lemma {:induction false} FailureAfterPrefix(t: Tree, ops: seq<Op>)
    ensures var r := ApplyAll(t, ops);
            r.error == [] || exists k :: 0 <= k < |ops| && ApplyAll(t, ops[..k]) == Run(r.tree, [])
                                      && Apply(r.tree, ops[k]) == Err(r.error[0])
    decreases |ops|
  {
    hide Apply;
    var r := ApplyAll(t, ops);
    if ops != [] && r.error != [] {
      match Apply(t, ops[0])
      case Err(e) =>
        assert ApplyAll(t, ops[..0]) == Run(t, []);
      case Ok(t') =>
        FailureAfterPrefix(t', ops[1..]);
        var k :| 0 <= k < |ops[1..]| && ApplyAll(t', ops[1..][..k]) == Run(r.tree, [])
              && Apply(r.tree, ops[1..][k]) == Err(r.error[0]);
        assert ops[..k + 1][0] == ops[0] && ops[..k + 1][1..] == ops[1..][..k];
        assert ApplyAll(t, ops[..k + 1]) == Run(r.tree, []);
    }
  }

  /** The operations that lines ask for from `i` on, up to the first line that starts none, and the error that
      line causes. */
  function ReadOps(lines: seq<Line>, i: nat): (seq<Op>, seq<PatchError>)
    requires i < |lines|
    decreases |lines| - i
  {
    if i == |lines| - 1 then ([], [])
    else match ReadOp(lines, i)
      case Err(e) => ([], [e])
      case Ok((op, k)) => var (ops, err) := ReadOps(lines, k); ([op] + ops, err)
  }

  /** Reading and applying in turn is reading all, then applying all: a bad line fails the run only when no
      operation before it does. */
  lemma {:induction false} RunFromReads(t: Tree, lines: seq<Line>, i: nat)
    requires i < |lines|
    ensures var (ops, err) := ReadOps(lines, i);
            var r := ApplyAll(t, ops);
            RunFrom(t, lines, i) == if r.error != [] then r else Run(r.tree, err)
    decreases |lines| - i
  {
    hide Apply, ReadOp;
    if i < |lines| - 1 && ReadOp(lines, i).Ok? {
      var (op, k) := ReadOp(lines, i).value;
      var (ops, err) := ReadOps(lines, k);
      assert ([op] + ops)[1..] == ops;
      if Apply(t, op).Ok? {
        RunFromReads(Apply(t, op).value, lines, k);
      }
    }
  }

  /** The operations of a patch, and the error in its envelope or in the first line that is no operation. */
  function PatchOps(patch: string): (seq<Op>, seq<PatchError>) {
    if Utf8Length(patch) > SIZE_LIMIT then ([], [TooLarge])
    else
      var lines := Split(patch);
      if lines == [] || lines[0] != BEGIN || lines[|lines| - 1] != END then ([], [BadEnvelope])
      else if |lines| == 1 then ([], [])
      else ReadOps(lines, 1)
  }

  lemma RunPatchReads(files: map<string, string>, patch: string)
    ensures var (ops, err) := PatchOps(patch);
            var r := ApplyAll(Start(files), ops);
            RunPatch(files, patch) == if r.error != [] then r else Run(r.tree, err)
  {
    hide Utf8Length, ReadOps, RunFrom;
    var lines := Split(patch);
    BeginIsNotEnd();
    if Utf8Length(patch) <= SIZE_LIMIT && lines != [] && lines[0] == BEGIN && lines[|lines| - 1] == END {
      RunFromReads(Start(files), lines, 1);
    }
  }

  lemma BeginIsNotEnd()
    ensures BEGIN != END
  {
    assert BEGIN[4] == 'B' && END[4] == 'E';
  }

  /** Every file whose path is not reported as changed is exactly as before, for any patch, even when the run
      fails. */
  lemma UnreportedUnchanged(files: map<string, string>, patch: string, path: string)
    ensures var end := RunPatch(files, patch).tree;
            path !in end.changed ==> (path in end.files <==> path in files) &&
                                     (path in files ==> end.files[path] == files[path])
  {
    hide RunPatch, PatchOps, ApplyAll;
    RunPatchReads(files, patch);
    OthersUntouched(Start(files), PatchOps(patch).0, path);
  }

  /** A failing run has done exactly the operations before the failing one, or all of them when the failure is
      a bad envelope or a line that starts no operation. */
  lemma FailureKeepsPrefix(files: map<string, string>, patch: string)
    ensures var (ops, err) := PatchOps(patch);
            var r := RunPatch(files, patch);
            r.error != [] ==>
              exists k :: 0 <= k <= |ops| && ApplyAll(Start(files), ops[..k]) == Run(r.tree, [])
                       && if k == |ops| then r.error == err else Apply(r.tree, ops[k]) == Err(r.error[0])
  {
    hide RunPatch, PatchOps, Apply;
    var (ops, err) := PatchOps(patch);
    var r := RunPatch(files, patch);
    RunPatchReads(files, patch);
    FailureAfterPrefix(Start(files), ops);
    if r.error != [] && ApplyAll(Start(files), ops).error == [] {
      assert ops[..|ops|] == ops;
      assert ApplyAll(Start(files), ops[..|ops|]) == Run(r.tree, []);
    }
  }

  /** A success is recorded as a write, or it is a delete and takes a file away. */
  lemma ApplyRecords(t: Tree, op: Op)
    requires Apply(t, op).Ok?
    ensures var t' := Apply(t, op).value;
            && t.writes <= t'.writes
            && (op.DeleteFile? ==> t'.writes == t.writes && t'.files.Keys < t.files.Keys)
            && (!op.DeleteFile? ==> |t'.writes| > |t.writes|)
  {
    hide UpdateText, AddedLines, Join;
    if op.DeleteFile? {
      assert op.path in t.files.Keys && op.path !in Apply(t, op).value.files.Keys;
    }
  }

  /** Operations that write nothing only take files away. */
  lemma {:induction false} RecordsGrow(t: Tree, ops: seq<Op>)
    ensures var end := ApplyAll(t, ops).tree;
            && t.writes <= end.writes
            && (end.writes == t.writes ==> end.files.Keys <= t.files.Keys)
            && (ops != [] && Apply(t, ops[0]).Ok? && end.writes == t.writes ==> end.files.Keys < t.files.Keys)
    decreases |ops|
  {
    hide Apply;
    if ops != [] && Apply(t, ops[0]).Ok? {
      ApplyRecords(t, ops[0]);
      RecordsGrow(Apply(t, ops[0]).value, ops[1..]);
    }
  }

  /** A failing patch leaves the files and the list of writes as they were exactly when nothing had been done: its
      envelope is bad, or its first operation is unreadable or fails. */
  lemma RolledBackIff(files: map<string, string>, patch: string)
    requires RunPatch(files, patch).error != []
    ensures var end := RunPatch(files, patch).tree;
            end.files == files && end.writes == [] <==>
            var ops := PatchOps(patch).0; ops == [] || Apply(Start(files), ops[0]).Err?
  {
    hide RunPatch, PatchOps, Apply;
    RunPatchReads(files, patch);
    RecordsGrow(Start(files), PatchOps(patch).0);
  }

  /** A patch text made of lines. */
  lemma RunJoined(files: map<string, string>, lines: seq<Line>)
    requires NoNl(lines) && |lines| >= 2 && lines[0] == BEGIN && lines[|lines| - 1] == END
    requires Utf8Length(Join(lines, true)) <= SIZE_LIMIT
    ensures RunPatch(files, Join(lines, true)) == RunFrom(Start(files), lines, 1)
    ensures PatchOps(Join(lines, true)) == ReadOps(lines, 1)
  {
    hide Utf8Length, ReadOps, RunFrom, Join, Split, RunPatch, PatchOps;
    SplitJoinIff(lines, true);
    RunLines(files, Join(lines, true), lines);
  }

  lemma RunLines(files: map<string, string>, patch: string, lines: seq<Line>)
    requires Split(patch) == lines && |lines| >= 2 && lines[0] == BEGIN && lines[|lines| - 1] == END
    requires Utf8Length(patch) <= SIZE_LIMIT
    ensures RunPatch(files, patch) == RunFrom(Start(files), lines, 1) && PatchOps(patch) == ReadOps(lines, 1)
  {
    hide Utf8Length, ReadOps, RunFrom, Split;
  }

  /** Printing operations as a patch text and running it applies exactly those operations. */
  lemma PrintedPatch(files: map<string, string>, ops: seq<Op>)
    requires forall op :: op in ops ==> PlainBody(op)
    requires var lines := [BEGIN] + PrintOps(ops) + [END];
             NoNl(lines) && Utf8Length(Join(lines, true)) <= SIZE_LIMIT
    ensures RunPatch(files, Join([BEGIN] + PrintOps(ops) + [END], true)) == ApplyAll(Start(files), ops)
  {
    hide RunPatch, RunFrom, PrintOps, ApplyAll, NoNl, Join, PlainBody, Utf8Length;
    RunJoined(files, [BEGIN] + PrintOps(ops) + [END]);
    RunPrinted(Start(files), [BEGIN], ops);
  }

  lemma {:induction false} Utf8AtMost(text: string)
    ensures Utf8Length(text) <= 4 * |text|
  {
    if text != "" {
      Utf8AtMost(text[1..]);
    }
  }

  /** A patch of one operation, followed by a line that asks for an operation there is none of. */
  function ThenBad(op: Op): seq<Line> {
    [BEGIN] + PrintOp(op) + ["*** Move", END]
  }

  lemma ThenBadReads(op: Op)
    requires PlainBody(op)
    ensures ReadOps(ThenBad(op), 1) == ([op], [BadOperation])
  {
    hide ReadOp;
    var lines, n := ThenBad(op), |PrintOp(op)|;
    assert StartsWith("*** Move", "*** ");
    ReadPrintedOp([BEGIN], op, ["*** Move", END]);
    assert lines[1 + n] == "*** Move" && |lines| == n + 3;
    NoSuchOperation(lines, 1 + n);
    assert ReadOps(lines, 1 + n) == ([], [BadOperation]);
    assert [op] + [] == [op];
  }

  lemma NoSuchOperation(lines: seq<Line>, i: nat)
    requires i < |lines| - 1 && lines[i] == "*** Move"
    ensures ReadOp(lines, i) == Err(BadOperation)
  {
    assert "*** Move"[4] == 'M' && UPDATE[4] == 'U' && ADD[4] == 'A' && DELETE[4] == 'D';
  }

  lemma {:induction false} GlueLength(lines: seq<Line>)
    requires lines != [] && forall i :: 0 <= i < |lines| ==> |lines[i]| <= 99
    ensures |Glue(lines)| <= 100 * |lines|
    decreases |lines|
  {
    if |lines| > 1 {
      GlueLength(lines[1..]);
    }
  }

  /** A short operation with a body of one line. */
  predicate Short(op: Op) {
    !op.DeleteFile? && |op.path| <= 9 && |op.body| == 1 && |op.body[0]| <= 9 && NoNl([op.path]) && NoNl(op.body)
  }

  lemma ThenBadText(op: Op)
    requires Short(op)
    ensures NoNl(ThenBad(op)) && Utf8Length(Join(ThenBad(op), true)) <= SIZE_LIMIT
  {
    hide Utf8Length;
    var lines := ThenBad(op);
    assert lines == [BEGIN, PrintOp(op)[0], op.body[0], "*** Move", END];
    assert '\n' !in [op.path][0];
    GlueLength(lines);
    Utf8AtMost(Join(lines, true));
  }

  /** Such a patch fails with its operation done. */
  lemma ThenBadRuns(files: map<string, string>, op: Op)
    requires Short(op) && PlainBody(op) && Apply(Start(files), op).Ok?
    ensures RunPatch(files, Join(ThenBad(op), true)) == Run(Apply(Start(files), op).value, [BadOperation])
  {
    hide RunPatch, PatchOps, Apply, ReadOps, Join, NoNl, Utf8Length;
    var patch := Join(ThenBad(op), true);
    ThenBadText(op);
    RunJoined(files, ThenBad(op));
    ThenBadReads(op);
    RunPatchReads(files, patch);
    var none: seq<Op> := [op][1..];
    assert none == [];
    assert ApplyAll(Apply(Start(files), op).value, none) == Run(Apply(Start(files), op).value, []);
  }

  lemma AddsFile()
    ensures Apply(Start(map[]), AddFile("a", ["+x"])) == Ok(Tree(map["a" := "x\n"], ["a"], ["a"], [], ["a"]))
  {
    var tail: seq<Line> := ["+x"][1..];
    assert tail == [] && AddedLines(tail) == Ok([]);
    assert "+x"[1..] == "x" && ["x"] + [] == ["x"];
    assert "@@"[0] != "+x"[0] && "+x"[..1] == "+";
    assert AddedLines(["+x"]) == Ok(["x"]);
    assert Glue(["x"]) == "x" && "x" + "\n" == "x\n";
    var none: seq<string> := [];
    assert none + ["a"] == ["a"];
  }

  /** It happens: a patch adds a file, fails, and the file stays added. */
  lemma FailureLeavesChanges()
    ensures var end := RunPatch(map[], Join(ThenBad(AddFile("a", ["+x"])), true));
            end.error == [BadOperation] && end.tree == Tree(map["a" := "x\n"], ["a"], ["a"], [], ["a"])
  {
    hide RunPatch, Apply, Join;
    var op := AddFile("a", ["+x"]);
    AddsFile();
    assert !StartsWith("+x", "*** ");
    ThenBadRuns(map[], op);
  }

  lemma KeepsFile()
    ensures Apply(Start(map["a" := "x\n"]), UpdateFile("a", [" x"])) ==
            Ok(Tree(map["a" := "x\n"], ["a"], [], [], ["a"]))
  {
    var files: map<string, string> := map["a" := "x\n"];
    KeepsText();
    assert files["a" := "x\n"] == files;
    var none: seq<string> := [];
    assert none + ["a"] == ["a"];
  }

  lemma KeepsText()
    ensures UpdateText("x\n", [" x"]) == Ok("x\n")
  {
    var body, none: seq<Line> := [" x"], [];
    assert body[1..] == [] && none + [" x"] == [" x"] && " x"[1..] == "x";
    assert "@@"[0] != " x"[0] && [" x"][1..] == [];
    assert Glue(["x"]) == "x" && "x" + "\n" == "x\n";
    JoinSplit("x\n");
    SplitJoinIff(["x"], true);
    assert AllTagged(body[1..]) && Old(body[1..]) == [] && New(body[1..]) == [];
    assert none + [" x"[1..]] == ["x"] && ["x"] + none == ["x"];
    assert EditOf(body) == Edit(["x"], ["x"]);
    assert Find(["x"], ["x"], 0) == Ok(0);
    var orig: seq<Line> := ["x"];
    assert none + orig[0..0] + ["x"] == ["x"];
    assert Flush(["x"], Scan([], 0, false), body) == Ok(Scan(["x"], 1, true));
  }

  /** The files alone can be as before although an operation was done: one that changes nothing is still recorded as
      a write. */
  lemma NoOpLeavesFiles()
    ensures var files: map<string, string> := map["a" := "x\n"];
            var end := RunPatch(files, Join(ThenBad(UpdateFile("a", [" x"])), true));
            end.error == [BadOperation] && end.tree.files == files && end.tree.writes == ["a"]
  {
    hide RunPatch, Apply, Join;
    var op := UpdateFile("a", [" x"]);
    KeepsFile();
    assert !StartsWith(" x", "*** ");
    ThenBadRuns(map["a" := "x\n"], op);
  }
}
