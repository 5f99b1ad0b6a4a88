/** The patch engine as it runs: scanning loops over lines, and a workspace whose files and records
    change as operations are applied. */
module PatchWorkspace {
  import opened PatchHunks
  import opened PatchUpdate
  import opened PatchText
  import opened PatchRun

  /** The first place at or after `start` where `needle` occurs. */
  method FindSequence(hay: seq<Line>, needle: seq<Line>, start: nat) returns (r: Result<nat>)
    requires start <= |hay|
    ensures r == Find(hay, needle, start)
  {
    if needle == [] {
      return Ok(start);
    }
    var index := start;
    while index + |needle| <= |hay|
      invariant start <= index && Find(hay, needle, start) == Find(hay, needle, index)
    {
      if hay[index..index + |needle|] == needle {
        return Ok(index);
      }
      index := index + 1;
    }
    return Err(NoMatch);
  }

  /** Split the lines of a hunk into what it expects and what it leaves. */
  method Chunks(hunk: seq<Line>) returns (before: seq<Line>, after: seq<Line>)
    requires AllTagged(hunk)
    ensures before == Old(hunk) && after == New(hunk)
  {
    before, after := [], [];
    var i := 0;
    while i < |hunk|
      invariant 0 <= i <= |hunk|
      invariant before + Old(hunk[i..]) == Old(hunk) && after + New(hunk[i..]) == New(hunk)
    {
      assert hunk[i..][1..] == hunk[i + 1..];
      if hunk[i][0] != '+' {
        before := before + [hunk[i][1..]];
      }
      if hunk[i][0] != '-' {
        after := after + [hunk[i][1..]];
      }
      i := i + 1;
    }
  }

  /** Apply an update patch to the lines of a file. */
  method UpdateLines(orig: seq<Line>, body: seq<Line>) returns (r: Result<seq<Line>>)
    ensures r == Update(orig, body)
  {
    var s, hunk, i := Scan([], 0, false), [], 0;
    while i < |body|
      invariant 0 <= i <= |body| && s.at <= |orig| && AllTagged(hunk)
      invariant Scanned(orig, Scan([], 0, false), [], body) == Scanned(orig, s, hunk, body[i..])
    {
      var line := body[i];
      assert body[i..][0] == line && body[i..][1..] == body[i + 1..];
      if StartsWith(line, "@@") {
        var f := FlushHunk(orig, s, hunk);
        if f.Err? {
          return Err(f.error);
        }
        s, hunk := f.value, [];
      } else if !IsTagged(line) {
        return Err(BadLine);
      } else {
        hunk := hunk + [line];
      }
      i := i + 1;
    }
    var f := FlushHunk(orig, s, hunk);
    if f.Err? {
      return Err(f.error);
    }
    s := f.value;
    if !s.saw {
      return Err(NoHunk);
    }
    return Ok(s.out + orig[s.at..]);
  }

  method FlushHunk(orig: seq<Line>, s: Scan, hunk: seq<Line>) returns (r: Result<Scan>)
    requires s.at <= |orig| && AllTagged(hunk)
    ensures r == Flush(orig, s, hunk)
  {
    if hunk == [] {
      return Ok(s);
    }
    var before, after := Chunks(hunk);
    var found := FindSequence(orig, before, s.at);
    FindLeftmost(orig, before, s.at);
    if found.Err? {
      return Err(found.error);
    }
    return Ok(Scan(s.out + orig[s.at..found.value] + after, found.value + |before|, true));
  }

  ghost function Onto(lines: seq<Line>, r: Result<seq<Line>>): Result<seq<Line>> {
    match r
    case Ok(rest) => Ok(lines + rest)
    case Err(e) => Err(e)
  }

  lemma OntoNothing(r: Result<seq<Line>>)
    ensures Onto([], r) == r
  {
    if r.Ok? {
      assert [] + r.value == r.value;
    }
  }

  lemma OntoOne(lines: seq<Line>, line: Line, r: Result<seq<Line>>)
    requires r.Ok?
    ensures Onto(lines, Ok([line] + r.value)) == Onto(lines + [line], r)
  {
    assert lines + ([line] + r.value) == (lines + [line]) + r.value;
  }

  /** The lines of an add patch. */
  method CollectAdded(body: seq<Line>) returns (r: Result<seq<Line>>)
    ensures r == AddedLines(body)
  {
    var lines, i := [], 0;
    assert body[0..] == body;
    OntoNothing(AddedLines(body));
    while i < |body|
      invariant 0 <= i <= |body|
      invariant AddedLines(body) == Onto(lines, AddedLines(body[i..]))
    {
      assert body[i..][1..] == body[i + 1..];
      if !StartsWith(body[i], "@@") {
        if !StartsWith(body[i], "+") {
          return Err(BadLine);
        }
        if AddedLines(body[i + 1..]).Ok? {
          OntoOne(lines, body[i][1..], AddedLines(body[i + 1..]));
        }
        lines := lines + [body[i][1..]];
      }
      i := i + 1;
    }
    assert lines + [] == lines;
    return Ok(lines);
  }

  /** What the caller of a whole patch sees: success, an error reply, or the exception of a missing file. */
  datatype Reply = Applied | Invalid(error: PatchError) | Raised

  function ReplyTo(error: PatchError): Reply {
    if error == Missing then Raised else Invalid(error)
  }

  function Record(t: Tree): (seq<string>, seq<string>, seq<string>) {
    (t.changed, t.created, t.deleted)
  }

  class Workspace {
    var files: map<string, string>
    var fileWrites: seq<string>
    var filePatches: seq<(seq<string>, seq<string>, seq<string>)>

    /** Apply one operation to the files. */
    method ApplyOp(op: Op) returns (r: Result<()>)
      modifies `files, `fileWrites
      ensures forall changed, created, deleted ::
                match Apply(Tree(old(files), changed, created, deleted, old(fileWrites)), op)
                case Err(e) => r == Err(e) && files == old(files) && fileWrites == old(fileWrites)
                case Ok(t) => r.Ok? && files == t.files && fileWrites == t.writes
    {
      match op {
      case UpdateFile(path, body) =>
        if path !in files {
          return Err(Missing);
        }
        var lines := UpdateLines(Split(files[path]), body);
        if lines.Err? {
          return Err(lines.error);
        }
        files := files[path := Join(lines.value, EndsNl(files[path]))];
        fileWrites := fileWrites + [path];
      case AddFile(path, body) =>
        if path in files {
          return Err(Exists);
        }
        var lines := CollectAdded(body);
        if lines.Err? {
          return Err(lines.error);
        }
        files := files[path := Join(lines.value, lines.value != [])];
        fileWrites := fileWrites + [path];
      case DeleteFile(path) =>
        if path !in files {
          return Err(NotFound);
        }
        files := files - {path};
      }
      return Ok(());
    }

    /** Apply a whole patch; on failure the operations before the failing one stay applied. */
    method ApplyPatch(patch: string) returns (r: Reply)
      modifies this
      ensures var run := RunPatch(old(files), patch);
              && files == run.tree.files
              && fileWrites == old(fileWrites) + run.tree.writes
              && filePatches == old(filePatches) + (if run.error == [] then [Record(run.tree)] else [])
              && r == if run.error == [] then Applied else ReplyTo(run.error[0])
    {
      if Utf8Length(patch) > SIZE_LIMIT {
        return Invalid(TooLarge);
      }
      var lines := Split(patch);
      if lines == [] || lines[0] != BEGIN || lines[|lines| - 1] != END {
        return Invalid(BadEnvelope);
      }
      var index, changed, created, deleted := 1, [], [], [];
      ghost var writes := [];
      ghost var start := Tree(files, [], [], [], []);
      while index < |lines| - 1
        invariant 1 <= index < |lines| && filePatches == old(filePatches)
        invariant fileWrites == old(fileWrites) + writes
        invariant RunFrom(start, lines, 1) == RunFrom(Tree(files, changed, created, deleted, writes), lines, index)
      {
        ghost var t, was := Tree(files, changed, created, deleted, writes), fileWrites;
        var read := ReadOp(lines, index);
        if read.Err? {
          return ReplyTo(read.error);
        }
        var (op, k) := read.value;
        var applied := ApplyOp(op);
        assert Apply(Tree(t.files, changed, created, deleted, was), op).Ok? == Apply(t, op).Ok?;
        if applied.Err? {
          return ReplyTo(applied.error);
        }
        writes := Apply(t, op).value.writes;
        changed := changed + [op.path];
        created := if op.AddFile? then created + [op.path] else created;
        deleted := if op.DeleteFile? then deleted + [op.path] else deleted;
        index := k;
      }
      filePatches := filePatches + [(changed, created, deleted)];
      return Applied;
    }
  }
}
