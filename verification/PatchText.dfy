/** Update patches on file text: splitting into lines, joining them again, and swapping a patch. */
module PatchText {
  import opened PatchHunks
  import opened PatchInverse
  import opened PatchUpdate

  /** The lines of newline-only text. */
  function Split(text: string): seq<Line>
    decreases |text|
  {
    if text == "" then []
    else
      var k := LineLength(text);
      if k == |text| then [text] else [text[..k]] + Split(text[k + 1..])
  }

  function LineLength(text: string): (k: nat)
    ensures k <= |text| && '\n' !in text[..k]
    ensures k < |text| ==> text[k] == '\n'
  {
    if text == "" || text[0] == '\n' then 0
    else
      var k := 1 + LineLength(text[1..]);
      assert text[..k] == [text[0]] + text[1..][..k - 1];
      k
  }

  predicate EndsNl(text: string) {
    text != "" && text[|text| - 1] == '\n'
  }

  function Glue(lines: seq<Line>): string
    requires lines != []
  {
    if |lines| == 1 then lines[0] else lines[0] + "\n" + Glue(lines[1..])
  }

  function Join(lines: seq<Line>, trailing: bool): string {
    if lines == [] then "" else Glue(lines) + (if trailing then "\n" else "")
  }

  predicate NoNl(lines: seq<Line>) {
    forall i :: 0 <= i < |lines| ==> '\n' !in lines[i]
  }

  lemma JoinCons(line: Line, lines: seq<Line>, trailing: bool)
    ensures Join([line] + lines, trailing) ==
            if lines == [] then line + (if trailing then "\n" else "") else line + "\n" + Join(lines, trailing)
  {
    assert ([line] + lines)[1..] == lines;
  }

  /** Splitting then joining gives the text back. */
  lemma {:induction false} JoinSplit(text: string)
    ensures Join(Split(text), EndsNl(text)) == text
    decreases |text|
  {
    hide Join;
    var k := LineLength(text);
    if text == "" {
      assert Join([], false) == "" by { JoinNone(); }
    } else if k == |text| {
      JoinCons(text, [], false);
      assert [text] + [] == [text];
    } else {
      var rest := text[k + 1..];
      JoinSplit(rest);
      assert text == text[..k] + "\n" + rest;
      JoinCons(text[..k], Split(rest), EndsNl(text));
    }
  }

  lemma JoinNone()
    ensures Join([], false) == ""
  {
  }

  lemma {:induction false} LineLengthOf(line: Line, rest: string)
    requires '\n' !in line && (rest == "" || rest[0] == '\n')
    ensures LineLength(line + rest) == |line|
  {
    if line == "" {
      assert line + rest == rest;
    } else {
      assert (line + rest)[1..] == line[1..] + rest;
      LineLengthOf(line[1..], rest);
    }
  }

  lemma SplitCons(line: Line, rest: string)
    requires '\n' !in line
    ensures Split(line + "\n" + rest) == [line] + Split(rest)
  {
    var text := line + ("\n" + rest);
    assert text == line + "\n" + rest;
    LineLengthOf(line, "\n" + rest);
    assert text[..|line|] == line && text[|line| + 1..] == rest;
  }

  lemma SplitOne(line: Line)
    requires '\n' !in line
    ensures Split(line) == if line == "" then [] else [line]
  {
    LineLengthOf(line, "");
    assert line + "" == line;
  }

  /** Joining then splitting gives the lines back exactly when the text has a trailing newline, or
      there are no lines, or the last line is not empty. */
  lemma {:induction false} SplitJoinIff(lines: seq<Line>, trailing: bool)
    requires NoNl(lines)
    ensures Split(Join(lines, trailing)) == lines <==> trailing || lines == [] || lines[|lines| - 1] != ""
    decreases |lines|
  {
    if |lines| == 1 {
      if trailing {
        SplitCons(lines[0], "");
        assert lines[0] + "\n" + "" == lines[0] + "\n";
      } else {
        SplitOne(lines[0]);
        assert lines[0] + "" == lines[0];
      }
    } else if |lines| > 1 {
      SplitJoinIff(lines[1..], trailing);
      var rest := Join(lines[1..], trailing);
      SplitCons(lines[0], rest);
      assert Join(lines, trailing) == lines[0] + "\n" + rest;
      assert lines == [lines[0]] + lines[1..];
      assert ([lines[0]] + Split(rest))[1..] == Split(rest);
    }
  }

  /** The same patch line with '+' and '-' swapped. */
  function Flip(line: Line): Line {
    if line == "" then line
    else if line[0] == '+' then "-" + line[1..]
    else if line[0] == '-' then "+" + line[1..]
    else line
  }

  function FlipAll(body: seq<Line>): (r: seq<Line>)
    ensures |r| == |body|
  {
    seq(|body|, i requires 0 <= i < |body| => Flip(body[i]))
  }

  lemma {:induction false} FlipSwaps(hunk: seq<Line>)
    requires AllTagged(hunk)
    ensures AllTagged(FlipAll(hunk))
    ensures Old(FlipAll(hunk)) == New(hunk) && New(FlipAll(hunk)) == Old(hunk)
    decreases |hunk|
  {
    if hunk != [] {
      FlipSwaps(hunk[1..]);
      assert FlipAll(hunk)[1..] == FlipAll(hunk[1..]);
      assert Flip(hunk[0])[1..] == hunk[0][1..];
    }
  }

  lemma InverseAppend(a: seq<Edit>, b: seq<Edit>)
    ensures Inverse(a + b) == Inverse(a) + Inverse(b)
  {
  }

  lemma PendingFlip(hunk: seq<Line>)
    requires AllTagged(hunk)
    ensures AllTagged(FlipAll(hunk)) && Pending(FlipAll(hunk)) == Inverse(Pending(hunk))
  {
    FlipSwaps(hunk);
  }

  /** A swapped patch body asks for the swapped edits. */
  lemma {:induction false} EditsFlip(hunk: seq<Line>, body: seq<Line>)
    requires AllTagged(hunk)
    ensures AllTagged(FlipAll(hunk))
    ensures match Edits(hunk, body)
            case Err(e) => Edits(FlipAll(hunk), FlipAll(body)) == Err(e)
            case Ok(edits) => Edits(FlipAll(hunk), FlipAll(body)) == Ok(Inverse(edits))
    decreases |body|
  {
    PendingFlip(hunk);
    if body != [] {
      var line, rest := body[0], body[1..];
      assert FlipAll(body)[0] == Flip(line) && FlipAll(body)[1..] == FlipAll(rest);
      if StartsWith(line, "@@") {
        EditsFlip([], rest);
        assert FlipAll([]) == [];
        if Edits([], rest).Ok? {
          InverseAppend(Pending(hunk), Edits([], rest).value);
        }
      } else if IsTagged(line) {
        EditsFlip(hunk + [line], rest);
        assert FlipAll(hunk + [line]) == FlipAll(hunk) + [Flip(line)];
      }
    }
  }

  /** In the result `res` of an update, the new lines of no hunk occur between the end of the previous hunk's
      region and its own. */
  predicate Undisturbed(orig: seq<Line>, edits: seq<Edit>, res: seq<Line>) {
    Greedy(orig, edits, 0).Ok? && |Greedy(orig, edits, 0).value| == |edits| &&
    var qs := Shift(edits, Greedy(orig, edits, 0).value, 0);
    |qs| == |edits| && NoEarlier(res, Inverse(edits), qs, 0)
  }

  /** A swapped patch always applies to the result, and restores the original lines exactly when the result
      shows no hunk's new lines too early. */
  lemma SwappedPatch(orig: seq<Line>, body: seq<Line>)
    requires Update(orig, body).Ok?
    ensures Edits([], body).Ok?
    ensures var res := Update(orig, body).value;
            Update(res, FlipAll(body)).Ok? &&
            (Update(res, FlipAll(body)).value == orig <==> Undisturbed(orig, Edits([], body).value, res))
  {
    hide Greedy, Update, Edits, Splice, Placed, Shift, NoEarlier;
    UpdateIsGreedy(orig, body);
    var edits, res := Edits([], body).value, Update(orig, body).value;
    InverseRestoresIff(orig, edits);
    EditsFlip([], body);
    assert FlipAll([]) == [];
    UpdateIsGreedy(res, FlipAll(body));
  }

  /** An update changes the line count by lines added minus lines removed. */
  lemma UpdateLineCount(orig: seq<Line>, body: seq<Line>)
    requires Update(orig, body).Ok?
    ensures Edits([], body).Ok?
    ensures var edits := Edits([], body).value;
            |Update(orig, body).value| == |orig| + Added(edits) - Removed(edits)
  {
    hide Greedy, Update, Edits, Splice;
    UpdateIsGreedy(orig, body);
    var edits := Edits([], body).value;
    SpliceLength(orig, edits, Greedy(orig, edits, 0).value, 0);
  }

  /** The new text of an updated file. */
  function UpdateText(text: string, body: seq<Line>): Result<string> {
    var lines :- Update(Split(text), body);
    Ok(Join(lines, EndsNl(text)))
  }

  lemma {:induction false} GlueEnds(lines: seq<Line>)
    requires lines != [] && NoNl(lines)
    ensures Glue(lines) != "" || |lines| == 1
    ensures lines[|lines| - 1] != "" ==> !EndsNl(Glue(lines))
    decreases |lines|
  {
    if |lines| > 1 {
      GlueEnds(lines[1..]);
    }
  }

  /** Joined text ends as asked, unless it is empty or ends in an empty line. */
  lemma JoinEnds(lines: seq<Line>, trailing: bool)
    requires NoNl(lines)
    requires if trailing then lines != [] else lines == [] || lines[|lines| - 1] != ""
    ensures EndsNl(Join(lines, trailing)) == trailing
  {
    if lines != [] {
      GlueEnds(lines);
      assert Glue(lines) + "" == Glue(lines);
    }
  }
}
