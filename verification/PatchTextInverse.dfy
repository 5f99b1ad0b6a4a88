/** Swapping a patch at the level of file text, exactly. */
module PatchTextInverse {
  import opened PatchHunks
  import opened PatchInverse
  import opened PatchUpdate
  import opened PatchText

  lemma {:induction false} SplitNoNl(text: string)
    ensures NoNl(Split(text))
    decreases |text|
  {
    if text != "" {
      var k := LineLength(text);
      if k == |text| {
        assert text[..k] == text;
      } else {
        SplitNoNl(text[k + 1..]);
      }
    }
  }

  predicate NoNlEdits(edits: seq<Edit>) {
    forall i :: 0 <= i < |edits| ==> NoNl(edits[i].before) && NoNl(edits[i].after)
  }

  lemma {:induction false} EditsNoNl(hunk: seq<Line>, body: seq<Line>)
    requires AllTagged(hunk) && NoNl(hunk) && NoNl(body) && Edits(hunk, body).Ok?
    ensures NoNlEdits(Edits(hunk, body).value)
    decreases |body|
  {
    PendingNoNl(hunk);
    if body != [] {
      if StartsWith(body[0], "@@") {
        EditsNoNl([], body[1..]);
      } else {
        EditsNoNl(hunk + [body[0]], body[1..]);
      }
    }
  }

  lemma PendingNoNl(hunk: seq<Line>)
    requires AllTagged(hunk) && NoNl(hunk)
    ensures NoNlEdits(Pending(hunk))
  {
    SidesNoNl(hunk);
  }

  lemma {:induction false} SidesNoNl(hunk: seq<Line>)
    requires AllTagged(hunk) && NoNl(hunk)
    ensures NoNl(Old(hunk)) && NoNl(New(hunk))
    decreases |hunk|
  {
    if hunk != [] {
      SidesNoNl(hunk[1..]);
    }
  }

  lemma {:induction false} SpliceNoNl(orig: seq<Line>, edits: seq<Edit>, ps: seq<int>, at: nat)
    requires at <= |orig| && Placed(orig, edits, ps, at) && NoNl(orig) && NoNlEdits(edits)
    ensures NoNl(Splice(orig, edits, ps, at))
    decreases |edits|
  {
    if edits != [] {
      SpliceNoNl(orig, edits[1..], ps[1..], ps[0] + |edits[0].before|);
    }
  }

  /** An update with newline-free lines leaves newline-free lines. */
  lemma UpdateNoNl(orig: seq<Line>, body: seq<Line>)
    requires NoNl(orig) && NoNl(body) && Update(orig, body).Ok?
    ensures NoNl(Update(orig, body).value)
  {
    hide Greedy, Update, Edits, Splice, Placed, NoNl;
    UpdateIsGreedy(orig, body);
    NoNlNone();
    EditsNoNl([], body);
    var edits := Edits([], body).value;
    SpliceNoNl(orig, edits, Greedy(orig, edits, 0).value, 0);
  }

  lemma NoNlNone()
    ensures NoNl([])
  {
  }

  /** Joined lines that end in an empty line without a final newline lose that line. */
  predicate LosesLine(lines: seq<Line>, trailing: bool) {
    !trailing && lines != [] && lines[|lines| - 1] == ""
  }

  lemma {:induction false} GlueInit(lines: seq<Line>)
    requires |lines| >= 2 && lines[|lines| - 1] == ""
    ensures Glue(lines) == Glue(lines[..|lines| - 1]) + "\n"
    decreases |lines|
  {
    if |lines| > 2 {
      GlueInit(lines[1..]);
      assert lines[1..][..|lines| - 2] == lines[..|lines| - 1][1..];
    }
  }

  /** What splitting makes of joined lines, in all cases. */
  lemma SplitJoin(lines: seq<Line>, trailing: bool)
    requires NoNl(lines)
    ensures !LosesLine(lines, trailing) ==>
              Split(Join(lines, trailing)) == lines && EndsNl(Join(lines, trailing)) == (trailing && lines != [])
    ensures LosesLine(lines, trailing) ==>
              Split(Join(lines, trailing)) == lines[..|lines| - 1] && EndsNl(Join(lines, trailing)) == (|lines| >= 2)
  {
    hide Split, Glue;
    if !LosesLine(lines, trailing) {
      SplitJoinIff(lines, trailing);
      if lines != [] {
        JoinEnds(lines, trailing);
      }
    } else if |lines| >= 2 {
      var init := lines[..|lines| - 1];
      GlueInit(lines);
      assert Glue(lines) + "" == Glue(lines);
      assert Join(lines, false) == Join(init, true);
      SplitJoinIff(init, true);
      JoinEnds(init, true);
    } else {
      SplitOne("");
      GlueOne(lines);
      assert Join(lines, false) == "";
    }
  }

  lemma GlueOne(lines: seq<Line>)
    requires |lines| == 1
    ensures Glue(lines) == lines[0]
  {
  }

  lemma {:induction false} SwappedCounts(edits: seq<Edit>)
    ensures Added(Inverse(edits)) == Removed(edits) && Removed(Inverse(edits)) == Added(edits)
    decreases |edits|
  {
    if edits != [] {
      SwappedCounts(edits[1..]);
      assert Inverse(edits)[1..] == Inverse(edits[1..]);
    }
  }

  /** The swapped patch takes back the line count of the patch, to whatever lines it is applied. */
  lemma SwappedLineCount(orig: seq<Line>, body: seq<Line>, lines: seq<Line>)
    requires Update(orig, body).Ok? && Update(lines, FlipAll(body)).Ok?
    ensures |Update(lines, FlipAll(body)).value| - |lines| == |orig| - |Update(orig, body).value|
  {
    hide Update, Edits, Added, Removed;
    UpdateLineCount(orig, body);
    UpdateLineCount(lines, FlipAll(body));
    EditsFlip([], body);
    assert FlipAll([]) == [];
    SwappedCounts(Edits([], body).value);
  }

  /** The updated file still shows its lines: it keeps its kind of ending and is not emptied of its final
      newline. */
  predicate Shows(text: string, res: seq<Line>) {
    if EndsNl(text) then res != [] else res == [] || res[|res| - 1] != ""
  }

  lemma FlipNoNl(body: seq<Line>)
    requires NoNl(body)
    ensures NoNl(FlipAll(body))
  {
  }

  lemma EndsNlSplit(text: string)
    ensures EndsNl(text) ==> Split(text) != []
  {
  }

  /** A swapped patch restores a file exactly when the updated file still shows its lines, and shows no
      hunk's new lines before that hunk's own region. */
  lemma SwappedTextIff(text: string, body: seq<Line>)
    requires NoNl(body) && Update(Split(text), body).Ok?
    ensures Edits([], body).Ok? && UpdateText(text, body).Ok?
    ensures var res := Update(Split(text), body).value;
            UpdateText(UpdateText(text, body).value, FlipAll(body)) == Ok(text) <==>
            Shows(text, res) && Undisturbed(Split(text), Edits([], body).value, res)
  {
    hide Update, Split, FlipAll, Undisturbed, Edits, NoNl;
    SwappedPatch(Split(text), body);
    RestoredText(text, body);
  }

  /** The file text is restored exactly when it still shows its lines and these are restored. */
  lemma RestoredText(text: string, body: seq<Line>)
    requires NoNl(body) && Update(Split(text), body).Ok?
    ensures UpdateText(text, body).Ok?
    ensures var res := Update(Split(text), body).value;
            UpdateText(UpdateText(text, body).value, FlipAll(body)) == Ok(text) <==>
            Shows(text, res) && Update(res, FlipAll(body)) == Ok(Split(text))
  {
    hide Update, Split, FlipAll, NoNl, Join;
    var orig, flip := Split(text), FlipAll(body);
    var res := Update(orig, body).value;
    var mid := Join(res, EndsNl(text));
    SplitNoNl(text);
    UpdateNoNl(orig, body);
    SplitJoin(res, EndsNl(text));
    EndsNlSplit(text);
    if Update(Split(mid), flip).Ok? {
      var back := Update(Split(mid), flip).value;
      SwappedLineCount(orig, body, Split(mid));
      SplitNoNl(mid);
      FlipNoNl(body);
      UpdateNoNl(Split(mid), flip);
      SplitJoin(back, EndsNl(mid));
      JoinSplit(text);
    }
  }
}
