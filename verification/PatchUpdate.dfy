/** An update patch applied to a file: reading hunks from the patch body, placing them, and
    joining the lines again. */
module PatchUpdate {
  import opened PatchHunks
  import opened PatchInverse

  /** The scan over the original lines: what has been written, and where the next search starts. */
  datatype Scan = Scan(out: seq<Line>, at: nat, saw: bool)

  /** Place one hunk; a hunk without lines is skipped. */
  function Flush(orig: seq<Line>, s: Scan, hunk: seq<Line>): Result<Scan>
    requires s.at <= |orig| && AllTagged(hunk)
    ensures Flush(orig, s, hunk).Ok? ==> Flush(orig, s, hunk).value.at <= |orig|
  {
    if hunk == [] then Ok(s)
    else
      var edit := EditOf(hunk);
      FindLeftmost(orig, edit.before, s.at);
      var p :- Find(orig, edit.before, s.at);
      Ok(Scan(s.out + orig[s.at..p] + edit.after, p + |edit.before|, true))
  }

  /** The patch body, line by line; `hunk` holds the lines since the last separator. */
  function Scanned(orig: seq<Line>, s: Scan, hunk: seq<Line>, body: seq<Line>): Result<Scan>
    requires s.at <= |orig| && AllTagged(hunk)
    ensures Scanned(orig, s, hunk, body).Ok? ==> Scanned(orig, s, hunk, body).value.at <= |orig|
    decreases |body|
  {
    if body == [] then Flush(orig, s, hunk)
    else if StartsWith(body[0], "@@") then
      var s' :- Flush(orig, s, hunk);
      Scanned(orig, s', [], body[1..])
    else if !IsTagged(body[0]) then Err(BadLine)
    else Scanned(orig, s, hunk + [body[0]], body[1..])
  }

  function Update(orig: seq<Line>, body: seq<Line>): Result<seq<Line>> {
    var s :- Scanned(orig, Scan([], 0, false), [], body);
    if s.saw then Ok(s.out + orig[s.at..]) else Err(NoHunk)
  }

  /** The edits a patch body asks for, or the reason it is not a patch body. */
  function Edits(hunk: seq<Line>, body: seq<Line>): Result<seq<Edit>>
    requires AllTagged(hunk)
    decreases |body|
  {
    var here := Pending(hunk);
    if body == [] then Ok(here)
    else if StartsWith(body[0], "@@") then
      var rest :- Edits([], body[1..]);
      Ok(here + rest)
    else if !IsTagged(body[0]) then Err(BadLine)
    else Edits(hunk + [body[0]], body[1..])
  }

  function Pending(hunk: seq<Line>): seq<Edit>
    requires AllTagged(hunk)
  {
    if hunk == [] then [] else [EditOf(hunk)]
  }

  /** `t` is what scanning from `s` yields for these edits: fails when they cannot be placed, and
      otherwise has written what splicing them in writes. */
  ghost predicate Scans(orig: seq<Line>, s: Scan, edits: seq<Edit>, t: Result<Scan>)
    requires s.at <= |orig|
  {
    GreedyComplete(orig, edits, s.at);
    match Greedy(orig, edits, s.at)
    case Err(_) => t.Err?
    case Ok(ps) =>
      && t.Ok? && t.value.at <= |orig|
      && t.value.saw == (s.saw || edits != [])
      && t.value.out + orig[t.value.at..] == s.out + Splice(orig, edits, ps, s.at)
  }

  /** Placing one edit at its leftmost match `p`, then the rest. */
  lemma GreedyCons(orig: seq<Line>, e: Edit, rest: seq<Edit>, at: nat, p: nat)
    requires at <= |orig| && Find(orig, e.before, at) == Ok(p) && p + |e.before| <= |orig|
    ensures match Greedy(orig, rest, p + |e.before|)
            case Err(_) => Greedy(orig, [e] + rest, at).Err?
            case Ok(qs) =>
              && Greedy(orig, [e] + rest, at) == Ok([p] + qs)
              && Placed(orig, rest, qs, p + |e.before|) && Placed(orig, [e] + rest, [p] + qs, at)
              && Splice(orig, [e] + rest, [p] + qs, at) ==
                 orig[at..p] + e.after + Splice(orig, rest, qs, p + |e.before|)
  {
    var edits, k := [e] + rest, p + |e.before|;
    assert edits[0] == e && edits[1..] == rest;
    GreedyComplete(orig, rest, k);
    FindLeftmost(orig, e.before, at);
    hide Placed, Splice, Find;
    if Greedy(orig, rest, k).Ok? {
      var qs := Greedy(orig, rest, k).value;
      assert ([p] + qs)[1..] == qs;
      PlacedCons(orig, edits, [p] + qs, at);
    }
  }

  /** Placing the pending hunk first, then the rest, is placing them all. */
  lemma FlushThen(orig: seq<Line>, s: Scan, hunk: seq<Line>, rest: seq<Edit>, t: Result<Scan>)
    requires s.at <= |orig| && AllTagged(hunk)
    requires Flush(orig, s, hunk).Err? ==> t.Err?
    requires Flush(orig, s, hunk).Ok? ==> Scans(orig, Flush(orig, s, hunk).value, rest, t)
    ensures Scans(orig, s, Pending(hunk) + rest, t)
  {
    if hunk == [] {
      assert Pending(hunk) + rest == rest;
    } else {
      var e := EditOf(hunk);
      if Flush(orig, s, hunk).Ok? {
        var s' := Flush(orig, s, hunk).value;
        var p := Find(orig, e.before, s.at).value;
        GreedyCons(orig, e, rest, s.at, p);
        hide Greedy, Placed, Splice, Find, EditOf;
        if Greedy(orig, rest, s'.at).Ok? {
          Append4(s.out, orig[s.at..p], e.after, Splice(orig, rest, Greedy(orig, rest, s'.at).value, s'.at));
        }
      } else {
        assert ([e] + rest)[0] == e;
        assert Greedy(orig, [e] + rest, s.at).Err?;
      }
    }
  }

  lemma Append4(a: seq<Line>, b: seq<Line>, c: seq<Line>, d: seq<Line>)
    ensures a + b + c + d == a + (b + c + d)
  {
  }

  lemma ScansNothing(orig: seq<Line>, s: Scan)
    requires s.at <= |orig|
    ensures Scans(orig, s, [], Ok(s))
  {
  }

  /** Scanning the body line by line is the same as placing its edits greedily and splicing them in. */
  lemma {:induction false} ScannedIsGreedy(orig: seq<Line>, s: Scan, hunk: seq<Line>, body: seq<Line>)
    requires s.at <= |orig| && AllTagged(hunk)
    ensures match Edits(hunk, body)
            case Err(_) => Scanned(orig, s, hunk, body).Err?
            case Ok(edits) => Scans(orig, s, edits, Scanned(orig, s, hunk, body))
    decreases |body|
  {
    hide Scans, Flush;
    if body == [] {
      if Flush(orig, s, hunk).Ok? {
        ScansNothing(orig, Flush(orig, s, hunk).value);
      }
      FlushThen(orig, s, hunk, [], Flush(orig, s, hunk));
      assert Pending(hunk) + [] == Pending(hunk);
    } else if StartsWith(body[0], "@@") {
      if Flush(orig, s, hunk).Ok? {
        ScannedIsGreedy(orig, Flush(orig, s, hunk).value, [], body[1..]);
      }
      if Edits([], body[1..]).Ok? {
        FlushThen(orig, s, hunk, Edits([], body[1..]).value, Scanned(orig, s, hunk, body));
      }
    } else if IsTagged(body[0]) {
      ScannedIsGreedy(orig, s, hunk + [body[0]], body[1..]);
    }
  }

  lemma UpdateIsGreedy(orig: seq<Line>, body: seq<Line>)
    ensures Update(orig, body).Ok? <==>
            Edits([], body).Ok? && Edits([], body).value != [] && Greedy(orig, Edits([], body).value, 0).Ok?
    ensures Update(orig, body).Ok? ==>
              var edits := Edits([], body).value;
              var ps := Greedy(orig, edits, 0).value;
              Placed(orig, edits, ps, 0) && Update(orig, body).value == Splice(orig, edits, ps, 0)
  {
    hide Greedy, Splice, Scanned, Edits;
    ScannedIsGreedy(orig, Scan([], 0, false), [], body);
    if Edits([], body).Ok? {
      var edits := Edits([], body).value;
      GreedyComplete(orig, edits, 0);
      if Greedy(orig, edits, 0).Ok? {
        var res := Splice(orig, edits, Greedy(orig, edits, 0).value, 0);
        assert [] + res == res;
      }
    }
  }

  /** An update patch succeeds exactly when its body is well-formed, holds a hunk, and its hunks can be
      placed in order without overlap at all. */
  lemma UpdateSucceedsIff(orig: seq<Line>, body: seq<Line>)
    ensures Update(orig, body).Ok? <==>
            && Edits([], body).Ok? && Edits([], body).value != []
            && exists qs :: Placed(orig, Edits([], body).value, qs, 0)
  {
    hide Greedy, Update, Edits;
    UpdateIsGreedy(orig, body);
    if Edits([], body).Ok? {
      GreedyComplete(orig, Edits([], body).value, 0);
    }
  }

  /** Its result is the original with the edits spliced in at their leftmost placement: no other
      placement puts any edit earlier. */
  lemma UpdateResult(orig: seq<Line>, body: seq<Line>)
    requires Update(orig, body).Ok?
    ensures Edits([], body).Ok?
    ensures var edits := Edits([], body).value;
            exists ps :: Placed(orig, edits, ps, 0) && Update(orig, body).value == Splice(orig, edits, ps, 0)
                      && forall qs :: Placed(orig, edits, qs, 0) ==> NoLater(ps, qs)
  {
    hide Greedy, Update, Edits;
    UpdateIsGreedy(orig, body);
    var edits := Edits([], body).value;
    var ps := Greedy(orig, edits, 0).value;
    forall qs | Placed(orig, edits, qs, 0) ensures NoLater(ps, qs) {
      GreedyEarliest(orig, edits, 0, qs);
    }
  }
}
