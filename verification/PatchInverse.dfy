/** Undoing an update patch by swapping its added and removed lines. */
module PatchInverse {
  import opened PatchHunks

  lemma Cut(s: seq<Line>, a: seq<Line>, b: seq<Line>, c: seq<Line>, k: nat)
    requires k <= |s| && s[k..] == a + b + c
    ensures s[k..k + |a|] == a && s[k + |a|..k + |a| + |b|] == b && s[k + |a| + |b|..] == c
  {
    assert s[k..k + |a|] == s[k..][..|a|];
    assert s[k + |a|..k + |a| + |b|] == s[k..][|a|..|a| + |b|];
    assert s[k + |a| + |b|..] == s[k..][|a| + |b|..];
  }

  /** The first region of the result: unchanged lines, then the edit's new lines, then the rest. */
  lemma UndoHead(orig: seq<Line>, edits: seq<Edit>, ps: seq<int>, at: nat, res: seq<Line>, at': nat)
    requires at <= |orig| && edits != [] && Placed(orig, edits, ps, at)
    requires at' <= |res| && res[at'..] == Splice(orig, edits, ps, at)
    ensures ps != []
    ensures var p, q := ps[0], ps[0] + at' - at;
            && at <= p && MatchesAt(orig, edits[0].before, p)
            && Placed(orig, edits[1..], ps[1..], p + |edits[0].before|)
            && MatchesAt(res, edits[0].after, q) && res[at'..q] == orig[at..p]
            && res[q + |edits[0].after|..] == Splice(orig, edits[1..], ps[1..], p + |edits[0].before|)
  {
    var p, b, a := ps[0], edits[0].before, edits[0].after;
    Cut(res, orig[at..p], a, Splice(orig, edits[1..], ps[1..], p + |b|), at');
  }

  lemma PlacedCons(orig: seq<Line>, edits: seq<Edit>, ps: seq<int>, at: nat)
    requires edits != [] && ps != [] && at <= ps[0] && MatchesAt(orig, edits[0].before, ps[0])
    requires Placed(orig, edits[1..], ps[1..], ps[0] + |edits[0].before|)
    ensures Placed(orig, edits, ps, at)
    ensures Splice(orig, edits, ps, at) ==
            orig[at..ps[0]] + edits[0].after + Splice(orig, edits[1..], ps[1..], ps[0] + |edits[0].before|)
  {
  }

  lemma Rejoin(orig: seq<Line>, at: nat, p: nat, b: seq<Line>)
    requires at <= p && MatchesAt(orig, b, p)
    ensures orig[at..p] + b + orig[p + |b|..] == orig[at..]
  {
  }

  /** Replacing every new region by its old lines, at the shifted positions, gives the original back. */
  lemma {:induction false} Undo(orig: seq<Line>, edits: seq<Edit>, ps: seq<int>, at: nat, res: seq<Line>, at': nat)
    requires at <= |orig| && Placed(orig, edits, ps, at)
    requires at' <= |res| && res[at'..] == Splice(orig, edits, ps, at)
    ensures |ps| == |edits|
    ensures Placed(res, Inverse(edits), Shift(edits, ps, at' - at), at')
    ensures Splice(res, Inverse(edits), Shift(edits, ps, at' - at), at') == orig[at..]
    decreases |edits|
  {
    hide MatchesAt, Inverse;
    if edits != [] {
      hide Placed, Splice;
      UndoHead(orig, edits, ps, at, res, at');
      var p, b, a := ps[0], edits[0].before, edits[0].after;
      var q := p + at' - at;
      Bounds(orig, b, p);
      Bounds(res, a, q);
      Undo(orig, edits[1..], ps[1..], p + |b|, res, q + |a|);
      InverseRest(edits);
      var qs := Shift(edits, ps, at' - at);
      assert qs[1..] == Shift(edits[1..], ps[1..], q + |a| - (p + |b|));
      PlacedCons(res, Inverse(edits), qs, at');
      assert Splice(res, Inverse(edits), qs, at') == orig[at..p] + b + orig[p + |b|..];
      Rejoin(orig, at, p, b);
    }
  }

  lemma Bounds(hay: seq<Line>, needle: seq<Line>, i: int)
    requires MatchesAt(hay, needle, i)
    ensures 0 <= i && i + |needle| <= |hay|
  {
  }

  lemma {:induction false} ShiftBack(edits: seq<Edit>, ps: seq<int>, d: int)
    requires |ps| == |edits|
    ensures |Shift(edits, ps, d)| == |edits|
    ensures Shift(Inverse(edits), Shift(edits, ps, d), -d) == ps
    decreases |edits|
  {
    if edits != [] {
      var e := d + |edits[0].after| - |edits[0].before|;
      ShiftBack(edits[1..], ps[1..], e);
      InverseRest(edits);
      assert Shift(edits, ps, d)[1..] == Shift(edits[1..], ps[1..], e);
    }
  }

  lemma {:induction false} ShiftMonotone(edits: seq<Edit>, ps: seq<int>, qs: seq<int>, d: int)
    requires |ps| == |edits| && NoLater(ps, qs)
    ensures NoLater(Shift(edits, ps, d), Shift(edits, qs, d))
    decreases |edits|
  {
    if edits != [] {
      ShiftMonotone(edits[1..], ps[1..], qs[1..], d + |edits[0].after| - |edits[0].before|);
    }
  }

  lemma NoLaterBoth(ps: seq<int>, qs: seq<int>)
    requires NoLater(ps, qs) && NoLater(qs, ps)
    ensures ps == qs
  {
  }

  /** The swapped patch always applies to the result. */
  lemma InverseApplies(orig: seq<Line>, edits: seq<Edit>)
    requires Greedy(orig, edits, 0).Ok?
    ensures var ps := Greedy(orig, edits, 0).value;
            Placed(orig, edits, ps, 0) && Greedy(Splice(orig, edits, ps, 0), Inverse(edits), 0).Ok?
  {
    GreedyComplete(orig, edits, 0);
    var ps := Greedy(orig, edits, 0).value;
    var res := Splice(orig, edits, ps, 0);
    Undo(orig, edits, ps, 0, res, 0);
    GreedyComplete(res, Inverse(edits), 0);
  }

  /** It restores the original exactly when the new lines of no hunk occur in the result between the end of
      the previous hunk's region and its own. */
  lemma InverseRestoresIff(orig: seq<Line>, edits: seq<Edit>)
    requires Greedy(orig, edits, 0).Ok?
    ensures var ps := Greedy(orig, edits, 0).value;
            Placed(orig, edits, ps, 0) && |ps| == |edits| &&
            var res := Splice(orig, edits, ps, 0);
            Greedy(res, Inverse(edits), 0).Ok? &&
            var qs := Greedy(res, Inverse(edits), 0).value;
            Placed(res, Inverse(edits), qs, 0) && |Shift(edits, ps, 0)| == |edits| &&
            (Splice(res, Inverse(edits), qs, 0) == orig <==> NoEarlier(res, Inverse(edits), Shift(edits, ps, 0), 0))
  {
    hide Greedy, Splice, Placed, Shift, Inverse, NoEarlier;
    InverseApplies(orig, edits);
    var ps := Greedy(orig, edits, 0).value;
    var res := Splice(orig, edits, ps, 0);
    Undo(orig, edits, ps, 0, res, 0);
    ShiftBack(edits, ps, 0);
    GreedyComplete(res, Inverse(edits), 0);
    GreedyIff(res, Inverse(edits), Shift(edits, ps, 0), 0);
    var qs := Greedy(res, Inverse(edits), 0).value;
    if Splice(res, Inverse(edits), qs, 0) == orig {
      RestoredIsShifted(orig, edits, ps, res, qs);
    }
  }

  /** If undoing at `qs` gives the original, then `qs` are the shifted positions: both placements are earliest. */
  lemma RestoredIsShifted(orig: seq<Line>, edits: seq<Edit>, ps: seq<int>, res: seq<Line>, qs: seq<int>)
    requires Greedy(orig, edits, 0) == Ok(ps) && |ps| == |edits|
    requires Placed(res, Inverse(edits), Shift(edits, ps, 0), 0)
    requires Greedy(res, Inverse(edits), 0) == Ok(qs) && Placed(res, Inverse(edits), qs, 0)
    requires Splice(res, Inverse(edits), qs, 0) == orig
    ensures qs == Shift(edits, ps, 0)
  {
    hide Greedy, Splice, Placed, Shift;
    var inv := Inverse(edits);
    GreedyEarliest(res, inv, 0, Shift(edits, ps, 0));
    InverseTwice(edits);
    Undo(res, inv, qs, 0, orig, 0);
    GreedyEarliest(orig, edits, 0, Shift(inv, qs, 0));
    ShiftMonotone(edits, ps, Shift(inv, qs, 0), 0);
    ShiftBack(inv, qs, 0);
    NoLaterBoth(qs, Shift(edits, ps, 0));
  }

  lemma SpliceOne(orig: seq<Line>, e: Edit, p: nat)
    requires MatchesAt(orig, e.before, p)
    ensures Placed(orig, [e], [p], 0)
    ensures Splice(orig, [e], [p], 0) == orig[..p] + e.after + orig[p + |e.before|..]
  {
    var none: seq<int> := [p][1..];
    assert [e][1..] == [] && none == [];
    assert Placed(orig, [e][1..], none, p + |e.before|);
    assert Splice(orig, [e][1..], none, p + |e.before|) == orig[p + |e.before|..];
  }

  lemma GreedyOne(orig: seq<Line>, e: Edit, p: nat)
    requires e.before != [] && MatchesAt(orig, e.before, p)
    requires forall j :: 0 <= j < p ==> !MatchesAt(orig, e.before, j)
    ensures Greedy(orig, [e], 0) == Ok([p])
  {
    FindLeftmost(orig, e.before, 0);
    assert [e][1..] == [];
    assert Find(orig, e.before, 0) == Ok(p);
    var none: seq<int> := [];
    assert Greedy(orig, [e][1..], p + |e.before|) == Ok(none) && [p] + none == [p];
  }

  /** Swapping a patch does not always undo it: here the undo finds its line one place too early. */
  lemma InverseCanMiss()
    ensures var orig, edits := ["x", "y"], [Edit(["y"], ["x"])];
            && Greedy(orig, edits, 0) == Ok([1])
            && Placed(orig, edits, [1], 0) && Splice(orig, edits, [1], 0) == ["x", "x"]
            && Greedy(["x", "x"], Inverse(edits), 0) == Ok([0])
            && Placed(["x", "x"], Inverse(edits), [0], 0)
            && Splice(["x", "x"], Inverse(edits), [0], 0) == ["y", "x"]
  {
    hide Greedy, Splice, Placed;
    assert Inverse([Edit(["y"], ["x"])]) == [Edit(["x"], ["y"])];
    assert ["x", "y"][1..2] == ["y"] && ["x", "y"][0..1] == ["x"] && ["x", "x"][0..1] == ["x"];
    GreedyOne(["x", "y"], Edit(["y"], ["x"]), 1);
    SpliceOne(["x", "y"], Edit(["y"], ["x"]), 1);
    GreedyOne(["x", "x"], Edit(["x"], ["y"]), 0);
    SpliceOne(["x", "x"], Edit(["x"], ["y"]), 0);
    assert ["x", "y"][..1] + ["x"] + ["x", "y"][2..] == ["x", "x"];
    assert ["x", "x"][..0] + ["y"] + ["x", "x"][1..] == ["y", "x"];
  }

  function Added(edits: seq<Edit>): nat {
    if edits == [] then 0 else |edits[0].after| + Added(edits[1..])
  }

  function Removed(edits: seq<Edit>): nat {
    if edits == [] then 0 else |edits[0].before| + Removed(edits[1..])
  }

  /** The line count changes by lines added minus lines removed. */
  lemma {:induction false} SpliceLength(orig: seq<Line>, edits: seq<Edit>, ps: seq<int>, at: nat)
    requires at <= |orig| && Placed(orig, edits, ps, at)
    ensures |Splice(orig, edits, ps, at)| == |orig| - at + Added(edits) - Removed(edits)
    decreases |edits|
  {
    if edits != [] {
      SpliceLength(orig, edits[1..], ps[1..], ps[0] + |edits[0].before|);
    }
  }
}
