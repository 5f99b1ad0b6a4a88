/** Hunk placement in an update patch, as functions on lists of lines. */
module PatchHunks {
  datatype Result<T> = Ok(value: T) | Err(error: PatchError) {
    predicate IsFailure() { Err? }
    function PropagateFailure<U>(): Result<U>
      requires Err?
    {
      Err(error)
    }
    function Extract(): T
      requires Ok?
    {
      value
    }
  }

  /** `Missing` is the one failure that is not reported as an invalid patch: an update of a file that does not
      exist fails when the file is opened. */
  datatype PatchError = NoMatch | BadLine | NoHunk | Exists | NotFound | BadEnvelope | BadOperation | TooLarge | Missing

  type Line = string

  predicate StartsWith(s: string, prefix: string) {
    prefix <= s
  }

  /** `needle` occurs in `hay` at `i`. */
  predicate MatchesAt(hay: seq<Line>, needle: seq<Line>, i: int) {
    0 <= i && i + |needle| <= |hay| && hay[i..i + |needle|] == needle
  }

  predicate IsTagged(line: Line) {
    line != "" && (line[0] == ' ' || line[0] == '+' || line[0] == '-')
  }

  predicate AllTagged(hunk: seq<Line>) {
    forall i :: 0 <= i < |hunk| ==> IsTagged(hunk[i])
  }

  /** The lines a hunk removes or keeps, without their tags. */
  function Old(hunk: seq<Line>): seq<Line>
    requires AllTagged(hunk)
  {
    if hunk == [] then []
    else (if hunk[0][0] == '+' then [] else [hunk[0][1..]]) + Old(hunk[1..])
  }

  /** The lines a hunk adds or keeps, without their tags. */
  function New(hunk: seq<Line>): seq<Line>
    requires AllTagged(hunk)
  {
    if hunk == [] then []
    else (if hunk[0][0] == '-' then [] else [hunk[0][1..]]) + New(hunk[1..])
  }

  /** What replacing needs to know of a hunk. */
  datatype Edit = Edit(before: seq<Line>, after: seq<Line>)

  function EditOf(hunk: seq<Line>): Edit
    requires AllTagged(hunk)
  {
    Edit(Old(hunk), New(hunk))
  }

  /** Searching from `from`: an empty needle matches right there; otherwise the first match, if any. */
  function Find(hay: seq<Line>, needle: seq<Line>, from: nat): Result<nat>
    decreases |hay| - from
  {
    if needle == [] then Ok(from)
    else if from + |needle| > |hay| then Err(NoMatch)
    else if hay[from..from + |needle|] == needle then Ok(from)
    else Find(hay, needle, from + 1)
  }

  /** `Find` is leftmost, and fails only when there is no match at all. */
  lemma {:induction false} FindLeftmost(hay: seq<Line>, needle: seq<Line>, from: nat)
    requires from <= |hay|
    ensures match Find(hay, needle, from)
            case Ok(i) =>
              from <= i && MatchesAt(hay, needle, i) && forall j :: from <= j < i ==> !MatchesAt(hay, needle, j)
            case Err(_) => forall j :: from <= j ==> !MatchesAt(hay, needle, j)
    decreases |hay| - from
  {
    if needle != [] && from + |needle| <= |hay| && hay[from..from + |needle|] != needle {
      FindLeftmost(hay, needle, from + 1);
    }
  }

  /** Greedy leftmost placement of all edits, in order. */
  function Greedy(orig: seq<Line>, edits: seq<Edit>, at: nat): Result<seq<int>>
    decreases |edits|
  {
    if edits == [] then Ok([])
    else
      var p :- Find(orig, edits[0].before, at);
      var rest :- Greedy(orig, edits[1..], p + |edits[0].before|);
      Ok([p] + rest)
  }

  /** In-order, non-overlapping positions at which every edit's old lines occur. */
  predicate Placed(orig: seq<Line>, edits: seq<Edit>, ps: seq<int>, at: nat)
    decreases |edits|
  {
    if edits == [] then ps == []
    else
      && ps != [] && at <= ps[0] && MatchesAt(orig, edits[0].before, ps[0])
      && Placed(orig, edits[1..], ps[1..], ps[0] + |edits[0].before|)
  }

  /** The lines from `at` on, with each edit's region replaced. */
  function Splice(orig: seq<Line>, edits: seq<Edit>, ps: seq<int>, at: nat): seq<Line>
    requires at <= |orig| && Placed(orig, edits, ps, at)
    decreases |edits|
  {
    if edits == [] then orig[at..]
    else
      orig[at..ps[0]] + edits[0].after + Splice(orig, edits[1..], ps[1..], ps[0] + |edits[0].before|)
  }

  predicate NoLater(ps: seq<int>, qs: seq<int>) {
    |ps| == |qs| && forall i :: 0 <= i < |ps| ==> ps[i] <= qs[i]
  }

  /** A placement that is valid from a later start is valid from an earlier one. */
  lemma PlacedEarlier(orig: seq<Line>, edits: seq<Edit>, qs: seq<int>, at: nat, at': nat)
    requires at <= at' && Placed(orig, edits, qs, at')
    ensures Placed(orig, edits, qs, at)
  {
  }

  /** Any placement can be compared with the leftmost match of its first edit. */
  lemma LeftmostFirst(orig: seq<Line>, edits: seq<Edit>, at: nat, p: nat, qs: seq<int>)
    requires at <= |orig| && edits != [] && Find(orig, edits[0].before, at) == Ok(p)
    requires Placed(orig, edits, qs, at)
    ensures p <= qs[0] && Placed(orig, edits[1..], qs[1..], p + |edits[0].before|)
  {
    FindLeftmost(orig, edits[0].before, at);
    PlacedEarlier(orig, edits[1..], qs[1..], p + |edits[0].before|, qs[0] + |edits[0].before|);
  }

  /** Greedy placement is sound and complete: it succeeds exactly when some placement exists. */
  lemma {:induction false} GreedyComplete(orig: seq<Line>, edits: seq<Edit>, at: nat)
    requires at <= |orig|
    ensures match Greedy(orig, edits, at)
            case Ok(ps) => Placed(orig, edits, ps, at)
            case Err(_) => forall qs :: !Placed(orig, edits, qs, at)
    decreases |edits|
  {
    if edits != [] {
      FindLeftmost(orig, edits[0].before, at);
      match Find(orig, edits[0].before, at)
      case Err(_) =>
      case Ok(p) =>
        var k := p + |edits[0].before|;
        GreedyComplete(orig, edits[1..], k);
        match Greedy(orig, edits[1..], k)
        case Err(_) =>
          forall qs ensures !Placed(orig, edits, qs, at) {
            if Placed(orig, edits, qs, at) {
              LeftmostFirst(orig, edits, at, p, qs);
            }
          }
        case Ok(rest) =>
          assert ([p] + rest)[1..] == rest;
    }
  }

  /** No placement puts any edit earlier than greedy placement does. */
  lemma {:induction false} GreedyEarliest(orig: seq<Line>, edits: seq<Edit>, at: nat, qs: seq<int>)
    requires at <= |orig| && Placed(orig, edits, qs, at)
    ensures Greedy(orig, edits, at).Ok? && NoLater(Greedy(orig, edits, at).value, qs)
    decreases |edits|
  {
    GreedyComplete(orig, edits, at);
    if edits != [] {
      var p := Find(orig, edits[0].before, at).value;
      LeftmostFirst(orig, edits, at, p, qs);
      FindLeftmost(orig, edits[0].before, at);
      GreedyEarliest(orig, edits[1..], p + |edits[0].before|, qs[1..]);
      assert Greedy(orig, edits, at).value[1..] == Greedy(orig, edits[1..], p + |edits[0].before|).value;
    }
  }

  /** No edit's old lines occur between the end of the region before it and its own position; an edit
      without old lines sits right at that end. */
  predicate NoEarlier(hay: seq<Line>, edits: seq<Edit>, ps: seq<int>, at: int)
    requires |ps| == |edits|
    decreases |edits|
  {
    edits == [] ||
    (&& (forall j :: at <= j < ps[0] ==> !MatchesAt(hay, edits[0].before, j))
     && NoEarlier(hay, edits[1..], ps[1..], ps[0] + |edits[0].before|))
  }

  /** Greedy placement chooses a given placement exactly when it has no earlier match anywhere. */
  lemma {:induction false} GreedyIff(hay: seq<Line>, edits: seq<Edit>, ps: seq<int>, at: nat)
    requires at <= |hay| && |ps| == |edits| && Placed(hay, edits, ps, at)
    ensures Greedy(hay, edits, at) == Ok(ps) <==> NoEarlier(hay, edits, ps, at)
    decreases |edits|
  {
    if edits != [] {
      FindLeftmost(hay, edits[0].before, at);
      GreedyIff(hay, edits[1..], ps[1..], ps[0] + |edits[0].before|);
      assert ps == [ps[0]] + ps[1..];
    }
  }

  function Inverse(edits: seq<Edit>): (inv: seq<Edit>)
    ensures |inv| == |edits|
  {
    seq(|edits|, i requires 0 <= i < |edits| => Edit(edits[i].after, edits[i].before))
  }

  lemma InverseRest(edits: seq<Edit>)
    requires edits != []
    ensures Inverse(edits)[0] == Edit(edits[0].after, edits[0].before) && Inverse(edits)[1..] == Inverse(edits[1..])
  {
  }

  lemma InverseTwice(edits: seq<Edit>)
    ensures Inverse(Inverse(edits)) == edits
  {
  }

  /** Where each edit's new lines start in the result: moved by what the earlier edits added and removed. */
  function Shift(edits: seq<Edit>, ps: seq<int>, d: int): seq<int>
    requires |ps| == |edits|
    decreases |edits|
  {
    if edits == [] then []
    else [ps[0] + d] + Shift(edits[1..], ps[1..], d + |edits[0].after| - |edits[0].before|)
  }
}
