/** Editing a file by exact string replacement. */
module FileEdit {
  import opened Bytes
  import opened ExecResponse
  import opened Wrappers
  import LimitWriter
  import Utf8

  predicate OccursAt(s: bytes, p: bytes, i: nat) {
    i + |p| <= |s| && s[i..i + |p|] == p
  }

  /** The first position at or after `i` where `p` occurs, or a position past the end. */
  function FirstFrom(s: bytes, p: bytes, i: nat): (f: nat)
    requires i <= |s|
    ensures i <= f <= |s| + 1
    ensures f <= |s| ==> OccursAt(s, p, f)
    ensures forall j | i <= j < f :: !OccursAt(s, p, j)
    decreases |s| - i
  {
    if OccursAt(s, p, i) then i
    else if i == |s| then |s| + 1
    else FirstFrom(s, p, i + 1)
  }

  function First(s: bytes, p: bytes): (f: nat)
    ensures f <= |s| + 1
  {
    FirstFrom(s, p, 0)
  }

  predicate Occurs(s: bytes, p: bytes) {
    First(s, p) <= |s|
  }

  /** What follows the first occurrence. */
  function Rest(s: bytes, p: bytes): (r: bytes)
    requires p != [] && Occurs(s, p)
    ensures |r| < |s| && s == s[..First(s, p)] + p + r
  {
    s[First(s, p) + |p|..]
  }

  /** strings.Count for a non-empty pattern: occurrences found left to right, none overlapping. */
  function Count(s: bytes, p: bytes): nat
    requires p != []
    decreases |s|
  {
    if Occurs(s, p) then 1 + Count(Rest(s, p), p) else 0
  }

  /** strings.ReplaceAll. */
  function ReplaceAll(s: bytes, p: bytes, q: bytes): bytes
    requires p != []
    decreases |s|
  {
    if Occurs(s, p) then s[..First(s, p)] + q + ReplaceAll(Rest(s, p), p, q) else s
  }

  /** strings.Replace with a count of one. */
  function ReplaceFirst(s: bytes, p: bytes, q: bytes): bytes
    requires p != []
  {
    if Occurs(s, p) then s[..First(s, p)] + q + Rest(s, p) else s
  }

  // ----- The count is the most disjoint occurrences there can be -----

  /** `at` lists pairwise disjoint occurrences from left to right. */
  ghost predicate Disjoint(s: bytes, p: bytes, at: seq<nat>) {
    && (forall k | 0 <= k < |at| :: OccursAt(s, p, at[k]))
    && (forall k, l | 0 <= k < l < |at| :: at[k] + |p| <= at[l])
  }

  lemma OccursInRest(s: bytes, p: bytes, j: nat)
    requires p != [] && Occurs(s, p) && j >= First(s, p) + |p|
    ensures OccursAt(s, p, j) <==> OccursAt(Rest(s, p), p, j - First(s, p) - |p|)
  {
    hide FirstFrom;
    var d := First(s, p) + |p|;
    var rest := Rest(s, p);
    assert rest == s[d..];
    hide First, Rest, Occurs;
    if j + |p| <= |s| {
      assert rest[j - d..j - d + |p|] == s[j..j + |p|];
    }
  }

  lemma CountUnfolds(s: bytes, p: bytes)
    requires p != [] && Occurs(s, p)
    ensures Count(s, p) == 1 + Count(Rest(s, p), p)
  {
    hide First, Rest, Occurs;
  }

  lemma FirstIsLeast(s: bytes, p: bytes, i: nat)
    requires OccursAt(s, p, i)
    ensures Occurs(s, p) && First(s, p) <= i
  {
    hide FirstFrom;
  }

  lemma FirstOccurs(s: bytes, p: bytes)
    requires Occurs(s, p)
    ensures OccursAt(s, p, First(s, p))
  {
    hide FirstFrom;
  }

  /** No choice of disjoint occurrences is larger than the count. */
  lemma {:induction false} CountIsUpperBound(s: bytes, p: bytes, at: seq<nat>)
    requires p != [] && Disjoint(s, p, at)
    ensures |at| <= Count(s, p)
    decreases |s|
  {
    if at != [] {
      assert OccursAt(s, p, at[0]);
      hide *;
      FirstIsLeast(s, p, at[0]);
      CountUnfolds(s, p);
      LaterAreDisjoint(s, p, at);
      CountIsUpperBound(Rest(s, p), p, Back(at, First(s, p) + |p|));
    }
  }

  function Back(at: seq<nat>, d: nat): (r: seq<nat>)
    requires at != [] && forall k | 0 < k < |at| :: at[k] >= d
    ensures |r| == |at| - 1 && forall k | 0 <= k < |r| :: r[k] == at[k + 1] - d
  {
    seq(|at| - 1, k requires 0 <= k < |at| - 1 => at[k + 1] - d)
  }

  lemma LaterAreDisjoint(s: bytes, p: bytes, at: seq<nat>)
    requires p != [] && Occurs(s, p) && Disjoint(s, p, at) && at != [] && First(s, p) <= at[0]
    ensures forall k | 0 < k < |at| :: at[k] >= First(s, p) + |p|
    ensures Disjoint(Rest(s, p), p, Back(at, First(s, p) + |p|))
  {
    hide First, Rest, Occurs, OccursAt;
    var d := First(s, p) + |p|;
    forall k | 0 < k < |at| ensures at[k] >= d {
      assert at[0] + |p| <= at[k];
    }
    var later := Back(at, d);
    forall k | 0 <= k < |later| ensures OccursAt(Rest(s, p), p, later[k]) {
      OccursInRest(s, p, at[k + 1]);
    }
  }

  function Shift(at: seq<nat>, d: nat): (r: seq<nat>)
    ensures |r| == |at| && forall k | 0 <= k < |at| :: r[k] == at[k] + d
  {
    if at == [] then [] else [at[0] + d] + Shift(at[1..], d)
  }

  /** The occurrences the count finds. */
  function Found(s: bytes, p: bytes): seq<nat>
    requires p != []
    decreases |s|
  {
    if Occurs(s, p) then [First(s, p)] + Shift(Found(Rest(s, p), p), First(s, p) + |p|) else []
  }

  lemma FoundUnfolds(s: bytes, p: bytes)
    requires p != [] && Occurs(s, p)
    ensures Found(s, p) == [First(s, p)] + Shift(Found(Rest(s, p), p), First(s, p) + |p|)
  {
    hide Shift, First, Rest, Occurs;
  }

  lemma {:induction false} CountIsAttained(s: bytes, p: bytes)
    requires p != []
    ensures |Found(s, p)| == Count(s, p) && Disjoint(s, p, Found(s, p))
    decreases |s|
  {
    if Occurs(s, p) {
      hide Disjoint, First, Rest, Found, Count, Occurs;
      CountIsAttained(Rest(s, p), p);
      FoundIsDisjoint(s, p, Found(Rest(s, p), p));
      FoundUnfolds(s, p);
      CountUnfolds(s, p);
    }
  }

  lemma FoundIsDisjoint(s: bytes, p: bytes, later: seq<nat>)
    requires p != [] && Occurs(s, p) && Disjoint(Rest(s, p), p, later)
    ensures Disjoint(s, p, [First(s, p)] + Shift(later, First(s, p) + |p|))
  {
    hide First, Rest, Occurs, OccursAt;
    var d := First(s, p) + |p|;
    var all := [First(s, p)] + Shift(later, d);
    FoundOccur(s, p, later);
    assert forall k | 0 < k < |all| :: all[k] == later[k - 1] + d;
  }

  lemma FoundOccur(s: bytes, p: bytes, later: seq<nat>)
    requires p != [] && Occurs(s, p) && Disjoint(Rest(s, p), p, later)
    ensures var all := [First(s, p)] + Shift(later, First(s, p) + |p|);
            forall k | 0 <= k < |all| :: OccursAt(s, p, all[k])
  {
    hide First, FirstFrom, Rest, Occurs, OccursAt, Shift;
    var d := First(s, p) + |p|;
    var all := [First(s, p)] + Shift(later, d);
    FirstOccurs(s, p);
    forall k | 0 <= k < |all| ensures OccursAt(s, p, all[k]) {
      if k > 0 {
        assert all[k] == later[k - 1] + d;
        OccursInRest(s, p, all[k]);
      }
    }
  }

  // ----- Replacing every occurrence swaps the separators of a split -----

  /** strings.Split: the pieces between the occurrences that the count finds. */
  function Split(s: bytes, p: bytes): (pieces: seq<bytes>)
    requires p != []
    ensures pieces != []
    decreases |s|
  {
    if Occurs(s, p) then [s[..First(s, p)]] + Split(Rest(s, p), p) else [s]
  }

  function Join(pieces: seq<bytes>, sep: bytes): bytes
    requires pieces != []
  {
    if |pieces| == 1 then pieces[0] else pieces[0] + sep + Join(pieces[1..], sep)
  }

  lemma {:induction false} SplitJoins(s: bytes, p: bytes, q: bytes)
    requires p != []
    ensures |Split(s, p)| == Count(s, p) + 1
    ensures Join(Split(s, p), p) == s
    ensures Join(Split(s, p), q) == ReplaceAll(s, p, q)
    decreases |s|
  {
    if Occurs(s, p) {
      SplitJoins(Rest(s, p), p, q);
      assert Split(s, p)[1..] == Split(Rest(s, p), p);
    }
  }

  /** No piece contains the pattern. */
  lemma {:induction false} PiecesAreFree(s: bytes, p: bytes, k: nat)
    requires p != [] && k < |Split(s, p)|
    ensures !Occurs(Split(s, p)[k], p)
    decreases |s|
  {
    if Occurs(s, p) {
      if k > 0 {
        PiecesAreFree(Rest(s, p), p, k - 1);
      } else {
        var head := s[..First(s, p)];
        if Occurs(head, p) {
          var i := First(head, p);
          assert head[i..i + |p|] == s[i..i + |p|];
          assert OccursAt(s, p, i);
        }
      }
    }
  }

  /** `pieces` are what is left of `s` when it is searched for `p` from the left: each ends at the next occurrence. */
  ghost predicate LeftmostPieces(s: bytes, p: bytes, pieces: seq<bytes>)
    requires p != []
  {
    && pieces != [] && Join(pieces, p) == s
    && (forall k | 0 <= k < |pieces| - 1 :: First(pieces[k] + p, p) == |pieces[k]|)
    && !Occurs(pieces[|pieces| - 1], p)
  }

  lemma FirstInFront(a: bytes, p: bytes, b: bytes)
    requires p != []
    ensures First(a + p, p) == |a| <==> First(a + p + b, p) == |a|
  {
    hide FirstFrom;
    var s, t := a + p, a + p + b;
    assert s[|a|..|a| + |p|] == p && t[|a|..|a| + |p|] == p;
    assert OccursAt(s, p, |a|) && OccursAt(t, p, |a|);
    forall i | 0 <= i < |a| ensures OccursAt(s, p, i) <==> OccursAt(t, p, i) {
      assert s[i..i + |p|] == t[i..i + |p|];
    }
  }

  lemma {:induction false} SplitIsLeftmost(s: bytes, p: bytes)
    requires p != []
    ensures LeftmostPieces(s, p, Split(s, p))
    decreases |s|
  {
    SplitJoins(s, p, p);
    if Occurs(s, p) {
      var rest := Rest(s, p);
      var head := s[..First(s, p)];
      SplitIsLeftmost(rest, p);
      FirstInFront(head, p, rest);
      assert s == head + p + rest;
      hide First, Occurs, Rest, Join;
      var pieces, more := Split(s, p), Split(rest, p);
      assert pieces == [head] + more;
      forall k | 0 <= k < |pieces| - 1 ensures First(pieces[k] + p, p) == |pieces[k]| {
        if k > 0 { assert pieces[k] == more[k - 1]; }
      }
    }
  }

  /** The split is the only way to cut the file like that. */
  lemma {:induction false} SplitIsOnly(s: bytes, p: bytes, pieces: seq<bytes>)
    requires p != [] && LeftmostPieces(s, p, pieces)
    ensures pieces == Split(s, p)
    decreases |pieces|
  {
    if |pieces| == 1 {
      assert s == pieces[0];
    } else {
      var more := pieces[1..];
      var rest := Join(more, p);
      assert s == pieces[0] + p + rest;
      FirstInFront(pieces[0], p, rest);
      FirstIsLeast(s, p, |pieces[0]|) by {
        assert s[|pieces[0]|..|pieces[0]| + |p|] == p;
      }
      assert Rest(s, p) == rest;
      hide First, Occurs;
      assert LeftmostPieces(rest, p, more) by {
        forall k | 0 <= k < |more| - 1 ensures First(more[k] + p, p) == |more[k]| { assert more[k] == pieces[k + 1]; }
      }
      SplitIsOnly(rest, p, more);
      assert pieces == [pieces[0]] + more;
    }
  }

  lemma LengthUnfolds(s: bytes, p: bytes, q: bytes)
    requires p != [] && Occurs(s, p)
    ensures |ReplaceAll(s, p, q)| == |ReplaceAll(Rest(s, p), p, q)| + (|s| - |Rest(s, p)|) + (|q| - |p|)
  {
    hide First, Occurs, Rest;
  }

  /** What `c` replacements add to the length when each adds `d`. */
  function Growth(c: nat, d: int): int {
    c * d
  }

  lemma {:induction false} ReplaceAllLength(s: bytes, p: bytes, q: bytes)
    requires p != []
    ensures |ReplaceAll(s, p, q)| == |s| + Growth(Count(s, p), |q| - |p|)
    decreases |s|
  {
    hide *;
    if Occurs(s, p) {
      LengthUnfolds(s, p, q);
      CountUnfolds(s, p);
      ReplaceAllLength(Rest(s, p), p, q);
      GrowthUnfolds(Count(Rest(s, p), p), |q| - |p|);
    } else {
      NothingToReplace(s, p, q);
    }
  }

  lemma NothingToReplace(s: bytes, p: bytes, q: bytes)
    requires p != [] && !Occurs(s, p)
    ensures ReplaceAll(s, p, q) == s && Count(s, p) == 0 && Growth(0, |q| - |p|) == 0
  {
    hide Occurs, First, Rest;
  }

  lemma GrowthUnfolds(c: nat, d: int)
    ensures Growth(1 + c, d) == Growth(c, d) + d
  {
  }

  // ----- EditFile -----

  datatype EditResult =
    | Edited(count: nat) | EmptyPattern | ReadFailed | TooLarge | NotFound | NotUnique(count: nat) | WriteFailed

  /** The answer to an edit whose read and write succeed, and the content it leaves. */
  function Edit(max: int, s: bytes, p: bytes, q: bytes, all: bool): (EditResult, bytes) {
    if p == [] then (EmptyPattern, s)
    else if max > 0 && |s| >= max then (TooLarge, s)
    else if Count(s, p) == 0 then (NotFound, s)
    else if Count(s, p) > 1 && !all then (NotUnique(Count(s, p)), s)
    else if all then (Edited(Count(s, p)), ReplaceAll(s, p, q))
    else (Edited(1), ReplaceFirst(s, p, q))
  }

  /** `n` is the largest number of pairwise disjoint occurrences. */
  ghost predicate MostDisjoint(s: bytes, p: bytes, n: nat) {
    && (exists at :: Disjoint(s, p, at) && |at| == n)
    && (forall at | Disjoint(s, p, at) :: |at| <= n)
  }

  ghost predicate Absent(s: bytes, p: bytes) {
    forall i: nat :: !OccursAt(s, p, i)
  }

  ghost predicate Ambiguous(s: bytes, p: bytes) {
    exists i: nat, j: nat :: OccursAt(s, p, i) && OccursAt(s, p, j) && i + |p| <= j
  }

  /** `after` is `s` with `p` replaced by `q` where `p` occurs first. */
  ghost predicate ReplacedOnce(s: bytes, p: bytes, q: bytes, after: bytes) {
    exists a, b :: s == a + p + b && after == a + q + b && forall i: nat | i < |a| :: !OccursAt(s, p, i)
  }

  /** `after` is `s` with `p` replaced by `q` at all `n` occurrences found from the left. */
  ghost predicate ReplacedAll(s: bytes, p: bytes, q: bytes, n: nat, after: bytes)
    requires p != []
  {
    && (exists pieces :: LeftmostPieces(s, p, pieces) && after == Join(pieces, q) && n == |pieces| - 1)
    && |after| == |s| + n * (|q| - |p|)
  }

  /** What an edit whose read and write succeed means for the file. */
  ghost predicate EditMeans(max: int, s: bytes, p: bytes, q: bytes, all: bool, r: EditResult, after: bytes) {
    && !r.ReadFailed? && !r.WriteFailed?
    && (!r.Edited? ==> after == s)
    && (r.EmptyPattern? <==> p == [])
    && (r.TooLarge? <==> p != [] && 0 < max <= |s|)
    && (p != [] && !(0 < max <= |s|) ==>
          && (r.NotFound? <==> Absent(s, p))
          && (r.NotUnique? <==> !all && Ambiguous(s, p))
          && (r.NotUnique? || (r.Edited? && all) ==> MostDisjoint(s, p, r.count))
          && (r.Edited? && !all ==> r.count == 1 && ReplacedOnce(s, p, q, after))
          && (r.Edited? && all ==> ReplacedAll(s, p, q, r.count, after)))
  }

  lemma CountIsMost(s: bytes, p: bytes)
    requires p != []
    ensures MostDisjoint(s, p, Count(s, p))
    ensures Count(s, p) == 0 <==> Absent(s, p)
    ensures Count(s, p) > 1 <==> Ambiguous(s, p)
  {
    hide Count, Found, First, FirstFrom, Occurs;
    CountIsAttained(s, p);
    forall at | Disjoint(s, p, at) ensures |at| <= Count(s, p) {
      CountIsUpperBound(s, p, at);
    }
    forall i: nat | OccursAt(s, p, i) ensures Count(s, p) > 0 {
      CountIsUpperBound(s, p, [i]);
    }
    forall i: nat, j: nat | OccursAt(s, p, i) && OccursAt(s, p, j) && i + |p| <= j ensures Count(s, p) > 1 {
      CountIsUpperBound(s, p, [i, j]);
    }
    var found := Found(s, p);
    if |found| > 0 { assert OccursAt(s, p, found[0]); }
    if |found| > 1 { assert OccursAt(s, p, found[1]) && found[0] + |p| <= found[1]; }
  }

  lemma AllIsReplaced(s: bytes, p: bytes, q: bytes)
    requires p != []
    ensures ReplacedAll(s, p, q, Count(s, p), ReplaceAll(s, p, q))
  {
    hide LeftmostPieces, ReplaceAll, Count, Split, Join;
    SplitIsLeftmost(s, p);
    SplitJoins(s, p, q);
    ReplaceAllLength(s, p, q);
  }

  lemma FirstIsReplaced(s: bytes, p: bytes, q: bytes)
    requires p != [] && Occurs(s, p)
    ensures ReplacedOnce(s, p, q, ReplaceFirst(s, p, q))
  {
    hide FirstFrom;
    var a, b := s[..First(s, p)], Rest(s, p);
    assert s == a + p + b && ReplaceFirst(s, p, q) == a + q + b;
    assert forall i: nat | i < |a| :: !OccursAt(s, p, i);
  }

  lemma CountedOccurs(s: bytes, p: bytes)
    requires p != [] && Count(s, p) > 0
    ensures Occurs(s, p)
  {
    hide First, Rest;
  }

  lemma EditIsMeant(max: int, s: bytes, p: bytes, q: bytes, all: bool)
    ensures var (r, after) := Edit(max, s, p, q, all); EditMeans(max, s, p, q, all, r, after)
  {
    hide Count, MostDisjoint, Absent, Ambiguous, ReplacedOnce, ReplacedAll, ReplaceAll, ReplaceFirst, Occurs;
    if p != [] {
      CountIsMost(s, p);
      AllIsReplaced(s, p, q);
      if Count(s, p) > 0 {
        CountedOccurs(s, p);
        FirstIsReplaced(s, p, q);
      }
    }
  }

  /** One file of a sandbox, reached by running commands in it; `max` is the output limit of such a command. */
  class SandboxFile {
    const max: int
    var content: bytes

    constructor (max: int, content: bytes)
      ensures this.max == max && this.content == content
    {
      this.max := max;
      this.content := content;
    }

    /** `run` is the command that prints the file; if it exits normally, it has printed all of it. */
    method Read(run: Run) returns (data: Option<bytes>, truncated: bool)
      requires run.code == 0 ==> Concat(run.chunks) == content
      ensures data.Some? <==> run.code == 0 && !run.broken && ArrivesWhole(max, run.chunks)
      ensures data.Some? ==> data.value == Limited(LimitWriter.LimitFor(max), content)
      ensures data.Some? ==> (truncated <==> max > 0 && |content| >= max)
    {
      ReadSucceedsExactly(max, run);
      data := ReadFile(max, run);
      truncated := data.Some? && Utf8.ReadTruncated(max, data.value);
    }

    /** `run` is the command that prints the file, `writable` the outcome of the one that writes it back. */
    method EditFile(p: bytes, q: bytes, all: bool, run: Run, writable: bool, leftover: bytes)
      returns (r: EditResult)
      requires run.code == 0 ==> Concat(run.chunks) == content
      modifies this
      ensures var readable := run.code == 0 && !run.broken && ArrivesWhole(max, run.chunks);
              p != [] && !readable ==> r == ReadFailed && content == old(content)
      ensures p == [] || (run.code == 0 && !run.broken && ArrivesWhole(max, run.chunks)) ==>
                var (answer, after) := Edit(max, old(content), p, q, all);
                && EditMeans(max, old(content), p, q, all, answer, after)
                && if answer.Edited? && !writable then r == WriteFailed else r == answer && content == after
    {
      EditIsMeant(max, content, p, q, all);
      hide EditMeans;
      if p == [] {
        return EmptyPattern;
      }
      var read, truncated := Read(run);
      if read.None? {
        return ReadFailed;
      }
      if truncated {
        return TooLarge;
      }
      var data := read.value;
      var count := Count(data, p);
      if count == 0 {
        return NotFound;
      }
      if count > 1 && !all {
        return NotUnique(count);
      }
      var edited;
      if all {
        edited := ReplaceAll(data, p, q);
      } else {
        edited := ReplaceFirst(data, p, q);
        count := 1;
      }
      if !writable {
        content := leftover;
        return WriteFailed;
      }
      content := edited;
      return Edited(count);
    }
  }

  // ----- What a successful edit means -----

  lemma CountIsZero(s: bytes, p: bytes)
    requires p != []
    ensures Count(s, p) == 0 <==> forall i | 0 <= i <= |s| :: !OccursAt(s, p, i)
  {
  }

  /** A unique match: every other occurrence overlaps the first one. */
  lemma OthersOverlap(s: bytes, p: bytes, j: nat)
    requires p != [] && Count(s, p) == 1 && OccursAt(s, p, j)
    ensures First(s, p) <= j < First(s, p) + |p|
  {
    if j >= First(s, p) + |p| {
      OccursInRest(s, p, j);
      CountIsZero(Rest(s, p), p);
    }
  }

  /** A successful single edit turns a + old + b into a + new + b at the first occurrence. */
  lemma SingleEdit(max: int, s: bytes, p: bytes, q: bytes)
    requires Edit(max, s, p, q, false).0.Edited?
    ensures var a, b, r := s[..First(s, p)], Rest(s, p), Edit(max, s, p, q, false).1;
            && s == a + p + b && r == a + q + b
            && (forall j | 0 <= j < |a| :: !OccursAt(s, p, j))
            && (forall j: nat | OccursAt(s, p, j) :: |a| <= j < |a| + |p|)
  {
    forall j: nat | OccursAt(s, p, j) ensures First(s, p) <= j < First(s, p) + |p| {
      OthersOverlap(s, p, j);
    }
  }

  /** What an edit in the other direction leaves when it finds `q` first at position `f`. */
  lemma ReverseAt(s: bytes, p: bytes, q: bytes, r: bytes)
    requires p != [] && q != [] && Occurs(s, p) && r == ReplaceFirst(s, p, q)
    ensures First(r, q) <= First(s, p)
    ensures ReplaceFirst(r, q, p) == s <==> First(r, q) == First(s, p)
  {
    var f, g := First(s, p), First(r, q);
    assert r == s[..f] + q + Rest(s, p);
    assert r[f..f + |q|] == q;
    assert OccursAt(r, q, f);
    assert g <= f;
    if g == f {
      assert r[..f] == s[..f] && r[f + |q|..] == Rest(s, p);
    } else {
      var back := ReplaceFirst(r, q, p);
      assert back[g..g + |p|] == p;
      assert !OccursAt(s, p, g);
    }
  }

  /**
    * The reverse edit restores the file exactly if the new string is not empty, the result is below the read
    * limit, and the new string has one disjoint match in it, which begins where the edit was made.
    */
  lemma ReverseEditExactly(max: int, s: bytes, p: bytes, q: bytes)
    requires Edit(max, s, p, q, false).0.Edited?
    ensures var r := Edit(max, s, p, q, false).1;
            Edit(max, r, q, p, false) == (Edited(1), s) <==>
              q != [] && (max <= 0 || |r| < max) && Count(r, q) == 1 && First(r, q) == First(s, p)
  {
    if q != [] {
      ReverseAt(s, p, q, Edit(max, s, p, q, false).1);
    }
  }

  /** In particular it does whenever the new string occurs at exactly one position. */
  lemma UniqueEditsReverse(max: int, s: bytes, p: bytes, q: bytes)
    requires Edit(max, s, p, q, false).0.Edited? && q != []
    requires max <= 0 || |Edit(max, s, p, q, false).1| < max
    requires var r := Edit(max, s, p, q, false).1;
             forall i: nat, j: nat :: OccursAt(r, q, i) && OccursAt(r, q, j) ==> i == j
    ensures Edit(max, Edit(max, s, p, q, false).1, q, p, false) == (Edited(1), s)
  {
    var r := Edit(max, s, p, q, false).1;
    ReverseAt(s, p, q, r);
    ReverseEditExactly(max, s, p, q);
    SingleEdit(max, s, p, q);
    var f := First(s, p);
    assert r[f..f + |q|] == q;
    assert OccursAt(r, q, f) && OccursAt(r, q, First(r, q));
    OnceIsOne(r, q);
  }

  lemma OnceIsOne(s: bytes, p: bytes)
    requires p != [] && Occurs(s, p)
    requires forall i: nat, j: nat :: OccursAt(s, p, i) && OccursAt(s, p, j) ==> i == j
    ensures Count(s, p) == 1
  {
    var rest, d := Rest(s, p), First(s, p) + |p|;
    forall i | 0 <= i <= |rest| ensures !OccursAt(rest, p, i) {
      OccursInRest(s, p, i + d);
    }
    CountIsZero(rest, p);
  }
}
