/** Generations (pkg/ai/family.go): version vectors are compared, and the newest id of a product line is picked.
    The choice uses nothing of an id but its line, so it is stated for any reading of ids into lines. */
module Generations {
  import opened Text
  import opened Wrappers

  datatype Line = Line(shape: string, vec: seq<nat>)

  type Reading = string -> Option<Line>

  // ---- comparing generations ----

  function At(v: seq<nat>, i: nat): nat { if i < |v| then v[i] else 0 }

  function Rest(v: seq<nat>): seq<nat> { if |v| == 0 then [] else v[1..] }

  /** -1, 0 or 1: element-wise from the left, a missing element counting as 0. */
  function Compare(a: seq<nat>, b: seq<nat>): int
    decreases |a| + |b|
  {
    if |a| == 0 && |b| == 0 then 0
    else if At(a, 0) < At(b, 0) then -1
    else if At(a, 0) > At(b, 0) then 1
    else Compare(Rest(a), Rest(b))
  }

  function From(v: seq<nat>, i: nat): seq<nat> { if i <= |v| then v[i..] else [] }

  method CompareGenerations(a: seq<nat>, b: seq<nat>) returns (c: int)
    ensures c == Compare(a, b)
  {
    var n := if |a| > |b| then |a| else |b|;
    for i := 0 to n
      invariant Compare(a, b) == Compare(From(a, i), From(b, i))
    {
      var x, y := At(a, i), At(b, i);
      assert x == At(From(a, i), 0) && y == At(From(b, i), 0);
      assert Rest(From(a, i)) == From(a, i + 1) && Rest(From(b, i)) == From(b, i + 1);
      if x < y {
        return -1;
      }
      if x > y {
        return 1;
      }
    }
    c := 0;
  }

  function Pad(v: seq<nat>, n: nat): seq<nat> {
    seq(n, i requires 0 <= i => At(v, i))
  }

  /** The lexicographic order on vectors of one length, by its definition. */
  ghost predicate LexLess(a: seq<nat>, b: seq<nat>)
    requires |a| == |b|
  {
    exists k :: 0 <= k < |a| && a[..k] == b[..k] && a[k] < b[k]
  }

  lemma LexHead(p: seq<nat>, q: seq<nat>)
    requires |p| == |q| > 0 && p[0] < q[0]
    ensures LexLess(p, q) && !LexLess(q, p) && p != q
  {
    assert p[..0] == q[..0];
    forall k | 0 < k < |p| ensures q[..k] != p[..k] {
      assert p[..k][0] != q[..k][0];
    }
  }

  lemma LexSame(p: seq<nat>, q: seq<nat>)
    requires |p| == |q| > 0 && p[0] == q[0]
    ensures p == q <==> p[1..] == q[1..]
  {
    assert p == [p[0]] + p[1..] && q == [q[0]] + q[1..];
  }

  lemma PadParts(v: seq<nat>, n: nat)
    requires n > 0
    ensures Pad(v, n)[0] == At(v, 0) && Pad(v, n)[1..] == Pad(Rest(v), n - 1)
  {
  }

  lemma {:induction false} CompareIsLexicographic(a: seq<nat>, b: seq<nat>, n: nat)
    requires n >= |a| && n >= |b|
    ensures Compare(a, b) == if LexLess(Pad(a, n), Pad(b, n)) then -1 else if Pad(a, n) == Pad(b, n) then 0 else 1
    ensures Compare(a, b) == 1 <==> LexLess(Pad(b, n), Pad(a, n))
  {
    var p, q := Pad(a, n), Pad(b, n);
    if |a| == 0 && |b| == 0 {
      assert p == q;
    } else {
      PadParts(a, n);
      PadParts(b, n);
      if p[0] < q[0] {
        LexHead(p, q);
      } else if p[0] > q[0] {
        LexHead(q, p);
      } else {
        CompareIsLexicographic(Rest(a), Rest(b), n - 1);
        LexTail(p, q);
        LexTail(q, p);
        LexSame(p, q);
      }
    }
  }

  lemma LexTail(p: seq<nat>, q: seq<nat>)
    requires |p| == |q| > 0 && p[0] == q[0]
    ensures LexLess(p, q) <==> LexLess(p[1..], q[1..])
  {
    if LexLess(p, q) {
      var k :| 0 <= k < |p| && p[..k] == q[..k] && p[k] < q[k];
      assert k > 0;
      assert p[1..][..k - 1] == p[..k][1..] && q[1..][..k - 1] == q[..k][1..];
      assert p[1..][k - 1] < q[1..][k - 1];
    }
    if LexLess(p[1..], q[1..]) {
      var k :| 0 <= k < |p[1..]| && p[1..][..k] == q[1..][..k] && p[1..][k] < q[1..][k];
      assert p[..k + 1] == [p[0]] + p[1..][..k] && q[..k + 1] == [q[0]] + q[1..][..k];
      assert p[k + 1] < q[k + 1];
    }
  }

  lemma {:induction false} CompareAntisymmetric(a: seq<nat>, b: seq<nat>)
    ensures Compare(a, b) == -Compare(b, a)
    decreases |a| + |b|
  {
    if (|a| > 0 || |b| > 0) && At(a, 0) == At(b, 0) {
      CompareAntisymmetric(Rest(a), Rest(b));
    }
  }

  /** A total preorder: `<=` is transitive, and strictly so when either step is strict. */
  lemma {:induction false} CompareTransitive(a: seq<nat>, b: seq<nat>, c: seq<nat>)
    requires Compare(a, b) <= 0 && Compare(b, c) <= 0
    ensures Compare(a, c) <= 0
    ensures Compare(a, c) == 0 ==> Compare(a, b) == 0 && Compare(b, c) == 0
    decreases |a| + |b| + |c|
  {
    if (|a| > 0 || |b| > 0 || |c| > 0) && At(a, 0) == At(b, 0) == At(c, 0) {
      assert |a| == |b| == 0 ==> Compare(Rest(a), Rest(b)) == 0;
      assert |b| == |c| == 0 ==> Compare(Rest(b), Rest(c)) == 0;
      CompareTransitive(Rest(a), Rest(b), Rest(c));
    }
  }

  // ---- the newest of a line ----

  /** One step of the scan in NewestInProductLine. */
  function Better(read: Reading, anchor: string, line: Line, bestID: string, id: string): string {
    if read(id).Some? && read(id).value.shape == line.shape && read(bestID).Some? &&
       (var c := Compare(read(id).value.vec, read(bestID).value.vec);
        c > 0 || (c == 0 && bestID != anchor && Less(id, bestID)))
    then id else bestID
  }

  function Best(read: Reading, anchor: string, line: Line, candidates: seq<string>): string {
    if |candidates| == 0 then anchor
    else Better(read, anchor, line, Best(read, anchor, line, candidates[..|candidates| - 1]), candidates[|candidates| - 1])
  }

  function Newest(read: Reading, anchor: string, candidates: seq<string>): string {
    if read(anchor).None? then anchor else Best(read, anchor, read(anchor).value, candidates)
  }

  lemma {:induction false} BestStaysInLine(read: Reading, anchor: string, candidates: seq<string>)
    requires read(anchor).Some?
    ensures var r := Best(read, anchor, read(anchor).value, candidates);
            read(r).Some? && read(r).value.shape == read(anchor).value.shape
  {
    if |candidates| > 0 {
      BestStaysInLine(read, anchor, candidates[..|candidates| - 1]);
    }
  }

  /** Both ids are readable and have one shape. */
  ghost predicate InLine(read: Reading, a: string, b: string) {
    read(a).Some? && read(b).Some? && read(a).value.shape == read(b).value.shape
  }

  ghost function Age(read: Reading, a: string, b: string): int
    requires InLine(read, a, b)
  {
    Compare(read(a).value.vec, read(b).value.vec)
  }

  /** What the doc comment promises, with no scan: the anchor unless a candidate of its line is strictly
      newer, and then the smallest id among the candidates of the greatest generation. */
  ghost predicate IsNewest(read: Reading, anchor: string, candidates: set<string>, r: string) {
    if r == anchor then
      forall c | c in candidates && InLine(read, c, anchor) :: Age(read, c, anchor) <= 0
    else
      && r in candidates && InLine(read, r, anchor) && Age(read, r, anchor) > 0
      && (forall c | c in candidates && InLine(read, c, r) :: Age(read, c, r) <= 0)
      && (forall c | c in candidates && InLine(read, c, r) && Age(read, c, r) == 0 :: c == r || Less(r, c))
  }

  ghost function Members(candidates: seq<string>): set<string> {
    set c | c in candidates
  }

  lemma MembersSnoc(front: seq<string>, id: string)
    ensures Members(front + [id]) == Members(front) + {id}
  {
  }

  lemma {:induction false} BestIsRight(read: Reading, anchor: string, line: Line, candidates: seq<string>)
    requires read(anchor) == Some(line)
    ensures IsNewest(read, anchor, Members(candidates), Best(read, anchor, line, candidates))
  {
    if |candidates| > 0 {
      var front, id := candidates[..|candidates| - 1], candidates[|candidates| - 1];
      BestIsRight(read, anchor, line, front);
      BestStaysInLine(read, anchor, front);
      NewestStep(read, anchor, line, Members(front), Best(read, anchor, line, front), id);
      MembersSnoc(front, id);
      assert front + [id] == candidates;
    }
  }

  lemma NewestIsRight(read: Reading, anchor: string, candidates: seq<string>)
    ensures IsNewest(read, anchor, Members(candidates), Newest(read, anchor, candidates))
  {
    if read(anchor).Some? {
      BestIsRight(read, anchor, read(anchor).value, candidates);
    }
  }

  lemma NewestStep(read: Reading, anchor: string, line: Line, seen: set<string>, bestID: string, id: string)
    requires read(anchor) == Some(line) && InLine(read, bestID, anchor) && IsNewest(read, anchor, seen, bestID)
    ensures IsNewest(read, anchor, seen + {id}, Better(read, anchor, line, bestID, id))
  {
    var r := Better(read, anchor, line, bestID, id);
    if InLine(read, id, anchor) {
      var vb, vi, va := read(bestID).value.vec, read(id).value.vec, read(anchor).value.vec;
      CompareAntisymmetric(vi, vb);
      CompareAntisymmetric(vi, vi);
      CompareAntisymmetric(va, vb);
      CompareAntisymmetric(va, vi);
      if r == id != bestID {
        NewestUpwards(read, seen, bestID, id);
        if bestID != anchor {
          CompareTransitive(va, vb, vi);
        }
        forall c | c in seen && InLine(read, c, id) && Age(read, c, id) == 0 ensures c == id || Less(id, c) {
          NewestTie(read, seen, bestID, id, c);
          if c != bestID {
            LessTransitive(id, bestID, c);
          }
        }
      } else {
        LessTotal(id, bestID);
        assert Age(read, id, bestID) <= 0;
      }
    }
  }

  lemma NewestUpwards(read: Reading, seen: set<string>, best: string, id: string)
    requires InLine(read, best, id) && Age(read, best, id) <= 0
    requires forall c | c in seen && InLine(read, c, best) :: Age(read, c, best) <= 0
    ensures forall c | c in seen && InLine(read, c, id) :: Age(read, c, id) <= 0
  {
    forall c | c in seen && InLine(read, c, id) ensures Age(read, c, id) <= 0 {
      CompareTransitive(read(c).value.vec, read(best).value.vec, read(id).value.vec);
    }
  }

  lemma NewestTie(read: Reading, seen: set<string>, best: string, id: string, c: string)
    requires InLine(read, best, id) && Age(read, best, id) <= 0
    requires forall d | d in seen && InLine(read, d, best) :: Age(read, d, best) <= 0
    requires c in seen && InLine(read, c, id) && Age(read, c, id) == 0
    ensures InLine(read, c, best) && Age(read, best, id) == 0 && Age(read, c, best) == 0
  {
    CompareTransitive(read(c).value.vec, read(best).value.vec, read(id).value.vec);
  }

  lemma NewestUnique(read: Reading, anchor: string, candidates: set<string>, r: string, s: string)
    requires IsNewest(read, anchor, candidates, r) && IsNewest(read, anchor, candidates, s)
    ensures r == s
  {
    if r != anchor && s != anchor {
      CompareAntisymmetric(read(r).value.vec, read(s).value.vec);
      assert Age(read, s, r) == 0 && Age(read, r, s) == 0;
      if r != s {
        LessAsymmetric(r, s);
      }
    }
  }

  /** The order and the repetition of candidates do not matter. */
  lemma NewestIgnoresOrder(read: Reading, anchor: string, c: seq<string>, d: seq<string>)
    requires Members(c) == Members(d)
    ensures Newest(read, anchor, c) == Newest(read, anchor, d)
  {
    NewestIsRight(read, anchor, c);
    NewestIsRight(read, anchor, d);
    NewestUnique(read, anchor, Members(c), Newest(read, anchor, c), Newest(read, anchor, d));
  }

  lemma NewestIdempotent(read: Reading, anchor: string, candidates: seq<string>)
    ensures Newest(read, Newest(read, anchor, candidates), candidates) == Newest(read, anchor, candidates)
  {
    var r := Newest(read, anchor, candidates);
    NewestIsRight(read, anchor, candidates);
    NewestIsRight(read, r, candidates);
    NewestUnique(read, r, Members(candidates), Newest(read, r, candidates), r);
  }

  /** More candidates never move the default to an older generation, nor off its line. */
  lemma NewestMonotone(read: Reading, anchor: string, c: seq<string>, d: seq<string>)
    requires Members(c) <= Members(d) && read(anchor).Some?
    ensures InLine(read, Newest(read, anchor, d), Newest(read, anchor, c)) && Age(read, Newest(read, anchor, d), Newest(read, anchor, c)) >= 0
  {
    var r, s := Newest(read, anchor, c), Newest(read, anchor, d);
    NewestIsRight(read, anchor, c);
    NewestIsRight(read, anchor, d);
    BestStaysInLine(read, anchor, c);
    BestStaysInLine(read, anchor, d);
    CompareAntisymmetric(read(r).value.vec, read(s).value.vec);
    CompareAntisymmetric(read(r).value.vec, read(r).value.vec);
  }
}
