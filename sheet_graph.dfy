/** Facts about the dependency graph: the updates that keep the two
    back-reference sets in agreement, and walks along references, which the
    cycle check searches. */
module SheetGraph {
  import opened Cells
  import opened SheetSpec

  /** Recording a reference on both sides keeps the sets in agreement. */
  lemma WithEdgeConsistent(cs: seq<CellState>, j: int, i: int)
    requires 0 <= i < |cs| && 0 <= j < |cs| && Consistent(cs)
    ensures Consistent(WithEdge(cs, j, i))
  {
    var r := WithEdge(cs, j, i);
    forall a, b | 0 <= a < |r| && 0 <= b < |r| ensures b in r[a].iDependOn <==> a in r[b].dependOnMe {
      assert b in cs[a].iDependOn <==> a in cs[b].dependOnMe;
    }
  }

  /** `ClearDepended` keeps the sets in agreement: the cell forgets its
      references, and each cell it referenced forgets it. */
  lemma ClearedConsistent(cs: seq<CellState>, i: int)
    requires 0 <= i < |cs| && Consistent(cs)
    ensures Consistent(Cleared(cs, i))
  {
    var r := Cleared(cs, i);
    forall a, b | 0 <= a < |r| && 0 <= b < |r| ensures b in r[a].iDependOn <==> a in r[b].dependOnMe {
      assert b in cs[a].iDependOn <==> a in cs[b].dependOnMe;
      if a == i {
        assert i in cs[b].dependOnMe ==> b in cs[i].iDependOn;
      }
    }
  }

  lemma ClearedWf(cfg: Config, cs: seq<CellState>, i: int)
    requires Wf(cfg, cs) && 0 <= i < |cs|
    ensures Wf(cfg, Cleared(cs, i))
  {
    var r := Cleared(cs, i);
    forall k | 0 <= k < |r| ensures InSheet(r, r[k].dependOnMe) && InSheet(r, r[k].iDependOn) {
      assert InSheet(cs, cs[k].dependOnMe) && InSheet(cs, cs[k].iDependOn);
    }
  }

  /** After `ClearDepended` on cell `i`, in a sheet whose sets agree, no
      cell lists `i` as a dependent and `i` references nothing; every other
      entry of every set is as before. */
  lemma ClearedDetaches(cs: seq<CellState>, i: int)
    requires 0 <= i < |cs| && Consistent(cs)
    ensures |Cleared(cs, i)| == |cs|
    ensures Cleared(cs, i)[i].iDependOn == {}
    ensures forall k :: 0 <= k < |cs| ==> i !in Cleared(cs, i)[k].dependOnMe
    ensures forall k, x :: 0 <= k < |cs| && x != i ==>
      (x in Cleared(cs, i)[k].dependOnMe <==> x in cs[k].dependOnMe)
    ensures forall k :: 0 <= k < |cs| && k != i ==> Cleared(cs, i)[k].iDependOn == cs[k].iDependOn
    ensures forall k :: 0 <= k < |cs| ==>
      Cleared(cs, i)[k].text == cs[k].text && Cleared(cs, i)[k].value == cs[k].value
      && Cleared(cs, i)[k].bgColor == cs[k].bgColor
  {
    var r := Cleared(cs, i);
    forall k | 0 <= k < |cs| ensures i !in r[k].dependOnMe {
      assert i in cs[k].dependOnMe ==> k in cs[i].iDependOn;
    }
  }

  lemma WithValueConsistent(cs: seq<CellState>, i: int, v: string)
    requires 0 <= i < |cs| && Consistent(cs)
    ensures Consistent(WithValue(cs, i, v))
  {
    var r := WithValue(cs, i, v);
    forall a, b | 0 <= a < |r| && 0 <= b < |r| ensures b in r[a].iDependOn <==> a in r[b].dependOnMe {
      assert b in cs[a].iDependOn <==> a in cs[b].dependOnMe;
    }
  }

  lemma WithTextConsistent(cs: seq<CellState>, i: int, v: string)
    requires 0 <= i < |cs| && Consistent(cs)
    ensures Consistent(WithText(cs, i, v))
  {
    var r := WithText(cs, i, v);
    forall a, b | 0 <= a < |r| && 0 <= b < |r| ensures b in r[a].iDependOn <==> a in r[b].dependOnMe {
      assert b in cs[a].iDependOn <==> a in cs[b].dependOnMe;
    }
  }

  lemma WithColorConsistent(cs: seq<CellState>, i: int, c: Color)
    requires 0 <= i < |cs| && Consistent(cs)
    ensures Consistent(WithColor(cs, i, c))
  {
    var r := WithColor(cs, i, c);
    forall a, b | 0 <= a < |r| && 0 <= b < |r| ensures b in r[a].iDependOn <==> a in r[b].dependOnMe {
      assert b in cs[a].iDependOn <==> a in cs[b].dependOnMe;
    }
  }

  // ---------------------------------------------------------------------
  // Walks along references

  /** Every cell reaches itself, by the walk of length one. */
  lemma ReachesSelf(cs: seq<CellState>, a: int)
    requires 0 <= a < |cs|
    ensures Reaches(cs, a, a)
  {
    assert IsPath(cs, [a]);
  }

  /** A reference followed by a walk is a walk. */
  lemma ReachesStep(cs: seq<CellState>, a: int, d: int, b: int)
    requires 0 <= a < |cs| && d in cs[a].iDependOn && Reaches(cs, d, b)
    ensures Reaches(cs, a, b)
  {
    var p :| IsPath(cs, p) && p[0] == d && p[|p| - 1] == b;
    var q := [a] + p;
    forall k | 0 < k < |q| ensures q[k] in cs[q[k - 1]].iDependOn {
      if k > 1 {
        assert q[k] == p[k - 1] && q[k - 1] == p[k - 2];
      }
    }
    assert IsPath(cs, q) && q[0] == a && q[|q| - 1] == b;
  }

  /** The positions of a sheet of `n` cells. */
  function Below(n: nat): (r: set<int>)
    ensures forall k :: k in r <==> 0 <= k < n
  {
    if n == 0 then {} else Below(n - 1) + {n - 1}
  }

  /** The cells of `s` reference only cells of `t`. */
  ghost predicate ClosedUnder(cs: seq<CellState>, s: set<int>, t: set<int>) {
    forall n :: n in s && 0 <= n < |cs| ==> cs[n].iDependOn <= t
  }

  /** Closure survives the growth of the visited set: what a nested
      search visited is closed, and so is what was visited before it. */
  lemma ClosedGrow(cs: seq<CellState>, s: set<int>, before: set<int>, after: set<int>)
    requires before <= after
    requires ClosedUnder(cs, s, before) && ClosedUnder(cs, after - before, after)
    ensures ClosedUnder(cs, s + (after - before), after)
  {
  }

  /** A cell whose references have all been visited closes its search. */
  lemma ClosedAdd(cs: seq<CellState>, s: set<int>, t: set<int>, c: int)
    requires 0 <= c < |cs| && ClosedUnder(cs, s, t) && cs[c].iDependOn <= t
    ensures ClosedUnder(cs, s + {c}, t)
  {
  }

  /** A walk that starts in a set of cells that reference only each
      other stays in it. */
  lemma {:induction false} PathStays(cs: seq<CellState>, s: set<int>, p: seq<int>, k: int)
    requires IsPath(cs, p) && p[0] in s && ClosedUnder(cs, s, s) && 0 <= k < |p|
    ensures p[k] in s
    decreases k
  {
    if k > 0 {
      PathStays(cs, s, p, k - 1);
    }
  }

  /** A walk never leaves a set of cells that reference only each other. */
  lemma NoEscape(cs: seq<CellState>, s: set<int>, a: int, b: int)
    requires ClosedUnder(cs, s, s) && a in s && b !in s
    ensures !Reaches(cs, a, b)
  {
    forall p | IsPath(cs, p) && p[0] == a ensures p[|p| - 1] != b {
      PathStays(cs, s, p, |p| - 1);
    }
  }

  /** A walk back to `i` from a cell `i` references closes a cycle. */
  lemma CycleFound(cs: seq<CellState>, i: int, d: int)
    requires 0 <= i < |cs| && d in cs[i].iDependOn && Reaches(cs, d, i)
    ensures InCycle(cs, i)
  {
  }

  /** Two sets of cells that each reference only their own members form
      one. */
  lemma ClosedUnion(cs: seq<CellState>, a: set<int>, b: set<int>)
    requires ClosedUnder(cs, a, a) && ClosedUnder(cs, b - {}, b)
    ensures ClosedUnder(cs, a + b, a + b)
  {
    assert b - {} == b;
  }

  /** Every cell `i` references lies in a set of cells that reference only
      each other and does not hold `i`: no cycle. */
  lemma NoCycle(cs: seq<CellState>, i: int, ds: seq<int>, closed: set<int>)
    requires 0 <= i < |cs| && ds == Ascending(cs[i].iDependOn, |cs|)
    requires forall k :: k in cs[i].iDependOn ==> 0 <= k < |cs|
    requires ClosedUnder(cs, closed, closed) && i !in closed
    requires forall m :: 0 <= m < |ds| ==> ds[m] in closed
    ensures !InCycle(cs, i)
  {
    forall d | d in cs[i].iDependOn ensures !Reaches(cs, d, i) {
      assert d in ds;
      var m :| 0 <= m < |ds| && ds[m] == d;
      NoEscape(cs, closed, d, i);
    }
  }
}
