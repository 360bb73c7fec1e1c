/** Selection of the certified candidates that no other certified candidate dominates. */
module Pareto {
  import opened Common
  import opened Sorting

  /** An objective that is missing or null is not in the map. */
  datatype Row = Row(id: string, certified: bool, values: map<string, real>)

  datatype Objectives = Objectives(maximize: seq<string>, minimize: seq<string>)

  // Dominance

  ghost predicate Comparable(a: Row, b: Row, o: Objectives) {
    forall k | k in o.maximize :: k in a.values && k in b.values
  }

  /** A missing minimised objective is skipped. */
  ghost predicate NoWorse(a: Row, b: Row, o: Objectives)
    requires Comparable(a, b, o)
  {
    && (forall k | k in o.maximize :: a.values[k] >= b.values[k])
    && (forall k | k in o.minimize && k in a.values && k in b.values :: a.values[k] <= b.values[k])
  }

  ghost predicate SomewhereBetter(a: Row, b: Row, o: Objectives)
    requires Comparable(a, b, o)
  {
    || (exists k :: k in o.maximize && a.values[k] > b.values[k])
    || (exists k :: k in o.minimize && k in a.values && k in b.values && a.values[k] < b.values[k])
  }

  ghost predicate Dominates(a: Row, b: Row, o: Objectives) {
    Comparable(a, b, o) && NoWorse(a, b, o) && SomewhereBetter(a, b, o)
  }

  method IsDominating(a: Row, b: Row, o: Objectives) returns (r: bool)
    ensures r <==> Dominates(a, b, o)
  {
    var noWorse, better := true, false;
    for i := 0 to |o.maximize|
      invariant forall j | 0 <= j < i :: o.maximize[j] in a.values && o.maximize[j] in b.values
      invariant noWorse <==> forall j | 0 <= j < i :: a.values[o.maximize[j]] >= b.values[o.maximize[j]]
      invariant better <==> exists j | 0 <= j < i :: a.values[o.maximize[j]] > b.values[o.maximize[j]]
    {
      var key := o.maximize[i];
      if key !in a.values || key !in b.values {
        return false;
      }
      if a.values[key] < b.values[key] {
        noWorse := false;
      }
      if a.values[key] > b.values[key] {
        better := true;
      }
    }
    ghost var noWorseSoFar, betterSoFar := noWorse, better;
    for i := 0 to |o.minimize|
      invariant noWorse <==> noWorseSoFar && forall j | 0 <= j < i && Shared(a, b, o.minimize[j]) ::
                  a.values[o.minimize[j]] <= b.values[o.minimize[j]]
      invariant better <==> betterSoFar || exists j | 0 <= j < i && Shared(a, b, o.minimize[j]) ::
                  a.values[o.minimize[j]] < b.values[o.minimize[j]]
    {
      var key := o.minimize[i];
      if key in a.values && key in b.values {
        if a.values[key] > b.values[key] {
          noWorse := false;
        }
        if a.values[key] < b.values[key] {
          better := true;
        }
      }
    }
    return noWorse && better;
  }

  predicate Shared(a: Row, b: Row, key: string) {
    key in a.values && key in b.values
  }

  lemma DominanceIrreflexive(a: Row, o: Objectives)
    ensures !Dominates(a, a, o)
  {
  }

  ghost predicate MinimisedPresent(r: Row, o: Objectives) {
    forall k | k in o.minimize :: k in r.values
  }

  /** With every minimised objective present, dominance is transitive. */
  lemma DominanceTransitive(a: Row, b: Row, c: Row, o: Objectives)
    requires MinimisedPresent(a, o) && MinimisedPresent(b, o) && MinimisedPresent(c, o)
    requires Dominates(a, b, o) && Dominates(b, c, o)
    ensures Dominates(a, c, o)
  {
    assert forall k | k in o.maximize :: a.values[k] >= b.values[k] >= c.values[k];
    assert forall k | k in o.minimize :: a.values[k] <= b.values[k] <= c.values[k];
    if k :| k in o.maximize && a.values[k] > b.values[k] {
      assert a.values[k] > c.values[k];
    } else {
      var k :| k in o.minimize && a.values[k] < b.values[k];
      assert a.values[k] < c.values[k];
    }
  }

  // Selection

  ghost predicate Undominated(r: Row, all: seq<Row>, o: Objectives) {
    forall x | x in all && x.certified :: !Dominates(x, r, o)
  }

  ghost predicate OnFrontier(r: Row, all: seq<Row>, o: Objectives) {
    r.certified && Undominated(r, all, o)
  }

  /** The rows of `s` on the frontier of `all`, in the order of `s`. */
  ghost function Pick(s: seq<Row>, all: seq<Row>, o: Objectives): seq<Row> {
    if s == [] then []
    else Pick(s[..|s| - 1], all, o) + if OnFrontier(s[|s| - 1], all, o) then [s[|s| - 1]] else []
  }

  ghost function Selected(rows: seq<Row>, o: Objectives): seq<Row> {
    Sort(Pick(rows, rows, o), IdLeq)
  }

  predicate TextLeq(a: string, b: string) {
    if a == [] then true
    else if b == [] then false
    else if a[0] != b[0] then a[0] < b[0]
    else TextLeq(a[1..], b[1..])
  }

  function IdLeq(a: Row, b: Row): bool {
    TextLeq(a.id, b.id)
  }

  method ParetoSelect(candidates: seq<Row>, o: Objectives) returns (frontier: seq<Row>)
    ensures frontier == Selected(candidates, o)
  {
    hide Pick;
    var feasible := CertifiedRows(candidates);
    var picked := PickUndominated(feasible, o);
    FeasibleSuffices(candidates, candidates, o);
    frontier := Sort(picked, IdLeq);
  }

  method CertifiedRows(candidates: seq<Row>) returns (feasible: seq<Row>)
    ensures feasible == Certified(candidates)
    ensures forall r | r in feasible :: r.certified
  {
    feasible := [];
    for i := 0 to |candidates|
      invariant feasible == Certified(candidates[..i])
      invariant forall r | r in feasible :: r.certified
    {
      assert candidates[..i + 1][..i] == candidates[..i];
      if candidates[i].certified {
        feasible := feasible + [candidates[i]];
      }
    }
    assert candidates[..|candidates|] == candidates;
  }

  method PickUndominated(feasible: seq<Row>, o: Objectives) returns (picked: seq<Row>)
    requires forall r | r in feasible :: r.certified
    ensures picked == Pick(feasible, feasible, o)
  {
    hide Undominated;
    picked := [];
    for i := 0 to |feasible|
      invariant picked == Pick(feasible[..i], feasible, o)
    {
      assert feasible[..i + 1][..i] == feasible[..i];
      var dominated := IsDominated(feasible, i, o);
      if !dominated {
        picked := picked + [feasible[i]];
      }
    }
    assert feasible[..|feasible|] == feasible;
  }

  /** Is row `i` dominated by another one? It never dominates itself, so skipping it is sound. */
  method IsDominated(feasible: seq<Row>, i: nat, o: Objectives) returns (dominated: bool)
    requires i < |feasible| && forall r | r in feasible :: r.certified
    ensures dominated <==> !Undominated(feasible[i], feasible, o)
  {
    dominated := false;
    for j := 0 to |feasible|
      invariant !dominated && forall m | 0 <= m < j :: !Dominates(feasible[m], feasible[i], o)
    {
      if j == i {
        DominanceIrreflexive(feasible[i], o);
        continue;
      }
      var d := IsDominating(feasible[j], feasible[i], o);
      if d {
        assert feasible[j] in feasible;
        return true;
      }
    }
  }

  function Certified(s: seq<Row>): seq<Row> {
    if s == [] then [] else Certified(s[..|s| - 1]) + if s[|s| - 1].certified then [s[|s| - 1]] else []
  }

  lemma {:induction false} CertifiedOnly(s: seq<Row>, r: Row)
    ensures r in Certified(s) <==> r in s && r.certified
  {
    if s != [] {
      CertifiedOnly(s[..|s| - 1], r);
      assert s == s[..|s| - 1] + [s[|s| - 1]];
    }
  }

  lemma SameFrontier(r: Row, a: seq<Row>, b: seq<Row>, o: Objectives)
    requires forall x: Row | x.certified :: x in a <==> x in b
    ensures OnFrontier(r, a, o) <==> OnFrontier(r, b, o)
  {
  }

  lemma PickAppend(s: seq<Row>, r: Row, all: seq<Row>, o: Objectives)
    ensures Pick(s + [r], all, o) == Pick(s, all, o) + if OnFrontier(r, all, o) then [r] else []
  {
    assert (s + [r])[..|s|] == s;
  }

  lemma {:induction false} FeasibleSuffices(s: seq<Row>, all: seq<Row>, o: Objectives)
    ensures Pick(Certified(s), Certified(all), o) == Pick(s, all, o)
  {
    if s != [] {
      var before, r := s[..|s| - 1], s[|s| - 1];
      FeasibleSuffices(before, all, o);
      forall x: Row | x.certified ensures x in Certified(all) <==> x in all {
        CertifiedOnly(all, x);
      }
      SameFrontier(r, Certified(all), all, o);
      if r.certified {
        PickAppend(Certified(before), r, Certified(all), o);
      } else {
        assert Certified(s) == Certified(before);
      }
    }
  }

  // Sorting by id

  lemma {:induction false} TextLeqTotal(a: string, b: string)
    ensures TextLeq(a, b) || TextLeq(b, a)
    ensures TextLeq(a, b) && TextLeq(b, a) ==> a == b
  {
    if a != [] && b != [] && a[0] == b[0] {
      TextLeqTotal(a[1..], b[1..]);
      assert a == [a[0]] + a[1..] && b == [b[0]] + b[1..];
    }
  }

  lemma {:induction false} TextLeqTransitive(a: string, b: string, c: string)
    requires TextLeq(a, b) && TextLeq(b, c)
    ensures TextLeq(a, c)
  {
    if a != [] && b != [] && c != [] && a[0] == b[0] == c[0] {
      TextLeqTransitive(a[1..], b[1..], c[1..]);
    }
  }

  /** Alphabetical order: a prefix, or the smaller character at the first difference. */
  ghost predicate Alphabetical(a: string, b: string) {
    a <= b || exists k | 0 <= k < |a| && k < |b| :: a[..k] == b[..k] && a[k] < b[k]
  }

  lemma {:induction false} TextLeqIsAlphabetical(a: string, b: string)
    ensures TextLeq(a, b) <==> Alphabetical(a, b)
  {
    if a != [] && b != [] {
      if a[0] == b[0] {
        TextLeqIsAlphabetical(a[1..], b[1..]);
        if a[1..] <= b[1..] {
          assert a == [a[0]] + a[1..] && b == [a[0]] + b[1..];
        }
        if a <= b {
          assert a[1..] <= b[1..];
        }
        if k :| 0 <= k < |a[1..]| && k < |b[1..]| && a[1..][..k] == b[1..][..k] && a[1..][k] < b[1..][k] {
          assert a[..k + 1] == [a[0]] + a[1..][..k] && b[..k + 1] == [a[0]] + b[1..][..k];
          assert a[k + 1] < b[k + 1];
        }
        if k :| 0 <= k < |a| && k < |b| && a[..k] == b[..k] && a[k] < b[k] {
          assert k > 0 && a[1..][..k - 1] == a[..k][1..] && b[1..][..k - 1] == b[..k][1..];
          assert a[1..][k - 1] < b[1..][k - 1];
        }
      } else {
        assert a[..0] == b[..0];
        if k :| 0 <= k < |a| && k < |b| && a[..k] == b[..k] && a[k] < b[k] {
          assert k > 0 ==> a[..k][0] == b[..k][0];
        }
      }
    }
  }

  lemma IdLeqIsPreorder()
    ensures TotalPreorder(IdLeq)
  {
    forall x: Row, y: Row ensures IdLeq(x, y) || IdLeq(y, x) {
      TextLeqTotal(x.id, y.id);
    }
    forall x: Row, y: Row, z: Row | IdLeq(x, y) && IdLeq(y, z) ensures IdLeq(x, z) {
      TextLeqTransitive(x.id, y.id, z.id);
    }
  }

  lemma {:induction false} SortOfSorted(s: seq<Row>)
    requires SortedBy(s, IdLeq)
    ensures Sort(s, IdLeq) == s
  {
    if s != [] {
      SortOfSorted(s[1..]);
      assert |s| > 1 ==> IdLeq(s[0], s[1]);
    }
  }

  lemma {:induction false} PickMembers(s: seq<Row>, all: seq<Row>, o: Objectives, r: Row)
    ensures r in Pick(s, all, o) <==> r in s && OnFrontier(r, all, o)
  {
    if s != [] {
      PickMembers(s[..|s| - 1], all, o, r);
      assert s == s[..|s| - 1] + [s[|s| - 1]];
    }
  }

  // Properties of the selection

  /** The selection holds exactly the certified rows that no certified row dominates, sorted. */
  lemma SelectedExactly(rows: seq<Row>, o: Objectives, r: Row)
    ensures r in Selected(rows, o) <==> r in rows && OnFrontier(r, rows, o)
    ensures SortedBy(Selected(rows, o), IdLeq)
    ensures forall i, j | 0 <= i < j < |Selected(rows, o)| :: Alphabetical(Selected(rows, o)[i].id, Selected(rows, o)[j].id)
  {
    hide Alphabetical;
    IdLeqIsPreorder();
    var picked := Pick(rows, rows, o);
    SortSorts(picked, IdLeq);
    PickMembers(rows, rows, o, r);
    forall i, j | 0 <= i < j < |Selected(rows, o)|
      ensures Alphabetical(Selected(rows, o)[i].id, Selected(rows, o)[j].id)
    {
      assert IdLeq(Selected(rows, o)[i], Selected(rows, o)[j]);
      TextLeqIsAlphabetical(Selected(rows, o)[i].id, Selected(rows, o)[j].id);
    }
    assert r in Selected(rows, o) <==> r in multiset(Selected(rows, o));
    assert r in picked <==> r in multiset(picked);
  }

  lemma SelectedDoNotDominate(rows: seq<Row>, o: Objectives, a: Row, b: Row)
    requires a in Selected(rows, o) && b in Selected(rows, o)
    ensures !Dominates(a, b, o)
  {
    SelectedExactly(rows, o, a);
    SelectedExactly(rows, o, b);
  }

  ghost function Dominators(rows: seq<Row>, r: Row, o: Objectives): set<Row> {
    set x | x in rows && x.certified && Dominates(x, r, o)
  }

  ghost predicate TransitiveOn(rows: seq<Row>, o: Objectives) {
    forall a, b, c | a in rows && b in rows && c in rows && a.certified && b.certified && c.certified
                     && Dominates(a, b, o) && Dominates(b, c, o) :: Dominates(a, c, o)
  }

  lemma {:induction false} TransitiveCovers(rows: seq<Row>, o: Objectives, r: Row) returns (d: Row)
    requires TransitiveOn(rows, o) && r in rows && r.certified
    ensures d in Selected(rows, o) && (d == r || Dominates(d, r, o))
    decreases |Dominators(rows, r, o)|
  {
    hide Dominates, TransitiveOn, Selected;
    SelectedExactly(rows, o, r);
    if Dominators(rows, r, o) == {} {
      assert Undominated(r, rows, o) by {
        forall x | x in rows && x.certified ensures !Dominates(x, r, o) {
          assert x !in Dominators(rows, r, o);
        }
      }
      d := r;
    } else {
      var x :| x in Dominators(rows, r, o);
      FewerDominators(rows, x, r, o);
      d := TransitiveCovers(rows, o, x);
      SelectedExactly(rows, o, d);
      if d != x {
        Through(rows, o, d, x, r);
      }
    }
  }

  lemma Through(rows: seq<Row>, o: Objectives, a: Row, b: Row, c: Row)
    requires TransitiveOn(rows, o) && a in rows && b in rows && c in rows && a.certified && b.certified && c.certified
    requires Dominates(a, b, o) && Dominates(b, c, o)
    ensures Dominates(a, c, o)
  {
  }

  lemma FewerDominators(rows: seq<Row>, x: Row, r: Row, o: Objectives)
    requires TransitiveOn(rows, o) && r in rows && r.certified && x in Dominators(rows, r, o)
    ensures |Dominators(rows, x, o)| < |Dominators(rows, r, o)|
  {
    hide Dominates, TransitiveOn;
    DominanceIrreflexive(x, o);
    forall y | y in Dominators(rows, x, o) ensures y in Dominators(rows, r, o) {
      Through(rows, o, y, x, r);
    }
    assert Dominators(rows, x, o) <= Dominators(rows, r, o) - {x};
    SubsetSize(Dominators(rows, x, o), Dominators(rows, r, o) - {x});
  }

  // When every certified row is covered

  /** Every certified row is selected or dominated by a selected one. */
  ghost predicate Covered(rows: seq<Row>, o: Objectives) {
    forall r | r in rows && r.certified :: exists d | d in Selected(rows, o) :: d == r || Dominates(d, r, o)
  }

  /** The rows differ in nothing but the values of the objectives they have. */
  ghost predicate SamePresence(rows: seq<Row>, other: seq<Row>) {
    && |other| == |rows|
    && forall p | 0 <= p < |rows| ::
         other[p].id == rows[p].id && other[p].certified == rows[p].certified
         && other[p].values.Keys == rows[p].values.Keys
  }

  /** The minimised objectives a row has, apart from those that are maximised as well. */
  ghost function Minimised(r: Row, o: Objectives): set<string> {
    set k | k in o.minimize && k !in o.maximize && k in r.values
  }

  /** Other rows are selected when certified, and dominate nothing. */
  ghost predicate Competes(r: Row, o: Objectives) {
    r.certified && forall k | k in o.maximize :: k in r.values
  }

  ghost predicate PurelyMaximised(o: Objectives) {
    exists q :: q in o.maximize && q !in o.minimize
  }

  /** A first row can beat a second and that a third only if the first then beats the third: the
      second has all that is common to the other two, and one of the two victories carries over.
      Without a purely maximised objective a victory needs a common minimised one. */
  ghost predicate Harmless(a: set<string>, b: set<string>, c: set<string>, pure: bool) {
    pure || (a * b != {} && b * c != {}) ==> a * c <= b && (a * b <= c || b * c <= a)
  }

  ghost predicate Distinct(rows: seq<Row>, o: Objectives, i: nat, j: nat, k: nat) {
    && i < |rows| && j < |rows| && k < |rows| && i != j && j != k && i != k
    && Competes(rows[i], o) && Competes(rows[j], o) && Competes(rows[k], o)
  }

  /** A condition on which objectives are present, not on their values. */
  ghost predicate Compatible(rows: seq<Row>, o: Objectives) {
    forall i: nat, j: nat, k: nat | Distinct(rows, o, i, j, k) ::
      Harmless(Minimised(rows[i], o), Minimised(rows[j], o), Minimised(rows[k], o), PurelyMaximised(o))
  }

  lemma PresentIsCompatible(rows: seq<Row>, o: Objectives)
    requires forall x | x in rows :: MinimisedPresent(x, o)
    ensures Compatible(rows, o)
  {
    forall i: nat, j: nat, k: nat | Distinct(rows, o, i, j, k)
      ensures Harmless(Minimised(rows[i], o), Minimised(rows[j], o), Minimised(rows[k], o), PurelyMaximised(o))
    {
      assert rows[i] in rows && rows[j] in rows && rows[k] in rows;
      assert Minimised(rows[i], o) == Minimised(rows[j], o);
      assert Minimised(rows[j], o) == Minimised(rows[k], o);
    }
  }

  lemma DominanceAsymmetric(a: Row, b: Row, o: Objectives)
    requires Dominates(a, b, o)
    ensures !Dominates(b, a, o)
  {
  }

  lemma BothCompete(a: Row, b: Row, o: Objectives)
    requires Dominates(a, b, o) && a.certified && b.certified
    ensures Competes(a, o) && Competes(b, o)
  {
  }

  /** Without a purely maximised objective, the victory is at a common minimised one. */
  lemma VictoryAt(a: Row, b: Row, o: Objectives)
    requires Dominates(a, b, o) && !PurelyMaximised(o)
    ensures Minimised(a, o) * Minimised(b, o) != {}
  {
    var k :| (k in o.minimize && k in a.values && k in b.values && a.values[k] < b.values[k])
             || (k in o.maximize && a.values[k] > b.values[k]);
    assert k in o.minimize && k !in o.maximize;
    assert k in Minimised(a, o) * Minimised(b, o);
  }

  lemma HarmlessIsTransitive(a: Row, b: Row, c: Row, o: Objectives)
    requires Dominates(a, b, o) && Dominates(b, c, o)
    requires Harmless(Minimised(a, o), Minimised(b, o), Minimised(c, o), PurelyMaximised(o))
    ensures Dominates(a, c, o)
  {
    var A, B, C := Minimised(a, o), Minimised(b, o), Minimised(c, o);
    if !PurelyMaximised(o) {
      VictoryAt(a, b, o);
      VictoryAt(b, c, o);
    }
    hide PurelyMaximised;
    forall k | k in o.minimize && k in a.values && k in c.values ensures k in b.values && a.values[k] <= c.values[k] {
      assert k !in o.maximize ==> k in A * C;
    }
    if k :| k in o.maximize && (a.values[k] > b.values[k] || b.values[k] > c.values[k]) {
      assert a.values[k] > c.values[k];
    } else {
      var k1 :| k1 in o.minimize && k1 in a.values && k1 in b.values && a.values[k1] < b.values[k1];
      var k2 :| k2 in o.minimize && k2 in b.values && k2 in c.values && b.values[k2] < c.values[k2];
      assert k1 in A * B && k2 in B * C;
      if A * B <= C {
        assert k1 in c.values && a.values[k1] < c.values[k1];
      } else {
        assert k2 in a.values && a.values[k2] < c.values[k2];
      }
    }
  }

  lemma CompatibleIsTransitive(rows: seq<Row>, o: Objectives)
    requires Compatible(rows, o)
    ensures TransitiveOn(rows, o)
  {
    hide Harmless, Minimised, PurelyMaximised, Dominates;
    forall a, b, c | a in rows && b in rows && c in rows && a.certified && b.certified && c.certified
                     && Dominates(a, b, o) && Dominates(b, c, o)
      ensures Dominates(a, c, o)
    {
      var i: nat, j: nat, k: nat :| i < |rows| && j < |rows| && k < |rows| && rows[i] == a && rows[j] == b && rows[k] == c;
      DominanceIrreflexive(a, o);
      DominanceIrreflexive(b, o);
      DominanceAsymmetric(a, b, o);
      BothCompete(a, b, o);
      BothCompete(b, c, o);
      assert Distinct(rows, o, i, j, k);
      HarmlessIsTransitive(a, b, c, o);
    }
  }

  /** When the present objectives are compatible, a certified row is selected or dominated by a
      selected one. */
  lemma SelectionCovers(rows: seq<Row>, o: Objectives, r: Row) returns (d: Row)
    requires Compatible(rows, o) && r in rows && r.certified
    ensures d in Selected(rows, o) && (d == r || Dominates(d, r, o))
  {
    CompatibleIsTransitive(rows, o);
    d := TransitiveCovers(rows, o, r);
  }

  // Otherwise some values leave a row uncovered

  /** The row with the values that `value` gives to rows of its role. */
  ghost function Valued(r: Row, role: nat, value: (nat, string) -> real): Row {
    r.(values := map key | key in r.values :: value(role, key))
  }

  function Role(p: nat, i: nat, j: nat, k: nat): nat {
    if p == i then 0 else if p == j then 1 else if p == k then 2 else 3
  }

  ghost function Revalued(rows: seq<Row>, i: nat, j: nat, k: nat, value: (nat, string) -> real): (r: seq<Row>)
    ensures SamePresence(rows, r)
    ensures forall p | 0 <= p < |rows| :: r[p] == Valued(rows[p], Role(p, i, j, k), value)
  {
    seq(|rows|, p requires 0 <= p < |rows| => Valued(rows[p], Role(p, i, j, k), value))
  }

  /** The first row beats the second and the second the third, and nothing else beats the third. */
  ghost predicate Strands(a: Row, b: Row, c: Row, o: Objectives, value: (nat, string) -> real) {
    && Dominates(Valued(a, 0, value), Valued(b, 1, value), o)
    && Dominates(Valued(b, 1, value), Valued(c, 2, value), o)
    && !Dominates(Valued(a, 0, value), Valued(c, 2, value), o)
    && forall r: Row :: !Dominates(Valued(r, 3, value), Valued(c, 2, value), o)
  }

  lemma StrandedIsUncovered(rows: seq<Row>, o: Objectives, i: nat, j: nat, k: nat, value: (nat, string) -> real)
    requires Distinct(rows, o, i, j, k) && Strands(rows[i], rows[j], rows[k], o, value)
    ensures !Covered(Revalued(rows, i, j, k, value), o)
  {
    hide Dominates, Selected, Valued;
    var other := Revalued(rows, i, j, k, value);
    var a, b, c := other[i], other[j], other[k];
    assert a in other && b in other && c in other;
    DominanceIrreflexive(c, o);
    forall d | d in Selected(other, o) ensures d != c && !Dominates(d, c, o) {
      SelectedExactly(other, o, d);
      var p :| 0 <= p < |other| && other[p] == d;
      assert p != i && p != j && p != k ==> d == Valued(rows[p], 3, value);
    }
  }

  lemma Beats(a: Row, b: Row, o: Objectives)
    requires Competes(a, o) && Competes(b, o)
    requires forall k | k in o.maximize :: a.values[k] >= b.values[k]
    requires forall k | k in o.minimize && k in a.values && k in b.values :: a.values[k] <= b.values[k]
    requires exists k | k in a.values && k in b.values ::
               (k in o.maximize && a.values[k] > b.values[k]) || (k in o.minimize && a.values[k] < b.values[k])
    ensures Dominates(a, b, o)
  {
  }

  lemma LosesAt(a: Row, b: Row, o: Objectives, k: string)
    requires k in b.values && (k in o.maximize || (k in o.minimize && k in a.values))
    requires k in a.values ==> if k in o.maximize then a.values[k] < b.values[k] else a.values[k] > b.values[k]
    ensures !Dominates(a, b, o)
  {
  }

  lemma NowhereBetter(a: Row, b: Row, o: Objectives)
    requires forall k | k in a.values && k in b.values ::
               (k in o.maximize ==> a.values[k] <= b.values[k]) && (k in o.minimize ==> a.values[k] >= b.values[k])
    ensures !Dominates(a, b, o)
  {
  }

  /** With a purely maximised objective the three rows are graded by it, and the first is worse
      than the third at `l`. */
  function Graded(o: Objectives, l: string): (nat, string) -> real {
    (role, key) =>
      if key in o.maximize && key !in o.minimize then
        (if role == 0 then 3.0 else if role == 1 then 2.0 else if role == 2 then 1.0 else 0.0)
      else if key !in o.maximize && role == 0 && key == l then 1.0 else 0.0
  }

  lemma GradedStrands(a: Row, b: Row, c: Row, o: Objectives, l: string)
    requires Competes(a, o) && Competes(b, o) && Competes(c, o) && PurelyMaximised(o)
    requires l in Minimised(a, o) * Minimised(c, o) && l !in Minimised(b, o)
    ensures Strands(a, b, c, o, Graded(o, l))
  {
    hide Dominates;
    var value := Graded(o, l);
    var q :| q in o.maximize && q !in o.minimize;
    var x, y, z := Valued(a, 0, value), Valued(b, 1, value), Valued(c, 2, value);
    assert x.values[q] > y.values[q] > z.values[q];
    Beats(x, y, o);
    Beats(y, z, o);
    LosesAt(x, z, o, l);
    forall r: Row ensures !Dominates(Valued(r, 3, value), z, o) {
      LosesAt(Valued(r, 3, value), z, o, q);
    }
  }

  /** Without one, the rows are graded by their minimised objectives, except at `l`. */
  function Crossed(o: Objectives, l: string): (nat, string) -> real {
    (role, key) =>
      if key in o.maximize then 0.0
      else if role == 0 then (if key == l then 1.0 else 0.0)
      else if role == 1 then 1.0
      else if role == 2 then (if key == l then 0.0 else 2.0)
      else 3.0
  }

  lemma CrossedStrands(a: Row, b: Row, c: Row, o: Objectives, l: string)
    requires Competes(a, o) && Competes(b, o) && Competes(c, o)
    requires Minimised(a, o) * Minimised(b, o) != {} && Minimised(b, o) * Minimised(c, o) != {}
    requires l in Minimised(a, o) * Minimised(c, o) && l !in Minimised(b, o)
    ensures Strands(a, b, c, o, Crossed(o, l))
  {
    hide Dominates;
    var value := Crossed(o, l);
    var x, y, z := Valued(a, 0, value), Valued(b, 1, value), Valued(c, 2, value);
    var k1 :| k1 in Minimised(a, o) * Minimised(b, o);
    var k2 :| k2 in Minimised(b, o) * Minimised(c, o);
    assert x.values[k1] < y.values[k1] && y.values[k2] < z.values[k2];
    Beats(x, y, o);
    Beats(y, z, o);
    LosesAt(x, z, o, l);
    forall r: Row ensures !Dominates(Valued(r, 3, value), z, o) {
      NowhereBetter(Valued(r, 3, value), z, o);
    }
  }

  /** Or the two victories are at objectives that the third and the first row lack. */
  function Split(o: Objectives, first: set<string>, third: set<string>): (nat, string) -> real {
    (role, key) =>
      if key in o.maximize || role == 0 then 0.0
      else if role == 1 then (if key in third then 0.0 else 1.0)
      else if role == 2 then (if key in first then 0.0 else 1.0)
      else 3.0
  }

  lemma SplitStrands(a: Row, b: Row, c: Row, o: Objectives, k1: string, k2: string)
    requires Competes(a, o) && Competes(b, o) && Competes(c, o)
    requires k1 in Minimised(a, o) * Minimised(b, o) - Minimised(c, o)
    requires k2 in Minimised(b, o) * Minimised(c, o) - Minimised(a, o)
    ensures Strands(a, b, c, o, Split(o, Minimised(a, o), Minimised(c, o)))
  {
    hide Dominates;
    var value := Split(o, Minimised(a, o), Minimised(c, o));
    var x, y, z := Valued(a, 0, value), Valued(b, 1, value), Valued(c, 2, value);
    assert x.values[k1] < y.values[k1] && y.values[k2] < z.values[k2];
    Beats(x, y, o);
    Beats(y, z, o);
    NowhereBetter(x, z, o);
    forall r: Row ensures !Dominates(Valued(r, 3, value), z, o) {
      NowhereBetter(Valued(r, 3, value), z, o);
    }
  }

  lemma HarmCanStrand(rows: seq<Row>, o: Objectives, i: nat, j: nat, k: nat) returns (other: seq<Row>)
    requires Distinct(rows, o, i, j, k)
    requires !Harmless(Minimised(rows[i], o), Minimised(rows[j], o), Minimised(rows[k], o), PurelyMaximised(o))
    ensures SamePresence(rows, other) && !Covered(other, o)
  {
    hide Minimised, PurelyMaximised, Covered, Strands, Graded, Crossed, Split;
    var A, B, C := Minimised(rows[i], o), Minimised(rows[j], o), Minimised(rows[k], o);
    if PurelyMaximised(o) {
      if l :| l in A * C && l !in B {
        GradedStrands(rows[i], rows[j], rows[k], o, l);
        StrandedIsUncovered(rows, o, i, j, k, Graded(o, l));
        other := Revalued(rows, i, j, k, Graded(o, l));
      } else {
        var l :| l in A * B && l !in C;
        GradedStrands(rows[i], rows[k], rows[j], o, l);
        StrandedIsUncovered(rows, o, i, k, j, Graded(o, l));
        other := Revalued(rows, i, k, j, Graded(o, l));
      }
    } else if l :| l in A * C && l !in B {
      CrossedStrands(rows[i], rows[j], rows[k], o, l);
      StrandedIsUncovered(rows, o, i, j, k, Crossed(o, l));
      other := Revalued(rows, i, j, k, Crossed(o, l));
    } else {
      var k1 :| k1 in A * B && k1 !in C;
      var k2 :| k2 in B * C && k2 !in A;
      SplitStrands(rows[i], rows[j], rows[k], o, k1, k2);
      StrandedIsUncovered(rows, o, i, j, k, Split(o, A, C));
      other := Revalued(rows, i, j, k, Split(o, A, C));
    }
  }

  /** Every certified row is covered, whatever the values of the objectives, exactly when the
      objectives that are present are compatible. */
  lemma CoverageExactly(rows: seq<Row>, o: Objectives)
    ensures (forall other | SamePresence(rows, other) :: Covered(other, o)) <==> Compatible(rows, o)
  {
    hide Harmless, Minimised, PurelyMaximised, Selected, Dominates;
    if Compatible(rows, o) {
      forall other: seq<Row> | SamePresence(rows, other) ensures Covered(other, o) {
        PresenceDecides(rows, other, o);
        forall r | r in other && r.certified
          ensures exists d | d in Selected(other, o) :: d == r || Dominates(d, r, o)
        {
          var d := SelectionCovers(other, o, r);
        }
      }
    } else {
      var i: nat, j: nat, k: nat :| Distinct(rows, o, i, j, k)
        && !Harmless(Minimised(rows[i], o), Minimised(rows[j], o), Minimised(rows[k], o), PurelyMaximised(o));
      var other := HarmCanStrand(rows, o, i, j, k);
    }
  }

  lemma PresenceDecides(rows: seq<Row>, other: seq<Row>, o: Objectives)
    requires SamePresence(rows, other) && Compatible(rows, o)
    ensures Compatible(other, o)
  {
    hide Harmless, PurelyMaximised;
    forall i: nat, j: nat, k: nat | Distinct(other, o, i, j, k)
      ensures Harmless(Minimised(other[i], o), Minimised(other[j], o), Minimised(other[k], o), PurelyMaximised(o))
    {
      SameKeys(rows[i], other[i], o);
      SameKeys(rows[j], other[j], o);
      SameKeys(rows[k], other[k], o);
      assert Distinct(rows, o, i, j, k);
    }
  }

  lemma SameKeys(r: Row, x: Row, o: Objectives)
    requires r.values.Keys == x.values.Keys && r.certified == x.certified
    ensures Minimised(r, o) == Minimised(x, o) && Competes(r, o) == Competes(x, o)
  {
    assert forall k :: k in r.values <==> k in x.values;
  }

  lemma {:induction false} PickAll(s: seq<Row>, all: seq<Row>, o: Objectives)
    requires forall i | 0 <= i < |s| :: OnFrontier(s[i], all, o)
    ensures Pick(s, all, o) == s
  {
    hide OnFrontier;
    if s != [] {
      PickAll(s[..|s| - 1], all, o);
    }
  }

  /** Selecting twice changes nothing. */
  lemma SelectionIdempotent(rows: seq<Row>, o: Objectives)
    ensures Selected(Selected(rows, o), o) == Selected(rows, o)
  {
    var s := Selected(rows, o);
    forall r | r in s ensures OnFrontier(r, s, o) {
      SelectedExactly(rows, o, r);
      forall x | x in s && x.certified ensures !Dominates(x, r, o) {
        SelectedDoNotDominate(rows, o, x, r);
      }
    }
    PickAll(s, s, o);
    if s != [] {
      SelectedExactly(rows, o, s[0]);
      SortOfSorted(s);
    }
  }

  lemma {:induction false} PickCounts(s: seq<Row>, all: seq<Row>, o: Objectives, r: Row)
    ensures multiset(Pick(s, all, o))[r] == if OnFrontier(r, all, o) then multiset(s)[r] else 0
  {
    if s != [] {
      PickCounts(s[..|s| - 1], all, o, r);
      assert s == s[..|s| - 1] + [s[|s| - 1]];
    }
  }

  /** With distinct ids, the result does not depend on the order of the input. */
  lemma SelectionIgnoresOrder(a: seq<Row>, b: seq<Row>, o: Objectives)
    requires multiset(a) == multiset(b)
    requires forall x, y | x in a && y in a && x.id == y.id :: x == y
    ensures Selected(a, o) == Selected(b, o)
  {
    IdLeqIsPreorder();
    forall x: Row ensures x in a <==> x in b {
      assert x in multiset(a) <==> x in multiset(b);
    }
    var p, q := Pick(a, a, o), Pick(b, b, o);
    forall r: Row ensures multiset(p)[r] == multiset(q)[r] {
      PickCounts(a, a, o, r);
      PickCounts(b, b, o, r);
      SameFrontier(r, a, b, o);
    }
    assert multiset(p) == multiset(q);
    SortSorts(p, IdLeq);
    SortSorts(q, IdLeq);
    forall x, y | x in Sort(p, IdLeq) && y in Sort(p, IdLeq) && IdLeq(x, y) && IdLeq(y, x) ensures x == y {
      TextLeqTotal(x.id, y.id);
      SelectedExactly(a, o, x);
      SelectedExactly(a, o, y);
    }
    SortedUnique(Sort(p, IdLeq), Sort(q, IdLeq), IdLeq);
  }

  // Missing objectives

  /** Row `a` beats `b` at the minimised objective `key`, the only one both of them have. */
  lemma BeatsAt(a: Row, b: Row, o: Objectives, key: string)
    requires forall k | k in o.maximize :: k in a.values && k in b.values && a.values[k] == b.values[k]
    requires key in o.minimize && key in a.values && key in b.values && a.values[key] < b.values[key]
    requires forall k | k in o.minimize && k in a.values && k in b.values && k != key :: a.values[k] <= b.values[k]
    ensures Dominates(a, b, o)
  {
  }

  /** Without all minimised objectives, four certified rows of equal quality can each be dominated
      by the one before it in a circle: nothing is selected, and nothing is covered. The rows have
      the first minimised objective, both, the second, and both again. */
  lemma MissingObjectivesCanEmptyTheSelection(a: Row, b: Row, c: Row, d: Row, q: string, p: string, r: string)
    requires p != q && p != r && q != r && a.certified && b.certified && c.certified && d.certified
    requires a.values == map[q := 1.0, p := 1.0] && b.values == map[q := 1.0, p := 2.0, r := 1.0]
    requires c.values == map[q := 1.0, r := 2.0] && d.values == map[q := 1.0, p := 0.0, r := 3.0]
    ensures Selected([a, b, c, d], Objectives([q], [p, r])) == []
  {
    var o := Objectives([q], [p, r]);
    BeatsAt(a, b, o, p);
    BeatsAt(b, c, o, r);
    BeatsAt(c, d, o, r);
    BeatsAt(d, a, o, p);
    CircleIsEmpty(a, b, c, d, o);
  }

  lemma CircleIsEmpty(a: Row, b: Row, c: Row, d: Row, o: Objectives)
    requires a.certified && b.certified && c.certified && d.certified
    requires Dominates(a, b, o) && Dominates(b, c, o) && Dominates(c, d, o) && Dominates(d, a, o)
    ensures Selected([a, b, c, d], o) == []
  {
    hide Dominates, Selected;
    var rows := [a, b, c, d];
    assert a in rows && b in rows && c in rows && d in rows;
    if Selected(rows, o) != [] {
      SelectedExactly(rows, o, Selected(rows, o)[0]);
      assert false;
    }
  }
}
