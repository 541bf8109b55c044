/** `GET /stats`: corrections grouped by corrected name, ordered by count
    descending and then by name ascending, first five groups. SQLite compares
    text with its BINARY collation, which on UTF-8 is code-point order. */
module Stats {
  import opened Models

  const TopN := 5

  /** One `{"label", "count"}` entry of `top5`. */
  datatype LabelCount = LabelCount(name: string, count: nat)

  // ---------------------------------------------------------------------------
  // Code-point order on strings.

  /** `a` sorts strictly before `b`: a proper prefix, or smaller at the first
      difference. */
  predicate LexLess(a: string, b: string) {
    b != [] && (a == [] || a[0] < b[0] || (a[0] == b[0] && LexLess(a[1..], b[1..])))
  }

  lemma {:induction false} LexLessIrreflexive(a: string)
    ensures !LexLess(a, a)
  {
    if a != [] {
      LexLessIrreflexive(a[1..]);
    }
  }

  lemma {:induction false} LexLessTransitive(a: string, b: string, c: string)
    requires LexLess(a, b) && LexLess(b, c)
    ensures LexLess(a, c)
  {
    if a != [] && a[0] == b[0] && b[0] == c[0] {
      LexLessTransitive(a[1..], b[1..], c[1..]);
    }
  }

  lemma {:induction false} LexLessTotal(a: string, b: string)
    requires a != b
    ensures LexLess(a, b) || LexLess(b, a)
  {
    if a != [] && b != [] && a[0] == b[0] {
      assert a == [a[0]] + a[1..] && b == [b[0]] + b[1..];
      LexLessTotal(a[1..], b[1..]);
    }
  }

  /** The `ORDER BY count DESC, corrected_name ASC` order. */
  predicate Before(x: LabelCount, y: LabelCount) {
    x.count > y.count || (x.count == y.count && LexLess(x.name, y.name))
  }

  lemma BeforeTransitive(x: LabelCount, y: LabelCount, z: LabelCount)
    requires Before(x, y) && Before(y, z)
    ensures Before(x, z)
  {
    if x.count == y.count == z.count {
      LexLessTransitive(x.name, y.name, z.name);
    }
  }

  lemma BeforeTotal(x: LabelCount, y: LabelCount)
    requires x.name != y.name
    ensures Before(x, y) || Before(y, x)
  {
    LexLessTotal(x.name, y.name);
  }

  lemma BeforeIrreflexive(x: LabelCount)
    ensures !Before(x, x)
  {
    LexLessIrreflexive(x.name);
  }

  lemma {:induction false} LexLessAsymmetric(a: string, b: string)
    ensures LexLess(a, b) ==> !LexLess(b, a)
  {
    if a != [] && b != [] && a[0] == b[0] {
      LexLessAsymmetric(a[1..], b[1..]);
    }
  }

  lemma BeforeAsymmetric(x: LabelCount, y: LabelCount)
    ensures Before(x, y) ==> !Before(y, x)
  {
    LexLessAsymmetric(x.name, y.name);
  }

  /** Two entries with different names are ordered one way or the other. */
  lemma BeforeTrichotomy(x: LabelCount, y: LabelCount)
    ensures Before(x, y) || Before(y, x) || x.name == y.name
  {
    if x.name != y.name {
      BeforeTotal(x, y);
    }
  }

  // ---------------------------------------------------------------------------
  // Grouping.

  function Names(cs: seq<CorrectionRow>): (r: seq<string>)
    ensures |r| == |cs| && forall i :: 0 <= i < |cs| ==> r[i] == cs[i].correctedName
  {
    seq(|cs|, i requires 0 <= i < |cs| => cs[i].correctedName)
  }

  /** `count(*)` of the group of `name`. */
  function Count(cs: seq<CorrectionRow>, name: string): nat {
    multiset(Names(cs))[name]
  }

  /** The distinct values of `xs`, in order of first appearance. */
  function Distinct(xs: seq<string>): (r: seq<string>)
    ensures forall x :: x in r <==> x in xs
    ensures forall i, j :: 0 <= i < j < |r| ==> r[i] != r[j]
  {
    if xs == [] then []
    else
      var d := Distinct(xs[..|xs| - 1]);
      assert xs == xs[..|xs| - 1] + [xs[|xs| - 1]];
      if xs[|xs| - 1] in d then d else d + [xs[|xs| - 1]]
  }

  /** One group per distinct corrected name. */
  function Groups(cs: seq<CorrectionRow>): (r: seq<LabelCount>)
    ensures |r| == |Distinct(Names(cs))|
    ensures forall i :: 0 <= i < |r| ==> r[i] == LabelCount(Distinct(Names(cs))[i], Count(cs, Distinct(Names(cs))[i]))
  {
    var ls := Distinct(Names(cs));
    seq(|ls|, i requires 0 <= i < |ls| => LabelCount(ls[i], Count(cs, ls[i])))
  }

  predicate DistinctLabels(xs: seq<LabelCount>) {
    forall i, j :: 0 <= i < j < |xs| ==> xs[i].name != xs[j].name
  }

  predicate Sorted(xs: seq<LabelCount>) {
    forall i, j :: 0 <= i < j < |xs| ==> Before(xs[i], xs[j])
  }

  // ---------------------------------------------------------------------------
  // Sorting.

  function Insert(x: LabelCount, xs: seq<LabelCount>): (r: seq<LabelCount>)
    ensures multiset(r) == multiset(xs) + multiset{x}
    ensures |r| == |xs| + 1
  {
    if xs == [] then [x]
    else if Before(x, xs[0]) then [x] + xs
    else
      assert xs == [xs[0]] + xs[1..];
      [xs[0]] + Insert(x, xs[1..])
  }

  lemma {:induction false} InsertSorted(x: LabelCount, xs: seq<LabelCount>)
    requires Sorted(xs)
    requires forall i :: 0 <= i < |xs| ==> xs[i].name != x.name
    ensures Sorted(Insert(x, xs))
  {
    if xs != [] && !Before(x, xs[0]) {
      InsertSorted(x, xs[1..]);
      InsertSortedBehind(x, xs);
    } else if xs != [] {
      InsertSortedInFront(x, xs);
    }
  }

  /** `x` goes in front of a sorted list whose head it precedes. */
  lemma InsertSortedInFront(x: LabelCount, xs: seq<LabelCount>)
    requires Sorted(xs) && xs != [] && Before(x, xs[0])
    ensures Sorted([x] + xs)
  {
    forall j | 1 <= j < |xs| + 1 ensures Before(x, ([x] + xs)[j]) {
      if j > 1 {
        BeforeTransitive(x, xs[0], xs[j - 1]);
      }
    }
  }

  /** `x` goes behind the head: the head precedes everything inserted after it. */
  lemma InsertSortedBehind(x: LabelCount, xs: seq<LabelCount>)
    requires Sorted(xs) && xs != [] && !Before(x, xs[0]) && x.name != xs[0].name
    requires Sorted(Insert(x, xs[1..]))
    ensures Sorted(Insert(x, xs))
  {
    var tail := Insert(x, xs[1..]);
    BeforeTotal(x, xs[0]);
    forall j | 0 <= j < |tail| ensures Before(xs[0], tail[j]) {
      assert tail[j] in multiset(xs[1..]) + multiset{x};
      if tail[j] != x {
        assert tail[j] in xs[1..];
      }
    }
    assert Insert(x, xs) == [xs[0]] + tail;
  }

  /** Insertion sort by `Before`. */
  function Sort(xs: seq<LabelCount>): (r: seq<LabelCount>)
    ensures multiset(r) == multiset(xs) && |r| == |xs|
  {
    if xs == [] then []
    else
      assert xs == [xs[0]] + xs[1..];
      Insert(xs[0], Sort(xs[1..]))
  }

  lemma {:induction false} SortSorted(xs: seq<LabelCount>)
    requires DistinctLabels(xs)
    ensures Sorted(Sort(xs))
  {
    if xs != [] {
      SortSorted(xs[1..]);
      var rest := Sort(xs[1..]);
      forall i | 0 <= i < |rest| ensures rest[i].name != xs[0].name {
        assert rest[i] in multiset(xs[1..]);
        var k :| 0 <= k < |xs[1..]| && xs[1..][k] == rest[i];
        assert xs[k + 1] == rest[i];
      }
      InsertSorted(xs[0], rest);
    }
  }

  function Take(xs: seq<LabelCount>, n: nat): (r: seq<LabelCount>)
    ensures |r| == if |xs| < n then |xs| else n
    ensures r == xs[..|r|]
  {
    if |xs| <= n then xs else xs[..n]
  }

  /** `feedback_stats`: the first five groups in `Before` order. */
  function Top5(s: Store): seq<LabelCount> {
    Take(Sort(Groups(s.corrections)), TopN)
  }

  // ---------------------------------------------------------------------------
  // What the result is.

  /** The result the query promises: true counts of names that occur, in
      strictly descending `Before` order, as many groups as there are up to
      five, and no omitted group that should have come first. */
  predicate IsTopGroups(cs: seq<CorrectionRow>, r: seq<LabelCount>) {
    && |r| == (if |Distinct(Names(cs))| < TopN then |Distinct(Names(cs))| else TopN)
    && (forall i :: 0 <= i < |r| ==> r[i].name in Names(cs) && r[i].count == Count(cs, r[i].name))
    && Sorted(r)
    && (forall l :: l in Names(cs) && (forall i :: 0 <= i < |r| ==> r[i].name != l) ==>
          forall i :: 0 <= i < |r| ==> Before(r[i], LabelCount(l, Count(cs, l))))
  }

  lemma GroupsDistinct(cs: seq<CorrectionRow>)
    ensures DistinctLabels(Groups(cs))
  {
  }

  lemma GroupOfName(cs: seq<CorrectionRow>, l: string)
    requires l in Names(cs)
    ensures LabelCount(l, Count(cs, l)) in Groups(cs)
  {
    var ls := Distinct(Names(cs));
    var k :| 0 <= k < |ls| && ls[k] == l;
    assert Groups(cs)[k] == LabelCount(l, Count(cs, l));
  }

  lemma Top5Correct(s: Store)
    ensures IsTopGroups(s.corrections, Top5(s))
  {
    var cs := s.corrections;
    var g := Groups(cs);
    GroupsDistinct(cs);
    SortSorted(g);
    Top5Entries(cs, Top5(s));
    Top5Omitted(cs, Top5(s));
  }

  /** Every entry of the result is a group of the table. */
  lemma Top5Entries(cs: seq<CorrectionRow>, r: seq<LabelCount>)
    requires r == Take(Sort(Groups(cs)), TopN)
    ensures forall i :: 0 <= i < |r| ==> r[i].name in Names(cs) && r[i].count == Count(cs, r[i].name)
  {
    var g := Groups(cs);
    var sorted := Sort(g);
    forall i | 0 <= i < |r| ensures r[i].name in Names(cs) && r[i].count == Count(cs, r[i].name) {
      assert r[i] == sorted[i];
      assert sorted[i] in multiset(g);
      var k :| 0 <= k < |g| && g[k] == sorted[i];
    }
  }

  /** A group the result leaves out comes after every entry it keeps. */
  lemma Top5Omitted(cs: seq<CorrectionRow>, r: seq<LabelCount>)
    requires r == Take(Sort(Groups(cs)), TopN)
    requires Sorted(Sort(Groups(cs)))
    ensures forall l :: l in Names(cs) && (forall i :: 0 <= i < |r| ==> r[i].name != l) ==>
      forall i :: 0 <= i < |r| ==> Before(r[i], LabelCount(l, Count(cs, l)))
  {
    var sorted := Sort(Groups(cs));
    forall l | l in Names(cs) && (forall i :: 0 <= i < |r| ==> r[i].name != l)
      ensures forall i :: 0 <= i < |r| ==> Before(r[i], LabelCount(l, Count(cs, l)))
    {
      GroupOfName(cs, l);
      var x := LabelCount(l, Count(cs, l));
      assert x in multiset(sorted);
      var j :| 0 <= j < |sorted| && sorted[j] == x;
      forall k | 0 <= k < |r| ensures sorted[k] != x {
        assert r[k] == sorted[k];
      }
      assert j >= |r|;
      forall i | 0 <= i < |r| ensures Before(r[i], x) {
        assert r[i] == sorted[i];
      }
    }
  }

  /** Posting one correction adds one to its corrected name's count and leaves
      every other count as it was. */
  lemma CountAfterAppend(cs: seq<CorrectionRow>, row: CorrectionRow, l: string)
    ensures Count(cs + [row], l) == Count(cs, l) + (if row.correctedName == l then 1 else 0)
  {
    assert Names(cs + [row]) == Names(cs) + [row.correctedName];
  }

  // ---------------------------------------------------------------------------
  // The specification admits one result only.

  /** An entry the query can produce: a name that occurs, with its count. */
  predicate IsGroup(cs: seq<CorrectionRow>, g: LabelCount) {
    g.name in Names(cs) && g.count == Count(cs, g.name)
  }

  /** All groups, each once, in `Before` order. */
  lemma SortedGroups(cs: seq<CorrectionRow>)
    ensures Sorted(Sort(Groups(cs)))
    ensures |Sort(Groups(cs))| == |Distinct(Names(cs))|
    ensures forall k :: 0 <= k < |Sort(Groups(cs))| ==> IsGroup(cs, Sort(Groups(cs))[k])
    ensures forall g :: IsGroup(cs, g) ==> g in Sort(Groups(cs))
  {
    var g := Groups(cs);
    var sorted := Sort(g);
    GroupsDistinct(cs);
    SortSorted(g);
    forall k | 0 <= k < |sorted| ensures IsGroup(cs, sorted[k]) {
      assert sorted[k] in multiset(g);
      var m :| 0 <= m < |g| && g[m] == sorted[k];
    }
    forall x | IsGroup(cs, x) ensures x in sorted {
      GroupOfName(cs, x.name);
      assert x in multiset(g);
    }
  }

  /** An entry is determined by its name. */
  lemma SameGroup(cs: seq<CorrectionRow>, x: LabelCount, y: LabelCount)
    ensures IsGroup(cs, x) && IsGroup(cs, y) && x.name == y.name ==> x == y
  {
  }

  /** `r` is picked from `all`: each entry comes from `all`, and each entry of
      `all` is either picked or ranks after every picked one. */
  predicate PickedFrom(all: seq<LabelCount>, r: seq<LabelCount>) {
    && (forall i :: 0 <= i < |r| ==> r[i] in all)
    && (forall j :: 0 <= j < |all| ==> all[j] in r || forall i :: 0 <= i < |r| ==> Before(r[i], all[j]))
  }

  /** A sorted pick from a sorted list agrees with it at `i` once it agrees
      before `i`. */
  lemma PickAgreesAt(all: seq<LabelCount>, r: seq<LabelCount>, i: nat)
    requires Sorted(all) && Sorted(r) && PickedFrom(all, r) && i < |r| <= |all|
    requires forall k :: 0 <= k < i ==> r[k] == all[k]
    ensures r[i] == all[i]
  {
    var x := r[i];
    var y := all[i];
    var m :| 0 <= m < |all| && all[m] == x;
    BeforeIrreflexive(x);
    BeforeIrreflexive(y);
    BeforeAsymmetric(x, y);
    forall k | 0 <= k < i ensures all[k] != x && r[k] != y {
      assert Before(r[k], r[i]);
      assert Before(all[k], all[i]);
    }
  }

  /** A sorted pick from a sorted list is a prefix of it. */
  lemma PickIsPrefix(all: seq<LabelCount>, r: seq<LabelCount>)
    requires Sorted(all) && Sorted(r) && PickedFrom(all, r) && |r| <= |all|
    ensures r == all[..|r|]
  {
    var i := 0;
    while i < |r|
      invariant i <= |r|
      invariant forall k :: 0 <= k < i ==> r[k] == all[k]
    {
      PickAgreesAt(all, r, i);
      i := i + 1;
    }
  }

  /** The result the query promises is a sorted pick from the sorted groups. */
  lemma TopGroupsPicked(cs: seq<CorrectionRow>, r: seq<LabelCount>)
    requires IsTopGroups(cs, r)
    ensures Sorted(Sort(Groups(cs))) && |r| <= |Sort(Groups(cs))|
    ensures PickedFrom(Sort(Groups(cs)), r)
  {
    var all := Sort(Groups(cs));
    SortedGroups(cs);
    forall j | 0 <= j < |all| ensures all[j] in r || forall i :: 0 <= i < |r| ==> Before(r[i], all[j]) {
      var g := all[j];
      assert IsGroup(cs, g);
      forall i | 0 <= i < |r| ensures r[i].name == g.name ==> r[i] == g {
        SameGroup(cs, r[i], g);
      }
    }
  }

  /** The specification determines the answer: `Top5` is the only list of
      entries that meets it. */
  lemma TopGroupsUnique(s: Store, r: seq<LabelCount>)
    requires IsTopGroups(s.corrections, r)
    ensures r == Top5(s)
  {
    var cs := s.corrections;
    TopGroupsPicked(cs, r);
    PickIsPrefix(Sort(Groups(cs)), r);
    SortedGroups(cs);
  }

  /** `top5` is exactly the list the query promises. */
  lemma Top5Characterized(s: Store, r: seq<LabelCount>)
    ensures IsTopGroups(s.corrections, r) <==> r == Top5(s)
  {
    Top5Correct(s);
    if IsTopGroups(s.corrections, r) {
      TopGroupsUnique(s, r);
    }
  }

  /** With one correction stored, `top5` is its corrected name, once. */
  lemma Top5OfOne(s: Store)
    requires |s.corrections| == 1
    ensures Top5(s) == [LabelCount(s.corrections[0].correctedName, 1)]
  {
    var cs := s.corrections;
    var l := cs[0].correctedName;
    assert Names(cs) == [l];
    assert Distinct([l]) == [l] by {
      assert [l][..0] == [];
    }
    assert multiset(Names(cs))[l] == 1;
    var g := Groups(cs);
    assert g == [LabelCount(l, 1)];
    assert Sort(g) == Insert(g[0], Sort(g[1..]));
  }
}
