/** The order in which ELFIO lays out segments: a segment comes before the segments
    whose sections are among its own. */
module SegmentOrder {
  datatype Segment = Segment(sections: seq<nat>, offsetSet: bool, offset: nat)

  // ---------- Containment ----------

  /** `std::includes`, the merging walk over both lists. */
  predicate Includes(big: seq<nat>, small: seq<nat>) {
    if small == [] then true
    else if big == [] || small[0] < big[0] then false
    else if big[0] < small[0] then Includes(big[1..], small)
    else Includes(big[1..], small[1..])
  }

  predicate IsSubsequenceOf(a: Segment, b: Segment) {
    |a.sections| < |b.sections| && Includes(b.sections, a.sections)
  }

  method WalkIncludes(big: seq<nat>, small: seq<nat>) returns (found: bool)
    ensures found == Includes(big, small)
  {
    var i, j := 0, 0;
    while i < |big| && j < |small|
      invariant i <= |big| && j <= |small|
      invariant Includes(big, small) == Includes(big[i..], small[j..])
    {
      if small[j] < big[i] {
        return false;
      } else if big[i] < small[j] {
        i := i + 1;
      } else {
        i, j := i + 1, j + 1;
      }
    }
    found := j == |small|;
  }

  ghost predicate Sorted(xs: seq<nat>) {
    forall i, j :: 0 <= i < j < |xs| ==> xs[i] <= xs[j]
  }

  /** What the walk accepts is contained, on any lists. */
  lemma {:induction false} IncludesIsContained(big: seq<nat>, small: seq<nat>)
    requires Includes(big, small)
    ensures multiset(small) <= multiset(big)
  {
    if small != [] {
      assert big == [big[0]] + big[1..] && small == [small[0]] + small[1..];
      if big[0] < small[0] {
        IncludesIsContained(big[1..], small);
      } else {
        IncludesIsContained(big[1..], small[1..]);
      }
    }
  }

  lemma SkipFirst(big: seq<nat>, small: seq<nat>)
    requires big != [] && big[0] !in small
    ensures multiset(small) <= multiset(big) <==> multiset(small) <= multiset(big[1..])
  {
    assert big == [big[0]] + big[1..];
    assert multiset(big) == multiset{big[0]} + multiset(big[1..]);
    assert multiset(small)[big[0]] == 0;
  }

  lemma CancelOne(a: multiset<nat>, b: multiset<nat>, x: nat)
    ensures multiset{x} + a <= multiset{x} + b <==> a <= b
  {
    assert forall y: nat :: (multiset{x} + a)[y] == multiset{x}[y] + a[y] && (multiset{x} + b)[y] == multiset{x}[y] + b[y];
    if multiset{x} + a <= multiset{x} + b {
      forall y: nat ensures a[y] <= b[y] {
        assert (multiset{x} + a)[y] <= (multiset{x} + b)[y];
      }
    }
  }

  lemma MatchFirst(big: seq<nat>, small: seq<nat>)
    requires big != [] && small != [] && big[0] == small[0]
    ensures multiset(small) <= multiset(big) <==> multiset(small[1..]) <= multiset(big[1..])
  {
    assert big == [big[0]] + big[1..] && small == [small[0]] + small[1..];
    assert multiset(big) == multiset{big[0]} + multiset(big[1..]);
    assert multiset(small) == multiset{big[0]} + multiset(small[1..]);
    CancelOne(multiset(small[1..]), multiset(big[1..]), big[0]);
  }

  /** On sorted lists it accepts exactly what is contained. */
  lemma {:induction false} IncludesIff(big: seq<nat>, small: seq<nat>)
    requires Sorted(big) && Sorted(small)
    ensures Includes(big, small) <==> multiset(small) <= multiset(big)
  {
    if small != [] {
      assert small[0] in multiset(small);
      if big == [] || small[0] < big[0] {
        assert small[0] !in big;
        assert small[0] !in multiset(big);
      } else if big[0] < small[0] {
        assert big[0] !in small;
        SkipFirst(big, small);
        IncludesIff(big[1..], small);
      } else {
        MatchFirst(big, small);
        IncludesIff(big[1..], small[1..]);
      }
    }
  }

  /** On lists that are not sorted containment can go unnoticed. */
  lemma UnsortedUnnoticed()
    ensures multiset([2]) < multiset([3, 2]) && !Includes([3, 2], [2])
    ensures Ordered([Segment([2], false, 0), Segment([3, 2], false, 0)])
            == [Segment([2], false, 0), Segment([3, 2], false, 0)]
  {
    var a, b := Segment([2], false, 0), Segment([3, 2], false, 0);
    assert multiset([3, 2]) == multiset([2]) + multiset{3};
    assert !HasContainer(a, [b]) && !HasContainer(b, []);
    assert [a, b][1..] == [b];
    assert [b][1..] == [];
    UnrelatedStay([b]);
  }

  // ---------- The rotating worklist ----------

  predicate HasContainer(a: Segment, rest: seq<Segment>) {
    exists i :: 0 <= i < |rest| && IsSubsequenceOf(a, rest[i])
  }

  function Largest(w: seq<Segment>): nat {
    if w == [] then 0
    else if |w[0].sections| > Largest(w[1..]) then |w[0].sections| else Largest(w[1..])
  }

  /** The position of the first segment with at least `size` sections. */
  function FirstOf(w: seq<Segment>, size: nat): nat {
    if w == [] || |w[0].sections| >= size then 0 else 1 + FirstOf(w[1..], size)
  }

  lemma {:induction false} LargestIs(w: seq<Segment>)
    ensures forall i :: 0 <= i < |w| ==> |w[i].sections| <= Largest(w)
    ensures w != [] ==> FirstOf(w, Largest(w)) < |w|
  {
    if w != [] {
      LargestIs(w[1..]);
      assert forall i :: 1 <= i < |w| ==> w[i] == w[1..][i - 1];
    }
  }

  lemma {:induction false} LargestAppend(w: seq<Segment>, a: Segment)
    ensures Largest(w + [a]) == if |a.sections| > Largest(w) then |a.sections| else Largest(w)
    ensures forall size :: FirstOf(w, size) < |w| ==> FirstOf(w + [a], size) == FirstOf(w, size)
  {
    if w != [] {
      assert (w + [a])[1..] == w[1..] + [a];
      LargestAppend(w[1..], a);
    }
  }

  /** A rotation brings the first of the largest segments one step forward: it is
      never rotated itself. So the rotations between two results are bounded. */
  lemma RotationAdvances(w: seq<Segment>)
    requires w != [] && HasContainer(w[0], w[1..])
    ensures var r := w[1..] + [w[0]]; |r| == |w| && FirstOf(r, Largest(r)) < FirstOf(w, Largest(w))
  {
    var i :| 0 <= i < |w[1..]| && IsSubsequenceOf(w[0], w[1..][i]);
    LargestIs(w[1..]);
    LargestAppend(w[1..], w[0]);
  }

  /** The order of the results of the worklist. */
  function Ordered(w: seq<Segment>): seq<Segment>
    decreases |w|, FirstOf(w, Largest(w))
  {
    if w == [] then []
    else if HasContainer(w[0], w[1..]) then
      RotationAdvances(w);
      Ordered(w[1..] + [w[0]])
    else [w[0]] + Ordered(w[1..])
  }

  /** It is a permutation. */
  lemma {:induction false} OrderedPermutes(w: seq<Segment>)
    ensures multiset(Ordered(w)) == multiset(w)
    decreases |w|, FirstOf(w, Largest(w))
  {
    if w != [] {
      assert w == [w[0]] + w[1..];
      if HasContainer(w[0], w[1..]) {
        RotationAdvances(w);
        OrderedPermutes(w[1..] + [w[0]]);
      } else {
        OrderedPermutes(w[1..]);
      }
    }
  }

  /** No segment comes before one it is a subsequence of. */
  ghost predicate ContainersFirst(res: seq<Segment>) {
    forall i, j :: 0 <= i < j < |res| ==> !IsSubsequenceOf(res[i], res[j])
  }

  lemma {:induction false} OrderedIsOrdered(w: seq<Segment>)
    ensures ContainersFirst(Ordered(w))
    decreases |w|, FirstOf(w, Largest(w))
  {
    if w != [] {
      if HasContainer(w[0], w[1..]) {
        RotationAdvances(w);
        OrderedIsOrdered(w[1..] + [w[0]]);
      } else {
        OrderedIsOrdered(w[1..]);
        OrderedPermutes(w[1..]);
        forall j | 0 < j < |Ordered(w)| ensures !IsSubsequenceOf(w[0], Ordered(w)[j]) {
          assert Ordered(w)[j] in multiset(Ordered(w[1..]));
          assert Ordered(w)[j] in w[1..];
        }
      }
    }
  }

  // ---------- In which order the results come ----------

  /** How often segment `k` of the worklist is rotated, as far as the containers
      before position `m` go: it waits for each of them, and once more for one that
      comes after it. */
  function PassUpTo(w: seq<Segment>, k: nat, m: nat): nat
    requires k < |w| && m <= |w|
    decreases Largest(w) - |w[k].sections|, m
  {
    if m == 0 then 0
    else
      var p := PassUpTo(w, k, m - 1);
      if !IsSubsequenceOf(w[k], w[m - 1]) then p
      else
        LargestIs(w);
        var q := PassUpTo(w, m - 1, |w|) + if m - 1 > k then 1 else 0;
        if q > p then q else p
  }

  function Pass(w: seq<Segment>, k: nat): nat
    requires k < |w|
  {
    PassUpTo(w, k, |w|)
  }

  /** Segment `j` comes before segment `k`: it is rotated less often, or as often
      and stands before it. */
  predicate Before(w: seq<Segment>, j: nat, k: nat)
    requires j < |w| && k < |w|
  {
    Pass(w, j) < Pass(w, k) || (Pass(w, j) == Pass(w, k) && j < k)
  }

  /** What segment `k` waits for. */
  function Wait(w: seq<Segment>, k: nat, j: nat): nat
    requires k < |w| && j < |w|
  {
    Pass(w, j) + if j > k then 1 else 0
  }

  /** It is the least number that every container allows. */
  ghost predicate Waits(w: seq<Segment>, k: nat, m: nat, p: nat)
    requires k < |w| && m <= |w|
  {
    && (forall j: nat :: j < m && IsSubsequenceOf(w[k], w[j]) ==> Wait(w, k, j) <= p)
    && (p > 0 ==> exists j: nat :: j < m && IsSubsequenceOf(w[k], w[j]) && Wait(w, k, j) == p)
  }

  lemma {:induction false} PassUpToIs(w: seq<Segment>, k: nat, m: nat)
    requires k < |w| && m <= |w|
    ensures Waits(w, k, m, PassUpTo(w, k, m))
  {
    if m > 0 {
      PassUpToIs(w, k, m - 1);
    }
  }

  lemma PassIs(w: seq<Segment>, k: nat, p: nat)
    requires k < |w| && Waits(w, k, |w|, p)
    ensures Pass(w, k) == p
  {
    PassUpToIs(w, k, |w|);
  }

  /** Where a rotation of `n` segments moves position `k`. */
  function Rotated(n: nat, k: nat): nat
    requires k < n
  {
    if k == 0 then n - 1 else k - 1
  }

  /** The worklist after a rotation. */
  ghost predicate Rotates(w: seq<Segment>, r: seq<Segment>) {
    w != [] && HasContainer(w[0], w[1..]) && r == w[1..] + [w[0]]
  }

  /** A rotation takes one from how often the segment at the front is to be rotated,
      and nothing from the others. */
  lemma {:induction false} RotatedPass(w: seq<Segment>, r: seq<Segment>, k: nat)
    requires Rotates(w, r) && k < |w|
    ensures Pass(w, k) == Pass(r, Rotated(|w|, k)) + if k == 0 then 1 else 0
    decreases Largest(w) - |w[k].sections|
  {
    hide Includes;
    LargestIs(w);
    PassUpToIs(w, k, |w|);
    var n, k', less := |w|, Rotated(|w|, k), if k == 0 then 1 else 0;
    forall j: nat | j < n && IsSubsequenceOf(w[k], w[j]) ensures Wait(w, k, j) == Wait(r, k', Rotated(n, j)) + less {
      RotatedPass(w, r, j);
    }
    if k == 0 {
      var i :| 0 <= i < |w[1..]| && IsSubsequenceOf(w[0], w[1..][i]);
      assert w[1..][i] == w[i + 1] && Wait(w, 0, i + 1) >= 1;
    }
    hide Pass, Wait;
    forall j': nat | j' < n && IsSubsequenceOf(r[k'], r[j']) ensures Wait(r, k', j') <= Pass(w, k) - less {
      var j := if j' == n - 1 then 0 else j' + 1;
      assert w[j] == r[j'] && Wait(w, k, j) == Wait(r, k', j') + less;
    }
    assert Pass(w, k) > 0 ==> exists j': nat :: j' < n && IsSubsequenceOf(r[k'], r[j']) && Wait(r, k', j') == Pass(w, k) - less by {
      if j: nat :| j < n && IsSubsequenceOf(w[k], w[j]) && Wait(w, k, j) == Pass(w, k) {
        assert r[Rotated(n, j)] == w[j];
      }
    }
    PassIs(r, k', Pass(w, k) - less);
  }

  /** The segment at the front of which no container is left is not rotated, and no
      other waits for it. */
  lemma {:induction false} RestPass(w: seq<Segment>, k: nat)
    requires w != [] && !HasContainer(w[0], w[1..]) && k < |w|
    ensures if k == 0 then Pass(w, 0) == 0 else Pass(w, k) == Pass(w[1..], k - 1)
    decreases Largest(w) - |w[k].sections|
  {
    var r := w[1..];
    LargestIs(w);
    PassUpToIs(w, k, |w|);
    assert forall j :: 0 < j < |w| ==> w[j] == r[j - 1];
    if k == 0 {
      assert forall j: nat :: j < |w| ==> !IsSubsequenceOf(w[0], w[j]);
      return;
    }
    forall j: nat | j < |w| && IsSubsequenceOf(w[k], w[j]) ensures Wait(w, k, j) == if j == 0 then 0 else Wait(r, k - 1, j - 1) {
      RestPass(w, j);
    }
    hide Pass, Wait;
    forall j: nat | j < |r| && IsSubsequenceOf(r[k - 1], r[j]) ensures Wait(r, k - 1, j) <= Pass(w, k) {
      assert IsSubsequenceOf(w[k], w[j + 1]);
    }
    assert Pass(w, k) > 0 ==> exists j: nat :: j < |r| && IsSubsequenceOf(r[k - 1], r[j]) && Wait(r, k - 1, j) == Pass(w, k) by {
      if j: nat :| j < |w| && IsSubsequenceOf(w[k], w[j]) && Wait(w, k, j) == Pass(w, k) && Pass(w, k) > 0 {
        assert r[j - 1] == w[j];
      }
    }
    PassIs(r, k - 1, Pass(w, k));
  }

  /** `places` says where in the worklist each result comes from: from every position
      once, in the order of `Before`. */
  ghost predicate InOrder(w: seq<Segment>, res: seq<Segment>, places: seq<nat>) {
    && |places| == |res| == |w|
    && (forall i :: 0 <= i < |w| ==> places[i] < |w| && res[i] == w[places[i]])
    && (forall i, j :: 0 <= i < j < |w| ==> Before(w, places[i], places[j]))
    && (forall k: nat :: k < |w| ==> k in places)
  }

  /** The closed form of the rotating worklist: its results are the segments in order
      of how often each has to be rotated, those rotated equally often in their order. */
  lemma {:induction false} OrderedByPass(w: seq<Segment>) returns (places: seq<nat>)
    ensures InOrder(w, Ordered(w), places)
    decreases |w|, FirstOf(w, Largest(w))
  {
    if w == [] {
      places := [];
    } else if HasContainer(w[0], w[1..]) {
      RotationAdvances(w);
      var before := OrderedByPass(w[1..] + [w[0]]);
      places := PlacesRotated(w, w[1..] + [w[0]], before);
    } else {
      var before := OrderedByPass(w[1..]);
      places := PlacesAfterFirst(w, before);
    }
  }

  lemma PlacesRotated(w: seq<Segment>, r: seq<Segment>, before: seq<nat>) returns (places: seq<nat>)
    requires Rotates(w, r) && InOrder(r, Ordered(r), before)
    ensures InOrder(w, Ordered(r), places)
  {
    var n := |w|;
    places := seq(n, i requires 0 <= i < n => if before[i] == n - 1 then 0 else before[i] + 1);
    forall k: nat, j: nat | k < n && j < n && Before(r, Rotated(n, j), Rotated(n, k)) ensures Before(w, j, k) {
      RotatedPass(w, r, j);
      RotatedPass(w, r, k);
    }
    hide Before;
    forall i | 0 <= i < n ensures Rotated(n, places[i]) == before[i] && Ordered(r)[i] == w[places[i]] {
    }
    forall k: nat | k < n ensures k in places {
      assert Rotated(n, k) in before;
      var i :| 0 <= i < n && before[i] == Rotated(n, k);
      assert places[i] == k;
    }
  }

  lemma PlacesAfterFirst(w: seq<Segment>, before: seq<nat>) returns (places: seq<nat>)
    requires w != [] && !HasContainer(w[0], w[1..]) && InOrder(w[1..], Ordered(w[1..]), before)
    ensures InOrder(w, [w[0]] + Ordered(w[1..]), places)
  {
    hide Ordered, Pass, HasContainer;
    var n := |w|;
    places := [0] + seq(n - 1, i requires 0 <= i < n - 1 => before[i] + 1);
    forall i, j | 0 <= i < j < n ensures Before(w, places[i], places[j]) {
      RestPass(w, places[i]);
      RestPass(w, places[j]);
      assert i > 0 ==> Before(w[1..], before[i - 1], before[j - 1]);
    }
    hide Before;
    forall k: nat | k < n ensures k in places {
      if k > 0 {
        assert k - 1 in before;
        var i :| 0 <= i < n - 1 && before[i] == k - 1;
        assert places[i + 1] == k;
      } else {
        assert places[0] == 0;
      }
    }
  }

  // ---------- Containers before what they contain ----------

  ghost predicate Contains(b: Segment, a: Segment) {
    multiset(a.sections) < multiset(b.sections)
  }

  /** No segment comes before one that strictly contains its sections. */
  ghost predicate LargerFirst(res: seq<Segment>) {
    forall i, j :: 0 <= i < j < |res| ==> !Contains(res[j], res[i])
  }

  /** A containment that goes unnoticed does no harm in this order. */
  ghost predicate Harmless(w: seq<Segment>) {
    forall j: nat, k: nat :: j < |w| && k < |w| && Contains(w[j], w[k]) && !IsSubsequenceOf(w[k], w[j]) ==> Before(w, j, k)
  }

  /** Exactly when no result comes before one that strictly contains its sections. */
  lemma LargerFirstIff(w: seq<Segment>)
    ensures LargerFirst(Ordered(w)) <==> Harmless(w)
  {
    var places := OrderedByPass(w);
    OrderedIsOrdered(w);
    var res := Ordered(w);
    hide Before, Contains, IsSubsequenceOf, Ordered;
    if LargerFirst(res) {
      forall j: nat, k: nat | j < |w| && k < |w| && Contains(w[j], w[k]) && !IsSubsequenceOf(w[k], w[j])
        ensures Before(w, j, k)
      {
        assert j in places && k in places;
        var x :| 0 <= x < |w| && places[x] == j;
        var y :| 0 <= y < |w| && places[y] == k;
        assert x != y by {
          NotItself(w[j]);
        }
        assert x < y;
      }
    }
    if Harmless(w) {
      forall i, j | 0 <= i < j < |res| ensures !Contains(res[j], res[i]) {
        assert !IsSubsequenceOf(res[i], res[j]);
        if Contains(res[j], res[i]) {
          BeforeOneWay(w, places[i], places[j]);
        }
      }
    }
  }

  lemma NotItself(a: Segment)
    ensures !Contains(a, a)
  {
  }

  lemma BeforeOneWay(w: seq<Segment>, j: nat, k: nat)
    requires j < |w| && k < |w| && Before(w, j, k)
    ensures !Before(w, k, j)
  {
  }

  /** Every strict containment among the segments is noticed. */
  ghost predicate Noticed(w: seq<Segment>) {
    forall a, b :: a in w && b in w && Contains(b, a) ==> IsSubsequenceOf(a, b)
  }

  lemma {:induction false} IncludesTransitive(c: seq<nat>, b: seq<nat>, a: seq<nat>)
    requires Includes(c, b) && Includes(b, a)
    ensures Includes(c, a)
  {
    if a != [] {
      if b[0] < a[0] {
        if c[0] < b[0] {
          IncludesTransitive(c[1..], b, a);
        } else {
          IncludesTransitive(c[1..], b[1..], a);
        }
      } else if c[0] < b[0] {
        IncludesTransitive(c[1..], b, a);
      } else {
        IncludesTransitive(c[1..], b[1..], a[1..]);
      }
    }
  }

  /** The first `m` segments are in order already. */
  ghost predicate SettledTo(w: seq<Segment>, m: nat) {
    forall k: nat, j: nat :: k < m <= |w| && j < |w| && IsSubsequenceOf(w[k], w[j]) ==> j < k
  }

  lemma {:induction false} SettledPass(w: seq<Segment>, m: nat, k: nat)
    requires SettledTo(w, m) && k < m <= |w|
    ensures Pass(w, k) == 0
    decreases k
  {
    forall j: nat | j < |w| && IsSubsequenceOf(w[k], w[j]) ensures Wait(w, k, j) == 0 {
      SettledPass(w, m, j);
    }
    PassIs(w, k, 0);
  }

  /** The containers of `a` among the segments, and the others. */
  function Part(w: seq<Segment>, a: Segment, inside: bool): (p: seq<Segment>)
    ensures forall x :: x in p <==> x in w && IsSubsequenceOf(a, x) == inside
  {
    if w == [] then []
    else (if IsSubsequenceOf(a, w[0]) == inside then [w[0]] else []) + Part(w[1..], a, inside)
  }

  lemma {:induction false} PartsPermute(w: seq<Segment>, a: Segment)
    ensures multiset(Part(w, a, true) + Part(w, a, false)) == multiset(w)
  {
    if w != [] {
      PartsPermute(w[1..], a);
      assert w == [w[0]] + w[1..];
    }
  }

  /** `a` taken out of the segments that are not its containers, and where `b` is then. */
  lemma TakeOut(w: seq<Segment>, a: Segment, b: Segment) returns (rest: seq<Segment>, j: nat)
    requires a in w && b in w && a != b
    ensures multiset([a] + rest) == multiset(w)
    ensures (forall x :: x in rest ==> x in w) && j < |rest| && rest[j] == b
  {
    var i :| 0 <= i < |w| && w[i] == a;
    rest := w[..i] + w[i + 1..];
    assert w == w[..i] + [a] + w[i + 1..];
    assert b in rest;
    j :| 0 <= j < |rest| && rest[j] == b;
  }

  /** The containers of `a` that are noticed, in the order they come in, then `a`, then
      the others: up to `a` no segment waits for a later one. */
  lemma ContainersSettled(w: seq<Segment>, a: Segment, rest: seq<Segment>)
    requires forall x :: x in rest ==> x in Part(w, a, false)
    ensures var p := Ordered(Part(w, a, true)); SettledTo(p + [a] + rest, |p| + 1)
  {
    var p := Ordered(Part(w, a, true));
    var v := p + [a] + rest;
    OrderedIsOrdered(Part(w, a, true));
    OrderedPermutes(Part(w, a, true));
    hide Ordered, Part, Includes;
    assert forall i :: |p| < i < |v| ==> v[i] in rest;
    forall k: nat, j: nat | k <= |p| && j < |v| && IsSubsequenceOf(v[k], v[j]) ensures j < k {
      if k < |p| {
        assert v[k] == p[k] && p[k] in multiset(p);
        assert v[k] in Part(w, a, true);
        IncludesTransitive(v[j].sections, v[k].sections, a.sections);
      }
      assert IsSubsequenceOf(a, v[j]);
      assert v[j] !in rest;
    }
  }

  /** In that order `a` is not rotated, so a container that follows it comes too late. */
  lemma UnnoticedShows(w: seq<Segment>, a: Segment, b: Segment) returns (v: seq<Segment>)
    requires a in w && b in w && Contains(b, a) && !IsSubsequenceOf(a, b)
    ensures multiset(v) == multiset(w) && !LargerFirst(Ordered(v))
  {
    NotItself(a);
    var p := Ordered(Part(w, a, true));
    var rest, j := TakeOut(Part(w, a, false), a, b);
    hide *;
    v := p + [a] + rest;
    OrderPermutes(w, a, p, rest);
    ContainersSettled(w, a, rest);
    TooLate(v, |p|, |p| + 1 + j);
  }

  lemma OrderPermutes(w: seq<Segment>, a: Segment, p: seq<Segment>, rest: seq<Segment>)
    requires p == Ordered(Part(w, a, true)) && multiset([a] + rest) == multiset(Part(w, a, false))
    ensures multiset(p + [a] + rest) == multiset(w)
  {
    hide Ordered, Part;
    OrderedPermutes(Part(w, a, true));
    PartsPermute(w, a);
    assert p + [a] + rest == p + ([a] + rest);
  }

  lemma TooLate(v: seq<Segment>, k: nat, j: nat)
    requires SettledTo(v, k + 1) && k < j < |v| && Contains(v[j], v[k]) && !IsSubsequenceOf(v[k], v[j])
    ensures !LargerFirst(Ordered(v))
  {
    SettledPass(v, k + 1, k);
    assert !Before(v, j, k);
    hide Before, Ordered, IsSubsequenceOf, Contains;
    LargerFirstIff(v);
  }

  /** All strict containments being noticed is exactly what makes the rotation put no
      segment before one that strictly contains its sections, in whatever order the
      worklist is when it starts. */
  lemma NoticedIff(w: seq<Segment>)
    ensures Noticed(w) <==> forall v :: multiset(v) == multiset(w) ==> LargerFirst(Ordered(v))
  {
    if Noticed(w) {
      forall v | multiset(v) == multiset(w) ensures LargerFirst(Ordered(v)) {
        NoneBeforeItsContainer(w, v);
      }
    } else {
      var a, b :| a in w && b in w && Contains(b, a) && !IsSubsequenceOf(a, b);
      var v := UnnoticedShows(w, a, b);
    }
  }

  lemma NoneBeforeItsContainer(w: seq<Segment>, v: seq<Segment>)
    requires Noticed(w) && multiset(v) == multiset(w)
    ensures LargerFirst(Ordered(v))
  {
    OrderedIsOrdered(v);
    OrderedPermutes(v);
    forall i, j | 0 <= i < j < |Ordered(v)| ensures !Contains(Ordered(v)[j], Ordered(v)[i]) {
      assert Ordered(v)[i] in multiset(w) && Ordered(v)[j] in multiset(w);
    }
  }

  /** Sorted section lists are enough. */
  lemma SortedNoticed(w: seq<Segment>)
    requires forall k :: 0 <= k < |w| ==> Sorted(w[k].sections)
    ensures Noticed(w)
  {
    forall a, b | a in w && b in w && multiset(a.sections) < multiset(b.sections) ensures IsSubsequenceOf(a, b) {
      IncludesIff(b.sections, a.sections);
      ProperIsShorter(a.sections, b.sections);
    }
  }

  /** And being noticed is needed: it alone puts the container first when it was
      added last. */
  lemma PairIff(a: Segment, b: Segment)
    requires multiset(a.sections) < multiset(b.sections)
    ensures IsSubsequenceOf(a, b) <==> Ordered([a, b]) == [b, a]
    ensures !IsSubsequenceOf(a, b) <==> Ordered([a, b]) == [a, b]
  {
    ProperIsShorter(a.sections, b.sections);
    assert [a, b][1..] == [b] && [b][1..] == [] && [b, a][1..] == [a] && [a][1..] == [];
    assert [b] + [a] == [b, a] && [a] + [b] == [a, b];
    assert HasContainer(a, [b]) <==> IsSubsequenceOf(a, b) by {
      assert [b][0] == b;
    }
    assert !HasContainer(b, [a]);
    UnrelatedStay([a]);
    UnrelatedStay([b]);
    if IsSubsequenceOf(a, b) {
      RotationAdvances([a, b]);
    }
  }

  lemma ProperIsShorter(a: seq<nat>, b: seq<nat>)
    requires multiset(a) < multiset(b)
    ensures |a| < |b|
  {
    var rest := multiset(b) - multiset(a);
    assert multiset(b) == multiset(a) + rest;
    assert |multiset(a)| == |a| && |multiset(b)| == |b|;
    assert rest != multiset{};
  }

  /** Segments of which none contains another keep their order. */
  lemma {:induction false} UnrelatedStay(w: seq<Segment>)
    requires forall i, j :: 0 <= i < j < |w| ==> !IsSubsequenceOf(w[i], w[j])
    ensures Ordered(w) == w
  {
    hide IsSubsequenceOf, FirstOf, Largest;
    if w != [] {
      assert forall j :: 0 <= j < |w[1..]| ==> w[1..][j] == w[j + 1];
      UnrelatedStay(w[1..]);
    }
  }

  // ---------- Offset 0 to the front ----------

  predicate AtZero(a: Segment) { a.offsetSet && a.offset == 0 }

  function Swapped(w: seq<Segment>, i: nat, j: nat): (s: seq<Segment>)
    requires i < |w| && j < |w|
    ensures |s| == |w|
  {
    w[i := w[j]][j := w[i]]
  }

  /** The loop that brings segments at offset 0 to the front, from position `i` on. */
  function Fronted(w: seq<Segment>, i: nat, nextSlot: nat): (f: seq<Segment>)
    requires nextSlot <= i
    decreases |w| - i
  {
    if i >= |w| then w
    else if i != nextSlot && AtZero(w[i]) then Fronted(Swapped(w, i, nextSlot), i + 1, nextSlot + 1)
    else Fronted(w, i + 1, nextSlot)
  }

  lemma {:induction false} FrontedPermutes(w: seq<Segment>, i: nat, nextSlot: nat)
    requires nextSlot <= i
    ensures multiset(Fronted(w, i, nextSlot)) == multiset(w)
    decreases |w| - i
  {
    if i < |w| {
      if i != nextSlot && AtZero(w[i]) {
        assert multiset(Swapped(w, i, nextSlot)) == multiset(w);
        FrontedPermutes(Swapped(w, i, nextSlot), i + 1, nextSlot + 1);
      } else {
        FrontedPermutes(w, i + 1, nextSlot);
      }
    }
  }

  lemma SwappedIs(w: seq<Segment>, i: nat, j: nat)
    requires j < i < |w|
    ensures Swapped(w, i, j)[j] == w[i] && Swapped(w, i, j)[i] == w[j]
    ensures forall k {:trigger Swapped(w, i, j)[k]} :: 0 <= k < |w| && k != i && k != j ==> Swapped(w, i, j)[k] == w[k]
    ensures Swapped(w, i, j)[i + 1..] == w[i + 1..]
  {
  }

  ghost predicate ZerosFirst(w: seq<Segment>) {
    forall i, j :: 0 <= i < j < |w| && AtZero(w[j]) ==> AtZero(w[i])
  }

  ghost predicate Split(w: seq<Segment>, i: nat, nextSlot: nat) {
    && nextSlot <= i <= |w| && (forall k :: 0 <= k < nextSlot ==> AtZero(w[k]))
    && forall k :: nextSlot <= k < i ==> !AtZero(w[k])
  }

  lemma SplitSwapped(w: seq<Segment>, i: nat, nextSlot: nat)
    requires nextSlot < i < |w| && Split(w, i, nextSlot) && AtZero(w[i])
    ensures Split(Swapped(w, i, nextSlot), i + 1, nextSlot + 1)
  {
    SwappedIs(w, i, nextSlot);
    hide Swapped;
  }

  /** They all come to the front if the first segment is not one of them. */
  lemma {:induction false} FrontedZeros(w: seq<Segment>, i: nat, nextSlot: nat)
    requires nextSlot < i && Split(w, i, nextSlot)
    ensures ZerosFirst(Fronted(w, i, nextSlot))
    decreases |w| - i
  {
    if i < |w| {
      if AtZero(w[i]) {
        SplitSwapped(w, i, nextSlot);
        FrontedZeros(Swapped(w, i, nextSlot), i + 1, nextSlot + 1);
      } else {
        FrontedZeros(w, i + 1, nextSlot);
      }
    }
  }

  lemma FrontedIfFirstIsNot(w: seq<Segment>)
    requires w != [] ==> !AtZero(w[0])
    ensures ZerosFirst(Fronted(w, 0, 0))
  {
    if w != [] {
      FrontedZeros(w, 1, 0);
    }
  }

  /** If it is, the loop skips it, and the next one at offset 0 takes its slot. This
      is how many segments then stand between the slots filled and the one that lost
      its slot, after `rest` has been gone through; `others` are not at offset 0. */
  function Behind(rest: seq<Segment>, others: nat, distance: nat): nat {
    if rest == [] then distance
    else if AtZero(rest[0]) then Behind(rest[1..], others, if distance == 0 then others else distance - 1)
    else Behind(rest[1..], others + 1, distance)
  }

  /** The segment at `p` has lost its slot. */
  ghost predicate SplitBut(w: seq<Segment>, i: nat, nextSlot: nat, p: nat) {
    && nextSlot <= p < i <= |w| && (forall k :: 0 <= k < nextSlot ==> AtZero(w[k])) && AtZero(w[p])
    && forall k :: nextSlot <= k < i && k != p ==> !AtZero(w[k])
  }

  lemma {:induction false} FrontedBut(w: seq<Segment>, i: nat, nextSlot: nat, p: nat)
    requires SplitBut(w, i, nextSlot, p) && nextSlot <= p < i <= |w|
    ensures ZerosFirst(Fronted(w, i, nextSlot)) <==> Behind(w[i..], i - nextSlot - 1, p - nextSlot) == 0
    decreases |w| - i
  {
    hide Swapped;
    if i < |w| {
      assert w[i..][1..] == w[i + 1..];
      if AtZero(w[i]) {
        SwappedIs(w, i, nextSlot);
        SplitButSwapped(w, i, nextSlot, p);
        FrontedBut(Swapped(w, i, nextSlot), i + 1, nextSlot + 1, if p == nextSlot then i else p);
      } else {
        FrontedBut(w, i + 1, nextSlot, p);
      }
    } else {
      BehindAtEnd(w, nextSlot, p);
    }
  }

  lemma BehindAtEnd(w: seq<Segment>, nextSlot: nat, p: nat)
    requires SplitBut(w, |w|, nextSlot, p)
    ensures ZerosFirst(w) <==> p == nextSlot
  {
    if p > nextSlot {
      assert !AtZero(w[nextSlot]);
    }
  }

  lemma SplitButSwapped(w: seq<Segment>, i: nat, nextSlot: nat, p: nat)
    requires i < |w| && SplitBut(w, i, nextSlot, p) && AtZero(w[i])
    ensures SplitBut(Swapped(w, i, nextSlot), i + 1, nextSlot + 1, if p == nextSlot then i else p)
  {
    SwappedIs(w, i, nextSlot);
    hide Swapped;
  }

  /** Exactly when all segments at offset 0 come to the front. */
  lemma FrontedIff(w: seq<Segment>)
    ensures ZerosFirst(Fronted(w, 0, 0)) <==> w == [] || !AtZero(w[0]) || Behind(w[1..], 0, 0) == 0
  {
    if w == [] || !AtZero(w[0]) {
      FrontedIfFirstIsNot(w);
    } else {
      FrontedBut(w, 1, 0, 0);
    }
  }

  /** One at offset 0 is left behind. */
  lemma FirstIsLeftBehind()
    ensures var z, y, a := Segment([1], true, 0), Segment([2], true, 0), Segment([3], true, 8);
            Fronted([z, a, y], 0, 0) == [y, a, z] && !ZerosFirst([y, a, z])
  {
    var z, y, a := Segment([1], true, 0), Segment([2], true, 0), Segment([3], true, 8);
    assert Swapped([z, a, y], 2, 0) == [y, a, z];
    assert Fronted([z, a, y], 2, 0) == [y, a, z];
    assert Fronted([z, a, y], 1, 0) == Fronted([z, a, y], 2, 0);
    assert AtZero([y, a, z][2]) && !AtZero([y, a, z][1]);
  }

  /** Of two segments the second comes to the front if its offset is known to be 0, and only
      then. */
  lemma SecondToFront(a: Segment, b: Segment)
    ensures Fronted([a, b], 0, 0) == if b.offsetSet && b.offset == 0 then [b, a] else [a, b]
  {
    assert Swapped([a, b], 1, 0) == [b, a];
    assert Fronted([a, b], 2, 0) == [a, b] && Fronted([b, a], 2, 1) == [b, a];
    assert Fronted([a, b], 1, 0) == if b.offsetSet && b.offset == 0 then Fronted([b, a], 2, 1) else Fronted([a, b], 2, 0);
  }

  // ---------- Both loops ----------

  lemma {:induction false} NothingFronted(w: seq<Segment>, i: nat, nextSlot: nat)
    requires nextSlot <= i && forall k :: i <= k < |w| ==> !AtZero(w[k])
    ensures Fronted(w, i, nextSlot) == w
    decreases |w| - i
  {
    if i < |w| {
      NothingFronted(w, i + 1, nextSlot);
    }
  }

  /** Without a segment at offset 0 the worklist may be in any order, and being noticed
      is exactly what it takes for the whole function, too. */
  lemma NoticedIffOrdered(w: seq<Segment>)
    requires forall a :: a in w ==> !AtZero(a)
    ensures Noticed(w) <==> forall v :: multiset(v) == multiset(w) ==> LargerFirst(Ordered(Fronted(v, 0, 0)))
  {
    hide Noticed, LargerFirst, Ordered;
    NoticedIff(w);
    if Noticed(w) {
      forall v | multiset(v) == multiset(w) ensures LargerFirst(Ordered(Fronted(v, 0, 0))) {
        NoneFronted(w, v);
      }
    } else {
      var v :| multiset(v) == multiset(w) && !LargerFirst(Ordered(v));
      NoneFronted(w, v);
    }
  }

  lemma NoneFronted(w: seq<Segment>, v: seq<Segment>)
    requires multiset(v) == multiset(w) && forall a :: a in w ==> !AtZero(a)
    ensures Fronted(v, 0, 0) == v
  {
    forall k | 0 <= k < |v| ensures !AtZero(v[k]) {
      assert v[k] in multiset(w);
    }
    NothingFronted(v, 0, 0);
  }

  /** A segment at offset 0 may be the container of another, and come first in every
      order because of that: then the containment need not be noticed. */
  lemma FrontedUnnoticed()
    ensures var a, b := Segment([2], true, 8), Segment([3, 2], true, 0);
            && Contains(b, a) && !IsSubsequenceOf(a, b)
            && forall v :: multiset(v) == multiset([a, b]) ==> LargerFirst(Ordered(Fronted(v, 0, 0)))
  {
    var a, b := Segment([2], true, 8), Segment([3, 2], true, 0);
    assert multiset([3, 2]) == multiset([2]) + multiset{3};
    assert Contains(b, a) && !IsSubsequenceOf(a, b) && !Contains(a, b) && !IsSubsequenceOf(b, a) && AtZero(b) && !AtZero(a);
    hide *;
    forall v | multiset(v) == multiset([a, b]) ensures LargerFirst(Ordered(Fronted(v, 0, 0))) {
      TwoOrders(v, a, b);
      FrontedPair(a, b);
      StaysInOrder(b, a);
    }
  }

  lemma StaysInOrder(b: Segment, a: Segment)
    requires !IsSubsequenceOf(b, a) && !Contains(a, b)
    ensures LargerFirst(Ordered([b, a]))
  {
    hide IsSubsequenceOf, Contains, Ordered;
    UnrelatedStay([b, a]);
  }

  lemma TwoOrders(v: seq<Segment>, a: Segment, b: Segment)
    requires multiset(v) == multiset([a, b])
    ensures v == [a, b] || v == [b, a]
  {
    assert |v| == |multiset(v)| == 2;
    assert v[0] in multiset(v) && v[1] in multiset(v);
    assert v == [v[0], v[1]];
    assert multiset(v) == multiset{v[0], v[1]};
  }

  lemma FrontedPair(a: Segment, b: Segment)
    requires !AtZero(a) && AtZero(b)
    ensures Fronted([a, b], 0, 0) == [b, a] && Fronted([b, a], 0, 0) == [b, a]
  {
    assert Swapped([a, b], 1, 0) == [b, a];
    assert Fronted([b, a], 2, 1) == [b, a] && Fronted([b, a], 2, 0) == [b, a];
    assert Fronted([a, b], 1, 0) == [b, a] && Fronted([b, a], 1, 0) == [b, a];
  }

  // ---------- The method ----------

  method GetOrderedSegments(segments: seq<Segment>) returns (res: seq<Segment>)
    ensures res == Ordered(Fronted(segments, 0, 0))
    ensures multiset(res) == multiset(segments) && ContainersFirst(res)
    ensures LargerFirst(res) <==> Harmless(Fronted(segments, 0, 0))
    ensures Noticed(segments) ==> LargerFirst(res)
  {
    var worklist := BringToFront(segments);
    FrontedPermutes(segments, 0, 0);
    OrderedPermutes(worklist);
    OrderedIsOrdered(worklist);
    LargerFirstIff(worklist);
    if Noticed(segments) {
      NoneBeforeItsContainer(segments, worklist);
    }
    res := Rotate(worklist);
  }

  /** The first loop: offset 0 to the front. */
  method BringToFront(segments: seq<Segment>) returns (worklist: seq<Segment>)
    ensures worklist == Fronted(segments, 0, 0)
  {
    hide Swapped, AtZero;
    worklist := segments;
    var nextSlot, i := 0, 0;
    while i < |worklist|
      invariant nextSlot <= i <= |worklist| == |segments|
      invariant Fronted(worklist, i, nextSlot) == Fronted(segments, 0, 0)
    {
      if i != nextSlot && AtZero(worklist[i]) {
        worklist, nextSlot := Swapped(worklist, i, nextSlot), nextSlot + 1;
      }
      i := i + 1;
    }
  }

  method Rotate(segments: seq<Segment>) returns (res: seq<Segment>)
    ensures res == Ordered(segments)
  {
    hide HasContainer, FirstOf, Largest;
    res := [];
    var worklist := segments;
    ghost var all := Ordered(worklist);
    while worklist != []
      invariant all == res + Ordered(worklist)
      decreases |worklist|, FirstOf(worklist, Largest(worklist))
    {
      var seg := worklist[0];
      var contained := InSomeOther(seg, worklist[1..]);
      if contained {
        RotationAdvances(worklist);
        worklist := worklist[1..] + [seg];
      } else {
        worklist := worklist[1..];
        res := res + [seg];
      }
    }
  }

  method InSomeOther(seg: Segment, worklist: seq<Segment>) returns (found: bool)
    ensures found == HasContainer(seg, worklist)
  {
    var i := 0;
    while i < |worklist|
      invariant i <= |worklist|
      invariant forall j :: 0 <= j < i ==> !IsSubsequenceOf(seg, worklist[j])
    {
      if |seg.sections| < |worklist[i].sections| {
        var includes := WalkIncludes(worklist[i].sections, seg.sections);
        if includes { return true; }
      }
      i := i + 1;
    }
    return false;
  }
}
