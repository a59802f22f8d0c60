/** The statistics computed from the counters: cover sets and region entries. */
module Statistics {
  import opened EdgeOrder
  import opened Sets
  import opened Tea
  import opened Flow
  import opened Entries
  import opened Rain

  // ---------- Cover sets ----------

  /** Regions `set` account for more than `tenths` tenths of `total`. */
  ghost predicate Covers(freq: seq<nat>, total: nat, tenths: nat, regions: set<nat>) {
    (forall r :: r in regions ==> r < |freq|) && SumIn(freq, regions, |freq|) * 10 > tenths * total
  }

  /** `k` is the least number of regions that cover; it is 0 when none do. */
  ghost predicate LeastCover(freq: seq<nat>, total: nat, tenths: nat, k: nat) {
    && (forall regions: set<nat> :: Covers(freq, total, tenths, regions) ==> 0 < k <= |regions|)
    && (k > 0 ==> exists regions: set<nat> :: |regions| == k && Covers(freq, total, tenths, regions))
  }

  datatype Coverage = Coverage(region: nat, freq: nat)

  function FirstRegions(list: seq<Coverage>, k: nat): set<nat>
    requires k <= |list|
  {
    if k == 0 then {} else FirstRegions(list, k - 1) + {list[k - 1].region}
  }

  lemma {:induction false} FirstRegionsHave(list: seq<Coverage>, k: nat, i: nat)
    requires i < k <= |list|
    ensures list[i].region in FirstRegions(list, k)
  {
    if i < k - 1 {
      FirstRegionsHave(list, k - 1, i);
    }
  }

  lemma {:induction false} FirstRegionsOnly(list: seq<Coverage>, k: nat, r: nat) returns (i: nat)
    requires k <= |list| && r in FirstRegions(list, k)
    ensures i < k && list[i].region == r
  {
    if list[k - 1].region == r {
      i := k - 1;
    } else {
      i := FirstRegionsOnly(list, k - 1, r);
    }
  }

  lemma {:induction false} FirstRegionsPrefix(list: seq<Coverage>, longer: seq<Coverage>, k: nat)
    requires list <= longer && k <= |list|
    ensures FirstRegions(longer, k) == FirstRegions(list, k)
  {
    if k > 0 {
      FirstRegionsPrefix(list, longer, k - 1);
    }
  }

  function FirstSum(list: seq<Coverage>, k: nat): nat
    requires k <= |list|
  {
    if k == 0 then 0 else FirstSum(list, k - 1) + list[k - 1].freq
  }

  ghost predicate Descending(list: seq<Coverage>) {
    forall i, j :: 0 <= i < j < |list| ==> list[i].freq >= list[j].freq
  }

  /** Every region of the list is there once, with its frequency. */
  ghost predicate Listed(freq: seq<nat>, list: seq<Coverage>) {
    && (forall i :: 0 <= i < |list| ==> list[i].region < |freq| && list[i].freq == freq[list[i].region])
    && (forall i, j :: 0 <= i < j < |list| ==> list[i].region != list[j].region)
  }

  /** The list ranks all regions that were executed. */
  ghost predicate Ranks(freq: seq<nat>, list: seq<Coverage>) {
    && Listed(freq, list) && Descending(list)
    && forall r :: 0 <= r < |freq| && freq[r] > 0 ==> r in FirstRegions(list, |list|)
  }

  lemma {:induction false} SumInSingle(freq: seq<nat>, n: nat, k: nat)
    requires k <= |freq|
    ensures SumIn(freq, {n}, k) == if n < k then freq[n] else 0
  {
    if k > 0 {
      SumInSingle(freq, n, k - 1);
    }
  }

  lemma SumInInsert(freq: seq<nat>, nodes: set<nat>, n: nat)
    requires n !in nodes && n < |freq|
    ensures SumIn(freq, nodes + {n}, |freq|) == SumIn(freq, nodes, |freq|) + freq[n]
  {
    SumInUnion(freq, nodes, {n}, |freq|);
    SumInSingle(freq, n, |freq|);
  }

  /** What is left out of a sum if it is zero does not count. */
  lemma {:induction false} SumInSame(freq: seq<nat>, a: set<nat>, b: set<nat>, k: nat)
    requires k <= |freq| && forall n :: 0 <= n < k && freq[n] > 0 ==> (n in a <==> n in b)
    ensures SumIn(freq, a, k) == SumIn(freq, b, k)
  {
    if k > 0 {
      SumInSame(freq, a, b, k - 1);
    }
  }

  lemma FirstRegionsGrow(freq: seq<nat>, list: seq<Coverage>, k: nat)
    requires Listed(freq, list) && 0 < k <= |list|
    ensures FirstRegions(list, k) == FirstRegions(list, k - 1) + {list[k - 1].region}
    ensures list[k - 1].region !in FirstRegions(list, k - 1)
  {
    if list[k - 1].region in FirstRegions(list, k - 1) {
      var i := FirstRegionsOnly(list, k - 1, list[k - 1].region);
    }
  }

  lemma {:induction false} FirstSumIs(freq: seq<nat>, list: seq<Coverage>, k: nat)
    requires Listed(freq, list) && k <= |list|
    ensures SumIn(freq, FirstRegions(list, k), |freq|) == FirstSum(list, k) && |FirstRegions(list, k)| == k
  {
    if k == 0 {
      SumInNone(freq, |freq|);
    } else {
      FirstSumIs(freq, list, k - 1);
      FirstRegionsGrow(freq, list, k);
      SumInInsert(freq, FirstRegions(list, k - 1), list[k - 1].region);
    }
  }

  lemma {:induction false} SumInNone(freq: seq<nat>, k: nat)
    requires k <= |freq|
    ensures SumIn(freq, {}, k) == 0
  {
    if k > 0 {
      SumInNone(freq, k - 1);
    }
  }

  /** No `m` regions among the first `n` of the list weigh more than its first `k`,
      for any `m <= k <= n`. */
  lemma {:induction false} FirstAreBest(freq: seq<nat>, list: seq<Coverage>, n: nat, regions: set<nat>, k: nat)
    requires Listed(freq, list) && Descending(list) && |regions| <= k <= n <= |list| && regions <= FirstRegions(list, n)
    ensures SumIn(freq, regions, |freq|) <= FirstSum(list, k)
  {
    hide FirstRegions, SumIn, Listed, Descending;
    if regions == {} {
      SumInNone(freq, |freq|);
    } else if list[n - 1].region !in regions {
      WithoutLast(freq, list, n, regions);
      FirstAreBest(freq, list, n - 1, regions, if k < n then k else k - 1);
    } else {
      var rest := regions - {list[n - 1].region};
      WithLast(freq, list, n, regions, k);
      FirstAreBest(freq, list, n - 1, rest, k - 1);
    }
  }

  lemma WithLast(freq: seq<nat>, list: seq<Coverage>, n: nat, regions: set<nat>, k: nat)
    requires Listed(freq, list) && Descending(list) && |regions| <= k <= n <= |list| && regions <= FirstRegions(list, n)
    requires n > 0 && list[n - 1].region in regions
    ensures var rest := regions - {list[n - 1].region};
            && rest <= FirstRegions(list, n - 1) && |rest| == |regions| - 1
            && SumIn(freq, regions, |freq|) == SumIn(freq, rest, |freq|) + list[n - 1].freq
            && k > 0 && list[n - 1].freq <= list[k - 1].freq
  {
    var last := list[n - 1].region;
    FirstRegionsGrow(freq, list, n);
    SumInInsert(freq, regions - {last}, last);
    assert regions - {last} + {last} == regions;
    hide FirstRegions, SumIn;
  }

  /** A set of the first `n` regions that lacks the last of them has fewer than `n`. */
  lemma WithoutLast(freq: seq<nat>, list: seq<Coverage>, n: nat, regions: set<nat>)
    requires Listed(freq, list) && n <= |list| && regions <= FirstRegions(list, n) && regions != {}
    requires n > 0 ==> list[n - 1].region !in regions
    ensures n > 0 && |regions| <= n - 1 && regions <= FirstRegions(list, n - 1)
  {
    var r :| r in regions;
    assert r in FirstRegions(list, n);
    FirstRegionsGrow(freq, list, n);
    assert regions <= FirstRegions(list, n - 1);
    FirstRegionsSize(list, n - 1);
    SubsetSize(regions, FirstRegions(list, n - 1));
  }

  lemma {:induction false} FirstRegionsSize(list: seq<Coverage>, k: nat)
    requires k <= |list|
    ensures |FirstRegions(list, k)| <= k
  {
    if k > 0 {
      FirstRegionsSize(list, k - 1);
    }
  }

  /** The number of regions the scan reports after `k` of them: the first length at
      which the threshold is passed. */
  function FirstOver(list: seq<Coverage>, total: nat, tenths: nat, k: nat): (f: nat)
    requires k <= |list|
    ensures f <= k && (f > 0 ==> FirstSum(list, f) * 10 > tenths * total)
    ensures forall j :: 0 < j <= k && (f == 0 || j < f) ==> FirstSum(list, j) * 10 <= tenths * total
  {
    if k == 0 then 0
    else
      var f := FirstOver(list, total, tenths, k - 1);
      if f == 0 && FirstSum(list, k) * 10 > tenths * total then k else f
  }

  /** The regions of a set that the list ranks weigh as much as the set, and no
      more than as many from the front of the list. */
  lemma RankedWeigh(freq: seq<nat>, list: seq<Coverage>, regions: set<nat>) returns (m: nat)
    requires Ranks(freq, list)
    ensures m <= |regions| && m <= |list| && SumIn(freq, regions, |freq|) <= FirstSum(list, m)
  {
    var executed := regions * FirstRegions(list, |list|);
    SumInSame(freq, regions, executed, |freq|);
    SubsetSize(executed, regions);
    FirstRegionsSize(list, |list|);
    SubsetSize(executed, FirstRegions(list, |list|));
    FirstAreBest(freq, list, |list|, executed, |executed|);
    m := |executed|;
  }

  /** The scan finds the least number of regions that cover, of all sets of regions. */
  lemma ScanFindsLeast(freq: seq<nat>, list: seq<Coverage>, total: nat, tenths: nat)
    requires Ranks(freq, list)
    ensures LeastCover(freq, total, tenths, FirstOver(list, total, tenths, |list|))
  {
    hide Ranks, SumIn, FirstOver;
    var k := FirstOver(list, total, tenths, |list|);
    forall regions: set<nat> | Covers(freq, total, tenths, regions) ensures 0 < k <= |regions| {
      var m := RankedWeigh(freq, list, regions);
      assert m > 0 && FirstSum(list, m) * 10 > tenths * total;
    }
    if k > 0 {
      FirstCover(freq, list, total, tenths, k);
      assert Covers(freq, total, tenths, FirstRegions(list, k));
    }
  }

  lemma FirstCover(freq: seq<nat>, list: seq<Coverage>, total: nat, tenths: nat, k: nat)
    requires Ranks(freq, list) && k <= |list| && FirstSum(list, k) * 10 > tenths * total
    ensures Covers(freq, total, tenths, FirstRegions(list, k)) && |FirstRegions(list, k)| == k
  {
    FirstSumIs(freq, list, k);
    forall r | r in FirstRegions(list, k) ensures r < |freq| {
      var i := FirstRegionsOnly(list, k, r);
    }
  }

  /** The instructions in the first `k` regions of the list. */
  function FirstSize(list: seq<Coverage>, sizes: seq<nat>, k: nat): nat
    requires k <= |list|
  {
    if k == 0 then 0
    else FirstSize(list, sizes, k - 1) + if list[k - 1].region < |sizes| then sizes[list[k - 1].region] else 0
  }

  lemma {:induction false} FirstSizeIs(freq: seq<nat>, sizes: seq<nat>, list: seq<Coverage>, k: nat)
    requires Listed(freq, list) && |sizes| == |freq| && k <= |list|
    ensures SumIn(sizes, FirstRegions(list, k), |sizes|) == FirstSize(list, sizes, k)
  {
    if k == 0 {
      SumInNone(sizes, |sizes|);
    } else {
      FirstSizeIs(freq, sizes, list, k - 1);
      FirstRegionsGrow(freq, list, k);
      SumInInsert(sizes, FirstRegions(list, k - 1), list[k - 1].region);
    }
  }

  /** `k` regions that cover have `instrs` instructions; none when `k` is 0. */
  ghost predicate CoverSized(freq: seq<nat>, total: nat, tenths: nat, sizes: seq<nat>, k: nat, instrs: nat) {
    if k == 0 then instrs == 0
    else exists regions: set<nat> ::
      |regions| == k && Covers(freq, total, tenths, regions) && instrs == SumIn(sizes, regions, |sizes|)
  }

  /** The instructions reported are those of a least cover set. */
  lemma ScanSizes(freq: seq<nat>, sizes: seq<nat>, list: seq<Coverage>, total: nat, tenths: nat)
    requires Ranks(freq, list) && |sizes| == |freq|
    ensures var k := FirstOver(list, total, tenths, |list|);
            CoverSized(freq, total, tenths, sizes, k, FirstSize(list, sizes, k))
  {
    hide SumIn, FirstOver;
    var k := FirstOver(list, total, tenths, |list|);
    if k > 0 {
      FirstCover(freq, list, total, tenths, k);
      FirstSizeIs(freq, sizes, list, k);
    }
  }

  // ---------- The scan ----------

  /** `allNodesFreq` of every region. */
  function RegionFreqs(s: State): (freqs: seq<nat>)
    requires SizesOk(s)
    ensures |freqs| == |s.regions|
    ensures forall r :: 0 <= r < |freqs| ==> freqs[r] == AllNodesFreq(s, r)
  {
    seq(|s.regions|, r requires 0 <= r < |s.regions| => AllNodesFreq(s, r))
  }

  method RegionFreq(rain: RAIn, r: nat) returns (c: nat)
    requires rain.Valid() && r < |rain.regions|
    ensures c == AllNodesFreq(rain.State(), r)
  {
    c := 0;
    var rest := rain.regions[r].nodes;
    SumInNone(rain.nodeFreq, |rain.nodeFreq|);
    assert rain.regions[r].nodes - rest == {};
    while rest != {}
      invariant rest <= rain.regions[r].nodes
      invariant c == SumIn(rain.nodeFreq, rain.regions[r].nodes - rest, |rain.nodeFreq|)
      decreases rest
    {
      var node :| node in rest;
      assert RegionOk(rain.nodes, r, rain.regions[r]);
      SumInInsert(rain.nodeFreq, rain.regions[r].nodes - rest, node);
      assert rain.regions[r].nodes - rest + {node} == rain.regions[r].nodes - (rest - {node});
      c := c + rain.nodeFreq[node];
      rest := rest - {node};
    }
    assert rain.regions[r].nodes - rest == rain.regions[r].nodes;
  }

  function Inserted(list: seq<Coverage>, i: nat, x: Coverage): (longer: seq<Coverage>)
    requires i <= |list|
    ensures |longer| == |list| + 1 && longer[i] == x
  {
    list[..i] + [x] + list[i..]
  }

  /** Where an element of the list is after the insertion. */
  function Moved(i: nat, j: nat): nat {
    if j < i then j else j + 1
  }

  lemma InsertedAt(list: seq<Coverage>, i: nat, x: Coverage, j: nat)
    requires i <= |list| && j < |list|
    ensures Inserted(list, i, x)[Moved(i, j)] == list[j]
  {
  }

  /** Every element of the longer list is the one inserted or one of the list. */
  lemma InsertedFrom(list: seq<Coverage>, i: nat, x: Coverage, k: nat) returns (j: nat)
    requires i <= |list| && k <= |list| && k != i
    ensures j < |list| && Moved(i, j) == k && Inserted(list, i, x)[k] == list[j]
  {
    j := if k < i then k else k - 1;
    InsertedAt(list, i, x, j);
  }

  lemma InsertedSorted(list: seq<Coverage>, i: nat, x: Coverage)
    requires Descending(list) && i <= |list|
    requires (forall j :: 0 <= j < i ==> list[j].freq >= x.freq) && (i < |list| ==> x.freq >= list[i].freq)
    ensures Descending(Inserted(list, i, x))
  {
    var longer := Inserted(list, i, x);
    forall k, m | 0 <= k < m < |longer| ensures longer[k].freq >= longer[m].freq {
      if k == i {
        var j := InsertedFrom(list, i, x, m);
      } else if m == i {
        var j := InsertedFrom(list, i, x, k);
      } else {
        var j := InsertedFrom(list, i, x, k);
        var n := InsertedFrom(list, i, x, m);
      }
    }
  }

  lemma InsertedLists(freq: seq<nat>, list: seq<Coverage>, i: nat, x: Coverage)
    requires Listed(freq, list) && i <= |list|
    requires x.region < |freq| && x.freq == freq[x.region] && x.region !in FirstRegions(list, |list|)
    ensures Listed(freq, Inserted(list, i, x))
  {
    var longer := Inserted(list, i, x);
    forall k | 0 <= k < |longer| ensures longer[k].region < |freq| && longer[k].freq == freq[longer[k].region] {
      if k != i {
        var j := InsertedFrom(list, i, x, k);
      }
    }
    forall k, m | 0 <= k < m < |longer| ensures longer[k].region != longer[m].region {
      InsertedDiffer(freq, list, i, x, k, m);
    }
  }

  lemma InsertedDiffer(freq: seq<nat>, list: seq<Coverage>, i: nat, x: Coverage, k: nat, m: nat)
    requires Listed(freq, list) && i <= |list| && k < m <= |list| && x.region !in FirstRegions(list, |list|)
    ensures Inserted(list, i, x)[k].region != Inserted(list, i, x)[m].region
  {
    hide FirstRegions;
    if k == i {
      var j := InsertedFrom(list, i, x, m);
      FirstRegionsHave(list, |list|, j);
    } else {
      var j := InsertedFrom(list, i, x, k);
      FirstRegionsHave(list, |list|, j);
      if m != i {
        var n := InsertedFrom(list, i, x, m);
        assert j < n;
      }
    }
  }

  lemma InsertedHas(list: seq<Coverage>, i: nat, x: Coverage, r: nat)
    requires i <= |list| && (r == x.region || r in FirstRegions(list, |list|))
    requires |Inserted(list, i, x)| == |list| + 1 && Inserted(list, i, x)[i] == x
    ensures r in FirstRegions(Inserted(list, i, x), |list| + 1)
  {
    hide FirstRegions, Inserted;
    if r == x.region {
      FirstRegionsHave(Inserted(list, i, x), |list| + 1, i);
    } else {
      var j := FirstRegionsOnly(list, |list|, r);
      InsertedAt(list, i, x, j);
      FirstRegionsHave(Inserted(list, i, x), |list| + 1, Moved(i, j));
    }
  }

  lemma InsertedOnly(list: seq<Coverage>, i: nat, x: Coverage, r: nat)
    requires i <= |list| && r in FirstRegions(Inserted(list, i, x), |list| + 1)
    requires |Inserted(list, i, x)| == |list| + 1 && Inserted(list, i, x)[i] == x
    ensures r == x.region || r in FirstRegions(list, |list|)
  {
    hide *;
    var k := FirstRegionsOnly(Inserted(list, i, x), |list| + 1, r);
    if k != i {
      var j := InsertedFrom(list, i, x, k);
      FirstRegionsHave(list, |list|, j);
    }
  }

  lemma InsertedRegions(list: seq<Coverage>, i: nat, x: Coverage)
    requires i <= |list|
    ensures FirstRegions(Inserted(list, i, x), |list| + 1) == FirstRegions(list, |list|) + {x.region}
  {
    hide FirstRegions;
    forall r | r in FirstRegions(list, |list|) + {x.region} ensures r in FirstRegions(Inserted(list, i, x), |list| + 1) {
      InsertedHas(list, i, x, r);
    }
    forall r | r in FirstRegions(Inserted(list, i, x), |list| + 1) ensures r in FirstRegions(list, |list|) + {x.region} {
      InsertedOnly(list, i, x, r);
    }
  }

  /** All regions below `k` that were executed are in the list, and no others. */
  ghost predicate ListsBelow(freq: seq<nat>, list: seq<Coverage>, k: nat) {
    && Listed(freq, list)
    && (forall i :: 0 <= i < |list| ==> list[i].region < k && list[i].freq > 0)
    && forall r :: 0 <= r < k <= |freq| && freq[r] > 0 ==> r in FirstRegions(list, |list|)
  }

  /** A region goes into the list only if it was executed. */
  function WithRegion(list: seq<Coverage>, r: nat, c: nat): seq<Coverage> {
    if c > 0 then Inserted(list, |list|, Coverage(r, c)) else list
  }

  lemma ListOne(freq: seq<nat>, list: seq<Coverage>, k: nat)
    requires k < |freq| && ListsBelow(freq, list, k)
    ensures ListsBelow(freq, WithRegion(list, k, freq[k]), k + 1)
  {
    if freq[k] > 0 {
      assert k !in FirstRegions(list, |list|) by {
        if k in FirstRegions(list, |list|) {
          var i := FirstRegionsOnly(list, |list|, k);
        }
      }
      hide FirstRegions, Inserted, Listed;
      InsertedLists(freq, list, |list|, Coverage(k, freq[k]));
      InsertedRegions(list, |list|, Coverage(k, freq[k]));
    }
  }

  /** The regions below `r` have been collected. */
  ghost predicate Collected(s: State, list: seq<Coverage>, total: nat, r: nat) {
    SizesOk(s) && r <= |s.regions| && ListsBelow(RegionFreqs(s), list, r) && total == RegionsFreq(s, r)
  }

  lemma CollectNone(s: State)
    requires SizesOk(s)
    ensures Collected(s, [], 0, 0)
  {
  }

  lemma CollectOne(s: State, list: seq<Coverage>, total: nat, r: nat, c: nat)
    requires Collected(s, list, total, r) && r < |s.regions| && c == AllNodesFreq(s, r)
    ensures Collected(s, WithRegion(list, r, c), total + c, r + 1)
  {
    hide ListsBelow, AllNodesFreq, SizesOk;
    ListOne(RegionFreqs(s), list, r);
  }

  /** The regions executed, and the frequency of all regions together. */
  method CollectRegions(rain: RAIn) returns (list: seq<Coverage>, total: nat)
    requires rain.Valid()
    ensures Collected(rain.State(), list, total, |rain.regions|)
  {
    CollectNone(rain.State());
    hide Collected, Inv, Consistent;
    list, total := [], 0;
    var r := 0;
    while r < |rain.regions|
      invariant r <= |rain.regions| && Collected(rain.State(), list, total, r)
    {
      var c := RegionFreq(rain, r);
      CollectOne(rain.State(), list, total, r, c);
      list, total, r := WithRegion(list, r, c), total + c, r + 1;
    }
  }

  /** The regions in order of coverage. */
  method SortByCoverage(list: seq<Coverage>, ghost freq: seq<nat>) returns (sorted: seq<Coverage>)
    requires Listed(freq, list)
    ensures Listed(freq, sorted) && Descending(sorted) && |sorted| == |list|
    ensures FirstRegions(sorted, |sorted|) == FirstRegions(list, |list|)
  {
    sorted := [];
    var k := 0;
    while k < |list|
      invariant k == |sorted| <= |list| && Listed(freq, sorted) && Descending(sorted)
      invariant FirstRegions(sorted, k) == FirstRegions(list, k)
    {
      FirstRegionsGrow(freq, list, k + 1);
      var i := 0;
      while i < |sorted| && sorted[i].freq >= list[k].freq
        invariant i <= |sorted|
        invariant forall j :: 0 <= j < i ==> sorted[j].freq >= list[k].freq
      {
        i := i + 1;
      }
      InsertedSorted(sorted, i, list[k]);
      InsertedLists(freq, sorted, i, list[k]);
      InsertedRegions(sorted, i, list[k]);
      sorted := Inserted(sorted, i, list[k]);
      k := k + 1;
    }
  }

  lemma {:induction false} OverStays(list: seq<Coverage>, total: nat, tenths: nat, j: nat, k: nat)
    requires j <= k <= |list| && FirstOver(list, total, tenths, j) > 0
    ensures FirstOver(list, total, tenths, k) == FirstOver(list, total, tenths, j)
  {
    if j < k {
      OverStays(list, total, tenths, j, k - 1);
    }
  }

  lemma {:induction false} PartOfTotal(s: State, r: nat, k: nat)
    requires SizesOk(s) && r < k <= |s.regions|
    ensures AllNodesFreq(s, r) <= RegionsFreq(s, k)
  {
    if r < k - 1 {
      PartOfTotal(s, r, k - 1);
    }
  }

  lemma OverNext(list: seq<Coverage>, total: nat, tenths: nat, k: nat)
    requires k < |list|
    ensures FirstSum(list, k + 1) == FirstSum(list, k) + list[k].freq
    ensures FirstOver(list, total, tenths, k + 1) ==
              if FirstOver(list, total, tenths, k) == 0 && FirstSum(list, k + 1) * 10 > tenths * total then k + 1
              else FirstOver(list, total, tenths, k)
  {
  }

  /** Once nine tenths are passed, so are eight and seven. */
  lemma OverEnds(list: seq<Coverage>, total: nat, k: nat)
    requires k <= |list| && FirstOver(list, total, 9, k) > 0
    ensures FirstOver(list, total, 7, |list|) == FirstOver(list, total, 7, k)
    ensures FirstOver(list, total, 8, |list|) == FirstOver(list, total, 8, k)
    ensures FirstOver(list, total, 9, |list|) == FirstOver(list, total, 9, k)
  {
    var j := FirstOver(list, total, 9, k);
    assert FirstSum(list, j) * 10 > 8 * total && FirstSum(list, j) * 10 > 7 * total;
    OverStays(list, total, 7, k, |list|);
    OverStays(list, total, 8, k, |list|);
    OverStays(list, total, 9, k, |list|);
  }

  /** What the scan reports for one threshold: how many regions, and how many
      instructions they have. */
  datatype CoverSet = CoverSet(regs: nat, instrs: nat)

  function CoverSetOf(list: seq<Coverage>, sizes: seq<nat>, total: nat, tenths: nat, k: nat): CoverSet
    requires k <= |list|
  {
    var f := FirstOver(list, total, tenths, k);
    CoverSet(f, FirstSize(list, sizes, f))
  }

  /** One more region, and its effect on a cover set. */
  lemma CoverSetNext(list: seq<Coverage>, sizes: seq<nat>, total: nat, tenths: nat, k: nat)
    requires k < |list| && list[k].region < |sizes|
    ensures FirstSum(list, k + 1) == FirstSum(list, k) + list[k].freq
    ensures FirstSize(list, sizes, k + 1) == FirstSize(list, sizes, k) + sizes[list[k].region]
    ensures var c := CoverSetOf(list, sizes, total, tenths, k);
            CoverSetOf(list, sizes, total, tenths, k + 1) ==
              if c.regs == 0 && FirstSum(list, k + 1) * 10 > tenths * total
              then CoverSet(k + 1, FirstSize(list, sizes, k + 1)) else c
  {
    OverNext(list, total, tenths, k);
    hide FirstOver;
  }

  lemma CoverSetsNone(list: seq<Coverage>, sizes: seq<nat>, total: nat)
    ensures FirstSum(list, 0) == 0 && FirstSize(list, sizes, 0) == 0
    ensures forall tenths: nat :: CoverSetOf(list, sizes, total, tenths, 0) == CoverSet(0, 0)
  {
  }

  lemma CoverSetsEnd(list: seq<Coverage>, sizes: seq<nat>, total: nat, k: nat)
    requires k <= |list| && CoverSetOf(list, sizes, total, 9, k).regs > 0
    ensures CoverSetOf(list, sizes, total, 7, |list|) == CoverSetOf(list, sizes, total, 7, k)
    ensures CoverSetOf(list, sizes, total, 8, |list|) == CoverSetOf(list, sizes, total, 8, k)
    ensures CoverSetOf(list, sizes, total, 9, |list|) == CoverSetOf(list, sizes, total, 9, k)
  {
    OverEnds(list, total, k);
  }

  /** One pass over the regions in order of coverage, up to the one that passes nine tenths. */
  method Scan(list: seq<Coverage>, sizes: seq<nat>, total: nat) returns (cover70: CoverSet, cover80: CoverSet, cover90: CoverSet)
    requires (list != [] ==> total > 0) && forall i :: 0 <= i < |list| ==> list[i].region < |sizes|
    ensures cover70 == CoverSetOf(list, sizes, total, 7, |list|)
    ensures cover80 == CoverSetOf(list, sizes, total, 8, |list|)
    ensures cover90 == CoverSetOf(list, sizes, total, 9, |list|)
  {
    CoverSetsNone(list, sizes, total);
    hide CoverSetOf, FirstSum, FirstSize;
    cover70, cover80, cover90 := CoverSet(0, 0), CoverSet(0, 0), CoverSet(0, 0);
    var acc, covNumRegs, covNumInst := 0, 0, 0;
    while covNumRegs < |list|
      invariant covNumRegs <= |list| && acc == FirstSum(list, covNumRegs) && covNumInst == FirstSize(list, sizes, covNumRegs)
      invariant cover70 == CoverSetOf(list, sizes, total, 7, covNumRegs)
      invariant cover80 == CoverSetOf(list, sizes, total, 8, covNumRegs)
      invariant cover90 == CoverSetOf(list, sizes, total, 9, covNumRegs) == CoverSet(0, 0)
    {
      CoverSetNext(list, sizes, total, 7, covNumRegs);
      CoverSetNext(list, sizes, total, 8, covNumRegs);
      CoverSetNext(list, sizes, total, 9, covNumRegs);
      acc := acc + list[covNumRegs].freq;
      // The source asserts that it does not divide by zero.
      assert total != 0;
      covNumInst := covNumInst + sizes[list[covNumRegs].region];
      covNumRegs := covNumRegs + 1;
      if acc * 10 > 7 * total && cover70.regs == 0 {
        cover70 := CoverSet(covNumRegs, covNumInst);
      }
      if acc * 10 > 8 * total && cover80.regs == 0 {
        cover80 := CoverSet(covNumRegs, covNumInst);
      }
      if acc * 10 > 9 * total {
        cover90 := CoverSet(covNumRegs, covNumInst);
        CoverSetsEnd(list, sizes, total, covNumRegs);
        break;
      }
    }
  }

  /** A cover set that is reported: the least number of regions that cover, and how
      many instructions as many covering regions have. */
  ghost predicate Reported(freq: seq<nat>, total: nat, tenths: nat, sizes: seq<nat>, c: CoverSet) {
    LeastCover(freq, total, tenths, c.regs) && CoverSized(freq, total, tenths, sizes, c.regs, c.instrs)
  }

  /** Exactly seven tenths are not enough. */
  lemma ExactlyIsNotEnough()
    ensures LeastCover([0, 7, 2], 10, 7, 2) && !LeastCover([0, 7, 2], 10, 7, 1) && LeastCover([0, 8, 2], 10, 7, 1)
  {
    var two, one := [Coverage(1, 7), Coverage(2, 2)], [Coverage(1, 8), Coverage(2, 2)];
    CoverOfTwo([0, 7, 2], two);
    CoverOfTwo([0, 8, 2], one);
    var regions: set<nat> :| |regions| == 2 && Covers([0, 7, 2], 10, 7, regions);
  }

  lemma CoverOfTwo(freq: seq<nat>, list: seq<Coverage>)
    requires |freq| == 3 && freq[0] == 0 && 7 <= freq[1] <= 8 && freq[2] == 2
    requires list == [Coverage(1, freq[1]), Coverage(2, freq[2])]
    ensures LeastCover(freq, 10, 7, if freq[1] == 8 then 1 else 2)
  {
    assert FirstRegions(list, 0) == {} && FirstRegions(list, 1) == {1} && FirstRegions(list, 2) == {1, 2};
    assert FirstSum(list, 1) == freq[1] && FirstSum(list, 2) == freq[1] + 2;
    assert FirstOver(list, 10, 7, 0) == 0;
    assert FirstOver(list, 10, 7, 1) == if freq[1] == 8 then 1 else 0;
    assert FirstOver(list, 10, 7, 2) == if freq[1] == 8 then 1 else 2;
    ScanFindsLeast(freq, list, 10, 7);
  }

  lemma ScanReports(freq: seq<nat>, sizes: seq<nat>, list: seq<Coverage>, total: nat, tenths: nat)
    requires Ranks(freq, list) && |sizes| == |freq|
    ensures Reported(freq, total, tenths, sizes, CoverSetOf(list, sizes, total, tenths, |list|))
  {
    ScanFindsLeast(freq, list, total, tenths);
    ScanSizes(freq, sizes, list, total, tenths);
  }

  /** The number of nodes of every region. */
  function RegionSizes(regions: seq<Region>): (sizes: seq<nat>)
    ensures |sizes| == |regions| && forall r :: 0 <= r < |regions| ==> sizes[r] == |regions[r].nodes|
  {
    seq(|regions|, r requires 0 <= r < |regions| => |regions[r].nodes|)
  }

  /** The cover sets reported: the least numbers of regions that account for more
      than 70, 80 and 90 percent of all executed instructions. */
  method CoverSets(rain: RAIn) returns (cover70: CoverSet, cover80: CoverSet, cover90: CoverSet)
    requires rain.Valid()
    ensures var s, sizes := rain.State(), RegionSizes(rain.regions);
            && Reported(RegionFreqs(s), s.executed, 7, sizes, cover70)
            && Reported(RegionFreqs(s), s.executed, 8, sizes, cover80)
            && Reported(RegionFreqs(s), s.executed, 9, sizes, cover90)
  {
    ghost var s, freq := rain.State(), RegionFreqs(rain.State());
    var list, totalRegFreq := CollectRegions(rain);
    Accounting(s, rain.history, rain.loopInit);
    var total, sizes := totalRegFreq + rain.nodeFreq[NTE], RegionSizes(rain.regions);
    var sorted := SortByCoverage(list, freq);
    if list != [] {
      PartOfTotal(s, list[0].region, |s.regions|);
    }
    cover70, cover80, cover90 := Scan(sorted, sizes, total);
    hide Reported;
    ScanReports(freq, sizes, sorted, total, 7);
    ScanReports(freq, sizes, sorted, total, 8);
    ScanReports(freq, sizes, sorted, total, 9);
  }

  // ---------- External entries ----------

  /** `list` holds the edges that lead to a node in `targets` from outside region `r`. */
  ghost predicate ExternalInto(s: State, r: nat, targets: set<nat>, list: seq<nat>) {
    && Distinct(list)
    && forall e :: e in list <==> 0 < e && ComesFromOutside(s, r, e) && s.edges[e].tgt in targets
  }

  ghost predicate ComesFromOutside(s: State, r: nat, e: nat) {
    e < |s.edges| && RegionOf(s.nodes, s.edges[e].src) != r
  }

  /** `externalEntriesFreq`. */
  method ExternalEntriesFreq(rain: RAIn, r: nat) returns (c: nat)
    requires rain.Valid() && 0 < r < |rain.regions|
    ensures exists list :: ExternalInto(rain.State(), r, rain.regions[r].entryNodes, list) && c == Sum(rain.edgeFreq, list)
  {
    c := 0;
    ghost var list := [];
    var rest := rain.regions[r].entryNodes;
    while rest != {}
      invariant rest <= rain.regions[r].entryNodes && c == Sum(rain.edgeFreq, list)
      invariant ExternalInto(rain.State(), r, rain.regions[r].entryNodes - rest, list)
      decreases rest
    {
      var node :| node in rest;
      c, list := AddInEdges(rain, r, node, c, rain.regions[r].entryNodes - rest, list);
      assert rain.regions[r].entryNodes - rest + {node} == rain.regions[r].entryNodes - (rest - {node});
      rest := rest - {node};
    }
    assert rain.regions[r].entryNodes - rest == rain.regions[r].entryNodes;
  }

  /** The edges from outside that lead to one node. */
  method AddInEdges(rain: RAIn, r: nat, node: nat, before: nat, ghost targets: set<nat>, ghost counted: seq<nat>)
    returns (c: nat, ghost list: seq<nat>)
    requires rain.Valid() && 0 < r < |rain.regions| && node in rain.regions[r].nodes && node !in targets
    requires before == Sum(rain.edgeFreq, counted) && ExternalInto(rain.State(), r, targets, counted)
    ensures c == Sum(rain.edgeFreq, list) && ExternalInto(rain.State(), r, targets + {node}, list)
  {
    hide Consistent;
    assert RegionOk(rain.nodes, r, rain.regions[r]);
    var ins := rain.inEdges[node];
    assert IsInList(rain.edges, node, ins);
    c, list := before, counted;
    var i := 0;
    while i < |ins|
      invariant i <= |ins| && c == Sum(rain.edgeFreq, list) && Distinct(list)
      invariant forall e :: e in list <==> e in counted || (e in ins[..i] && ComesFromOutside(rain.State(), r, e))
    {
      assert ins[i] in ins && ins[i] !in ins[..i];
      assert ins[..i + 1] == ins[..i] + [ins[i]];
      if rain.nodes[rain.edges[ins[i]].src].region != rain.nodes[rain.edges[ins[i]].tgt].region {
        assert ([ins[i]] + list)[1..] == list;
        c, list := c + rain.edgeFreq[ins[i]], [ins[i]] + list;
      }
      i := i + 1;
    }
    assert ins[..i] == ins;
  }

  /** What is counted are traversals into the region from outside. */
  lemma ExternalEdges(s: State, r: nat, list: seq<nat>)
    requires Inv(s) && 0 < r < |s.regions| && ExternalInto(s, r, s.regions[r].entryNodes, list)
    ensures forall e :: e in list ==> 0 < e < |s.edges| && Is(Entering(r), HopAlong(s, e))
    ensures forall e: nat :: 0 < e < |s.edges| && Is(Entering(r), HopAlong(s, e)) && e !in list ==>
              s.edges[e].tgt !in s.regions[r].entryNodes
  {
    assert RegionOk(s.nodes, r, s.regions[r]);
    hide RegionsOk, NodesOk, InnerOk;
  }

  /** The number reported is that of the times the region was entered from outside, and
      one for each edge counted, exactly when it was only entered at entry nodes. */
  lemma ExternalEntriesIff(s: State, h: seq<Hop>, loopInit: nat, r: nat, list: seq<nat>)
    requires Inv(s) && Consistent(s, h, loopInit)
    requires 0 < r < |s.regions| && ExternalInto(s, r, s.regions[r].entryNodes, list)
    ensures Sum(s.edgeFreq, list) == Tally(h, Entering(r)) + |list| <==>
              forall i :: 0 <= i < |h| && Is(Entering(r), h[i]) ==> h[i].tgt in s.regions[r].entryNodes
  {
    ExternalEdges(s, r, list);
    assert forall i :: 0 <= i < |list| ==> list[i] in list;
    CountersAddUp(s, h, loopInit, list);
    hide Inv;
    forall i | 0 <= i < |h| ensures HopOf(s, h[i]) && (Is(Among(list), h[i]) ==> Is(Entering(r), h[i])) {
      assert HopOf(s, h[i]);
      assert h[i].edge in list ==> HopAlong(s, h[i].edge) == h[i];
    }
    TallyWithin(h, Among(list), Entering(r));
    forall i | 0 <= i < |h| && Is(Entering(r), h[i])
      ensures h[i].edge in list <==> h[i].tgt in s.regions[r].entryNodes
    {
      LandsInList(s, r, list, h[i]);
    }
  }

  lemma LandsInList(s: State, r: nat, list: seq<nat>, hop: Hop)
    requires Inv(s) && 0 < r < |s.regions| && ExternalInto(s, r, s.regions[r].entryNodes, list)
    requires HopOf(s, hop) && Is(Entering(r), hop)
    ensures hop.edge in list <==> hop.tgt in s.regions[r].entryNodes
  {
    hide RegionsOk, InnerOk, OutsOk, InsOk, CacheOk, Deterministic;
  }

  /** While all entries are intact that is always so. */
  lemma ExternalEntriesExact(s: State, h: seq<Hop>, loopInit: nat, r: nat, list: seq<nat>)
    requires Inv(s) && Consistent(s, h, loopInit) && EntriesIntact(s)
    requires 0 < r < |s.regions| && ExternalInto(s, r, s.regions[r].entryNodes, list)
    ensures Sum(s.edgeFreq, list) == Tally(h, Entering(r)) + |list|
  {
    ExternalEntriesIff(s, h, loopInit, r, list);
    forall i | 0 <= i < |h| && Is(Entering(r), h[i]) ensures h[i].tgt in s.regions[r].entryNodes {
      assert HopOf(s, h[i]);
      EntersAtEntryNode(s, r, h[i]);
    }
  }

  lemma EntersAtEntryNode(s: State, r: nat, hop: Hop)
    requires Inv(s) && EntriesIntact(s) && 0 < r < |s.regions| && HopOf(s, hop) && Is(Entering(r), hop)
    ensures hop.tgt in s.regions[r].entryNodes
  {
    assert FromOutside(s.nodes, s.edges, hop.edge);
    assert LandsOnEntry(s.nodes, s.edges, s.entries, hop.edge);
  }
}
