/** Day 12: a garden of plots, one plant letter per plot. Orthogonally
    adjacent plots with the same plant form a region; the price of a region
    is its area (number of plots) times its perimeter, and the answer is the
    sum of the prices. Regions are found by a row-major scan that opens a
    region at the first unassigned plot and spreads it to same-plant
    neighbours until nothing changes. */
module Day12 {
  import opened GoText

  /** The regionID of a plot that belongs to no region yet. */
  const Unassigned: int := -1

  /** The top, right, bottom and left neighbours of a plot, in that order. */
  function Neighbours(p: (int, int)): seq<(int, int)>
  {
    [(p.0 - 1, p.1), (p.0, p.1 + 1), (p.0 + 1, p.1), (p.0, p.1 - 1)]
  }

  predicate Adjacent(p: (int, int), q: (int, int))
  {
    q in Neighbours(p)
  }

  lemma AdjacentSymmetric(p: (int, int), q: (int, int))
    requires Adjacent(p, q)
    ensures Adjacent(q, p)
  {
  }

  /** Every line has the width of the first line. */
  predicate Rectangular(rows: seq<string>)
  {
    |rows| > 0 && forall i :: 0 <= i < |rows| ==> |rows[i]| == |rows[0]|
  }

  /** The plant of plot p; only consulted for plots inside the grid. */
  function PlantAt(rows: seq<string>, p: (int, int)): char
  {
    if 0 <= p.0 < |rows| && 0 <= p.1 < |rows[p.0]| then rows[p.0][p.1] else ' '
  }

  /** Every plot of the list after the first is adjacent to an earlier one,
      so the plots of the list are connected. */
  predicate Linked(s: seq<(int, int)>)
  {
    forall i :: 0 < i < |s| ==> JoinsEarlier(s, i)
  }

  /** s[i] is adjacent to some plot listed before it. */
  predicate JoinsEarlier(s: seq<(int, int)>, i: int)
    requires 0 <= i < |s|
  {
    exists j :: 0 <= j < i && Adjacent(s[j], s[i])
  }

  /** The in-grid neighbours of p, in the order top, right, bottom, left. */
  function InBoundsNeighbours(p: (int, int), h: int, w: int): (r: seq<(int, int)>)
    ensures forall q :: q in r <==> q in Neighbours(p) && 0 <= q.0 < h && 0 <= q.1 < w
  {
    var ns := Neighbours(p);
    (if 0 <= ns[0].0 < h && 0 <= ns[0].1 < w then [ns[0]] else []) +
    (if 0 <= ns[1].0 < h && 0 <= ns[1].1 < w then [ns[1]] else []) +
    (if 0 <= ns[2].0 < h && 0 <= ns[2].1 < w then [ns[2]] else []) +
    (if 0 <= ns[3].0 < h && 0 <= ns[3].1 < w then [ns[3]] else [])
  }

  lemma AppendKeepsNoDuplicates(l: seq<(int, int)>, q: (int, int))
    requires NoDuplicates(l) && q !in l
    ensures NoDuplicates(l + [q])
  {
    var s := l + [q];
    forall a, b | 0 <= a < b < |s|
      ensures s[a] != s[b]
    {
      assert s[a] == l[a];
      if b < |l| {
        assert s[b] == l[b];
      }
    }
  }

  /** Appending a plot adjacent to a listed one keeps the list connected. */
  lemma AppendKeepsLinked(l: seq<(int, int)>, q: (int, int), from: nat)
    requires from < |l| && Adjacent(l[from], q) && Linked(l)
    ensures Linked(l + [q])
  {
    var s := l + [q];
    forall i | 0 < i < |s|
      ensures JoinsEarlier(s, i)
    {
      if i < |l| {
        assert JoinsEarlier(l, i);
        var j :| 0 <= j < i && Adjacent(l[j], l[i]);
        assert s[j] == l[j] && s[i] == l[i];
      } else {
        assert s[from] == l[from] && s[i] == q;
      }
    }
  }

  /** The plot list of a region: non-empty, without repeats, connected,
      inside an h by w grid and all of one plant. */
  predicate RegionList(l: seq<(int, int)>, rows: seq<string>, h: int, w: int)
  {
    |l| > 0 && NoDuplicates(l) && Linked(l) &&
    (forall p :: p in l ==> 0 <= p.0 < h && 0 <= p.1 < w) &&
    (forall p, q :: p in l && q in l ==> PlantAt(rows, p) == PlantAt(rows, q))
  }

  /** Appending a new in-grid plot of the same plant next to a listed plot
      keeps a region list a region list. */
  lemma AppendKeepsRegionList(l: seq<(int, int)>, q: (int, int), from: (int, int), rows: seq<string>, h: int, w: int)
    requires RegionList(l, rows, h, w) && from in l && Adjacent(from, q) && q !in l
    requires 0 <= q.0 < h && 0 <= q.1 < w && PlantAt(rows, q) == PlantAt(rows, from)
    ensures RegionList(l + [q], rows, h, w)
  {
    AppendKeepsNoDuplicates(l, q);
    var index :| 0 <= index < |l| && l[index] == from;
    AppendKeepsLinked(l, q, index);
  }

  /** (y, x) comes before (j, i) in row-major order. */
  predicate Before(y: int, x: int, j: int, i: int)
  {
    y < j || (y == j && x < i)
  }

  lemma PrefixTransitive<T>(a: seq<T>, b: seq<T>, c: seq<T>)
    requires a <= b && b <= c
    ensures a <= c
  {
    assert a == b[..|a|] == c[..|b|][..|a|];
  }

  // ------------------------------------------------------------ perimeter

  /** The number of in-grid positions among ns that are listed in region. */
  function ListedNeighbours(ns: seq<(int, int)>, region: seq<(int, int)>, matrixRows: int, matrixCols: int): (n: nat)
    ensures n <= |ns|
  {
    if ns == [] then 0
    else
      var q := ns[|ns| - 1];
      ListedNeighbours(ns[..|ns| - 1], region, matrixRows, matrixCols) +
      (if 0 <= q.0 < matrixRows && 0 <= q.1 < matrixCols && q in region then 1 else 0)
  }

  /** Sum over plots of 4 minus the number of the plot's neighbours that are
      in the region. */
  function PerimeterOf(plots: seq<(int, int)>, region: seq<(int, int)>, matrixRows: int, matrixCols: int): (r: int)
    ensures 0 <= r <= 4 * |plots|
  {
    if plots == [] then 0
    else
      PerimeterOf(plots[..|plots| - 1], region, matrixRows, matrixCols) + 4 -
      ListedNeighbours(Neighbours(plots[|plots| - 1]), region, matrixRows, matrixCols)
  }

  /** The number of in-grid positions among ns whose plant is p's plant. */
  function SamePlantNeighbours(rows: seq<string>, ns: seq<(int, int)>, p: (int, int), matrixRows: int, matrixCols: int): (n: nat)
    ensures n <= |ns|
  {
    if ns == [] then 0
    else
      var q := ns[|ns| - 1];
      SamePlantNeighbours(rows, ns[..|ns| - 1], p, matrixRows, matrixCols) +
      (if 0 <= q.0 < matrixRows && 0 <= q.1 < matrixCols && PlantAt(rows, q) == PlantAt(rows, p) then 1 else 0)
  }

  /** The number of plot sides that face the grid's edge or another plant:
      the fence a region needs, independent of any region bookkeeping. */
  function Fences(rows: seq<string>, plots: seq<(int, int)>, matrixRows: int, matrixCols: int): (r: int)
    ensures 0 <= r <= 4 * |plots|
  {
    if plots == [] then 0
    else
      var p := plots[|plots| - 1];
      Fences(rows, plots[..|plots| - 1], matrixRows, matrixCols) + 4 -
      SamePlantNeighbours(rows, Neighbours(p), p, matrixRows, matrixCols)
  }

  lemma {:induction false} ListedNeighboursPositive(ns: seq<(int, int)>, region: seq<(int, int)>, matrixRows: int, matrixCols: int, q: (int, int))
    requires q in ns && q in region && 0 <= q.0 < matrixRows && 0 <= q.1 < matrixCols
    ensures ListedNeighbours(ns, region, matrixRows, matrixCols) >= 1
  {
    if ns[|ns| - 1] != q {
      assert q in ns[..|ns| - 1] by {
        var e :| 0 <= e < |ns| && ns[e] == q;
        assert ns[..|ns| - 1][e] == q;
      }
      ListedNeighboursPositive(ns[..|ns| - 1], region, matrixRows, matrixCols, q);
    }
  }

  /** A connected region of two or more in-grid plots has a perimeter of at
      most three per plot: every plot shares a side with another plot of it. */
  lemma {:induction false} LinkedPerimeterBound(region: seq<(int, int)>, matrixRows: int, matrixCols: int)
    requires |region| >= 2 && Linked(region)
    requires forall p :: p in region ==> 0 <= p.0 < matrixRows && 0 <= p.1 < matrixCols
    ensures PerimeterOf(region, region, matrixRows, matrixCols) <= 3 * |region|
  {
    forall i | 0 <= i < |region|
      ensures ListedNeighbours(Neighbours(region[i]), region, matrixRows, matrixCols) >= 1
    {
      var other: int;
      if i == 0 {
        assert JoinsEarlier(region, 1);
        other := 1;
        assert Adjacent(region[0], region[1]);
      } else {
        assert JoinsEarlier(region, i);
        var j :| 0 <= j < i && Adjacent(region[j], region[i]);
        AdjacentSymmetric(region[j], region[i]);
        other := j;
      }
      ListedNeighboursPositive(Neighbours(region[i]), region, matrixRows, matrixCols, region[other]);
    }
    PerimeterPrefixBound(region, |region|, matrixRows, matrixCols);
    assert region[..|region|] == region;
  }

  lemma {:induction false} PerimeterPrefixBound(region: seq<(int, int)>, n: nat, matrixRows: int, matrixCols: int)
    requires n <= |region|
    requires forall i :: 0 <= i < |region| ==> ListedNeighbours(Neighbours(region[i]), region, matrixRows, matrixCols) >= 1
    ensures PerimeterOf(region[..n], region, matrixRows, matrixCols) <= 3 * n
  {
    if n > 0 {
      PerimeterPrefixBound(region, n - 1, matrixRows, matrixCols);
      assert region[..n][..n - 1] == region[..n - 1];
    }
  }

  // ---------------------------------------------------------------- price

  /** Area times perimeter. */
  function RegionPrice(region: seq<(int, int)>, matrixRows: int, matrixCols: int): (r: int)
    ensures r >= 0
  {
    |region| * PerimeterOf(region, region, matrixRows, matrixCols)
  }

  /** The price of region id, nothing for an id with no region. */
  function PriceOfId(regions: map<int, seq<(int, int)>>, id: int, matrixRows: int, matrixCols: int): (r: int)
    ensures r >= 0
  {
    if id in regions then RegionPrice(regions[id], matrixRows, matrixCols) else 0
  }

  /** The sum of the region prices, taking the regions in the given order. */
  function PriceOf(regions: map<int, seq<(int, int)>>, order: seq<int>, matrixRows: int, matrixCols: int): (r: int)
    ensures r >= 0
  {
    if order == [] then 0
    else PriceOfId(regions, order[0], matrixRows, matrixCols) + PriceOf(regions, order[1..], matrixRows, matrixCols)
  }

  lemma {:induction false} PriceOfRemove(regions: map<int, seq<(int, int)>>, b: seq<int>, j: nat, matrixRows: int, matrixCols: int)
    requires j < |b|
    ensures PriceOf(regions, b, matrixRows, matrixCols) ==
            PriceOfId(regions, b[j], matrixRows, matrixCols) + PriceOf(regions, b[..j] + b[j + 1..], matrixRows, matrixCols)
  {
    if j > 0 {
      PriceOfRemove(regions, b[1..], j - 1, matrixRows, matrixCols);
      assert b[1..][..j - 1] + b[1..][j..] == (b[..j] + b[j + 1..])[1..];
    } else {
      assert b[..0] + b[1..] == b[1..];
    }
  }

  /** Taking the first element off a and a matching element off b keeps the
      two multisets equal. */
  lemma RemoveMatching(a: seq<int>, b: seq<int>, j: nat)
    requires multiset(a) == multiset(b) && a != [] && j < |b| && b[j] == a[0]
    ensures multiset(a[1..]) == multiset(b[..j] + b[j + 1..])
  {
    assert b == b[..j] + [b[j]] + b[j + 1..];
    assert a == [a[0]] + a[1..];
    assert multiset(b) == multiset(b[..j]) + multiset{b[j]} + multiset(b[j + 1..]);
    assert multiset(a) == multiset{a[0]} + multiset(a[1..]);
    assert multiset(b[..j] + b[j + 1..]) == multiset(b[..j]) + multiset(b[j + 1..]);
    assert multiset(a[1..]) == multiset(a) - multiset{a[0]};
    assert multiset(b[..j] + b[j + 1..]) == multiset(b) - multiset{b[j]};
  }

  /** The total price does not depend on the order in which the regions
      map is walked. */
  lemma {:induction false} PriceIndependentOfOrder(regions: map<int, seq<(int, int)>>, a: seq<int>, b: seq<int>, matrixRows: int, matrixCols: int)
    requires multiset(a) == multiset(b)
    ensures PriceOf(regions, a, matrixRows, matrixCols) == PriceOf(regions, b, matrixRows, matrixCols)
    decreases |a|
  {
    if a != [] {
      assert a[0] in multiset(b);
      var j :| 0 <= j < |b| && b[j] == a[0];
      var rest := b[..j] + b[j + 1..];
      RemoveMatching(a, b, j);
      PriceIndependentOfOrder(regions, a[1..], rest, matrixRows, matrixCols);
      PriceOfRemove(regions, b, j, matrixRows, matrixCols);
    } else {
      assert |b| == |multiset(b)| == 0;
    }
  }

  // ---------------------------------------------------------------- plants

  /** The plants of the plots before (i, j) in row-major order, for a grid
      of width w. */
  function PlantsBefore(rows: seq<string>, w: nat, i: nat, j: nat): set<char>
    requires Rectangular(rows) && w == |rows[0]| && i <= |rows| && j <= w
    requires i == |rows| ==> j == 0
    decreases i, j
  {
    if j > 0 then PlantsBefore(rows, w, i, j - 1) + {rows[i][j - 1]}
    else if i > 0 then PlantsBefore(rows, w, i - 1, w)
    else {}
  }

  lemma {:induction false} PlantsBeforeSound(rows: seq<string>, w: nat, i: nat, j: nat, c: char)
    requires Rectangular(rows) && w == |rows[0]| && i <= |rows| && j <= w
    requires i == |rows| ==> j == 0
    requires c in PlantsBefore(rows, w, i, j)
    ensures exists y, x :: 0 <= y < |rows| && 0 <= x < w && Before(y, x, i, j) && rows[y][x] == c
    decreases i, j
  {
    if j > 0 {
      if c != rows[i][j - 1] {
        PlantsBeforeSound(rows, w, i, j - 1, c);
      } else {
        assert Before(i, j - 1, i, j);
      }
    } else if i > 0 {
      PlantsBeforeSound(rows, w, i - 1, w, c);
      var y, x :| 0 <= y < |rows| && 0 <= x < w && Before(y, x, i - 1, w) && rows[y][x] == c;
      assert Before(y, x, i, j);
    }
  }

  lemma {:induction false} PlantsBeforeComplete(rows: seq<string>, w: nat, i: nat, j: nat, y: int, x: int)
    requires Rectangular(rows) && w == |rows[0]| && i <= |rows| && j <= w
    requires i == |rows| ==> j == 0
    requires 0 <= y < |rows| && 0 <= x < w && Before(y, x, i, j)
    ensures rows[y][x] in PlantsBefore(rows, w, i, j)
    decreases i, j
  {
    if j > 0 {
      if (y, x) != (i, j - 1) {
        PlantsBeforeComplete(rows, w, i, j - 1, y, x);
      }
    } else if i > 0 {
      PlantsBeforeComplete(rows, w, i - 1, w, y, x);
    }
  }

  class Garden {
    /** The trimmed input lines; the plant of plot (i, j) is rows[i][j]. */
    const rows: seq<string>
    /** regionID[i, j] is the region of plot (i, j), or Unassigned. */
    const regionID: array2<int>
    /** Region id to its plots, in the order they joined. */
    var regions: map<int, seq<(int, int)>>
    /** The plots that belong to no region. */
    ghost var free: set<(int, int)>

    predicate Shaped()
      reads this
    {
      Rectangular(rows) && regionID.Length0 == |rows| && regionID.Length1 == |rows[0]|
    }

    predicate InGrid(p: (int, int))
      reads this
    {
      0 <= p.0 < regionID.Length0 && 0 <= p.1 < regionID.Length1
    }

    /** Region k is a non-empty, duplicate-free, connected list of in-grid
        plots of one plant, each recording k as its regionID. */
    ghost predicate WellFormedRegion(k: int)
      reads this, regionID
      requires k in regions
    {
      k >= 0 && RegionList(regions[k], rows, regionID.Length0, regionID.Length1) &&
      forall p :: p in regions[k] ==> regionID[p.0, p.1] == k
    }

    /** The bookkeeping kept by every step: free holds exactly the
        unassigned plots, an assigned plot is listed in its region, and every
        region is well formed. Together these say that each assigned plot
        appears exactly once, in the list of its own region. */
    ghost predicate Consistent()
      reads this, regionID
    {
      Shaped() &&
      (forall p :: p in free <==> InGrid(p) && regionID[p.0, p.1] == Unassigned) &&
      (forall i, j ::
         0 <= i < regionID.Length0 && 0 <= j < regionID.Length1 && regionID[i, j] != Unassigned ==>
           regionID[i, j] in regions && (i, j) in regions[regionID[i, j]]) &&
      (forall k :: k in regions ==> WellFormedRegion(k))
    }

    /** Every same-plant neighbour of a plot of region k is in region k. */
    ghost predicate Closed(k: int)
      reads this, regionID
    {
      k in regions &&
      forall p, q ::
        p in regions[k] && Adjacent(p, q) && InGrid(q) && PlantAt(rows, q) == PlantAt(rows, p) ==>
          q in regions[k]
    }

    /** No plot of region k has an unassigned same-plant neighbour. */
    ghost predicate Spread(k: int)
      reads this, regionID
    {
      k in regions &&
      forall p, q ::
        p in regions[k] && Adjacent(p, q) && InGrid(q) && PlantAt(rows, q) == PlantAt(rows, p) ==>
          regionID[q.0, q.1] != Unassigned
    }

    /** Consistent, and every region other than the one being grown is closed. */
    ghost predicate Valid(growing: int)
      reads this, regionID
    {
      Consistent() && forall k :: k in regions && k != growing ==> Closed(k)
    }

    /** The parsing loop of Day12: the input is trimmed and split into lines,
        and every plot starts without a region. */
    constructor (input: string)
      requires Rectangular(Split(TrimSpace(input), "\n"))
      ensures rows == Split(TrimSpace(input), "\n")
      ensures regionID.Length0 == |rows| && regionID.Length1 == |rows[0]|
      ensures forall i, j :: 0 <= i < regionID.Length0 && 0 <= j < regionID.Length1 ==>
                regionID[i, j] == Unassigned
      ensures regions == map[]
      ensures Valid(Unassigned) && fresh(regionID)
    {
      var lines := Split(TrimSpace(input), "\n");
      rows := lines;
      regionID := new int[|lines|, |lines[0]|]((i, j) => Unassigned);
      regions := map[];
      free := set i, j | 0 <= i < |lines| && 0 <= j < |lines[0]| :: (i, j);
    }

    /** Add the unassigned plot q, a same-plant neighbour of the plot from of
        region k, to region k. */
    method Claim(q: (int, int), k: int, ghost from: (int, int))
      requires Valid(k) && k in regions && from in regions[k] && Adjacent(from, q)
      requires q in free && PlantAt(rows, q) == PlantAt(rows, from)
      modifies this, regionID
      ensures Valid(k)
      ensures regions == old(regions)[k := old(regions)[k] + [q]]
      ensures free == old(free) - {q} && |free| == |old(free)| - 1
    {
      var l := regions[k];
      assert q !in l;
      AppendKeepsRegionList(l, q, from, rows, regionID.Length0, regionID.Length1);
      regionID[q.0, q.1] := k;
      regions := regions[k := l + [q]];
      free := free - {q};
      forall p | InGrid(p) && p != q
        ensures regionID[p.0, p.1] == old(regionID[p.0, p.1])
      {
      }
      forall i, j | 0 <= i < regionID.Length0 && 0 <= j < regionID.Length1 && regionID[i, j] != Unassigned
        ensures regionID[i, j] in regions && (i, j) in regions[regionID[i, j]]
      {
        if (i, j) != q {
          assert InGrid((i, j));
          ghost var c := regionID[i, j];
          assert old(regionID[i, j]) == c;
          assert (i, j) in old(regions[c]);
        }
      }
      forall c | c in regions
        ensures WellFormedRegion(c)
      {
        assert old(WellFormedRegion(c));
        if c == k {
          forall p | p in regions[k]
            ensures regionID[p.0, p.1] == k
          {
            if p != q {
              assert p in l;
            }
          }
        } else {
          assert regions[c] == old(regions[c]);
          forall p | p in regions[c]
            ensures regionID[p.0, p.1] == c
          {
            assert p != q;
          }
        }
      }
      forall c | c in regions && c != k
        ensures Closed(c)
      {
        assert regions[c] == old(regions[c]) && old(Closed(c));
      }
    }

    /** Open region id with the single unassigned plot p. */
    method Found(p: (int, int), id: int)
      requires Valid(Unassigned) && p in free && id >= 0 && id !in regions
      modifies this, regionID
      ensures Valid(id) && regionID[p.0, p.1] == id
      ensures regions == old(regions)[id := [p]]
      ensures free == old(free) - {p}
    {
      regionID[p.0, p.1] := id;
      regions := regions[id := [p]];
      free := free - {p};
      forall c | c in regions && c != id
        ensures Closed(c)
      {
        assert regions[c] == old(regions[c]) && old(Closed(c));
      }
    }

    /** regionSpread: keep adding unassigned same-plant neighbours of the
        region's plots until a full pass over the region finds none; every
        addition restarts the spreading by a recursive call. Afterwards the
        region is closed and so are all others. */
    method RegionSpread(id: int)
      requires Valid(id) && id in regions
      modifies this, regionID
      ensures Valid(Unassigned)
      ensures regions.Keys == old(regions).Keys
      ensures old(regions[id]) <= regions[id]
      ensures free <= old(free) && |free| <= |old(free)|
      decreases |free|, 3
    {
      var spreading := true;
      while spreading
        invariant Valid(id) && id in regions
        invariant regions.Keys == old(regions).Keys
        invariant old(regions[id]) <= regions[id]
        invariant free <= old(free) && |free| <= |old(free)|
        invariant !spreading ==> Spread(id)
        decreases if spreading then |free| + 1 else 0
      {
        ghost var listed := regions[id];
        spreading := SpreadPass(id);
        PrefixTransitive(old(regions[id]), listed, regions[id]);
      }
      SpreadCloses(id);
    }

    /** One pass of regionSpread's loop over the plots the region had when
        the pass began; it stops at the first plot that added a neighbour.
        A pass that adds nothing leaves the region spread. */
    method SpreadPass(id: int) returns (spreading: bool)
      requires Valid(id) && id in regions
      modifies this, regionID
      ensures Valid(id)
      ensures regions.Keys == old(regions).Keys
      ensures old(regions[id]) <= regions[id]
      ensures free <= old(free)
      ensures spreading ==> |free| < |old(free)|
      ensures !spreading ==> regions == old(regions) && free == old(free) && Spread(id)
      decreases |free|, 2
    {
      spreading := false;
      var snapshot := regions[id];
      var n := 0;
      while n < |snapshot|
        invariant 0 <= n <= |snapshot|
        invariant Valid(id) && id in regions
        invariant snapshot == regions[id]
        invariant !spreading && regions == old(regions) && free == old(free)
        invariant forall m :: 0 <= m < n ==> SettledPlot(snapshot[m])
      {
        spreading := SpreadFromPlot(id, snapshot[n]);
        if spreading {
          break;
        }
        n := n + 1;
      }
      if !spreading {
        SpreadFromSettled(id);
      }
    }

    /** The neighbour loop of regionSpread for one plot of the region: each
        in-grid, unassigned neighbour with the plot's plant joins the region,
        followed by a recursive regionSpread. */
    method SpreadFromPlot(id: int, plot: (int, int)) returns (spreading: bool)
      requires Valid(id) && id in regions && plot in regions[id]
      modifies this, regionID
      ensures Valid(id)
      ensures regions.Keys == old(regions).Keys
      ensures old(regions[id]) <= regions[id]
      ensures free <= old(free)
      ensures spreading ==> |free| < |old(free)|
      ensures !spreading ==> regions == old(regions) && free == old(free) && SettledPlot(plot)
      decreases |free|, 1
    {
      spreading := false;
      var neighbours := Neighbours(plot);
      var d := 0;
      while d < 4
        invariant 0 <= d <= 4
        invariant Valid(id) && id in regions && plot in regions[id]
        invariant regions.Keys == old(regions).Keys
        invariant old(regions[id]) <= regions[id]
        invariant free <= old(free) && |free| <= |old(free)|
        invariant spreading ==> |free| < |old(free)|
        invariant !spreading ==> regions == old(regions) && free == old(free)
        invariant !spreading ==> forall e :: 0 <= e < d ==> SettledNeighbour(plot, neighbours[e])
      {
        var addr := neighbours[d];
        if 0 <= addr.0 < regionID.Length0 && 0 <= addr.1 < regionID.Length1 {
          if PlantAt(rows, addr) == PlantAt(rows, plot) && regionID[addr.0, addr.1] == Unassigned {
            ghost var listed := regions[id];
            Absorb(addr, id, plot);
            spreading := true;
            PrefixTransitive(old(regions[id]), listed, regions[id]);
          }
        }
        d := d + 1;
      }
      if !spreading {
        SettledFromNeighbours(plot, neighbours);
      }
    }

    /** An unassigned same-plant neighbour joins the region, and the
        region spreads again from scratch. */
    method Absorb(addr: (int, int), id: int, ghost plot: (int, int))
      requires Valid(id) && id in regions && plot in regions[id] && Adjacent(plot, addr)
      requires addr in free && PlantAt(rows, addr) == PlantAt(rows, plot)
      modifies this, regionID
      ensures Valid(id)
      ensures regions.Keys == old(regions).Keys
      ensures old(regions[id]) <= regions[id]
      ensures free <= old(free) && |free| < |old(free)|
      decreases |free|, 0
    {
      Claim(addr, id, plot);
      ghost var claimed := regions[id];
      RegionSpread(id);
      PrefixTransitive(old(regions[id]), claimed, regions[id]);
    }

    /** getRegionsFromPlots: scan the plots in row-major order. An
        unassigned plot joins a same-plant neighbour's region if there is one,
        otherwise it opens the next region id; then its unassigned same-plant
        neighbours join its region, and the region spreads when anything
        changed. Afterwards every plot is in exactly one region, every
        region is closed and the ids are 0 .. regionCount - 1. */
    method GetRegionsFromPlots() returns (regionCount: int)
      requires Valid(Unassigned) && regions == map[]
      modifies this, regionID
      ensures Valid(Unassigned) && free == {}
      ensures regionCount >= 0 && forall k :: k in regions <==> 0 <= k < regionCount
    {
      var h, w := regionID.Length0, regionID.Length1;
      var lastID := Unassigned;
      var i := 0;
      while i < h
        invariant 0 <= i <= h
        invariant Valid(Unassigned)
        invariant -1 <= lastID && (forall k :: k in regions <==> 0 <= k <= lastID)
        invariant forall p :: p in free ==> !Before(p.0, p.1, i, 0)
      {
        var j := 0;
        while j < w
          invariant 0 <= j <= w
          invariant Valid(Unassigned)
          invariant -1 <= lastID && (forall k :: k in regions <==> 0 <= k <= lastID)
          invariant forall p :: p in free ==> !Before(p.0, p.1, i, j)
        {
          ghost var before := free;
          lastID := ScanPlot((i, j), lastID);
          forall p | p in free
            ensures !Before(p.0, p.1, i, j + 1)
          {
            assert p in before;
          }
          j := j + 1;
        }
        i := i + 1;
      }
      regionCount := lastID + 1;
    }

    /** The body of getRegionsFromPlots' scan for one plot (see there). */
    method ScanPlot(plot: (int, int), lastRegion: int) returns (lastID: int)
      requires Valid(Unassigned) && InGrid(plot)
      requires -1 <= lastRegion && forall k :: k in regions <==> 0 <= k <= lastRegion
      modifies this, regionID
      ensures Valid(Unassigned)
      ensures -1 <= lastID && forall k :: k in regions <==> 0 <= k <= lastID
      ensures free <= old(free) && plot !in free
    {
      var validNeighbours := InBoundsNeighbours(plot, regionID.Length0, regionID.Length1);
      var updatedRegion;
      lastID, updatedRegion := AssignPlot(plot, validNeighbours, lastRegion);
      ghost var ids := regions.Keys;
      ghost var unclaimed := free;
      updatedRegion := SpreadToNeighbours(plot, validNeighbours, updatedRegion);
      if updatedRegion != Unassigned {
        RegionSpread(updatedRegion);
      }
      assert regions.Keys == ids && free <= unclaimed;
    }

    /** The first half of the scan of one plot: an unassigned plot tries to
        join a neighbour's region and otherwise opens region lastRegion + 1;
        the region it ends up in is the one that may need spreading. */
    method AssignPlot(plot: (int, int), validNeighbours: seq<(int, int)>, lastRegion: int)
      returns (lastID: int, updatedRegion: int)
      requires Valid(Unassigned) && InGrid(plot)
      requires validNeighbours == InBoundsNeighbours(plot, regionID.Length0, regionID.Length1)
      requires -1 <= lastRegion && forall k :: k in regions <==> 0 <= k <= lastRegion
      modifies this, regionID
      ensures -1 <= lastID && forall k :: k in regions <==> 0 <= k <= lastID
      ensures free <= old(free) && plot !in free
      ensures regionID[plot.0, plot.1] != Unassigned && Valid(regionID[plot.0, plot.1])
      ensures updatedRegion == Unassigned || updatedRegion == regionID[plot.0, plot.1]
      ensures updatedRegion == Unassigned ==> Valid(Unassigned)
    {
      lastID := lastRegion;
      updatedRegion := Unassigned;
      if regionID[plot.0, plot.1] == Unassigned {
        updatedRegion := JoinRegion(plot, validNeighbours);
        if regionID[plot.0, plot.1] == Unassigned {
          lastID := lastID + 1;
          Found(plot, lastID);
          updatedRegion := lastID;
        }
      } else {
        assert plot !in free;
      }
    }

    /** The join loop of getRegionsFromPlots: an unassigned plot would join
        the region of its first in-grid neighbour with the same plant that
        already has one. Because every region is closed when the loop runs,
        no such neighbour exists (see JoinNeverHappens) and the plot always
        stays unassigned. */
    method JoinRegion(plot: (int, int), validNeighbours: seq<(int, int)>) returns (updatedRegion: int)
      requires Valid(Unassigned) && plot in free
      requires validNeighbours == InBoundsNeighbours(plot, regionID.Length0, regionID.Length1)
      ensures updatedRegion == Unassigned
    {
      updatedRegion := Unassigned;
      var m := 0;
      while m < |validNeighbours|
        invariant 0 <= m <= |validNeighbours|
      {
        var addr := validNeighbours[m];
        if PlantAt(rows, addr) == PlantAt(rows, plot) && regionID[addr.0, addr.1] != Unassigned {
          JoinNeverHappens(plot, addr);
          assert false;
        }
        m := m + 1;
      }
    }

    /** A closed garden never offers a region to an unassigned plot: its
        same-plant neighbours inside the grid are unassigned as well. */
    lemma JoinNeverHappens(p: (int, int), q: (int, int))
      requires Valid(Unassigned) && p in free && Adjacent(p, q) && InGrid(q)
      requires PlantAt(rows, q) == PlantAt(rows, p)
      ensures regionID[q.0, q.1] == Unassigned
    {
      if regionID[q.0, q.1] != Unassigned {
        var k := regionID[q.0, q.1];
        assert q in regions[k];
        AdjacentSymmetric(p, q);
      }
    }

    /** The spreading loop of getRegionsFromPlots: every in-grid unassigned
        neighbour with the plot's plant joins the plot's region, which
        becomes the updated region. */
    method SpreadToNeighbours(plot: (int, int), validNeighbours: seq<(int, int)>, updated: int)
      returns (updatedRegion: int)
      requires Consistent() && InGrid(plot) && regionID[plot.0, plot.1] != Unassigned
      requires Valid(regionID[plot.0, plot.1])
      requires updated == Unassigned || updated == regionID[plot.0, plot.1]
      requires updated == Unassigned ==> Valid(Unassigned)
      requires validNeighbours == InBoundsNeighbours(plot, regionID.Length0, regionID.Length1)
      modifies this, regionID
      ensures regions.Keys == old(regions).Keys && free <= old(free)
      ensures regionID[plot.0, plot.1] == old(regionID[plot.0, plot.1])
      ensures Valid(regionID[plot.0, plot.1])
      ensures updatedRegion == Unassigned || updatedRegion == regionID[plot.0, plot.1]
      ensures updatedRegion == Unassigned ==> Valid(Unassigned)
    {
      updatedRegion := updated;
      var k := regionID[plot.0, plot.1];
      assert k in regions && plot in regions[k];
      var m := 0;
      while m < |validNeighbours|
        invariant 0 <= m <= |validNeighbours|
        invariant regions.Keys == old(regions).Keys && free <= old(free)
        invariant regionID[plot.0, plot.1] == k && Valid(k) && k in regions && plot in regions[k]
        invariant updatedRegion == Unassigned || updatedRegion == k
        invariant updatedRegion == Unassigned ==> Valid(Unassigned)
      {
        var claimed := ClaimNeighbour(plot, validNeighbours[m], k);
        if claimed {
          updatedRegion := k;
        }
        m := m + 1;
      }
    }

    /** One step of the spreading loop of getRegionsFromPlots: the neighbour
        addr joins region k when it is unassigned and has the plot's plant. */
    method ClaimNeighbour(plot: (int, int), addr: (int, int), k: int) returns (claimed: bool)
      requires Valid(k) && k in regions && plot in regions[k]
      requires InGrid(addr) && Adjacent(plot, addr)
      modifies this, regionID
      ensures Valid(k) && k in regions && plot in regions[k] && regionID[plot.0, plot.1] == k
      ensures regions.Keys == old(regions).Keys && free <= old(free)
      ensures !claimed ==> unchanged(this, regionID)
    {
      claimed := false;
      if PlantAt(rows, addr) == PlantAt(rows, plot) && regionID[addr.0, addr.1] == Unassigned {
        Claim(addr, k, plot);
        claimed := true;
      }
    }

    /** getPlants: each plant that grows somewhere in the garden, once; the
        order is that of Go's map iteration, left open here. */
    method GetPlants() returns (plants: seq<char>)
      requires Shaped()
      ensures NoDuplicates(plants)
      ensures forall c :: c in plants <==> c in PlantsBefore(rows, |rows[0]|, |rows|, 0)
    {
      var h, w := |rows|, |rows[0]|;
      var plantsMap: set<char> := {};
      var i := 0;
      while i < h
        invariant 0 <= i <= h
        invariant plantsMap == PlantsBefore(rows, w, i, 0)
      {
        var j := 0;
        while j < w
          invariant 0 <= j <= w
          invariant plantsMap == PlantsBefore(rows, w, i, j)
        {
          plantsMap := plantsMap + {rows[i][j]};
          j := j + 1;
        }
        assert PlantsBefore(rows, w, i + 1, 0) == PlantsBefore(rows, w, i, w);
        i := i + 1;
      }
      plants := [];
      var rest := plantsMap;
      while rest != {}
        invariant rest <= plantsMap
        invariant NoDuplicates(plants)
        invariant forall c :: c in plants <==> c in plantsMap && c !in rest
        decreases |rest|
      {
        var c :| c in rest;
        plants := plants + [c];
        rest := rest - {c};
      }
    }

    /** calcPerimeter: for each plot of the region, 4 minus the number of its
        in-grid neighbours found in the region's plot list. */
    static method CalcPerimeter(region: seq<(int, int)>, matrixRows: int, matrixCols: int) returns (perimeter: int)
      ensures perimeter == PerimeterOf(region, region, matrixRows, matrixCols)
    {
      perimeter := 0;
      var n := 0;
      while n < |region|
        invariant 0 <= n <= |region|
        invariant perimeter == PerimeterOf(region[..n], region, matrixRows, matrixCols)
      {
        var plot := region[n];
        var neighbours := Neighbours(plot);
        var neighborCount := 0;
        var d := 0;
        while d < 4
          invariant 0 <= d <= 4
          invariant neighborCount == ListedNeighbours(neighbours[..d], region, matrixRows, matrixCols)
        {
          var addr := neighbours[d];
          if 0 <= addr.0 < matrixRows && 0 <= addr.1 < matrixCols {
            var m := 0;
            while m < |region|
              invariant 0 <= m <= |region|
              invariant addr !in region[..m]
            {
              if region[m] == addr {
                neighborCount := neighborCount + 1;
                break;
              }
              m := m + 1;
            }
          }
          assert neighbours[..d + 1][..d] == neighbours[..d];
          d := d + 1;
        }
        assert neighbours[..4] == neighbours;
        assert region[..n + 1][..n] == region[..n];
        perimeter := perimeter + 4 - neighborCount;
        n := n + 1;
      }
      assert region[..|region|] == region;
    }

    /** The price loop of Day12: area times perimeter summed over the
        regions, walked in the map's iteration order. */
    method TotalPrice(order: seq<int>) returns (totalPrice: int)
      requires Shaped()
      requires multiset(order) == multiset(regions.Keys)
      ensures forall i :: 0 <= i < |order| ==> order[i] in regions
      ensures totalPrice == PriceOf(regions, order, |rows|, |rows[0]|)
    {
      assert forall i :: 0 <= i < |order| ==> order[i] in multiset(order);
      totalPrice := 0;
      var i := 0;
      while i < |order|
        invariant 0 <= i <= |order|
        invariant totalPrice + PriceOf(regions, order[i..], |rows|, |rows[0]|) == PriceOf(regions, order, |rows|, |rows[0]|)
      {
        var region := regions[order[i]];
        var perimeter := CalcPerimeter(region, |rows|, |rows[0]|);
        var price := |region| * perimeter;
        assert order[i..][1..] == order[i + 1..];
        totalPrice := totalPrice + price;
        i := i + 1;
      }
    }

    /** After the scan every plot belongs to exactly one region and is listed
        exactly once there. */
    lemma PlotInExactlyOneRegion(p: (int, int))
      requires Consistent() && free == {} && InGrid(p)
      ensures regionID[p.0, p.1] in regions && p in regions[regionID[p.0, p.1]]
      ensures forall k :: k in regions && p in regions[k] ==> k == regionID[p.0, p.1]
      ensures forall a, b :: 0 <= a < b < |regions[regionID[p.0, p.1]]| ==>
                regions[regionID[p.0, p.1]][a] != regions[regionID[p.0, p.1]][b]
    {
      assert p !in free;
    }

    /** After the scan the regions partition the grid into maximal
        connected same-plant lists. */
    lemma Partition()
      requires Valid(Unassigned) && free == {}
      ensures Partitioned(regions, rows, regionID.Length0, regionID.Length1)
    {
      forall p | InGrid(p)
        ensures exists k :: k in regions && p in regions[k]
      {
        PlotInExactlyOneRegion(p);
      }
      forall k, k', p | k in regions && k' in regions && p in regions[k] && p in regions[k']
        ensures k == k'
      {
        assert WellFormedRegion(k) && WellFormedRegion(k');
      }
      forall k, p, q | k in regions && p in regions[k] && Adjacent(p, q) && InGrid(q) &&
                       PlantAt(rows, q) == PlantAt(rows, p)
        ensures q in regions[k]
      {
        assert WellFormedRegion(k);
        assert Closed(k);
      }
    }

    /** After the scan, orthogonally adjacent plots with the same plant share
        a region. */
    lemma AdjacentSamePlantShareRegion(p: (int, int), q: (int, int))
      requires Valid(Unassigned) && free == {}
      requires InGrid(p) && InGrid(q) && Adjacent(p, q) && PlantAt(rows, p) == PlantAt(rows, q)
      ensures regionID[p.0, p.1] == regionID[q.0, q.1]
    {
      assert p !in free;
      var k := regionID[p.0, p.1];
      assert p in regions[k] && Closed(k);
    }

    /** For a plot of a closed region, the neighbours listed in the region
        are exactly its in-grid neighbours with the same plant. */
    lemma {:induction false} ListedAreSamePlant(k: int, p: (int, int), ns: seq<(int, int)>)
      requires Consistent() && Closed(k) && p in regions[k]
      requires forall q :: q in ns ==> Adjacent(p, q)
      ensures ListedNeighbours(ns, regions[k], regionID.Length0, regionID.Length1) ==
              SamePlantNeighbours(rows, ns, p, regionID.Length0, regionID.Length1)
    {
      if ns != [] {
        var q := ns[|ns| - 1];
        assert forall r :: r in ns[..|ns| - 1] ==> r in ns;
        ListedAreSamePlant(k, p, ns[..|ns| - 1]);
        if InGrid(q) && PlantAt(rows, q) == PlantAt(rows, p) {
          assert regionID[q.0, q.1] == k;
        }
      }
    }

    /** calcPerimeter of a closed region counts its fences: the sides of its
        plots that face the edge of the garden or another plant. */
    lemma {:induction false} PerimeterCountsFences(k: int, n: nat)
      requires Consistent() && Closed(k) && n <= |regions[k]|
      ensures PerimeterOf(regions[k][..n], regions[k], regionID.Length0, regionID.Length1) ==
              Fences(rows, regions[k][..n], regionID.Length0, regionID.Length1)
    {
      if n > 0 {
        var l := regions[k];
        PerimeterCountsFences(k, n - 1);
        assert l[..n][..n - 1] == l[..n - 1];
        assert l[..n][n - 1] == l[n - 1];
        ListedAreSamePlant(k, l[n - 1], Neighbours(l[n - 1]));
      }
    }

    /** Neighbour q of p is off the grid, of another plant, or assigned. */
    ghost predicate SettledNeighbour(p: (int, int), q: (int, int))
      reads this, regionID
    {
      InGrid(q) && PlantAt(rows, q) == PlantAt(rows, p) ==> regionID[q.0, q.1] != Unassigned
    }

    /** Plot p has no unassigned same-plant neighbour. */
    ghost predicate SettledPlot(p: (int, int))
      reads this, regionID
    {
      forall q :: Adjacent(p, q) ==> SettledNeighbour(p, q)
    }

    lemma SettledFromNeighbours(p: (int, int), ns: seq<(int, int)>)
      requires ns == Neighbours(p)
      requires forall e :: 0 <= e < 4 ==> SettledNeighbour(p, ns[e])
      ensures SettledPlot(p)
    {
      forall q | Adjacent(p, q)
        ensures SettledNeighbour(p, q)
      {
        var e :| 0 <= e < 4 && ns[e] == q;
      }
    }

    lemma SpreadFromSettled(k: int)
      requires k in regions
      requires forall m :: 0 <= m < |regions[k]| ==> SettledPlot(regions[k][m])
      ensures Spread(k)
    {
      forall p, q | p in regions[k] && Adjacent(p, q) && InGrid(q) && PlantAt(rows, q) == PlantAt(rows, p)
        ensures regionID[q.0, q.1] != Unassigned
      {
        var m :| 0 <= m < |regions[k]| && regions[k][m] == p;
        assert SettledPlot(p);
        assert SettledNeighbour(p, q);
      }
    }

    /** A spread region next to closed regions is closed: a same-plant
        neighbour in another region would pull this plot into that region. */
    lemma SpreadCloses(k: int)
      requires Valid(k) && Spread(k)
      ensures Valid(Unassigned)
    {
      forall p, q | p in regions[k] && Adjacent(p, q) && InGrid(q) && PlantAt(rows, q) == PlantAt(rows, p)
        ensures regionID[q.0, q.1] == k
      {
        var c := regionID[q.0, q.1];
        assert c in regions && q in regions[c];
        AdjacentSymmetric(p, q);
      }
    }
  }

  /** Each plant of the grid listed once, and nothing else. */
  predicate PlantList(plants: seq<char>, rows: seq<string>)
    requires Rectangular(rows)
  {
    NoDuplicates(plants) &&
    forall c :: c in plants <==> exists y, x :: 0 <= y < |rows| && 0 <= x < |rows[0]| && rows[y][x] == c
  }

  /** The regions split the h by w grid into connected lists of distinct
      plots of one plant: every plot lies in exactly one region, and a
      region holds every same-plant neighbour of its plots. */
  ghost predicate Partitioned(regions: map<int, seq<(int, int)>>, rows: seq<string>, h: int, w: int)
  {
    (forall k :: k in regions ==> RegionList(regions[k], rows, h, w)) &&
    (forall p: (int, int) :: 0 <= p.0 < h && 0 <= p.1 < w ==> exists k :: k in regions && p in regions[k]) &&
    (forall k, k', p :: k in regions && k' in regions && p in regions[k] && p in regions[k'] ==> k == k') &&
    (forall k, p, q ::
       (k in regions && p in regions[k] && Adjacent(p, q) && 0 <= q.0 < h && 0 <= q.1 < w &&
        PlantAt(rows, q) == PlantAt(rows, p))
       ==> q in regions[k])
  }

  /** The plants of the whole grid are exactly the characters of its plots. */
  lemma PlantsMeaning(rows: seq<string>, plants: seq<char>)
    requires Rectangular(rows)
    requires NoDuplicates(plants)
    requires forall c :: c in plants <==> c in PlantsBefore(rows, |rows[0]|, |rows|, 0)
    ensures PlantList(plants, rows)
  {
    forall c
      ensures c in plants <==> exists y, x :: 0 <= y < |rows| && 0 <= x < |rows[0]| && rows[y][x] == c
    {
      if c in plants {
        PlantsBeforeSound(rows, |rows[0]|, |rows|, 0, c);
      }
      if exists y, x :: 0 <= y < |rows| && 0 <= x < |rows[0]| && rows[y][x] == c {
        var y, x :| 0 <= y < |rows| && 0 <= x < |rows[0]| && rows[y][x] == c;
        PlantsBeforeComplete(rows, |rows[0]|, |rows|, 0, y, x);
      }
    }
  }

  /** The ids 0 .. n - 1, in increasing order. */
  function Ids(n: nat): (ids: seq<int>)
    ensures |ids| == n && forall i :: 0 <= i < n ==> ids[i] == i
  {
    if n == 0 then [] else Ids(n - 1) + [n - 1]
  }

  /** Each of the ids 0 .. n - 1 occurs once in Ids(n), and nothing else. */
  lemma {:induction false} IdsCount(n: nat, k: int)
    ensures multiset(Ids(n))[k] == if 0 <= k < n then 1 else 0
  {
    if n > 0 {
      IdsCount(n - 1, k);
      assert Ids(n) == Ids(n - 1) + [n - 1];
    }
  }

  /** The ids 0 .. n - 1 list a key set holding exactly those ids, once each. */
  lemma IdsListKeys(n: nat, keys: set<int>)
    requires forall k :: k in keys <==> 0 <= k < n
    ensures multiset(Ids(n)) == multiset(keys)
  {
    forall k
      ensures multiset(Ids(n))[k] == multiset(keys)[k]
    {
      IdsCount(n, k);
    }
  }

  /** The parsing loop and the region search of Day12: a garden over the
      trimmed lines of the input, its plots split into regions numbered
      0 .. regionCount - 1. */
  method BuildRegions(input: string) returns (garden: Garden, regionCount: int)
    requires Rectangular(Split(TrimSpace(input), "\n"))
    ensures garden.rows == Split(TrimSpace(input), "\n") && garden.Shaped()
    ensures Partitioned(garden.regions, garden.rows, garden.regionID.Length0, garden.regionID.Length1)
    ensures regionCount >= 0 && forall k :: k in garden.regions <==> 0 <= k < regionCount
  {
    garden := new Garden(input);
    regionCount := garden.GetRegionsFromPlots();
    garden.Partition();
  }

  /** Day12: the plants that grow in the garden, each once, and the total
      price of its regions. Every plot lies in exactly one region; a region
      is a connected list of distinct plots of one plant, and holds every
      same-plant neighbour of its plots. The price, area times perimeter
      summed over the regions, does not depend on the order in which the
      map of regions is walked. */
  method Day12(input: string) returns (totalPrice: int, plants: seq<char>, regions: map<int, seq<(int, int)>>)
    requires Rectangular(Split(TrimSpace(input), "\n"))
    ensures var rows := Split(TrimSpace(input), "\n");
            PlantList(plants, rows) && Partitioned(regions, rows, |rows|, |rows[0]|)
    ensures var rows := Split(TrimSpace(input), "\n");
            totalPrice >= 0 &&
            forall order :: multiset(order) == multiset(regions.Keys) ==>
              totalPrice == PriceOf(regions, order, |rows|, |rows[0]|)
  {
    var garden, regionCount := BuildRegions(input);
    plants := garden.GetPlants();
    PlantsMeaning(garden.rows, plants);
    var order := Ids(regionCount);
    IdsListKeys(regionCount, garden.regions.Keys);
    totalPrice := garden.TotalPrice(order);
    regions := garden.regions;
    var h, w := garden.regionID.Length0, garden.regionID.Length1;
    forall order' | multiset(order') == multiset(regions.Keys)
      ensures totalPrice == PriceOf(regions, order', h, w)
    {
      PriceIndependentOfOrder(regions, order, order', h, w);
    }
  }
}
