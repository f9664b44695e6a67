/** The icon tool's colour bleed: a breadth-first fill, frontier by frontier and in place, that gives
    each transparent pixel the colour of its nearest visible one, the topmost of several, and of those the
    leftmost. */
module ColourBleed {

  type Byte = n: int | 0 <= n < 256

  datatype Point = Point(x: int, y: int)
  datatype Pixel = Pixel(r: Byte, g: Byte, b: Byte, a: Byte)
  type Image = map<Point, Pixel>

  // ----- what the fill means ----------------------------------------------------------------

  ghost predicate Rectangle(img: Image, w: int, h: int)
  {
    forall p :: p in img <==> 0 <= p.x < w && 0 <= p.y < h
  }

  ghost predicate Visible(img: Image, p: Point) { p in img && img[p].a > 0 }

  function Abs(n: int): nat { if n < 0 then -n else n }

  /** Manhattan distance. */
  function Distance(p: Point, q: Point): nat { Abs(p.x - q.x) + Abs(p.y - q.y) }

  ghost predicate Near(img: Image, p: Point, d: int)
  {
    exists v :: Visible(img, v) && Distance(p, v) <= d
  }

  /** Row by row, and along each row. */
  predicate ScannedBefore(u: Point, v: Point) { u.y < v.y || (u.y == v.y && u.x < v.x) }

  /** The nearest visible pixel to p, the first scanned of those equally near. */
  ghost predicate IsSource(img: Image, p: Point, v: Point)
  {
    && Visible(img, v)
    && forall u :: Visible(img, u) ==>
         Distance(p, v) < Distance(p, u) || (Distance(p, v) == Distance(p, u) && !ScannedBefore(u, v))
  }

  lemma OneSource(img: Image, p: Point, u: Point, v: Point)
    requires IsSource(img, p, u) && IsSource(img, p, v)
    ensures u == v
  {
  }

  predicate SameColour(a: Pixel, b: Pixel) { a.r == b.r && a.g == b.g && a.b == b.b }

  /** Pixel p has kept its alpha and carries the colour of its source. */
  ghost predicate Coloured(before: Image, after: Image, p: Point)
    requires p in before && p in after
  {
    after[p].a == before[p].a && exists v :: IsSource(before, p, v) && SameColour(after[p], before[v])
  }

  /** Every pixel keeps its alpha; the visible ones keep their colour; and when there is a visible one
      at all, every transparent pixel has the colour of the first scanned of those at the least Manhattan
      distance. */
  ghost predicate Bled(before: Image, after: Image)
  {
    && after.Keys == before.Keys
    && (forall p :: p in before ==> after[p].a == before[p].a)
    && (forall p :: Visible(before, p) ==> after[p] == before[p])
    && ((exists v :: Visible(before, v)) ==> forall p :: p in before ==> Coloured(before, after, p))
    && ((forall v :: !Visible(before, v)) ==> after == before)
  }

  // ----- geometry ---------------------------------------------------------------------------

  const DIRECTIONS: seq<(int, int)> := [(1, 0), (-1, 0), (0, 1), (0, -1)]

  function Shift(p: Point, k: nat): Point
    requires k < 4
  {
    Point(p.x + DIRECTIONS[k].0, p.y + DIRECTIONS[k].1)
  }

  /** The neighbours of p inside the image, in the first n directions. */
  ghost function Around(img: Image, p: Point, n: nat): set<Point>
    requires n <= 4
  {
    set k | 0 <= k < n && Shift(p, k) in img :: Shift(p, k)
  }

  lemma NeighbourDistance(img: Image, p: Point, q: Point, v: Point)
    requires q in Around(img, p, 4)
    ensures Abs(Distance(q, v) - Distance(p, v)) == 1
  {
  }

  /** One step from q towards v stays inside the rectangle. */
  lemma StepTowards(img: Image, w: int, h: int, q: Point, v: Point) returns (p: Point)
    requires Rectangle(img, w, h) && q in img && v in img && q != v
    ensures p in img && q in Around(img, p, 4) && Distance(p, v) == Distance(q, v) - 1
  {
    var k: nat;
    if q.x < v.x { p, k := Point(q.x + 1, q.y), 1; }
    else if q.x > v.x { p, k := Point(q.x - 1, q.y), 0; }
    else if q.y < v.y { p, k := Point(q.x, q.y + 1), 3; }
    else { p, k := Point(q.x, q.y - 1), 2; }
    assert Shift(p, k) == q;
  }

  /** Exactly d from the nearest visible pixel. */
  ghost predicate Layer(img: Image, p: Point, d: int) { p in img && Near(img, p, d) && !Near(img, p, d - 1) }

  lemma LayerBelow(img: Image, w: int, h: int, q: Point, m: nat) returns (p: Point)
    requires Rectangle(img, w, h) && Layer(img, q, m + 1)
    ensures Layer(img, p, m) && q in Around(img, p, 4)
  {
    var v :| Visible(img, v) && Distance(q, v) <= m + 1;
    assert Distance(q, v) == m + 1;
    p := StepTowards(img, w, h, q, v);
    assert Near(img, p, m);
    if Near(img, p, m - 1) {
      var u :| Visible(img, u) && Distance(p, u) <= m - 1;
      NeighbourDistance(img, p, q, u);
    }
  }

  /** When a layer is empty so is every one beyond it. */
  lemma {:induction false} LayersAreConsecutive(img: Image, w: int, h: int, q: Point, m: nat, d: nat)
    requires Rectangle(img, w, h) && Layer(img, q, m) && d <= m
    ensures exists p :: Layer(img, p, d)
    decreases m
  {
    if d < m {
      var p := LayerBelow(img, w, h, q, m - 1);
      LayersAreConsecutive(img, w, h, p, m - 1, d);
    }
  }

  lemma {:induction false} HasLayer(img: Image, q: Point, bound: nat) returns (m: nat)
    requires q in img && Near(img, q, bound)
    ensures m <= bound && Layer(img, q, m)
  {
    if Near(img, q, bound - 1) && bound > 0 {
      m := HasLayer(img, q, bound - 1);
    } else {
      m := bound;
    }
  }

  /** A layer is no farther out than the image is wide and high. */
  lemma LayerIsInside(img: Image, w: int, h: int, p: Point, d: int)
    requires Rectangle(img, w, h) && Layer(img, p, d)
    ensures d < w + h
  {
    var v :| Visible(img, v) && Distance(p, v) <= d;
    assert Distance(p, v) > d - 1;
  }

  // ----- who gives its colour ---------------------------------------------------------------

  /** The frontier's pixels stand in the order their sources are scanned in. */
  ghost predicate Queued(img: Image, frontier: seq<Point>)
  {
    forall i, j, u, v | 0 <= i < j < |frontier| :: InTurn(img, frontier[i], frontier[j], u, v)
  }

  ghost predicate InTurn(img: Image, p: Point, q: Point, u: Point, v: Point)
  {
    IsSource(img, p, u) && IsSource(img, q, v) ==> !ScannedBefore(v, u)
  }

  /** The first of the frontier that q is next to is its j-th. */
  ghost predicate FirstParent(img: Image, frontier: seq<Point>, q: Point, j: nat)
  {
    && j < |frontier| && q in Around(img, frontier[j], 4)
    && forall i :: 0 <= i < j ==> q !in Around(img, frontier[i], 4)
  }

  /** The frontier at distance d: the pixels that far from a visible one, in the order of their sources. */
  ghost predicate IsFrontier(img: Image, frontier: seq<Point>, d: int)
  {
    (forall p :: p in frontier <==> Layer(img, p, d)) && Queued(img, frontier)
  }

  ghost predicate Sourced(img: Image, p: Point) { exists v :: IsSource(img, p, v) }

  /** The source of the first parent is the source of the pixel beyond it. */
  lemma SourcePasses(img: Image, w: int, h: int, frontier: seq<Point>, d: int, q: Point, j: nat, v: Point)
    requires Rectangle(img, w, h) && d >= 0 && (forall p :: p in frontier <==> Layer(img, p, d))
    requires Queued(img, frontier) && forall p :: p in frontier ==> Sourced(img, p)
    requires FirstParent(img, frontier, q, j) && q in img && !Near(img, q, d) && IsSource(img, frontier[j], v)
    ensures IsSource(img, q, v) && Distance(q, v) == d + 1
  {
    hide Queued, Around, Rectangle;
    var p := frontier[j];
    assert Layer(img, p, d) by { assert p in frontier; }
    NeighbourDistance(img, p, q, v);
    SourceIsNear(img, p, v, d);
    assert Distance(q, v) == d + 1;
    forall u | Visible(img, u)
      ensures Distance(q, v) < Distance(q, u) || (Distance(q, v) == Distance(q, u) && !ScannedBefore(u, v))
    {
      assert Distance(q, u) >= d + 1;
      if Distance(q, u) == d + 1 { EqualComesLater(img, w, h, frontier, d, q, j, v, u); }
    }
  }

  lemma SourceIsNear(img: Image, p: Point, v: Point, d: int)
    requires Near(img, p, d) && IsSource(img, p, v)
    ensures Distance(p, v) <= d
  {
    var u :| Visible(img, u) && Distance(p, u) <= d;
  }

  lemma EqualComesLater(img: Image, w: int, h: int, frontier: seq<Point>, d: int, q: Point, j: nat, v: Point, u: Point)
    requires Rectangle(img, w, h) && d >= 0 && (forall p :: p in frontier <==> Layer(img, p, d))
    requires Queued(img, frontier) && forall p :: p in frontier ==> Sourced(img, p)
    requires FirstParent(img, frontier, q, j) && q in img && !Near(img, q, d) && IsSource(img, frontier[j], v)
    requires Visible(img, u) && Distance(q, u) == d + 1
    ensures !ScannedBefore(u, v)
  {
    hide Around, Rectangle, Distance;
    var p := StepOn(img, w, h, q, u, d);
    var i :| 0 <= i < |frontier| && frontier[i] == p;
    var s :| IsSource(img, p, s);
    assert i >= j;
    if i > j {
      assert InTurn(img, frontier[j], frontier[i], v, s);
      Later(v, s, u);
    } else {
      OneSource(img, p, s, v);
    }
  }

  /** One step from q towards u is in the layer below. */
  lemma StepOn(img: Image, w: int, h: int, q: Point, u: Point, d: int) returns (p: Point)
    requires Rectangle(img, w, h) && q in img && Visible(img, u) && d >= 0
    requires Distance(q, u) == d + 1 && !Near(img, q, d)
    ensures Layer(img, p, d) && q in Around(img, p, 4) && Distance(p, u) == d
    ensures forall s :: IsSource(img, p, s) ==> !ScannedBefore(u, s)
  {
    hide Around;
    p := StepTowards(img, w, h, q, u);
    assert Near(img, p, d);
    if Near(img, p, d - 1) {
      var x :| Visible(img, x) && Distance(p, x) <= d - 1;
      NeighbourDistance(img, p, q, x);
    }
    forall s | IsSource(img, p, s) ensures !ScannedBefore(u, s) {
      NoneCloser(img, p, d - 1, s);
    }
  }

  lemma NoneCloser(img: Image, p: Point, d: int, s: Point)
    requires !Near(img, p, d) && Visible(img, s)
    ensures Distance(p, s) > d
  {
  }

  lemma Later(v: Point, s: Point, u: Point)
    requires !ScannedBefore(s, v) && !ScannedBefore(u, s)
    ensures !ScannedBefore(u, v)
  {
  }

  // ----- the arrays -------------------------------------------------------------------------

  /** px[x, y] as the image library indexes it. */
  ghost function Snapshot(px: array2<Pixel>): (img: Image)
    reads px
    ensures Rectangle(img, px.Length0, px.Length1)
    ensures forall p :: p in img ==> img[p] == px[p.x, p.y]
  {
    map p: Point | p in Cells(px.Length0, px.Length1) :: px[p.x, p.y]
  }

  ghost function Cells(w: nat, h: nat): (cells: set<Point>)
    ensures forall p :: p in cells <==> 0 <= p.x < w && 0 <= p.y < h
  {
    set x, y | 0 <= x < w && 0 <= y < h :: Point(x, y)
  }

  /** The pixels whose colour is settled: known[y][x]. */
  ghost function Known(known: array2<bool>): (k: set<Point>)
    reads known
    ensures forall p :: p in k <==> 0 <= p.x < known.Length1 && 0 <= p.y < known.Length0 && known[p.y, p.x]
  {
    set p | p in Cells(known.Length1, known.Length0) && known[p.y, p.x]
  }

  method Settle(px: array2<Pixel>, known: array2<bool>, q: Point, c: Pixel)
    requires q in Snapshot(px) && known.Length0 == px.Length1 && known.Length1 == px.Length0
    modifies px, known
    ensures Snapshot(px) == old(Snapshot(px))[q := c]
    ensures Known(known) == old(Known(known)) + {q}
  {
    known[q.y, q.x] := true;
    px[q.x, q.y] := c;
  }

  // ----- the fill ---------------------------------------------------------------------------

  ghost function Elements(s: seq<Point>): set<Point> { set p | p in s }

  /** What processing one frontier pixel does: its unknown neighbours become known, transparent, and
      its own colour; nothing else changes. */
  ghost predicate SpreadFrom(p: Point, img: Image, k: set<Point>, img': Image, k': set<Point>, n: nat)
    requires n <= 4 && p in img
  {
    && k' == k + Around(img, p, n)
    && img'.Keys == img.Keys
    && forall q :: q in img ==>
         img'[q] == if q in k' && q !in k then Pixel(img[p].r, img[p].g, img[p].b, 0) else img[q]
  }

  lemma AroundNext(img: Image, p: Point, n: nat)
    requires n < 4
    ensures Around(img, p, n + 1) == Around(img, p, n) + if Shift(p, n) in img then {Shift(p, n)} else {}
  {
  }

  lemma SpreadNext(p: Point, img: Image, k: set<Point>, mid: Image, kMid: set<Point>, n: nat,
                   img': Image, k': set<Point>)
    requires n < 4 && p in img && SpreadFrom(p, img, k, mid, kMid, n)
    requires var q := Shift(p, n);
      if q in img && q !in kMid
      then img' == mid[q := Pixel(img[p].r, img[p].g, img[p].b, 0)] && k' == kMid + {q}
      else img' == mid && k' == kMid
    ensures SpreadFrom(p, img, k, img', k', n + 1)
  {
    hide Around, Shift;
    AroundNext(img, p, n);
  }

  method Spread(px: array2<Pixel>, known: array2<bool>, p: Point, nxt: seq<Point>) returns (nxt': seq<Point>)
    requires p in Snapshot(px) && p in Known(known)
    requires known.Length0 == px.Length1 && known.Length1 == px.Length0
    modifies px, known
    ensures SpreadFrom(p, old(Snapshot(px)), old(Known(known)), Snapshot(px), Known(known), 4)
    ensures nxt <= nxt' && Elements(nxt'[|nxt|..]) == Known(known) - old(Known(known))
  {
    hide SpreadFrom, Around, Snapshot, Known;
    var c := px[p.x, p.y];
    nxt' := nxt;
    ghost var img0, k0 := Snapshot(px), Known(known);
    SpreadStarts(p, img0, k0);
    for n := 0 to 4
      invariant k0 <= Known(known)
      invariant SpreadFrom(p, img0, k0, Snapshot(px), Known(known), n)
      invariant nxt <= nxt' && Elements(nxt'[|nxt|..]) == Known(known) - k0
    {
      ghost var mid, kMid := Snapshot(px), Known(known);
      var q := Shift(p, n);
      if 0 <= q.x < px.Length0 && 0 <= q.y < px.Length1 && !known[q.y, q.x] {
        Settle(px, known, q, Pixel(c.r, c.g, c.b, 0));
        ghost var more := nxt'[|nxt|..];
        assert Elements(more + [q]) == Elements(more) + {q};
        nxt' := nxt' + [q];
        assert nxt'[|nxt|..] == more + [q];
      }
      SpreadNext(p, img0, k0, mid, kMid, n, Snapshot(px), Known(known));
    }
  }

  lemma SpreadStarts(p: Point, img: Image, k: set<Point>)
    requires p in img
    ensures SpreadFrom(p, img, k, img, k, 0)
  {
  }

  /** Before a pass at distance d: what is known is what lies within d, coloured; the rest is as it was. */
  ghost predicate Filled(before: Image, cur: Image, k: set<Point>, d: int)
  {
    && cur.Keys == before.Keys
    && (forall p :: p in k <==> p in before && Near(before, p, d))
    && (forall p :: p in k ==> Coloured(before, cur, p))
    && (forall p :: p in before && p !in k ==> cur[p] == before[p])
  }

  /** In the middle of that pass, with the first i of the frontier done. */
  ghost predicate Filling(before: Image, start: Image, k0: set<Point>, frontier: seq<Point>, i: nat,
                          cur: Image, k: set<Point>, nxt: set<Point>)
    requires i <= |frontier| && start.Keys == before.Keys
  {
    && cur.Keys == before.Keys && k0 <= k && nxt == k - k0
    && (forall j :: 0 <= j < i ==> Around(before, frontier[j], 4) <= k)
    && (forall q :: q in nxt ==>
          exists j :: 0 <= j < i && Took(before, start, frontier[j], cur, q) && FirstParent(before, frontier, q, j))
    && (forall q :: q in before && q !in nxt ==> cur[q] == start[q])
  }

  ghost predicate Took(before: Image, start: Image, p: Point, cur: Image, q: Point)
  {
    && p in start && q in cur && q in Around(before, p, 4)
    && cur[q] == Pixel(start[p].r, start[p].g, start[p].b, 0)
  }

  lemma FillingStep(before: Image, start: Image, k0: set<Point>, frontier: seq<Point>, i: nat,
                    cur: Image, k: set<Point>, cur': Image, k': set<Point>)
    requires i < |frontier| && frontier[i] in k0 && frontier[i] in before && start.Keys == before.Keys
    requires Filling(before, start, k0, frontier, i, cur, k, k - k0)
    requires SpreadFrom(frontier[i], cur, k, cur', k', 4)
    ensures k <= k'
    ensures Filling(before, start, k0, frontier, i + 1, cur', k', k' - k0)
  {
    hide Around, Took, FirstParent;
    SameAround(before, cur, frontier[i]);
    forall j | 0 <= j < i + 1 ensures Around(before, frontier[j], 4) <= k' { }
    forall q | q in k' - k0
      ensures exists j ::
        0 <= j < i + 1 && Took(before, start, frontier[j], cur', q) && FirstParent(before, frontier, q, j)
    {
      var j := Taken(before, start, k0, frontier, i, cur, k, cur', k', q);
    }
    forall q | q in before && q !in k' - k0 ensures cur'[q] == start[q] {
      assert q !in k - k0;
    }
  }

  lemma Taken(before: Image, start: Image, k0: set<Point>, frontier: seq<Point>, i: nat,
              cur: Image, k: set<Point>, cur': Image, k': set<Point>, q: Point) returns (j: nat)
    requires i < |frontier| && frontier[i] in k0 && frontier[i] in before && start.Keys == before.Keys
    requires Filling(before, start, k0, frontier, i, cur, k, k - k0)
    requires SpreadFrom(frontier[i], cur, k, cur', k', 4) && q in k' - k0
    ensures j < i + 1 && Took(before, start, frontier[j], cur', q) && FirstParent(before, frontier, q, j)
  {
    hide Around;
    var p := frontier[i];
    SameAround(before, cur, p);
    if q in k {
      assert q in k - k0;
      j :| 0 <= j < i && Took(before, start, frontier[j], cur, q) && FirstParent(before, frontier, q, j);
    } else {
      j := i;
      assert q in Around(before, p, 4);
      assert p !in k - k0;
      assert cur[p] == start[p];
    }
  }

  /** A pass starts with nothing done, from pixels that are known. */
  lemma PassStarts(before: Image, start: Image, k0: set<Point>, frontier: seq<Point>, d: int)
    requires Filled(before, start, k0, d)
    requires forall p :: p in frontier <==> Layer(before, p, d)
    ensures start.Keys == before.Keys
    ensures forall i :: 0 <= i < |frontier| ==> frontier[i] in k0 && frontier[i] in before
    ensures Filling(before, start, k0, frontier, 0, start, k0, k0 - k0)
  {
    hide Near, Coloured;
    forall i | 0 <= i < |frontier| ensures frontier[i] in k0 && frontier[i] in before {
      assert frontier[i] in frontier;
    }
  }

  lemma SameAround(a: Image, b: Image, p: Point)
    requires a.Keys == b.Keys
    ensures Around(a, p, 4) == Around(b, p, 4) <= b.Keys
  {
    assert forall q :: q in a <==> q in b;
  }

  /** The end of a pass is the start of the next. */
  lemma FillingDone(before: Image, w: int, h: int, start: Image, k0: set<Point>, frontier: seq<Point>, d: int,
                    cur: Image, k: set<Point>)
    requires Rectangle(before, w, h) && d >= 0 && Filled(before, start, k0, d)
    requires IsFrontier(before, frontier, d)
    requires Filling(before, start, k0, frontier, |frontier|, cur, k, k - k0)
    ensures Filled(before, cur, k, d + 1)
    ensures forall p :: p in k - k0 <==> Layer(before, p, d + 1)
  {
    hide Coloured, Around, Took, FirstParent, Queued;
    forall q | q in k - k0
      ensures q in before && Near(before, q, d + 1) && !Near(before, q, d) && Coloured(before, cur, q)
    {
      var j := NewIsColoured(before, w, h, start, k0, frontier, d, cur, k, q);
    }
    forall q | q in before && Near(before, q, d + 1) ensures q in k {
      if !Near(before, q, d) { NextIsReached(before, w, h, frontier, d, k, q); }
    }
    forall q | q in k0 ensures Coloured(before, cur, q) && Near(before, q, d + 1) {
      NearGrows(before, q, d);
      StaysColoured(before, start, cur, q);
    }
  }

  lemma NearGrows(img: Image, p: Point, d: int)
    requires Near(img, p, d)
    ensures Near(img, p, d + 1)
  {
    var v :| Visible(img, v) && Distance(p, v) <= d;
  }

  lemma StaysColoured(before: Image, start: Image, cur: Image, q: Point)
    requires q in before && q in start && q in cur && cur[q] == start[q] && Coloured(before, start, q)
    ensures Coloured(before, cur, q)
  {
  }

  lemma NextIsReached(before: Image, w: int, h: int, frontier: seq<Point>, d: int, k: set<Point>, q: Point)
    requires Rectangle(before, w, h) && d >= 0
    requires forall p :: p in frontier <==> Layer(before, p, d)
    requires forall j :: 0 <= j < |frontier| ==> Around(before, frontier[j], 4) <= k
    requires q in before && Near(before, q, d + 1) && !Near(before, q, d)
    ensures q in k
  {
    hide Around, Near;
    var p := LayerBelow(before, w, h, q, d);
    assert p in frontier;
    var j :| 0 <= j < |frontier| && frontier[j] == p;
  }

  lemma NewIsColoured(before: Image, w: int, h: int, start: Image, k0: set<Point>, frontier: seq<Point>, d: int,
                      cur: Image, k: set<Point>, q: Point) returns (j: nat)
    requires Rectangle(before, w, h) && d >= 0 && Filled(before, start, k0, d) && IsFrontier(before, frontier, d)
    requires Filling(before, start, k0, frontier, |frontier|, cur, k, k - k0)
    requires q in k - k0
    ensures q in before && Near(before, q, d + 1) && !Near(before, q, d) && Coloured(before, cur, q)
    ensures FirstParent(before, frontier, q, j)
  {
    hide Around, Near, Queued, FirstParent, IsSource, Distance, SameColour, Layer, Filled, Filling, Rectangle;
    j := ParentOf(before, start, k0, frontier, d, cur, k, q);
    var p := frontier[j];
    FrontierIsKnown(before, start, k0, frontier, d);
    assert p in frontier;
    SourcesAreIn(before, p);
    var v :| IsSource(before, p, v) && SameColour(start[p], before[v]);
    SourcePasses(before, w, h, frontier, d, q, j, v);
    NotYetVisible(before, q, v, d);
    SameColours(start[p], cur[q], before[v]);
  }

  lemma ParentOf(before: Image, start: Image, k0: set<Point>, frontier: seq<Point>, d: int,
                 cur: Image, k: set<Point>, q: Point) returns (j: nat)
    requires Filled(before, start, k0, d) && Filling(before, start, k0, frontier, |frontier|, cur, k, k - k0)
    requires q in k - k0
    ensures j < |frontier| && Took(before, start, frontier[j], cur, q) && FirstParent(before, frontier, q, j)
    ensures q in before && !Near(before, q, d) && cur.Keys == start.Keys == before.Keys
  {
    hide Around, Near, FirstParent, Coloured;
    j :| 0 <= j < |frontier| && Took(before, start, frontier[j], cur, q) && FirstParent(before, frontier, q, j);
  }

  lemma SourcesAreIn(img: Image, p: Point)
    ensures forall v :: IsSource(img, p, v) ==> v in img
  {
  }

  lemma SameColours(a: Pixel, b: Pixel, c: Pixel)
    requires SameColour(a, c) && b == Pixel(a.r, a.g, a.b, 0)
    ensures SameColour(b, c)
  {
  }

  lemma NotYetVisible(img: Image, q: Point, v: Point, d: int)
    requires q in img && IsSource(img, q, v) && Distance(q, v) == d + 1 && d >= 0
    ensures img[q].a == 0 && Near(img, q, d + 1)
  {
    assert Distance(q, q) == 0;
  }

  lemma FrontierIsKnown(before: Image, start: Image, k0: set<Point>, frontier: seq<Point>, d: int)
    requires Filled(before, start, k0, d) && IsFrontier(before, frontier, d)
    ensures forall p :: p in frontier ==> p in before && p in start && Coloured(before, start, p) && Sourced(before, p)
  {
    hide Near, Queued, IsSource, SameColour;
  }

  // ----- the next frontier's order ----------------------------------------------------------

  ghost predicate ParentsInTurn(img: Image, frontier: seq<Point>, p: Point, q: Point, i: nat, j: nat)
  {
    FirstParent(img, frontier, p, i) && FirstParent(img, frontier, q, j) ==> i <= j
  }

  /** Pixels stand in the order of their first parents. */
  ghost predicate ByParent(img: Image, frontier: seq<Point>, nxt: seq<Point>)
  {
    forall a, b, i: nat, j: nat | 0 <= a < b < |nxt| :: ParentsInTurn(img, frontier, nxt[a], nxt[b], i, j)
  }

  ghost predicate ParentedBefore(img: Image, frontier: seq<Point>, q: Point, i: nat)
  {
    exists j: nat :: j < i && FirstParent(img, frontier, q, j)
  }

  lemma OneParent(img: Image, frontier: seq<Point>, q: Point, i: nat, j: nat)
    requires FirstParent(img, frontier, q, i) && FirstParent(img, frontier, q, j)
    ensures i == j
  {
    hide Around;
  }

  lemma ByParentStep(img: Image, frontier: seq<Point>, i: nat, nxt: seq<Point>, nxt': seq<Point>)
    requires ByParent(img, frontier, nxt) && nxt <= nxt'
    requires forall q :: q in nxt ==> ParentedBefore(img, frontier, q, i)
    requires forall q :: q in nxt'[|nxt|..] ==> FirstParent(img, frontier, q, i)
    ensures ByParent(img, frontier, nxt')
    ensures forall q :: q in nxt' ==> ParentedBefore(img, frontier, q, i + 1)
  {
    hide FirstParent;
    forall a, b, m: nat, n: nat | 0 <= a < b < |nxt'|
      ensures ParentsInTurn(img, frontier, nxt'[a], nxt'[b], m, n)
    {
      if b < |nxt| {
        assert ParentsInTurn(img, frontier, nxt[a], nxt[b], m, n);
      } else if FirstParent(img, frontier, nxt'[a], m) && FirstParent(img, frontier, nxt'[b], n) {
        assert nxt'[b] == nxt'[|nxt|..][b - |nxt|];
        OneParent(img, frontier, nxt'[b], n, i);
        if a < |nxt| {
          assert nxt[a] in nxt;
          var j: nat :| j < i && FirstParent(img, frontier, nxt[a], j);
          OneParent(img, frontier, nxt'[a], m, j);
        } else {
          assert nxt'[a] == nxt'[|nxt|..][a - |nxt|];
          OneParent(img, frontier, nxt'[a], m, i);
        }
      }
    }
    forall q | q in nxt' ensures ParentedBefore(img, frontier, q, i + 1) {
      if q in nxt {
        var j: nat :| j < i && FirstParent(img, frontier, q, j);
      } else {
        var b :| 0 <= b < |nxt'| && nxt'[b] == q;
        assert b >= |nxt|;
        assert q == nxt'[|nxt|..][b - |nxt|];
        assert q in nxt'[|nxt|..];
        assert FirstParent(img, frontier, q, i);
      }
    }
  }

  /** A pixel not known before the i-th frontier pixel, and known after, has it for first parent. */
  lemma NewHasParent(before: Image, start: Image, k0: set<Point>, frontier: seq<Point>, i: nat,
                     cur: Image, k: set<Point>, cur': Image, k': set<Point>, q: Point)
    requires i < |frontier| && frontier[i] in before && start.Keys == before.Keys
    requires Filling(before, start, k0, frontier, i, cur, k, k - k0)
    requires SpreadFrom(frontier[i], cur, k, cur', k', 4) && q in k' - k
    ensures FirstParent(before, frontier, q, i)
  {
    hide Around, Took;
    SameAround(before, cur, frontier[i]);
  }

  lemma NextIsQueued(before: Image, w: int, h: int, start: Image, k0: set<Point>, frontier: seq<Point>, d: int,
                     nxt: seq<Point>)
    requires Rectangle(before, w, h) && d >= 0 && Filled(before, start, k0, d) && IsFrontier(before, frontier, d)
    requires ByParent(before, frontier, nxt)
    requires forall q :: q in nxt ==>
      q in before && !Near(before, q, d) && ParentedBefore(before, frontier, q, |frontier|)
    ensures Queued(before, nxt)
  {
    hide FirstParent, IsSource, Near, Layer, Rectangle;
    FrontierIsKnown(before, start, k0, frontier, d);
    forall a, b, u, v | 0 <= a < b < |nxt| ensures InTurn(before, nxt[a], nxt[b], u, v) {
      if IsSource(before, nxt[a], u) && IsSource(before, nxt[b], v) {
        assert nxt[a] in nxt && nxt[b] in nxt;
        var i: nat :| i < |frontier| && FirstParent(before, frontier, nxt[a], i);
        var j: nat :| j < |frontier| && FirstParent(before, frontier, nxt[b], j);
        assert ParentsInTurn(before, frontier, nxt[a], nxt[b], i, j);
        assert frontier[i] in frontier && frontier[j] in frontier;
        var s :| IsSource(before, frontier[i], s);
        var t :| IsSource(before, frontier[j], t);
        SourcePasses(before, w, h, frontier, d, nxt[a], i, s);
        SourcePasses(before, w, h, frontier, d, nxt[b], j, t);
        OneSource(before, nxt[a], u, s);
        OneSource(before, nxt[b], v, t);
        if i == j { OneSource(before, frontier[i], s, t); }
        else { assert InTurn(before, frontier[i], frontier[j], s, t); }
      }
    }
  }

  /** One frontier, and the next one. */
  method Pass(px: array2<Pixel>, known: array2<bool>, frontier: seq<Point>, ghost before: Image, ghost d: nat)
    returns (nxt: seq<Point>)
    requires known.Length0 == px.Length1 && known.Length1 == px.Length0
    requires Rectangle(before, px.Length0, px.Length1)
    requires Filled(before, Snapshot(px), Known(known), d) && IsFrontier(before, frontier, d)
    modifies px, known
    ensures Filled(before, Snapshot(px), Known(known), d + 1) && IsFrontier(before, nxt, d + 1)
  {
    hide Filled, Filling, Layer, SpreadFrom, Known, Rectangle, Snapshot, ByParent, FirstParent, Queued, ParentedBefore;
    ghost var start, k0 := Snapshot(px), Known(known);
    PassStarts(before, start, k0, frontier, d);
    NothingByParent(before, frontier);
    nxt := [];
    for i := 0 to |frontier|
      invariant k0 <= Known(known) && Snapshot(px).Keys == before.Keys
      invariant Filling(before, start, k0, frontier, i, Snapshot(px), Known(known), Known(known) - k0)
      invariant Elements(nxt) == Known(known) - k0
      invariant ByParent(before, frontier, nxt) && forall q :: q in nxt ==> ParentedBefore(before, frontier, q, i)
    {
      ghost var cur, k, nxt0 := Snapshot(px), Known(known), nxt;
      nxt := Spread(px, known, frontier[i], nxt);
      SpreadKeys(frontier[i], cur, k, Snapshot(px), Known(known));
      forall q | q in nxt[|nxt0|..] ensures FirstParent(before, frontier, q, i) {
        assert q in Elements(nxt[|nxt0|..]);
        NewHasParent(before, start, k0, frontier, i, cur, k, Snapshot(px), Known(known), q);
      }
      ByParentStep(before, frontier, i, nxt0, nxt);
      ElementsOfBoth(nxt0, nxt);
      FillingStep(before, start, k0, frontier, i, cur, k, Snapshot(px), Known(known));
    }
    FillingDone(before, px.Length0, px.Length1, start, k0, frontier, d, Snapshot(px), Known(known));
    assert forall p :: p in nxt <==> p in Elements(nxt);
    LayersApart(before, d);
    NextIsQueued(before, px.Length0, px.Length1, start, k0, frontier, d, nxt);
  }

  lemma LayersApart(before: Image, d: int)
    ensures forall q :: Layer(before, q, d + 1) ==> q in before && !Near(before, q, d)
  {
  }

  lemma NothingByParent(img: Image, frontier: seq<Point>)
    ensures ByParent(img, frontier, [])
  {
  }

  lemma ElementsOfBoth(a: seq<Point>, b: seq<Point>)
    requires a <= b
    ensures Elements(b) == Elements(a) + Elements(b[|a|..])
  {
    assert b == a + b[|a|..];
  }

  lemma SpreadKeys(p: Point, img: Image, k: set<Point>, img': Image, k': set<Point>)
    requires p in img && SpreadFrom(p, img, k, img', k', 4)
    ensures img'.Keys == img.Keys && k <= k'
  {
  }

  method Bleed(px: array2<Pixel>)
    modifies px
    ensures Bled(old(Snapshot(px)), Snapshot(px))
  {
    hide Filled, Filling, Layer, SpreadFrom, Bled, Known, Queued;
    var w, h := px.Length0, px.Length1;
    ghost var before := Snapshot(px);
    var known, frontier := FindVisible(px);
    ghost var d := 0;
    StartsFilled(before, Known(known));
    while frontier != []
      invariant known.Length0 == h && known.Length1 == w && fresh(known)
      invariant Filled(before, Snapshot(px), Known(known), d) && IsFrontier(before, frontier, d)
      invariant 0 <= d
      decreases w + h - d
    {
      LayerIsInside(before, w, h, frontier[0], d);
      frontier := Pass(px, known, frontier, before, d);
      d := d + 1;
    }
    FilledIsBled(before, w, h, Snapshot(px), Known(known), d);
  }

  method FindVisible(px: array2<Pixel>) returns (known: array2<bool>, frontier: seq<Point>)
    ensures fresh(known) && known.Length0 == px.Length1 && known.Length1 == px.Length0
    ensures forall p :: p in Known(known) <==> Visible(Snapshot(px), p)
    ensures IsFrontier(Snapshot(px), frontier, 0)
  {
    hide Layer, Snapshot;
    var w, h := px.Length0, px.Length1;
    ghost var img := Snapshot(px);
    known := new bool[h, w]((y, x) => false);
    frontier := [];
    assert Known(known) == {};
    hide Known;
    for y := 0 to h
      invariant forall p :: p in Known(known) <==> p.y < y && Visible(img, p)
      invariant Elements(frontier) == Known(known) && Scanned(frontier)
    {
      for x := 0 to w
        invariant forall p :: p in Known(known) <==> (p.y < y || (p.y == y && p.x < x)) && Visible(img, p)
        invariant Elements(frontier) == Known(known) && Scanned(frontier)
      {
        ScannedNext(frontier, Point(x, y));
        frontier := Look(px, known, x, y, frontier);
      }
    }
    VisibleIsQueued(img, frontier);
    forall p ensures Visible(img, p) <==> Layer(img, p, 0) { VisibleIsLayer(img, p); }
    assert forall p :: p in frontier <==> p in Elements(frontier);
  }

  /** One pixel of the first scan. */
  method Look(px: array2<Pixel>, known: array2<bool>, x: nat, y: nat, frontier: seq<Point>)
    returns (frontier': seq<Point>)
    requires x < px.Length0 && y < px.Length1 && known.Length0 == px.Length1 && known.Length1 == px.Length0
    requires Point(x, y) !in Known(known)
    modifies known
    ensures var found := if Visible(Snapshot(px), Point(x, y)) then {Point(x, y)} else {};
      Known(known) == old(Known(known)) + found && Elements(frontier') == Elements(frontier) + found
    ensures frontier' == if Visible(Snapshot(px), Point(x, y)) then frontier + [Point(x, y)] else frontier
  {
    known[y, x] := px[x, y].a > 0;
    frontier' := if px[x, y].a > 0 then frontier + [Point(x, y)] else frontier;
  }

  ghost predicate Scanned(s: seq<Point>) { forall i, j :: 0 <= i < j < |s| ==> ScannedBefore(s[i], s[j]) }

  lemma ScannedNext(s: seq<Point>, p: Point)
    requires Scanned(s)
    ensures (forall q :: q in Elements(s) ==> ScannedBefore(q, p)) ==> Scanned(s + [p])
  {
    hide ScannedBefore;
    forall i | 0 <= i < |s| ensures s[i] in Elements(s) { }
  }

  /** Visible pixels are their own sources. */
  lemma VisibleIsQueued(img: Image, frontier: seq<Point>)
    requires Scanned(frontier) && forall p :: p in Elements(frontier) ==> Visible(img, p)
    ensures Queued(img, frontier)
  {
    forall i, j, u, v | 0 <= i < j < |frontier| ensures InTurn(img, frontier[i], frontier[j], u, v) {
      assert frontier[i] in Elements(frontier) && frontier[j] in Elements(frontier);
      OwnSource(img, frontier[i]);
      OwnSource(img, frontier[j]);
      if IsSource(img, frontier[i], u) && IsSource(img, frontier[j], v) {
        OneSource(img, frontier[i], frontier[i], u);
        OneSource(img, frontier[j], frontier[j], v);
      }
    }
  }

  lemma OwnSource(img: Image, p: Point)
    requires Visible(img, p)
    ensures IsSource(img, p, p)
  {
  }

  lemma VisibleIsLayer(img: Image, p: Point)
    ensures Visible(img, p) <==> Layer(img, p, 0)
  {
    if Visible(img, p) { assert Distance(p, p) == 0; }
    if Near(img, p, 0) {
      var v :| Visible(img, v) && Distance(p, v) <= 0;
      assert v == p;
    }
  }

  lemma StartsFilled(before: Image, k: set<Point>)
    requires forall p :: p in k <==> Visible(before, p)
    ensures Filled(before, before, k, 0)
  {
    forall p ensures p in k <==> p in before && Near(before, p, 0) { VisibleIsLayer(before, p); }
    forall p | p in k ensures Coloured(before, before, p) {
      assert Distance(p, p) == 0;
      assert IsSource(before, p, p);
    }
  }

  lemma FilledIsBled(before: Image, w: int, h: int, after: Image, k: set<Point>, d: nat)
    requires Rectangle(before, w, h) && Filled(before, after, k, d)
    requires forall p :: !Layer(before, p, d)
    ensures Bled(before, after)
  {
    hide Near, Distance, Coloured, Layer, Rectangle;
    if v :| Visible(before, v) {
      forall p | p in before ensures p in k { AllReached(before, w, h, d, p, v); }
      forall p | p in before
        ensures after[p].a == before[p].a && (Visible(before, p) ==> after[p] == before[p])
      {
        ColouredKeeps(before, after, p);
      }
    } else {
      forall p | p in before ensures p !in k { NothingNear(before, p, d); }
    }
  }

  lemma ColouredKeeps(before: Image, after: Image, p: Point)
    requires p in before && p in after && Coloured(before, after, p)
    ensures after[p].a == before[p].a && (Visible(before, p) ==> after[p] == before[p])
  {
    var v :| IsSource(before, p, v) && SameColour(after[p], before[v]);
  }

  lemma NothingNear(img: Image, p: Point, d: int)
    requires forall v :: !Visible(img, v)
    ensures !Near(img, p, d)
  {
  }

  lemma AllReached(before: Image, w: int, h: int, d: nat, p: Point, v: Point)
    requires Rectangle(before, w, h) && p in before && Visible(before, v)
    requires forall q :: !Layer(before, q, d)
    ensures Near(before, p, d)
  {
    var m := HasLayer(before, p, Distance(p, v));
    if m > d {
      LayersAreConsecutive(before, w, h, p, m, d);
      assert false;
    } else {
      var u :| Visible(before, u) && Distance(p, u) <= m;
    }
  }

  lemma BledParts(before: Image, after: Image)
    requires Bled(before, after)
    ensures after.Keys == before.Keys
    ensures forall p :: Visible(after, p) <==> Visible(before, p)
    ensures forall p :: Visible(before, p) ==> after[p] == before[p]
    ensures forall p, v :: p in before && Visible(before, v) ==> Coloured(before, after, p)
    ensures (forall v :: !Visible(before, v)) ==> after == before
  {
    hide Coloured;
  }

  lemma BledFrom(before: Image, after: Image)
    requires after.Keys == before.Keys
    requires forall p :: p in before ==> after[p].a == before[p].a
    requires forall p :: Visible(before, p) ==> after[p] == before[p]
    requires forall p, v :: p in before && Visible(before, v) ==> Coloured(before, after, p)
    requires (forall v :: !Visible(before, v)) ==> after == before
    ensures Bled(before, after)
  {
    hide Coloured;
  }

  lemma ColouredAgain(before: Image, mid: Image, after: Image, p: Point)
    requires p in before && p in mid && p in after && mid.Keys == before.Keys
    requires forall q :: Visible(mid, q) <==> Visible(before, q)
    requires forall q :: Visible(before, q) ==> mid[q] == before[q]
    requires Coloured(before, mid, p) && Coloured(mid, after, p)
    ensures Coloured(before, after, p)
  {
    hide Distance, SameColour;
    var v :| IsSource(mid, p, v) && SameColour(after[p], mid[v]);
    assert IsSource(before, p, v) && SameColour(after[p], before[v]);
  }

  lemma ColouredOnce(before: Image, a: Image, b: Image, p: Point)
    requires p in before && p in a && p in b && Coloured(before, a, p) && Coloured(before, b, p)
    ensures a[p] == b[p]
  {
    hide Distance;
    var u :| IsSource(before, p, u) && SameColour(a[p], before[u]);
    var v :| IsSource(before, p, v) && SameColour(b[p], before[v]);
    OneSource(before, p, u, v);
  }

  /** An image has one fill. */
  lemma BledIsOne(before: Image, a: Image, b: Image)
    requires Bled(before, a) && Bled(before, b)
    ensures a == b
  {
    hide Bled, Coloured, Visible;
    BledParts(before, a);
    BledParts(before, b);
    if v :| Visible(before, v) {
      forall p | p in before ensures a[p] == b[p] { ColouredOnce(before, a, b, p); }
    }
  }

  /** Filling what is filled already changes nothing. */
  lemma BledIsFixed(before: Image, mid: Image, after: Image)
    requires Bled(before, mid) && Bled(mid, after)
    ensures after == mid
  {
    hide Bled;
    BleedAgain(before, mid, after);
    BledIsOne(before, mid, after);
  }

  /** Filling what is filled already is still a fill of the first image. */
  lemma BleedAgain(before: Image, mid: Image, after: Image)
    requires Bled(before, mid) && Bled(mid, after)
    ensures Bled(before, after)
  {
    hide Bled, Coloured, Visible;
    BledParts(before, mid);
    BledParts(mid, after);
    SameAlphas(before, mid);
    SameAlphas(mid, after);
    forall p, v | p in before && Visible(before, v) ensures Coloured(before, after, p) {
      ColouredAgain(before, mid, after, p);
    }
    BledFrom(before, after);
  }

  lemma SameAlphas(before: Image, after: Image)
    requires Bled(before, after)
    ensures after.Keys == before.Keys && forall p :: p in before ==> after[p].a == before[p].a
  {
    hide Coloured;
  }
}
