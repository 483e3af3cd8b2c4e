/**
 * scripts/brand-logo-variants.py, lines 28 to 80: the alpha channel of the transparent
 * logo. Two flood fills over in-place arrays, against connectivity of white pixels.
 * Whiteness is a real number in [0, 1], as the script's floats are.
 */
module BrandLogo {
  import opened Wrappers

  datatype Rgb = Rgb(r: int, g: int, b: int)

  datatype Pt = Pt(x: int, y: int)

  datatype Image = Image(w: nat, h: nat, px: Pt -> Rgb)

  const THRESH: real := 0.88
  const SOFT: real := 0.70

  function Min(a: int, b: int): int {
    if a <= b then a else b
  }

  function Whiteness(im: Image, p: Pt): real {
    var c := im.px(p);
    Min(c.r, Min(c.g, c.b)) as real / 255.0
  }

  predicate InBounds(im: Image, p: Pt) {
    0 <= p.x < im.w && 0 <= p.y < im.h
  }

  predicate White(im: Image, p: Pt) {
    InBounds(im, p) && Whiteness(im, p) >= THRESH
  }

  /** Between SOFT and THRESH: an anti-aliased edge. */
  predicate Soft(im: Image, p: Pt) {
    InBounds(im, p) && SOFT <= Whiteness(im, p) < THRESH
  }

  function SoftAlpha(im: Image, p: Pt): int {
    (255.0 * (THRESH - Whiteness(im, p)) / (THRESH - SOFT)).Floor
  }

  lemma SoftAlphaRange(im: Image, p: Pt)
    requires Soft(im, p)
    ensures 0 <= SoftAlpha(im, p) <= 255
  {
  }

  /** Regions below this size are texture speckles. */
  function MinCounter(im: Image): int {
    if im.w * im.h / 20000 > 200 then im.w * im.h / 20000 else 200
  }

  /** White, in integers: every channel at least 225. */
  lemma WhiteExactly(im: Image, p: Pt)
    ensures White(im, p) <==> InBounds(im, p) && im.px(p).r >= 225 && im.px(p).g >= 225 && im.px(p).b >= 225
  {
    WhitenessExactly(im, p);
  }

  /** Soft, in integers: every channel at least 179, and one below 225. */
  lemma SoftExactly(im: Image, p: Pt)
    ensures Soft(im, p) <==>
              && InBounds(im, p) && im.px(p).r >= 179 && im.px(p).g >= 179 && im.px(p).b >= 179
              && (im.px(p).r < 225 || im.px(p).g < 225 || im.px(p).b < 225)
  {
    WhitenessExactly(im, p);
  }

  lemma WhitenessExactly(im: Image, p: Pt)
    ensures Whiteness(im, p) >= THRESH <==> im.px(p).r >= 225 && im.px(p).g >= 225 && im.px(p).b >= 225
    ensures Whiteness(im, p) >= SOFT <==> im.px(p).r >= 179 && im.px(p).g >= 179 && im.px(p).b >= 179
  {
  }

  /** The softened alpha falls from 252 to 2 as the least channel rises from 179 to 224. */
  lemma SoftAlphaExactly(im: Image, p: Pt)
    requires Soft(im, p)
    ensures var c := im.px(p);
            && (exists m :: (m == c.r || m == c.g || m == c.b) && m <= c.r && m <= c.g && m <= c.b
                            && SoftAlpha(im, p) == (22440 - 100 * m) / 18)
            && 2 <= SoftAlpha(im, p) <= 252
  {
    WhitenessExactly(im, p);
    var m := Min(im.px(p).r, Min(im.px(p).g, im.px(p).b));
    assert 255.0 * (THRESH - Whiteness(im, p)) / (THRESH - SOFT) == (22440 - 100 * m) as real / 18.0;
    FloorQuotient(22440 - 100 * m);
    assert SoftAlpha(im, p) == (22440 - 100 * m) / 18;
  }

  lemma FloorQuotient(n: int)
    ensures (n as real / 18.0).Floor == n / 18
  {
    var q := n / 18;
    assert q as real <= n as real / 18.0 < q as real + 1.0;
  }

  /** The whiter of two soft pixels is never the more opaque. */
  lemma SoftAlphaFalls(im: Image, p: Pt, q: Pt)
    requires Soft(im, p) && Soft(im, q)
    requires im.px(p).r <= im.px(q).r && im.px(p).g <= im.px(q).g && im.px(p).b <= im.px(q).b
    ensures SoftAlpha(im, p) >= SoftAlpha(im, q)
  {
  }

  /** A speckle is smaller than 200 pixels, or than a 20000th of a larger image, rounded down. */
  lemma MinCounterExactly(im: Image)
    ensures MinCounter(im) == 200 || 20000 * MinCounter(im) <= im.w * im.h
    ensures MinCounter(im) >= 200 && 20000 * (MinCounter(im) + 1) > im.w * im.h
  {
  }

  function Neighbours(p: Pt): (ns: seq<Pt>)
    ensures |ns| == 4
  {
    [Pt(p.x + 1, p.y), Pt(p.x - 1, p.y), Pt(p.x, p.y + 1), Pt(p.x, p.y - 1)]
  }

  predicate Adjacent(p: Pt, q: Pt) {
    (q.y == p.y && (q.x == p.x + 1 || q.x == p.x - 1)) || (q.x == p.x && (q.y == p.y + 1 || q.y == p.y - 1))
  }

  lemma NeighboursAreAdjacent(p: Pt, q: Pt)
    ensures q in Neighbours(p) <==> Adjacent(p, q)
    ensures Adjacent(p, q) <==> Adjacent(q, p)
  {
    var ns := Neighbours(p);
    assert ns[0] in ns && ns[1] in ns && ns[2] in ns && ns[3] in ns;
  }

  predicate OnBorder(im: Image, p: Pt) {
    InBounds(im, p) && (p.x == 0 || p.y == 0 || p.x == im.w - 1 || p.y == im.h - 1)
  }

  // ---- Connectivity of white pixels ----

  ghost predicate WhitePath(im: Image, path: seq<Pt>) {
    && path != []
    && (forall k :: 0 <= k < |path| ==> White(im, path[k]))
    && (forall k :: 0 < k < |path| ==> Adjacent(path[k - 1], path[k]))
  }

  ghost predicate Runs(im: Image, path: seq<Pt>, p: Pt, q: Pt) {
    WhitePath(im, path) && path[0] == p && path[|path| - 1] == q
  }

  ghost predicate Reach(im: Image, p: Pt, q: Pt) {
    exists path :: Runs(im, path, p, q)
  }

  lemma ReachSelf(im: Image, p: Pt)
    requires White(im, p)
    ensures Reach(im, p, p)
  {
    assert Runs(im, [p], p, p);
  }

  lemma ReachStep(im: Image, p: Pt, q: Pt, r: Pt)
    requires Reach(im, p, q) && Adjacent(q, r) && White(im, r)
    ensures Reach(im, p, r)
  {
    var path :| Runs(im, path, p, q);
    assert Runs(im, path + [r], p, r);
  }

  lemma {:induction false} ReachTrans(im: Image, p: Pt, q: Pt, r: Pt)
    requires Reach(im, p, q) && Reach(im, q, r)
    ensures Reach(im, p, r)
  {
    var a :| Runs(im, a, p, q);
    var b :| Runs(im, b, q, r);
    var c := a + b[1..];
    forall k | 0 < k < |c|
      ensures Adjacent(c[k - 1], c[k])
    {
      if k >= |a| {
        assert c[k - 1] == b[k - |a|] && c[k] == b[k - |a| + 1];
      }
    }
    assert Runs(im, c, p, r);
  }

  function Reversed(s: seq<Pt>): (r: seq<Pt>)
    ensures |r| == |s| && forall k :: 0 <= k < |s| ==> r[k] == s[|s| - 1 - k]
  {
    if s == [] then [] else Reversed(s[1..]) + [s[0]]
  }

  lemma ReachSym(im: Image, p: Pt, q: Pt)
    requires Reach(im, p, q)
    ensures Reach(im, q, p)
  {
    var path :| Runs(im, path, p, q);
    assert Runs(im, Reversed(path), q, p);
  }

  /** A set that is closed under white neighbours holds everything its white members reach. */
  ghost predicate WhiteClosed(im: Image, s: set<Pt>) {
    forall p, q :: p in s && White(im, p) && White(im, q) && Adjacent(p, q) ==> q in s
  }

  lemma {:induction false} ClosedHoldsReach(im: Image, s: set<Pt>, path: seq<Pt>)
    requires WhiteClosed(im, s) && WhitePath(im, path) && path[0] in s
    ensures path[|path| - 1] in s
  {
    if |path| > 1 {
      ClosedHoldsReach(im, s, path[..|path| - 1]);
      assert Adjacent(path[|path| - 2], path[|path| - 1]);
    }
  }

  lemma ReachStaysIn(im: Image, s: set<Pt>, p: Pt, q: Pt)
    requires WhiteClosed(im, s) && p in s && Reach(im, p, q)
    ensures q in s
  {
    var path :| Runs(im, path, p, q);
    ClosedHoldsReach(im, s, path);
  }

  // ---- What the fills must compute ----

  ghost function Pixels(im: Image): set<Pt> {
    set x: int, y: int | 0 <= x < im.w && 0 <= y < im.h :: Pt(x, y)
  }

  lemma PixelsInBounds(im: Image, p: Pt)
    ensures p in Pixels(im) <==> InBounds(im, p)
  {
    assert p == Pt(p.x, p.y);
  }

  /** The white 4-connected component of `p`. */
  ghost function Component(im: Image, p: Pt): set<Pt> {
    set q | q in Pixels(im) && Reach(im, p, q)
  }

  ghost predicate EdgeWhite(im: Image, p: Pt) {
    exists b :: OnBorder(im, b) && Reach(im, b, p)
  }

  /** White, and in a component that touches the border or is at least a counter's size. */
  ghost predicate Cleared(im: Image, p: Pt) {
    White(im, p) && (EdgeWhite(im, p) || |Component(im, p)| >= MinCounter(im))
  }

  /** On the border or next to a pixel of `cleared`: where a soft pixel is softened. */
  ghost predicate Fringe(im: Image, cleared: set<Pt>, p: Pt) {
    OnBorder(im, p) || exists q :: q in cleared && Adjacent(q, p)
  }

  ghost function AlphaOf(im: Image, cleared: set<Pt>, fringe: set<Pt>, p: Pt): int {
    if p in cleared then 0 else if p in fringe && Soft(im, p) then SoftAlpha(im, p) else 255
  }

  ghost function ClearedSet(im: Image): set<Pt> {
    set p | p in Pixels(im) && Cleared(im, p)
  }

  ghost function FinalAlpha(im: Image, p: Pt): int {
    if Cleared(im, p) then 0
    else if Soft(im, p) && Fringe(im, ClearedSet(im), p) then SoftAlpha(im, p)
    else 255
  }

  /** A white pixel is transparent exactly when its component touches the border or is a counter, else opaque. */
  lemma WhitePixelAlpha(im: Image, p: Pt)
    requires White(im, p)
    ensures FinalAlpha(im, p) == 0 <==> EdgeWhite(im, p) || |Component(im, p)| >= MinCounter(im)
    ensures FinalAlpha(im, p) == 0 || FinalAlpha(im, p) == 255
  {
  }

  /** A pixel with any channel below 179 ends opaque: what is not nearly white is never touched. */
  lemma ColourStaysOpaque(im: Image, p: Pt)
    requires im.px(p).r < 179 || im.px(p).g < 179 || im.px(p).b < 179
    ensures FinalAlpha(im, p) == 255
  {
    WhiteExactly(im, p);
    SoftExactly(im, p);
  }

  lemma FinalAlphaRange(im: Image, p: Pt)
    ensures 0 <= FinalAlpha(im, p) <= 255
  {
    if Soft(im, p) {
      SoftAlphaRange(im, p);
    }
  }

  // ---- The arrays ----

  ghost predicate Sized<T>(im: Image, a: array2<T>) {
    a.Length0 == im.h && a.Length1 == im.w
  }

  /** `seen` marks exactly the pixels of `s`. */
  ghost predicate Marks(im: Image, seen: array2<bool>, s: set<Pt>)
    reads seen
  {
    && Sized(im, seen)
    && (forall p :: p in s ==> InBounds(im, p))
    && forall p :: InBounds(im, p) ==> (seen[p.y, p.x] <==> p in s)
  }

  ghost predicate Shows(im: Image, alpha: array2<int>, cleared: set<Pt>, fringe: set<Pt>)
    reads alpha
  {
    Sized(im, alpha) && forall p :: InBounds(im, p) ==> alpha[p.y, p.x] == AlphaOf(im, cleared, fringe, p)
  }

  // ---- Phase 1: edge-connected white ----

  ghost predicate BorderQueued(im: Image, q: seq<Pt>, s: set<Pt>) {
    forall p :: OnBorder(im, p) ==> p in s || p in q
  }

  /** The seeds: both ends of every column, then of every row. */
  method Seeds(im: Image) returns (q: seq<Pt>)
    ensures BorderQueued(im, q, {})
    ensures forall p :: p in q && InBounds(im, p) ==> OnBorder(im, p)
  {
    q := [];
    for x := 0 to im.w
      invariant forall p :: p in q && InBounds(im, p) ==> OnBorder(im, p)
      invariant forall p :: OnBorder(im, p) && p.x < x && (p.y == 0 || p.y == im.h - 1) ==> p in q
    {
      q := q + [Pt(x, 0)] + [Pt(x, im.h - 1)];
    }
    for y := 0 to im.h
      invariant forall p :: p in q && InBounds(im, p) ==> OnBorder(im, p)
      invariant forall p :: OnBorder(im, p) && (p.y == 0 || p.y == im.h - 1) ==> p in q
      invariant forall p :: OnBorder(im, p) && p.y < y && (p.x == 0 || p.x == im.w - 1) ==> p in q
    {
      q := q + [Pt(0, y)] + [Pt(im.w - 1, y)];
    }
  }

  ghost function WhiteOf(im: Image, s: set<Pt>): set<Pt> {
    set p | p in s && White(im, p)
  }

  /** Everything queued is on the border or next to a visited white pixel. */
  ghost predicate Grounded(im: Image, q: seq<Pt>, s: set<Pt>) {
    forall p :: p in q && InBounds(im, p) ==> Fringe(im, WhiteOf(im, s), p)
  }

  /** Everything visited is grounded too, and its white part is reached from the border. */
  ghost predicate Founded(im: Image, s: set<Pt>) {
    && (forall p :: p in s ==> Fringe(im, WhiteOf(im, s), p))
    && (forall p :: p in s && White(im, p) ==> EdgeWhite(im, p))
  }

  /** Neighbours of visited white pixels are visited or queued. */
  ghost predicate Frontier(im: Image, q: seq<Pt>, s: set<Pt>) {
    forall p, r :: p in s && White(im, p) && Adjacent(p, r) && InBounds(im, r) ==> r in s || r in q
  }

  lemma FringeIsEdge(im: Image, s: set<Pt>, p: Pt)
    requires Founded(im, s) && Fringe(im, WhiteOf(im, s), p) && White(im, p)
    ensures EdgeWhite(im, p)
  {
    if OnBorder(im, p) {
      ReachSelf(im, p);
    } else {
      var q :| q in WhiteOf(im, s) && Adjacent(q, p);
      var b :| OnBorder(im, b) && Reach(im, b, q);
      ReachStep(im, b, q, p);
    }
  }

  /** Mark a pixel, and clear or soften it by its whiteness. */
  method Visit(im: Image, seen: array2<bool>, alpha: array2<int>, p: Pt, ghost s: set<Pt>)
    requires Marks(im, seen, s) && Shows(im, alpha, WhiteOf(im, s), s) && InBounds(im, p) && p !in s
    modifies seen, alpha
    ensures Marks(im, seen, s + {p}) && Shows(im, alpha, WhiteOf(im, s + {p}), s + {p})
  {
    seen[p.y, p.x] := true;
    if Whiteness(im, p) >= THRESH {
      alpha[p.y, p.x] := 0;
    } else if Whiteness(im, p) >= SOFT {
      alpha[p.y, p.x] := SoftAlpha(im, p);
    }
  }

  method EdgeFill(im: Image, seen: array2<bool>, alpha: array2<int>) returns (ghost s: set<Pt>)
    requires Marks(im, seen, {}) && Shows(im, alpha, {}, {})
    modifies seen, alpha
    ensures Marks(im, seen, s) && Shows(im, alpha, WhiteOf(im, s), s)
    ensures forall p :: White(im, p) ==> (p in s <==> EdgeWhite(im, p))
    ensures forall p :: InBounds(im, p) ==> (p in s <==> Fringe(im, WhiteOf(im, s), p))
  {
    s := {};
    assert WhiteOf(im, s) == {};
    var q := Seeds(im);
    while q != []
      invariant Marks(im, seen, s) && Shows(im, alpha, WhiteOf(im, s), s)
      invariant BorderQueued(im, q, s) && Grounded(im, q, s) && Founded(im, s) && Frontier(im, q, s)
      decreases Pixels(im) - s, |q|
    {
      var p := q[0];
      ghost var was := q;
      q := q[1..];
      if !InBounds(im, p) || seen[p.y, p.x] {
        Skipped(im, was, s);
        continue;
      }
      PixelsInBounds(im, p);
      Visit(im, seen, alpha, p, s);
      if Whiteness(im, p) >= THRESH {
        q := q + Neighbours(p);
      }
      Visited(im, was, q, s, p);
      s := s + {p};
    }
    ClosedFill(im, s);
  }

  lemma Skipped(im: Image, was: seq<Pt>, s: set<Pt>)
    requires BorderQueued(im, was, s) && Grounded(im, was, s) && Frontier(im, was, s)
    requires was != [] && (!InBounds(im, was[0]) || was[0] in s)
    ensures BorderQueued(im, was[1..], s) && Grounded(im, was[1..], s) && Frontier(im, was[1..], s)
  {
    assert forall r :: r in was <==> r == was[0] || r in was[1..];
  }

  /** One pixel visited: its neighbours queued if it is white. */
  lemma Visited(im: Image, was: seq<Pt>, q: seq<Pt>, s: set<Pt>, p: Pt)
    requires BorderQueued(im, was, s) && Grounded(im, was, s) && Founded(im, s) && Frontier(im, was, s)
    requires was != [] && p == was[0] && InBounds(im, p) && p !in s
    requires q == if White(im, p) then was[1..] + Neighbours(p) else was[1..]
    ensures BorderQueued(im, q, s + {p}) && Grounded(im, q, s + {p}) && Founded(im, s + {p}) && Frontier(im, q, s + {p})
  {
    assert forall r :: r in was <==> r == p || r in was[1..];
    if White(im, p) {
      FringeIsEdge(im, s, p);
    }
    assert WhiteOf(im, s) <= WhiteOf(im, s + {p});
    forall r
      ensures r in Neighbours(p) <==> Adjacent(p, r)
    {
      NeighboursAreAdjacent(p, r);
    }
  }

  lemma ClosedFill(im: Image, s: set<Pt>)
    requires BorderQueued(im, [], s) && Founded(im, s) && Frontier(im, [], s)
    ensures forall p :: White(im, p) ==> (p in s <==> EdgeWhite(im, p))
    ensures forall p :: InBounds(im, p) ==> (p in s <==> Fringe(im, WhiteOf(im, s), p))
  {
    forall p | White(im, p) && EdgeWhite(im, p)
      ensures p in s
    {
      var b :| OnBorder(im, b) && Reach(im, b, p);
      ReachStaysIn(im, s, b, p);
    }
  }

  // ---- Phase 2: enclosed white components ----

  /** What the depth-first fill has found so far: the pixels collected and those stacked, once each. */
  ghost predicate Found(im: Image, root: Pt, s: set<Pt>, found: set<Pt>, comp: seq<Pt>, stack: seq<Pt>) {
    && NoRepeats(comp + stack)
    && (forall p :: p in found <==> p in comp || p in stack)
    && root in found && found !! s
    && (forall p :: p in found ==> White(im, p) && Reach(im, root, p))
  }

  /** White neighbours of `p`, as far as looked at, are visited. */
  ghost predicate Looked(im: Image, p: Pt, visited: set<Pt>, k: int) {
    forall j :: 0 <= j < k && j < 4 && White(im, Neighbours(p)[j]) ==> Neighbours(p)[j] in visited
  }

  /** Stack the unvisited white neighbours of a collected pixel. */
  method LookAround(im: Image, seen: array2<bool>, p: Pt, stack: seq<Pt>,
                    ghost root: Pt, ghost s: set<Pt>, ghost found: set<Pt>, ghost comp: seq<Pt>)
    returns (stack': seq<Pt>, ghost found': set<Pt>)
    requires Marks(im, seen, s + found) && Found(im, root, s, found, comp, stack) && p in comp
    modifies seen
    ensures Marks(im, seen, s + found') && Found(im, root, s, found', comp, stack')
    ensures found <= found' && Looked(im, p, s + found', 4)
    ensures found' == found ==> stack' == stack
  {
    stack', found' := stack, found;
    var k := 0;
    while k < 4
      invariant 0 <= k <= 4
      invariant Marks(im, seen, s + found') && Found(im, root, s, found', comp, stack')
      invariant found <= found' && Looked(im, p, s + found', k)
      invariant found' == found ==> stack' == stack
    {
      var n := Neighbours(p)[k];
      if InBounds(im, n) && !seen[n.y, n.x] && Whiteness(im, n) >= THRESH {
        seen[n.y, n.x] := true;
        NeighboursAreAdjacent(p, n);
        ReachStep(im, root, p, n);
        Pushed(im, root, s, found', comp, stack', n);
        stack' := stack' + [n];
        found' := found' + {n};
      }
      k := k + 1;
    }
  }

  method CollectComponent(im: Image, seen: array2<bool>, root: Pt, ghost s: set<Pt>)
    returns (comp: seq<Pt>, ghost found: set<Pt>)
    requires Marks(im, seen, s) && White(im, root) && root !in s && WhiteClosed(im, s)
    modifies seen
    ensures Marks(im, seen, s + found)
    ensures found == Component(im, root) && found !! s && WhiteClosed(im, s + found)
    ensures NoRepeats(comp) && (forall p :: p in comp <==> p in found) && |comp| == |found|
  {
    comp := [];
    var stack := [root];
    found := {root};
    seen[root.y, root.x] := true;
    ReachSelf(im, root);
    while stack != []
      invariant Marks(im, seen, s + found)
      invariant Found(im, root, s, found, comp, stack)
      invariant forall p :: p in comp ==> Looked(im, p, s + found, 4)
      decreases Pixels(im) - (s + found), |stack|
    {
      var p := stack[|stack| - 1];
      ghost var was := found;
      Popped(im, root, s, found, comp, stack);
      stack := stack[..|stack| - 1];
      comp := comp + [p];
      stack, found := LookAround(im, seen, p, stack, root, s, found, comp);
      Progress(im, s, was, found);
    }
    Exhausted(im, root, s, found, comp);
  }

  lemma Popped(im: Image, root: Pt, s: set<Pt>, found: set<Pt>, comp: seq<Pt>, stack: seq<Pt>)
    requires Found(im, root, s, found, comp, stack) && stack != []
    ensures Found(im, root, s, found, comp + [stack[|stack| - 1]], stack[..|stack| - 1])
  {
    var top, rest := stack[|stack| - 1], stack[..|stack| - 1];
    assert stack == rest + [top];
    assert (comp + [top]) + rest == comp + ([top] + rest);
    forall j, k | 0 <= j < k < |comp + [top] + rest|
      ensures (comp + [top] + rest)[j] != (comp + [top] + rest)[k]
    {
      var c := comp + stack;
      var a := if j < |comp| then j else if j == |comp| then |c| - 1 else j - 1;
      var b := if k < |comp| then k else if k == |comp| then |c| - 1 else k - 1;
      assert (comp + [top] + rest)[j] == c[a] && (comp + [top] + rest)[k] == c[b];
    }
  }

  lemma Pushed(im: Image, root: Pt, s: set<Pt>, found: set<Pt>, comp: seq<Pt>, stack: seq<Pt>, n: Pt)
    requires Found(im, root, s, found, comp, stack) && n !in s + found && White(im, n) && Reach(im, root, n)
    ensures Found(im, root, s, found + {n}, comp, stack + [n])
  {
    assert comp + (stack + [n]) == (comp + stack) + [n];
    forall j | 0 <= j < |comp + stack|
      ensures (comp + stack)[j] != n
    {
      assert (comp + stack)[j] in found;
    }
  }

  lemma Progress(im: Image, s: set<Pt>, was: set<Pt>, found: set<Pt>)
    requires was <= found && found !! s && forall p :: p in found ==> White(im, p)
    ensures was == found || Pixels(im) - (s + found) < Pixels(im) - (s + was)
  {
    if p :| p in found && p !in was {
      PixelsInBounds(im, p);
      assert p in Pixels(im) - (s + was);
    }
  }

  lemma Exhausted(im: Image, root: Pt, s: set<Pt>, found: set<Pt>, comp: seq<Pt>)
    requires Found(im, root, s, found, comp, []) && WhiteClosed(im, s)
    requires forall p :: p in comp ==> Looked(im, p, s + found, 4)
    ensures found == Component(im, root) && WhiteClosed(im, s + found)
    ensures NoRepeats(comp) && |comp| == |found|
  {
    assert comp + [] == comp;
    forall p, q | p in found && White(im, q) && Adjacent(p, q)
      ensures q in found
    {
      NeighboursAreAdjacent(p, q);
      var j :| 0 <= j < 4 && Neighbours(p)[j] == q;
      assert Looked(im, p, s + found, 4);
      assert q in s + found;
      NeighboursAreAdjacent(q, p);
    }
    forall q
      ensures q in found <==> q in Component(im, root)
    {
      if Reach(im, root, q) {
        ReachStaysIn(im, found, root, q);
      }
      PixelsInBounds(im, q);
    }
    DistinctSize(comp, found);
  }

  lemma {:induction false} DistinctSize(s: seq<Pt>, all: set<Pt>)
    requires NoRepeats(s) && forall p :: p in all <==> p in s
    ensures |all| == |s|
  {
    if s == [] {
      assert all == {};
    } else {
      var n := |s| - 1;
      forall p
        ensures p in all - {s[n]} <==> p in s[..n]
      {
        if p in s && p != s[n] {
          var k :| 0 <= k < |s| && s[k] == p;
          assert s[..n][k] == p;
        }
      }
      DistinctSize(s[..n], all - {s[n]});
    }
  }

  ghost function SetOf(s: seq<Pt>): set<Pt> {
    set p | p in s
  }

  ghost function Around(comp: seq<Pt>): set<Pt> {
    set p, k | p in comp && 0 <= k < 4 :: Neighbours(p)[k]
  }

  /** A component's own neighbours are either in it or not white. */
  ghost predicate Enclosed(im: Image, found: set<Pt>) {
    && (forall p :: p in found ==> White(im, p))
    && forall p, q :: p in found && White(im, q) && Adjacent(p, q) ==> q in found
  }

  /** Soften the opaque neighbours of one cleared pixel. */
  method SoftenAround(im: Image, alpha: array2<int>, p: Pt, ghost found: set<Pt>, ghost cleared: set<Pt>,
                      ghost fringe: set<Pt>)
    requires Shows(im, alpha, cleared, fringe) && Enclosed(im, found) && p in found && found <= cleared
    modifies alpha
    ensures Shows(im, alpha, cleared, fringe + Around([p]))
  {
    var k := 0;
    ghost var done := fringe;
    while k < 4
      invariant 0 <= k <= 4
      invariant Shows(im, alpha, cleared, done)
      invariant forall q :: q in done <==> q in fringe || exists j :: 0 <= j < k && Neighbours(p)[j] == q
    {
      var n := Neighbours(p)[k];
      NeighboursAreAdjacent(p, n);
      if InBounds(im, n) && alpha[n.y, n.x] == 255 {
        if Whiteness(im, n) >= SOFT {
          alpha[n.y, n.x] := SoftAlpha(im, n);
        }
      }
      done := done + {n};
      k := k + 1;
    }
    assert done == fringe + Around([p]);
  }

  method ClearPixels(im: Image, alpha: array2<int>, comp: seq<Pt>, ghost cleared: set<Pt>, ghost fringe: set<Pt>)
    requires Shows(im, alpha, cleared, fringe)
    requires forall p :: p in comp ==> White(im, p)
    modifies alpha
    ensures Shows(im, alpha, cleared + SetOf(comp), fringe)
  {
    for i := 0 to |comp|
      invariant Shows(im, alpha, cleared + SetOf(comp[..i]), fringe)
    {
      var p := comp[i];
      assert p in comp;
      alpha[p.y, p.x] := 0;
      assert comp[..i + 1] == comp[..i] + [p];
    }
    assert comp[..|comp|] == comp;
  }

  /** Clear a component and soften its edge. */
  method ClearComponent(im: Image, alpha: array2<int>, comp: seq<Pt>, ghost found: set<Pt>,
                        ghost cleared: set<Pt>, ghost fringe: set<Pt>)
    requires Shows(im, alpha, cleared, fringe) && Enclosed(im, found)
    requires forall p :: p in comp <==> p in found
    modifies alpha
    ensures Shows(im, alpha, cleared + found, fringe + Around(comp))
  {
    ClearPixels(im, alpha, comp, cleared, fringe);
    assert SetOf(comp) == found;
    SoftenEdge(im, alpha, comp, found, cleared + found, fringe);
  }

  /** Soften the edge of a cleared component. */
  method SoftenEdge(im: Image, alpha: array2<int>, comp: seq<Pt>, ghost found: set<Pt>,
                    ghost cleared: set<Pt>, ghost fringe: set<Pt>)
    requires Shows(im, alpha, cleared, fringe) && Enclosed(im, found) && found <= cleared
    requires forall p :: p in comp ==> p in found
    modifies alpha
    ensures Shows(im, alpha, cleared, fringe + Around(comp))
  {
    assert fringe + Around(comp[..0]) == fringe;
    for i := 0 to |comp|
      invariant Shows(im, alpha, cleared, fringe + Around(comp[..i]))
    {
      SoftenAround(im, alpha, comp[i], found, cleared, fringe + Around(comp[..i]));
      AroundGrows(comp, i, fringe);
    }
    assert comp[..|comp|] == comp;
  }

  lemma AroundGrows(comp: seq<Pt>, i: nat, fringe: set<Pt>)
    requires i < |comp|
    ensures fringe + Around(comp[..i]) + Around([comp[i]]) == fringe + Around(comp[..i + 1])
  {
    AroundSnoc(comp, i);
  }

  lemma AroundSnoc(comp: seq<Pt>, i: nat)
    requires i < |comp|
    ensures Around(comp[..i + 1]) == Around(comp[..i]) + Around([comp[i]])
  {
    assert comp[..i + 1] == comp[..i] + [comp[i]];
  }

  // ---- The whole channel ----

  /** The scan's state: what is visited, cleared and softened agrees with the components visited. */
  ghost predicate Scanned(im: Image, s: set<Pt>, cleared: set<Pt>, fringe: set<Pt>) {
    && WhiteClosed(im, s) && cleared <= s
    && (forall p :: p in cleared ==> White(im, p))
    && (forall p :: p in s && White(im, p) ==> (p in cleared <==> Cleared(im, p)))
    && (forall p :: White(im, p) && EdgeWhite(im, p) ==> p in s)
    && (forall p :: InBounds(im, p) && !White(im, p) ==> (p in fringe <==> Fringe(im, cleared, p)))
  }

  lemma EdgePhaseScanned(im: Image, s: set<Pt>)
    requires forall p :: White(im, p) ==> (p in s <==> EdgeWhite(im, p))
    requires forall p :: InBounds(im, p) ==> (p in s <==> Fringe(im, WhiteOf(im, s), p))
    ensures Scanned(im, s, WhiteOf(im, s), s)
  {
    forall p, q | p in s && White(im, p) && White(im, q) && Adjacent(p, q)
      ensures q in s
    {
      var b :| OnBorder(im, b) && Reach(im, b, p);
      ReachStep(im, b, p, q);
    }
  }

  /** All pixels of one enclosed component are cleared, or none, by its size. */
  lemma ComponentVerdict(im: Image, s: set<Pt>, root: Pt, p: Pt)
    requires forall q :: White(im, q) && EdgeWhite(im, q) ==> q in s
    requires White(im, root) && p in Component(im, root) && p !in s
    ensures White(im, p) && (Cleared(im, p) <==> |Component(im, root)| >= MinCounter(im))
  {
    var path :| Runs(im, path, root, p);
    ReachSym(im, root, p);
    forall q
      ensures Reach(im, p, q) <==> Reach(im, root, q)
    {
      if Reach(im, p, q) {
        ReachTrans(im, root, p, q);
      }
      if Reach(im, root, q) {
        ReachTrans(im, p, root, q);
      }
    }
    assert Component(im, p) == Component(im, root);
  }

  lemma ComponentScanned(im: Image, s: set<Pt>, cleared: set<Pt>, fringe: set<Pt>, root: Pt, comp: seq<Pt>,
                         found: set<Pt>)
    requires Scanned(im, s, cleared, fringe) && White(im, root)
    requires found == Component(im, root) && found !! s && WhiteClosed(im, s + found)
    requires forall p :: p in comp <==> p in found
    ensures forall p :: p in found ==> White(im, p)
    ensures |found| >= MinCounter(im) ==> Scanned(im, s + found, cleared + found, fringe + Around(comp))
    ensures |found| < MinCounter(im) ==> Scanned(im, s + found, cleared, fringe)
  {
    forall p | p in found
      ensures White(im, p) && (Cleared(im, p) <==> |found| >= MinCounter(im))
    {
      ComponentVerdict(im, s, root, p);
    }
    forall p
      ensures p in Around(comp) <==> exists q :: q in found && Adjacent(q, p)
    {
      AroundIsAdjacent(comp, p);
    }
    assert Fringes(im, cleared, found, Around(comp));
  }

  ghost predicate Fringes(im: Image, cleared: set<Pt>, found: set<Pt>, around: set<Pt>) {
    forall p :: Fringe(im, cleared + found, p) <==> Fringe(im, cleared, p) || p in around
  }

  lemma AroundIsAdjacent(comp: seq<Pt>, p: Pt)
    ensures p in Around(comp) <==> exists q :: q in comp && Adjacent(q, p)
  {
    if q :| q in comp && Adjacent(q, p) {
      NeighboursAreAdjacent(q, p);
      var k :| 0 <= k < 4 && Neighbours(q)[k] == p;
    }
    if p in Around(comp) {
      var q, k :| q in comp && 0 <= k < 4 && Neighbours(q)[k] == p;
      NeighboursAreAdjacent(q, p);
    }
  }

  lemma ScanComplete(im: Image, s: set<Pt>, cleared: set<Pt>, fringe: set<Pt>, p: Pt)
    requires Scanned(im, s, cleared, fringe) && InBounds(im, p)
    requires forall q :: White(im, q) ==> q in s
    ensures AlphaOf(im, cleared, fringe, p) == FinalAlpha(im, p)
  {
    forall q
      ensures q in cleared <==> q in ClearedSet(im)
    {
      PixelsInBounds(im, q);
    }
    assert cleared == ClearedSet(im);
    PixelsInBounds(im, p);
  }

  /** The alpha channel of the transparent logo. */
  method AlphaChannel(im: Image) returns (alpha: array2<int>)
    ensures fresh(alpha) && Sized(im, alpha)
    ensures forall p :: InBounds(im, p) ==> alpha[p.y, p.x] == FinalAlpha(im, p)
  {
    alpha := new int[im.h, im.w]((i, j) => 255);
    var seen := new bool[im.h, im.w]((i, j) => false);
    ghost var s := EdgeFill(im, seen, alpha);
    ghost var cleared, fringe := WhiteOf(im, s), s;
    EdgePhaseScanned(im, s);
    for y := 0 to im.h
      invariant Marks(im, seen, s) && Shows(im, alpha, cleared, fringe) && Scanned(im, s, cleared, fringe)
      invariant forall p :: White(im, p) && p.y < y ==> p in s
    {
      for x := 0 to im.w
        invariant Marks(im, seen, s) && Shows(im, alpha, cleared, fringe) && Scanned(im, s, cleared, fringe)
        invariant forall p :: White(im, p) && (p.y < y || (p.y == y && p.x < x)) ==> p in s
      {
        if seen[y, x] || Whiteness(im, Pt(x, y)) < THRESH {
          assert White(im, Pt(x, y)) ==> Pt(x, y) in s;
          continue;
        }
        s, cleared, fringe := FillEnclosed(im, seen, alpha, Pt(x, y), s, cleared, fringe);
      }
    }
    forall p | InBounds(im, p)
      ensures alpha[p.y, p.x] == FinalAlpha(im, p)
    {
      ScanComplete(im, s, cleared, fringe, p);
    }
  }

  /** One enclosed component: collect it, and clear it if it is no speckle. */
  method FillEnclosed(im: Image, seen: array2<bool>, alpha: array2<int>, root: Pt,
                      ghost s: set<Pt>, ghost cleared: set<Pt>, ghost fringe: set<Pt>)
    returns (ghost s': set<Pt>, ghost cleared': set<Pt>, ghost fringe': set<Pt>)
    requires Marks(im, seen, s) && Shows(im, alpha, cleared, fringe) && Scanned(im, s, cleared, fringe)
    requires White(im, root) && root !in s
    modifies seen, alpha
    ensures Marks(im, seen, s') && Shows(im, alpha, cleared', fringe') && Scanned(im, s', cleared', fringe')
    ensures s <= s' && root in s'
  {
    var comp;
    ghost var found;
    comp, found := CollectComponent(im, seen, root, s);
    ComponentScanned(im, s, cleared, fringe, root, comp, found);
    ReachSelf(im, root);
    PixelsInBounds(im, root);
    s', cleared', fringe' := s + found, cleared, fringe;
    if |comp| >= MinCounter(im) {
      ComponentClosed(im, root);
      ClearComponent(im, alpha, comp, found, cleared, fringe);
      cleared', fringe' := cleared + found, fringe + Around(comp);
    }
  }

  lemma ComponentClosed(im: Image, root: Pt)
    requires forall p :: p in Component(im, root) ==> White(im, p)
    ensures Enclosed(im, Component(im, root))
  {
    forall p, q | p in Component(im, root) && White(im, q) && Adjacent(p, q)
      ensures q in Component(im, root)
    {
      ReachStep(im, root, p, q);
      PixelsInBounds(im, q);
    }
  }
}
