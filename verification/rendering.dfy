/** The depth-buffered character renderer of include/renderer.h. A `RenderObject` is a
    width x height grid of glyph codes and depths, where a negative depth marks an empty
    pixel; objects composite nearest-first; the `Renderer` keeps a buffer of objects,
    composites them onto its own grid and turns that grid into a frame of two characters per
    pixel. `RenderObject` stores each grid row-major in flat vectors (pixel (x, y) at
    y * width + x); the model keeps the rows apart, which is the same layout. */
module Rendering {
  import opened Errors
  import Vectors

  const INCOMPATIBLE_OBJECT_MSG: string := "Object is not compatible with renderer"
  const MISMATCHED_POINTS_MSG: string := "Point and rendist data does not match"

  /** A glyph code and the depth (`rendist`) it was drawn at. */
  datatype Pixel = Pixel(code: int, depth: real)

  /** What a fresh object holds everywhere: code 0 at depth -1. */
  const EMPTY := Pixel(0, -1.0)

  /** A `RenderObject`: `rows[y][x]` is pixel (x, y). */
  datatype Grid = Grid(width: nat, height: nat, rows: seq<seq<Pixel>>) {
    predicate Valid() {
      |rows| == height && forall y :: 0 <= y < |rows| ==> |rows[y]| == width
    }
  }

  /** `getData(x, y)` and `getRendist(x, y)` together. */
  function At(g: Grid, x: int, y: int): Pixel
    requires g.Valid() && 0 <= x < g.width && 0 <= y < g.height
  {
    g.rows[y][x]
  }

  /** `RenderObject(w, h)`: every pixel empty, with code 0 and depth -1. */
  function New(w: nat, h: nat): (g: Grid)
    ensures g.Valid() && g.width == w && g.height == h
    ensures forall x, y :: 0 <= x < w && 0 <= y < h ==> At(g, x, y) == EMPTY
  {
    Grid(w, h, seq(h, y => seq(w, x => EMPTY)))
  }

  /** `set(x, y, d, rndt)`: pixel (x, y) takes code `d` at depth `rndt`; the C++ code does not
      check the coordinates, so they must lie on the grid. */
  function Set(g: Grid, x: nat, y: nat, d: int, rndt: real): (g': Grid)
    requires g.Valid() && x < g.width && y < g.height
    ensures g'.Valid() && g'.width == g.width && g'.height == g.height
    ensures At(g', x, y) == Pixel(d, rndt)
    ensures forall i, j :: 0 <= i < g.width && 0 <= j < g.height && (i != x || j != y) ==> At(g', i, j) == At(g, i, j)
  {
    Grid(g.width, g.height, g.rows[y := g.rows[y][x := Pixel(d, rndt)]])
  }

  /** `checkCompatibility(w, h)`. */
  predicate CheckCompatibility(g: Grid, w: nat, h: nat) {
    g.width == w && g.height == h
  }

  // ---- compositing ----

  /** One pixel of `merge`: the other object's pixel wins when it is not empty and either
      this pixel is empty or the other is strictly nearer. */
  function MergePixel(a: Pixel, b: Pixel): Pixel {
    if b.depth < 0.0 then a
    else if a.depth < 0.0 || b.depth < a.depth then b
    else a
  }

  /** Compositing is nearest-wins: the merged pixel is empty only if both were, it is one of
      the two, its depth is the smaller non-negative one, and a tie keeps this pixel. */
  lemma MergePixelNearest(a: Pixel, b: Pixel)
    ensures var m := MergePixel(a, b);
      (m.depth < 0.0 <==> a.depth < 0.0 && b.depth < 0.0) &&
      (m == a || m == b) &&
      (m.depth >= 0.0 ==> (a.depth >= 0.0 ==> m.depth <= a.depth) && (b.depth >= 0.0 ==> m.depth <= b.depth)) &&
      (a.depth >= 0.0 && a.depth == b.depth ==> m == a)
  {
  }

  /** Merging pixels is associative, so compositing a list does not depend on grouping. */
  lemma MergePixelAssociative(a: Pixel, b: Pixel, c: Pixel)
    ensures MergePixel(MergePixel(a, b), c) == MergePixel(a, MergePixel(b, c))
  {
  }

  /** `merge(o)` on two grids of the same shape; `o` itself is left as it is. */
  function Merge(g: Grid, o: Grid): (g': Grid)
    requires g.Valid() && o.Valid() && CheckCompatibility(o, g.width, g.height)
    ensures g'.Valid() && g'.width == g.width && g'.height == g.height
    ensures forall x, y :: 0 <= x < g.width && 0 <= y < g.height ==> At(g', x, y) == MergePixel(At(g, x, y), At(o, x, y))
  {
    Grid(g.width, g.height,
         seq(g.height, y requires 0 <= y < g.height =>
           seq(g.width, x requires 0 <= x < g.width => MergePixel(g.rows[y][x], o.rows[y][x]))))
  }

  /** Merging an empty object changes nothing, and merging the same object twice is the same
      as merging it once. */
  lemma MergeLaws(g: Grid, o: Grid)
    requires g.Valid() && o.Valid() && CheckCompatibility(o, g.width, g.height)
    ensures Merge(g, New(g.width, g.height)) == g
    ensures Merge(Merge(g, o), o) == Merge(g, o)
  {
    GridsEqual(Merge(g, New(g.width, g.height)), g);
    GridsEqual(Merge(Merge(g, o), o), Merge(g, o));
  }

  /** Two valid grids of one shape with the same pixels are equal. */
  lemma GridsEqual(a: Grid, b: Grid)
    requires a.Valid() && b.Valid() && a.width == b.width && a.height == b.height
    requires forall x, y :: 0 <= x < a.width && 0 <= y < a.height ==> At(a, x, y) == At(b, x, y)
    ensures a == b
  {
    forall y | 0 <= y < a.height ensures a.rows[y] == b.rows[y] {
      assert forall x :: 0 <= x < a.width ==> a.rows[y][x] == At(a, x, y);
    }
  }

  /** All objects fit a w x h screen. */
  predicate Fits(objs: seq<Grid>, w: nat, h: nat) {
    forall k :: 0 <= k < |objs| ==> objs[k].Valid() && CheckCompatibility(objs[k], w, h)
  }

  /** Objects `objs` composited one after another onto `base`. */
  function Composite(base: Grid, objs: seq<Grid>): (g: Grid)
    requires base.Valid() && Fits(objs, base.width, base.height)
    ensures g.Valid() && g.width == base.width && g.height == base.height
    decreases |objs|
  {
    if |objs| == 0 then base else Merge(Composite(base, objs[..|objs| - 1]), objs[|objs| - 1])
  }

  /** The pixels the objects hold at (x, y), in buffer order. */
  function Stack(objs: seq<Grid>, w: nat, h: nat, x: int, y: int): (ps: seq<Pixel>)
    requires Fits(objs, w, h) && 0 <= x < w && 0 <= y < h
    ensures |ps| == |objs| && forall i :: 0 <= i < |objs| ==> ps[i] == At(objs[i], x, y)
  {
    seq(|objs|, i requires 0 <= i < |objs| => At(objs[i], x, y))
  }

  /** Pixels merged one after another onto an empty pixel. */
  function FoldPixels(ps: seq<Pixel>): Pixel
    decreases |ps|
  {
    if |ps| == 0 then EMPTY else MergePixel(FoldPixels(ps[..|ps| - 1]), ps[|ps| - 1])
  }

  /** Pixel `k` is the one to show: it is not empty, no pixel is strictly nearer, and every
      earlier pixel is empty or strictly farther. */
  ghost predicate Nearest(ps: seq<Pixel>, k: int) {
    0 <= k < |ps| && ps[k].depth >= 0.0 &&
    (forall i :: 0 <= i < |ps| && ps[i].depth >= 0.0 ==> ps[k].depth <= ps[i].depth) &&
    (forall i :: 0 <= i < k && ps[i].depth >= 0.0 ==> ps[k].depth < ps[i].depth)
  }

  /** Merging a list of pixels in order picks the nearest, the first among equals, and is
      empty exactly when every pixel is. */
  lemma {:induction false} FoldNearest(ps: seq<Pixel>)
    ensures (forall i :: 0 <= i < |ps| ==> ps[i].depth < 0.0) ==> FoldPixels(ps) == EMPTY
    ensures (exists i :: 0 <= i < |ps| && ps[i].depth >= 0.0) ==> exists k :: Nearest(ps, k) && FoldPixels(ps) == ps[k]
    decreases |ps|
  {
    if |ps| > 0 {
      var n := |ps| - 1;
      var front := ps[..n];
      FoldNearest(front);
      var before := FoldPixels(front);
      assert FoldPixels(ps) == MergePixel(before, ps[n]);
      if forall i :: 0 <= i < n ==> front[i].depth < 0.0 {
        assert before == EMPTY;
        if ps[n].depth >= 0.0 {
          FirstVisible(ps, front);
          assert Nearest(ps, n) && FoldPixels(ps) == ps[n];
        } else {
          assert forall i :: 0 <= i < |ps| ==> ps[i].depth < 0.0 by {
            forall i | 0 <= i < |ps| ensures ps[i].depth < 0.0 {
              if i < n {
                assert ps[i] == front[i];
              }
            }
          }
        }
      } else {
        var k :| Nearest(front, k) && before == front[k];
        assert ps[k] == front[k];
        NearestExtends(ps, front, k);
        if ps[n].depth >= 0.0 && ps[n].depth < ps[k].depth {
          assert Nearest(ps, n) && FoldPixels(ps) == ps[n];
        } else {
          assert Nearest(ps, k) && FoldPixels(ps) == ps[k];
        }
      }
    }
  }

  /** The last pixel is the nearest when every earlier one is empty and it is not. */
  lemma FirstVisible(ps: seq<Pixel>, front: seq<Pixel>)
    requires |ps| > 0 && front == ps[..|ps| - 1] && ps[|ps| - 1].depth >= 0.0
    requires forall i :: 0 <= i < |front| ==> front[i].depth < 0.0
    ensures Nearest(ps, |ps| - 1)
  {
    assert forall i :: 0 <= i < |front| ==> ps[i] == front[i];
  }

  /** Appending a pixel keeps the nearest unless the new one is strictly nearer. */
  lemma NearestExtends(ps: seq<Pixel>, front: seq<Pixel>, k: int)
    requires |ps| > 0 && front == ps[..|ps| - 1] && Nearest(front, k)
    ensures var n := |ps| - 1;
      if ps[n].depth >= 0.0 && ps[n].depth < ps[k].depth then Nearest(ps, n) else Nearest(ps, k)
  {
    assert forall i :: 0 <= i < |front| ==> ps[i] == front[i];
  }

  /** A pixel of a composite is the fold of that pixel across the objects. */
  lemma {:induction false} CompositeAt(w: nat, h: nat, objs: seq<Grid>, x: int, y: int)
    requires Fits(objs, w, h) && 0 <= x < w && 0 <= y < h
    ensures At(Composite(New(w, h), objs), x, y) == FoldPixels(Stack(objs, w, h, x, y))
    decreases |objs|
  {
    if |objs| > 0 {
      var n := |objs| - 1;
      assert Fits(objs[..n], w, h);
      CompositeAt(w, h, objs[..n], x, y);
      assert Stack(objs, w, h, x, y)[..n] == Stack(objs[..n], w, h, x, y);
    }
  }

  /** Compositing onto an empty object, stated without the order of merging: a pixel stays
      empty exactly when every object is empty there, and otherwise shows the nearest object,
      the earliest one among equally near ones. */
  lemma CompositeNearest(w: nat, h: nat, objs: seq<Grid>, x: int, y: int)
    requires Fits(objs, w, h) && 0 <= x < w && 0 <= y < h
    ensures (forall i :: 0 <= i < |objs| ==> At(objs[i], x, y).depth < 0.0) ==>
      At(Composite(New(w, h), objs), x, y) == EMPTY
    ensures (exists i :: 0 <= i < |objs| && At(objs[i], x, y).depth >= 0.0) ==>
      exists k :: Nearest(Stack(objs, w, h, x, y), k) && At(Composite(New(w, h), objs), x, y) == At(objs[k], x, y)
  {
    var ps := Stack(objs, w, h, x, y);
    CompositeAt(w, h, objs, x, y);
    FoldNearest(ps);
    if exists i :: 0 <= i < |objs| && At(objs[i], x, y).depth >= 0.0 {
      var i :| 0 <= i < |objs| && At(objs[i], x, y).depth >= 0.0;
      assert ps[i].depth >= 0.0;
    }
  }

  // ---- the renderer ----

  /** A `Renderer`: its size, the buffered objects (held by value) and its own grid. */
  datatype Renderer = Renderer(width: nat, height: nat, buffer: seq<Grid>, canvas: Grid) {
    predicate Valid() {
      canvas.Valid() && canvas.width == width && canvas.height == height && Fits(buffer, width, height)
    }
  }

  /** `Renderer(w, h)`: an empty buffer and a grid whose vectors are value-initialised, so
      every code is 0 and, unlike a fresh object, every depth is 0.0. */
  function NewRenderer(w: nat, h: nat): (r: Renderer)
    ensures r.Valid() && r.width == w && r.height == h && r.buffer == []
    ensures forall x, y :: 0 <= x < w && 0 <= y < h ==> At(r.canvas, x, y) == Pixel(0, 0.0)
  {
    Renderer(w, h, [], Grid(w, h, seq(h, y => seq(w, x => Pixel(0, 0.0)))))
  }

  /** `addObjectToBuffer(o)`: an object of another size is rejected with invalid_argument. */
  function AddObjectToBuffer(r: Renderer, o: Grid): (r': Result<Renderer>)
    requires r.Valid() && o.Valid()
    ensures r'.Success? <==> CheckCompatibility(o, r.width, r.height)
    ensures r'.Failure? ==> r'.error == InvalidArgument(INCOMPATIBLE_OBJECT_MSG)
    ensures r'.Success? ==>
      r'.value.Valid() && r'.value.buffer == r.buffer + [o] && r'.value.canvas == r.canvas &&
      r'.value.width == r.width && r'.value.height == r.height
  {
    if !CheckCompatibility(o, r.width, r.height) then Failure(InvalidArgument(INCOMPATIBLE_OBJECT_MSG))
    else Success(r.(buffer := r.buffer + [o]))
  }

  /** One pixel of `addObjectToData`, with its two branches: an empty screen pixel takes any
      non-empty object pixel, an occupied one only a strictly nearer one. */
  function AddPixel(c: Pixel, o: Pixel): Pixel {
    if o.depth < 0.0 then c
    else if c.depth < 0.0 then o
    else if o.depth < c.depth then o
    else c
  }

  /** `addObjectToData(o)` onto the renderer's grid. */
  function AddObjectToData(c: Grid, o: Grid): (c': Grid)
    requires c.Valid() && o.Valid() && CheckCompatibility(o, c.width, c.height)
    ensures c'.Valid() && c'.width == c.width && c'.height == c.height
    ensures forall x, y :: 0 <= x < c.width && 0 <= y < c.height ==> At(c', x, y) == AddPixel(At(c, x, y), At(o, x, y))
  {
    Grid(c.width, c.height,
         seq(c.height, y requires 0 <= y < c.height =>
           seq(c.width, x requires 0 <= x < c.width => AddPixel(c.rows[y][x], o.rows[y][x]))))
  }

  /** The renderer's own compositing step is exactly `merge`. */
  lemma AddObjectIsMerge(c: Grid, o: Grid)
    requires c.Valid() && o.Valid() && CheckCompatibility(o, c.width, c.height)
    ensures AddObjectToData(c, o) == Merge(c, o)
  {
    GridsEqual(AddObjectToData(c, o), Merge(c, o));
  }

  /** `drawObjects`: reset the grid to empty, composite the buffer in order, empty the
      buffer. */
  method DrawObjects(r: Renderer) returns (r': Renderer)
    requires r.Valid()
    ensures r'.Valid() && r'.width == r.width && r'.height == r.height && r'.buffer == []
    ensures r'.canvas == Composite(New(r.width, r.height), r.buffer)
  {
    var c := New(r.width, r.height);
    var i := 0;
    while i < |r.buffer|
      invariant 0 <= i <= |r.buffer|
      invariant c == Composite(New(r.width, r.height), r.buffer[..i])
    {
      AddObjectIsMerge(c, r.buffer[i]);
      assert r.buffer[..i + 1][..i] == r.buffer[..i];
      c := AddObjectToData(c, r.buffer[i]);
      i := i + 1;
    }
    assert r.buffer[..i] == r.buffer;
    r' := Renderer(r.width, r.height, [], c);
  }

  // ---- the frame ----

  /** `drawPixel`: the two characters a glyph code draws as. */
  function DrawPixel(d: int): (s: string)
    ensures |s| == 2
    ensures GlyphCode(s) == (if 1 <= d <= 5 then d else 0)
    ensures !(1 <= d <= 5) ==> s == "  "
  {
    if d == 5 then "xx"
    else if d == 4 then ".."
    else if d == 3 then "**"
    else if d == 2 then "::"
    else if d == 1 then "##"
    else "  "
  }

  /** Reading a glyph back to its code; anything unknown is the blank code 0. */
  function GlyphCode(s: string): int {
    if s == "xx" then 5
    else if s == ".." then 4
    else if s == "**" then 3
    else if s == "::" then 2
    else if s == "##" then 1
    else 0
  }

  /** The code drawn for a pixel: an empty pixel draws as code 0 whatever it stores. */
  function Shown(p: Pixel): int {
    if p.depth < 0.0 then 0 else p.code
  }

  /** Row `y` from column `x` on, followed by the newline. */
  function RowFrom(c: Grid, y: nat, x: nat): (s: string)
    requires c.Valid() && y < c.height && x <= c.width
    ensures |s| == 2 * (c.width - x) + 1
    decreases c.width - x
  {
    if x == c.width then "\n" else DrawPixel(Shown(At(c, x, y))) + RowFrom(c, y, x + 1)
  }

  /** The rows of the frame, each ending in its newline. */
  function Rows(c: Grid): (rows: seq<string>)
    requires c.Valid()
    ensures |rows| == c.height && forall y :: 0 <= y < c.height ==> rows[y] == RowFrom(c, y, 0)
  {
    seq(c.height, y requires 0 <= y < c.height => RowFrom(c, y, 0))
  }

  /** Strings written one after another. */
  function Join(rows: seq<string>): string
    decreases |rows|
  {
    if |rows| == 0 then "" else rows[0] + Join(rows[1..])
  }

  /** Joining m strings of length n gives m n characters, and string k sits at k n. */
  lemma {:induction false} JoinBlock(rows: seq<string>, n: nat, k: nat, off: nat)
    requires forall i :: 0 <= i < |rows| ==> |rows[i]| == n
    requires k < |rows| && off == k * n
    ensures |Join(rows)| == |rows| * n
    ensures off + n <= |Join(rows)| && Join(rows)[off..off + n] == rows[k]
    decreases |rows|
  {
    JoinLength(rows, n);
    var rest := rows[1..];
    assert Join(rows) == rows[0] + Join(rest);
    if k == 0 {
      assert (rows[0] + Join(rest))[0..n] == rows[0];
      MulMono(1, |rows|, n);
    } else {
      var off' := (k - 1) * n;
      assert off == n + off' by { Shift(k, n); }
      JoinBlock(rest, n, k - 1, off');
      SliceAfter(rows[0], Join(rest), off', off' + n);
    }
  }

  lemma {:induction false} JoinLength(rows: seq<string>, n: nat)
    requires forall i :: 0 <= i < |rows| ==> |rows[i]| == n
    ensures |Join(rows)| == |rows| * n
    decreases |rows|
  {
    if |rows| > 0 {
      JoinLength(rows[1..], n);
      Shift(|rows|, n);
    }
  }

  lemma Shift(m: nat, n: nat)
    requires m >= 1
    ensures m * n == n + (m - 1) * n
  {
  }

  lemma MulMono(a: nat, b: nat, n: nat)
    requires a <= b
    ensures a * n <= b * n
  {
    assert b * n - a * n == (b - a) * n;
  }

  /** The text `render` writes for a composited grid. */
  function Frame(c: Grid): (s: string)
    requires c.Valid()
    ensures |s| == c.height * (2 * c.width + 1)
  {
    JoinLength(Rows(c), 2 * c.width + 1);
    Join(Rows(c))
  }

  /** Dropping a prefix of known length shifts every later slice by that length. */
  lemma SliceAfter(a: string, t: string, i: nat, j: nat)
    requires i <= j <= |t|
    ensures (a + t)[|a| + i..|a| + j] == t[i..j]
  {
  }

  /** Within a row, pixel x occupies characters 2x and 2x + 1, and the row ends in a
      newline. */
  lemma {:induction false} RowLayout(c: Grid, y: nat, x0: nat, x: nat)
    requires c.Valid() && y < c.height && x0 <= x < c.width
    ensures RowFrom(c, y, x0)[2 * (x - x0)..2 * (x - x0) + 2] == DrawPixel(Shown(At(c, x, y)))
    decreases x - x0
  {
    var head := DrawPixel(Shown(At(c, x0, y)));
    var tail := RowFrom(c, y, x0 + 1);
    assert RowFrom(c, y, x0) == head + tail;
    if x == x0 {
      assert (head + tail)[0..2] == head;
    } else {
      RowLayout(c, y, x0 + 1, x);
      SliceAfter(head, tail, 2 * (x - x0 - 1), 2 * (x - x0 - 1) + 2);
    }
  }

  lemma {:induction false} RowEnd(c: Grid, y: nat, x0: nat)
    requires c.Valid() && y < c.height && x0 <= c.width
    ensures RowFrom(c, y, x0)[2 * (c.width - x0)] == '\n'
    decreases c.width - x0
  {
    if x0 < c.width {
      RowEnd(c, y, x0 + 1);
      var head := DrawPixel(Shown(At(c, x0, y)));
      var tail := RowFrom(c, y, x0 + 1);
      assert RowFrom(c, y, x0) == head + tail;
      assert (head + tail)[2 + 2 * (c.width - x0 - 1)] == tail[2 * (c.width - x0 - 1)];
    }
  }

  lemma IndexWithin(f: string, k: nat, n: nat, a: nat)
    requires k + n <= |f| && a < n
    ensures f[k..k + n][a] == f[k + a]
  {
  }

  lemma SliceWithin(f: string, k: nat, n: nat, a: nat, b: nat)
    requires k + n <= |f| && a <= b <= n
    ensures f[k..k + n][a..b] == f[k + a..k + b]
  {
    var l := f[k..k + n][a..b];
    var r := f[k + a..k + b];
    assert |l| == |r|;
    forall t | 0 <= t < |l| ensures l[t] == r[t] {
      assert l[t] == f[k..k + n][a + t] == f[k + a + t];
    }
  }

  /** Row y of the frame occupies characters y n up to y n + n, for n = 2 width + 1. */
  lemma FrameRow(c: Grid, y: nat, n: nat, k: nat)
    requires c.Valid() && y < c.height && n == 2 * c.width + 1 && k == y * n
    ensures k + n <= |Frame(c)| && Frame(c)[k..k + n] == RowFrom(c, y, 0)
  {
    JoinBlock(Rows(c), n, y, k);
  }

  /** Pixel (x, y) of the frame, and the newline ending row y, where `render` puts them. */
  lemma FramePixel(c: Grid, x: nat, y: nat, n: nat, k: nat)
    requires c.Valid() && x < c.width && y < c.height && n == 2 * c.width + 1 && k == y * n
    ensures k + n <= |Frame(c)|
    ensures Frame(c)[k + 2 * x..k + 2 * x + 2] == DrawPixel(Shown(At(c, x, y)))
    ensures At(c, x, y).depth < 0.0 ==> Frame(c)[k + 2 * x..k + 2 * x + 2] == "  "
    ensures Frame(c)[k + 2 * c.width] == '\n'
  {
    FrameRow(c, y, n, k);
    RowLayout(c, y, 0, x);
    RowEnd(c, y, 0);
    PixelInBlock(Frame(c), RowFrom(c, y, 0), k, n, x, c.width, DrawPixel(Shown(At(c, x, y))));
  }

  /** A block of `f` equal to `row`, where `row` holds `pix` at 2 x and a newline at 2 w. */
  lemma PixelInBlock(f: string, row: string, k: nat, n: nat, x: nat, w: nat, pix: string)
    requires k + n <= |f| && f[k..k + n] == row && x < w && n == 2 * w + 1
    requires row[2 * x..2 * x + 2] == pix && row[2 * w] == '\n'
    ensures f[k + 2 * x..k + 2 * x + 2] == pix && f[k + 2 * w] == '\n'
  {
    SliceWithin(f, k, n, 2 * x, 2 * x + 2);
    IndexWithin(f, k, n, 2 * w);
  }

  /** `render`: draw the buffered objects, then produce the frame text. The terminal output
      itself is left out. */
  method Render(r: Renderer) returns (frame: string, r': Renderer)
    requires r.Valid()
    ensures r'.Valid() && r'.buffer == [] && r'.canvas == Composite(New(r.width, r.height), r.buffer)
    ensures |frame| == r.height * (2 * r.width + 1) && frame == Frame(r'.canvas)
  {
    r' := DrawObjects(r);
    frame := Frame(r'.canvas);
  }

  // ---- basic objects ----

  /** Squared distance from the point (x, y) to the midpoint of pixel (i, j). */
  function CentreDistance2(x: real, y: real, i: int, j: int): real {
    (x - i as real - 0.5) * (x - i as real - 0.5) + (y - j as real - 0.5) * (y - j as real - 0.5)
  }

  /** One pixel of `Circle`: code 1 inside radius r - 0.5, else code 2 inside r + 0.5, else
      left empty. */
  function CirclePixel(x: real, y: real, r: real, rndt: real, i: int, j: int): Pixel {
    var d2 := CentreDistance2(x, y, i, j);
    if d2 <= (r - 0.5) * (r - 0.5) then Pixel(1, rndt)
    else if d2 <= (r + 0.5) * (r + 0.5) then Pixel(2, rndt)
    else EMPTY
  }

  /** `Circle(w, h, x, y, r, rndt)`: every pixel classified by its midpoint's distance. */
  function Circle(w: nat, h: nat, x: real, y: real, r: real, rndt: real): (g: Grid)
    ensures g.Valid() && g.width == w && g.height == h
    ensures forall i, j :: 0 <= i < w && 0 <= j < h ==> At(g, i, j) == CirclePixel(x, y, r, rndt, i, j)
  {
    Grid(w, h, seq(h, j => seq(w, i => CirclePixel(x, y, r, rndt, i, j))))
  }

  /** For a non-negative radius the circle is a disc of code 1 inside a ring of code 2: a
      pixel is drawn exactly when its midpoint lies within r + 0.5, every drawn pixel lies at
      depth `rndt`, and a pixel nearer the centre than a code-1 pixel is code 1 too. */
  lemma CircleShape(w: nat, h: nat, x: real, y: real, r: real, rndt: real, i: nat, j: nat, i': nat, j': nat)
    requires r >= 0.0 && i < w && j < h && i' < w && j' < h
    ensures var p := At(Circle(w, h, x, y, r, rndt), i, j);
      (p.code != 0 <==> CentreDistance2(x, y, i, j) <= (r + 0.5) * (r + 0.5)) &&
      (p.code != 0 ==> p.depth == rndt) && (p.code == 0 ==> p == EMPTY)
    ensures var g := Circle(w, h, x, y, r, rndt);
      At(g, i, j).code == 1 && CentreDistance2(x, y, i', j') <= CentreDistance2(x, y, i, j) ==> At(g, i', j').code == 1
  {
    assert (r - 0.5) * (r - 0.5) <= (r + 0.5) * (r + 0.5) by {
      assert (r + 0.5) * (r + 0.5) - (r - 0.5) * (r - 0.5) == 2.0 * r;
    }
  }

  function Floor(v: real): int {
    v.Floor
  }

  function Ceil(v: real): int {
    -((-v).Floor)
  }

  function Min(a: real, b: real): real {
    if a <= b then a else b
  }

  function Max(a: real, b: real): real {
    if a <= b then b else a
  }

  lemma SegmentNonZero(x1: real, y1: real, x2: real, y2: real)
    requires !(x1 == x2 && y1 == y2)
    ensures (x2 - x1) * (x2 - x1) + (y2 - y1) * (y2 - y1) > 0.0
  {
    Vectors.SquarePositive(x2 - x1);
    Vectors.SquarePositive(y2 - y1);
  }

  /** Where the midpoint of pixel (i, j) projects onto the line through the segment, as a
      fraction of the way from (x1, y1) to (x2, y2). */
  function Fraction(x1: real, y1: real, x2: real, y2: real, i: int, j: int): real
    requires !(x1 == x2 && y1 == y2)
  {
    SegmentNonZero(x1, y1, x2, y2);
    ((x2 - x1) * (i as real + 0.5 - x1) + (y2 - y1) * (j as real + 0.5 - y1)) /
      ((x2 - x1) * (x2 - x1) + (y2 - y1) * (y2 - y1))
  }

  /** The new pixel (i, j) for a proper segment: inside the bounding box widened by one, a
      midpoint that projects onto the segment at fraction f in [0, 1] takes the interpolated
      depth when the pixel is empty or no nearer than that depth, with code 3 within 0.5 of
      the segment and code 4 within sqrt 0.75; every other pixel keeps what it had. */
  function LinePixel(p: Pixel, x1: real, y1: real, x2: real, y2: real, t1: real, t2: real, i: int, j: int): Pixel
    requires !(x1 == x2 && y1 == y2)
  {
    if InBox(x1, y1, x2, y2, i, j) then
      SegmentPixel(p, Fraction(x1, y1, x2, y2, i, j), ProjectionDistance2(x1, y1, x2, y2, i, j), t1, t2)
    else p
  }

  /** A pixel inside the box whose midpoint projects at fraction `frac` at squared distance
      `dist2`: drawn at the interpolated depth when the projection falls on the segment. */
  function SegmentPixel(p: Pixel, frac: real, dist2: real, t1: real, t2: real): Pixel {
    if 0.0 <= frac <= 1.0 then Plot(p, dist2, t1 + frac * (t2 - t1)) else p
  }

  /** Squared distance from the midpoint of pixel (i, j) to its projection on the line. */
  function ProjectionDistance2(x1: real, y1: real, x2: real, y2: real, i: int, j: int): real
    requires !(x1 == x2 && y1 == y2)
  {
    var frac := Fraction(x1, y1, x2, y2, i, j);
    CentreDistance2(x1 + frac * (x2 - x1), y1 + frac * (y2 - y1), i, j)
  }

  /** Pixel (i, j) lies in the segment's bounding box widened by one pixel. */
  predicate InBox(x1: real, y1: real, x2: real, y2: real, i: int, j: int) {
    Floor(Min(y1, y2)) - 1 <= j < Ceil(Max(y1, y2)) + 1 && Floor(Min(x1, x2)) - 1 <= i < Ceil(Max(x1, x2)) + 1
  }

  /** Drawing one line pixel at depth `t` where the midpoint projects onto the segment: only
      an empty pixel or one no nearer than `t` is overwritten, by code 3 within distance 0.5
      and code 4 within sqrt 0.75. */
  function Plot(p: Pixel, dist2: real, t: real): (q: Pixel)
    ensures q == p || ((q.code == 3 || q.code == 4) && q.depth == t && (p.depth < 0.0 || t <= p.depth))
    ensures !(p.depth < 0.0 || t <= p.depth) || dist2 > 0.75 ==> q == p
  {
    if !(p.depth < 0.0 || t <= p.depth) then p
    else if dist2 <= 0.25 then Pixel(3, t)
    else if dist2 <= 0.75 then Pixel(4, t)
    else p
  }

  /** `addLine`: a segment whose endpoints coincide draws nothing; otherwise every pixel is
      updated as `LinePixel` says. */
  function AddLine(g: Grid, x1: real, y1: real, x2: real, y2: real, t1: real, t2: real): (g': Grid)
    requires g.Valid()
    ensures g'.Valid() && g'.width == g.width && g'.height == g.height
    ensures x1 == x2 && y1 == y2 ==> g' == g
    ensures !(x1 == x2 && y1 == y2) ==> forall i, j :: 0 <= i < g.width && 0 <= j < g.height ==>
      At(g', i, j) == LinePixel(At(g, i, j), x1, y1, x2, y2, t1, t2, i, j)
  {
    if x1 == x2 && y1 == y2 then g
    else
      Grid(g.width, g.height,
           seq(g.height, j requires 0 <= j < g.height =>
             seq(g.width, i requires 0 <= i < g.width => LinePixel(g.rows[j][i], x1, y1, x2, y2, t1, t2, i, j))))
  }

  /** A line pixel's depth interpolates the endpoint depths: every pixel the segment draws
      takes code 3 or 4 at a depth between `t1` and `t2`, and it replaces only an empty pixel
      or one no nearer; the rest keep what they had. */
  lemma LineDepths(p: Pixel, x1: real, y1: real, x2: real, y2: real, t1: real, t2: real, i: int, j: int)
    requires !(x1 == x2 && y1 == y2)
    ensures var q := LinePixel(p, x1, y1, x2, y2, t1, t2, i, j);
      q == p || ((q.code == 3 || q.code == 4) && Min(t1, t2) <= q.depth <= Max(t1, t2) &&
                 (p.depth < 0.0 || q.depth <= p.depth))
  {
    SegmentDepths(p, Fraction(x1, y1, x2, y2, i, j), ProjectionDistance2(x1, y1, x2, y2, i, j), t1, t2);
  }

  lemma SegmentDepths(p: Pixel, frac: real, dist2: real, t1: real, t2: real)
    ensures var q := SegmentPixel(p, frac, dist2, t1, t2);
      q == p || ((q.code == 3 || q.code == 4) && Min(t1, t2) <= q.depth <= Max(t1, t2) &&
                 (p.depth < 0.0 || q.depth <= p.depth))
  {
    if 0.0 <= frac <= 1.0 {
      Interpolate(t1, t2, frac);
    }
  }

  lemma Interpolate(t1: real, t2: real, f: real)
    requires 0.0 <= f <= 1.0
    ensures Min(t1, t2) <= t1 + f * (t2 - t1) <= Max(t1, t2)
  {
    var d := t2 - t1;
    if d >= 0.0 {
      ScaleWithin(f, d);
    } else {
      ScaleWithin(f, -d);
      assert f * -d == -(f * d);
    }
  }

  /** A fraction in [0, 1] of a non-negative d lies in [0, d]. */
  lemma ScaleWithin(f: real, d: real)
    requires 0.0 <= f <= 1.0 && d >= 0.0
    ensures 0.0 <= f * d <= d
  {
    assert d - f * d == (1.0 - f) * d;
  }

  /** `Line(w, h, ...)`: one segment on an empty object. */
  function Line(w: nat, h: nat, x1: real, y1: real, x2: real, y2: real, t1: real, t2: real): (g: Grid)
    ensures g.Valid() && g.width == w && g.height == h
    ensures x1 == x2 && y1 == y2 ==> g == New(w, h)
  {
    AddLine(New(w, h), x1, y1, x2, y2, t1, t2)
  }

  /** The segments ending at points `k`, `k + 1`, ... drawn in order. */
  function AddSegments(g: Grid, xs: seq<real>, ys: seq<real>, ts: seq<real>, k: nat): (g': Grid)
    requires g.Valid() && |xs| == |ys| == |ts| && 1 <= k
    ensures g'.Valid() && g'.width == g.width && g'.height == g.height
    decreases |xs| - k
  {
    if k >= |xs| then g
    else AddSegments(AddLine(g, xs[k - 1], ys[k - 1], xs[k], ys[k], ts[k - 1], ts[k]), xs, ys, ts, k + 1)
  }

  /** `Multiline(w, h, x, y, rndt)`: the three point lists must have one length, otherwise
      invalid_argument; then the segment from point k - 1 to point k for every k from 1. */
  function Multiline(w: nat, h: nat, xs: seq<real>, ys: seq<real>, ts: seq<real>): (r: Result<Grid>)
    ensures r.Success? <==> |xs| == |ys| && |ys| == |ts|
    ensures r.Failure? ==> r.error == InvalidArgument(MISMATCHED_POINTS_MSG)
    ensures r.Success? ==> r.value.Valid() && r.value.width == w && r.value.height == h
    ensures r.Success? && |xs| <= 1 ==> r.value == New(w, h)
  {
    if |xs| != |ys| || |ys| != |ts| then Failure(InvalidArgument(MISMATCHED_POINTS_MSG))
    else Success(AddSegments(New(w, h), xs, ys, ts, 1))
  }

  /** A polyline that never moves draws nothing: every segment is degenerate. */
  lemma {:induction false} RepeatedPointsDrawNothing(g: Grid, xs: seq<real>, ys: seq<real>, ts: seq<real>, k: nat)
    requires g.Valid() && |xs| == |ys| == |ts| && 1 <= k
    requires forall i :: 0 <= i < |xs| ==> xs[i] == xs[0] && ys[i] == ys[0]
    ensures AddSegments(g, xs, ys, ts, k) == g
    decreases |xs| - k
  {
    if k < |xs| {
      assert AddLine(g, xs[k - 1], ys[k - 1], xs[k], ys[k], ts[k - 1], ts[k]) == g;
      RepeatedPointsDrawNothing(g, xs, ys, ts, k + 1);
    }
  }

  /** The compatibility test of the unit tests: a 30 x 30 object is accepted by a 30 x 30
      renderer, and a 30 x 20 one is then rejected. */
  lemma SampleCompatibility(r0: Renderer, o: Grid, v: Grid)
    requires r0 == NewRenderer(30, 30) && o == New(30, 30) && v == New(30, 20)
    ensures AddObjectToBuffer(r0, o).Success?
    ensures AddObjectToBuffer(AddObjectToBuffer(r0, o).value, v) == Failure(InvalidArgument(INCOMPATIBLE_OBJECT_MSG))
  {
  }
}
