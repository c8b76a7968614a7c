/** The home page's bento grid (components/home/Features.tsx): the flip
    cells that cycle through technology icons, the choice of icon column
    for each cell, and the 3D tilt that follows the cursor. */
module Features {
  import opened Wrappers
  import Keyframes

  // ---------------------------------------------------------------------
  // Flip cells
  // ---------------------------------------------------------------------

  /** The four icon columns, by icon name. The third column is one short. */
  const AllIcons: seq<seq<string>> := [
    ["SiNextdotjs", "SiLaravel", "SiPython", "SiDocker"],
    ["SiReact", "SiPhp", "SiCplusplus", "SiTailwindcss"],
    ["SiTypescript", "SiPostgresql", "SiNodedotjs"],
    ["SiGit", "SiVuedotjs", "SiNginx", "SiGraphql"]
  ]

  /** Number of flip cells in the grid. */
  const CellCount: nat := 8

  /** One interval tick of a flip cell showing `len` icons: advance to the
      next icon, wrapping from the last back to the first. */
  function FlipStep(prev: nat, len: nat): (next: nat)
    requires len >= 1
    ensures next < len
    ensures prev + 1 < len ==> next == prev + 1
    ensures prev + 1 == len ==> next == 0
  {
    (prev + 1) % len
  }

  /** The icon index after `k` ticks from `start`. */
  function Ticks(start: nat, len: nat, k: nat): (i: nat)
    requires len >= 1
    ensures k > 0 || start < len ==> i < len
    decreases k
  {
    if k == 0 then start else FlipStep(Ticks(start, len, k - 1), len)
  }

  /** Ticking a then b times is ticking a + b times. */
  lemma {:induction false} TicksCompose(start: nat, len: nat, a: nat, b: nat)
    requires len >= 1
    ensures Ticks(start, len, a + b) == Ticks(Ticks(start, len, a), len, b)
    decreases b
  {
    if b > 0 {
      TicksCompose(start, len, a, b - 1);
    }
  }

  /** Within one cycle a cell counts up from `start` and wraps once, back
      to the first icon, when it passes the last one. */
  lemma {:induction false} TicksWithinCycle(start: nat, len: nat, k: nat)
    requires len >= 1 && start < len && k <= len
    ensures Ticks(start, len, k) == if start + k < len then start + k else start + k - len
    decreases k
  {
    if k > 0 {
      TicksWithinCycle(start, len, k - 1);
    }
  }

  /** After `len` ticks a cell is back at the icon it started from, so its
      icons repeat with period `len`; within one cycle it shows every icon
      of its column exactly once. */
  lemma FlipCycle(start: nat, len: nat, k: nat)
    requires len >= 1 && start < len
    ensures Ticks(start, len, len) == start
    ensures Ticks(start, len, k + len) == Ticks(start, len, k)
    ensures forall k1, k2 :: 0 <= k1 < k2 < len ==> Ticks(start, len, k1) != Ticks(start, len, k2)
  {
    TicksWithinCycle(start, len, len);
    TicksCompose(start, len, len, k);
    assert len + k == k + len;
    forall k1, k2 | 0 <= k1 < k2 < len
      ensures Ticks(start, len, k1) != Ticks(start, len, k2)
    {
      TicksWithinCycle(start, len, k1);
      TicksWithinCycle(start, len, k2);
    }
  }

  /** Every icon of the column comes up within one cycle. */
  lemma EveryIconShown(start: nat, len: nat, i: nat)
    requires len >= 1 && start < len && i < len
    ensures exists k :: 0 <= k < len && Ticks(start, len, k) == i
  {
    var k := if start <= i then i - start else i + len - start;
    TicksWithinCycle(start, len, k);
    assert Ticks(start, len, k) == i;
  }

  /** The icon column of grid cell `cell`. */
  function IconColumn(cell: nat): (c: nat)
    ensures c < |AllIcons|
  {
    cell % |AllIcons|
  }

  /** The icon cell `cell` shows after `k` interval ticks (every cell
      starts on its column's first icon). The index is always in range,
      including for the three-icon column. */
  function CellIcon(cell: nat, k: nat): (icon: string)
    requires cell < CellCount
    ensures icon in AllIcons[IconColumn(cell)]
  {
    var icons := AllIcons[IconColumn(cell)];
    icons[Ticks(0, |icons|, k)]
  }

  /** The top and bottom rows of the 4-by-2 grid use the same columns. */
  lemma RowsShareColumns(cell: nat)
    requires cell + 4 < CellCount
    ensures IconColumn(cell) == IconColumn(cell + 4)
    ensures IconColumn(cell) == cell
  {
  }

  /** Cells 2 and 6 cycle with period 3; every other cell with period 4. */
  lemma CellPeriods(cell: nat)
    requires cell < CellCount
    ensures |AllIcons[IconColumn(cell)]| == (if cell % 4 == 2 then 3 else 4)
  {
  }

  // ---------------------------------------------------------------------
  // Tilt
  // ---------------------------------------------------------------------

  /** The element's bounding box, as `getBoundingClientRect` reports it. */
  datatype Rect = Rect(left: real, top: real, width: real, height: real)

  predicate HasArea(r: Rect) {
    r.width > 0.0 && r.height > 0.0
  }

  predicate Inside(r: Rect, clientX: real, clientY: real) {
    r.left <= clientX <= r.left + r.width && r.top <= clientY <= r.top + r.height
  }

  /** The wrapper's CSS transform: the empty string, or a perspective
      rotation by `rotateX` and `rotateY` degrees at 98% scale. */
  datatype Transform = Flat | Tilted(rotateX: real, rotateY: real)

  /** Degrees of tilt per unit of cursor offset from the centre. */
  const TiltFactor: real := 5.0

  /** The tilt for a cursor at (clientX, clientY): tipping about the
      horizontal axis follows the vertical position, tipping about the
      vertical axis follows the horizontal position reversed. */
  function Tilt(r: Rect, clientX: real, clientY: real): Transform
    requires HasArea(r)
  {
    var relativeX := (clientX - r.left) / r.width;
    var relativeY := (clientY - r.top) / r.height;
    Tilted((relativeY - 0.5) * TiltFactor, (relativeX - 0.5) * -TiltFactor)
  }

  /** `onMouseMove`: with no element behind the ref, the transform stays. */
  function MouseMove(element: Option<Rect>, clientX: real, clientY: real, current: Transform): Transform
    requires element.Some? ==> HasArea(element.value)
  {
    match element
    case None => current
    case Some(r) => Tilt(r, clientX, clientY)
  }

  /** `onMouseLeave`: the transform is cleared. */
  function MouseLeave(current: Transform): Transform {
    Flat
  }

  /** The transform's CSS text; `fmt` is JavaScript's number-to-string
      conversion, which this model does not spell out. */
  function TransformCss(t: Transform, fmt: real -> string): string {
    match t
    case Flat => ""
    case Tilted(x, y) =>
      "perspective(1000px) rotateX(" + fmt(x) + "deg) rotateY(" + fmt(y) + "deg) scale3d(.98, .98, .98)"
  }

  /** While the cursor is over the element both angles stay within
      2.5 degrees either way. */
  lemma TiltBounded(r: Rect, clientX: real, clientY: real)
    requires HasArea(r) && Inside(r, clientX, clientY)
    ensures var t := Tilt(r, clientX, clientY);
      -2.5 <= t.rotateX <= 2.5 && -2.5 <= t.rotateY <= 2.5
  {
    Keyframes.FractionInUnit(clientX - r.left, r.width);
    Keyframes.FractionInUnit(clientY - r.top, r.height);
  }

  /** At the centre of the element there is no tilt at all. */
  lemma TiltZeroAtCentre(r: Rect)
    requires HasArea(r)
    ensures Tilt(r, r.left + r.width / 2.0, r.top + r.height / 2.0) == Tilted(0.0, 0.0)
  {
  }

  /** Moving the cursor down tips the element further about its horizontal
      axis; moving it right tips it back about its vertical axis. */
  lemma TiltMonotone(r: Rect, x1: real, y1: real, x2: real, y2: real)
    requires HasArea(r)
    ensures y1 < y2 ==> Tilt(r, x1, y1).rotateX < Tilt(r, x2, y2).rotateX
    ensures x1 < x2 ==> Tilt(r, x1, y1).rotateY > Tilt(r, x2, y2).rotateY
  {
    if y1 < y2 {
      DivideMonotone(y1 - r.top, y2 - r.top, r.height);
    }
    if x1 < x2 {
      DivideMonotone(x1 - r.left, x2 - r.left, r.width);
    }
  }

  lemma DivideMonotone(a: real, b: real, d: real)
    requires a < b && d > 0.0
    ensures a / d < b / d
  {
    assert (b / d - a / d) * d == b - a;
  }

  /** The tilt determines the cursor: the position can be read back from
      the two angles, so different cursor positions give different tilts. */
  lemma TiltRecoversCursor(r: Rect, clientX: real, clientY: real)
    requires HasArea(r)
    ensures var t := Tilt(r, clientX, clientY);
      && clientY == r.top + r.height * (t.rotateX / TiltFactor + 0.5)
      && clientX == r.left + r.width * (0.5 - t.rotateY / TiltFactor)
  {
    var relativeX := (clientX - r.left) / r.width;
    var relativeY := (clientY - r.top) / r.height;
    assert relativeX * r.width == clientX - r.left;
    assert relativeY * r.height == clientY - r.top;
  }

  /** A mouse move with no element keeps the transform; leaving always
      clears it to the empty style, and only the cleared transform has an
      empty style. */
  lemma MouseHandlers(current: Transform, clientX: real, clientY: real, fmt: real -> string)
    ensures MouseMove(None, clientX, clientY, current) == current
    ensures TransformCss(MouseLeave(current), fmt) == ""
    ensures TransformCss(current, fmt) == "" <==> current == Flat
  {
    if current.Tilted? {
      assert TransformCss(current, fmt)[0] == 'p';
    }
  }
}
