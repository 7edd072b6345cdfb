/** The grid step shared by the SGD conversion scripts: masking the -9990 fill
    value and applying `data_scale` in place, the mesh of cell centres built from
    the grid attributes, the nearest-cell value at each of the 17 stations, and
    the lapse-rate height correction.

    A grid is held flattened row by row, as `data.ravel()` gives it. Values are
    reals with NaN and the infinities made explicit; `float32` rounding is not
    modelled. */
module Grid {
  import opened Options
  import opened Values

  // ---- masking and scaling ----

  /** `data[data == -9990] = np.nan`, for one cell. */
  function MaskCell(v: Float): (r: Float)
    ensures r.NaN? <==> v.NaN? || v == Finite(MissingValue)
    ensures r != NaN ==> r == v
  {
    if v == Finite(MissingValue) then NaN else v
  }

  /** `data /= data_scale`, for one cell, with IEEE division: NaN stays NaN, an
      infinity stays infinite and flips its sign only for a negative scale (a zero
      scale is +0), and a finite value over zero gives an infinity or NaN. */
  function ScaleCell(v: Float, s: real): (r: Float)
    ensures r.NaN? <==> v.NaN? || (s == 0.0 && v == Finite(0.0))
    ensures v.Finite? ==> r == Divide(v.value, s)
    ensures v.Finite? && s != 0.0 ==> r == Finite(v.value / s)
    ensures (v.PosInf? || v.NegInf?) ==> (r.PosInf? || r.NegInf?) && (r == v <==> s >= 0.0)
  {
    match v
    case Finite(x) => Divide(x, s)
    case NaN => NaN
    case PosInf => if s < 0.0 then NegInf else PosInf
    case NegInf => if s < 0.0 then PosInf else NegInf
  }

  /** The grid after the masking statement. */
  function Masked(xs: seq<Float>): (r: seq<Float>)
    ensures |r| == |xs|
    ensures forall i :: 0 <= i < |xs| ==> r[i] == MaskCell(xs[i])
  {
    seq(|xs|, i requires 0 <= i < |xs| => MaskCell(xs[i]))
  }

  /** The grid after the scaling statement. */
  function Scaled(xs: seq<Float>, s: real): (r: seq<Float>)
    ensures |r| == |xs|
    ensures forall i :: 0 <= i < |xs| ==> r[i] == ScaleCell(xs[i], s)
  {
    seq(|xs|, i requires 0 <= i < |xs| => ScaleCell(xs[i], s))
  }

  /** The grid as read: every raw value is a finite float. */
  function Loaded(raw: seq<real>): (r: seq<Float>)
    ensures |r| == |raw|
    ensures forall i :: 0 <= i < |raw| ==> r[i] == Finite(raw[i])
  {
    seq(|raw|, i requires 0 <= i < |raw| => Finite(raw[i]))
  }

  /** Masking before scaling: a raw -9990 ends as NaN whatever the scale, and every
      other raw value ends as its IEEE quotient by the scale. */
  lemma MaskThenScale(raw: seq<real>, s: real, i: nat)
    requires i < |raw|
    ensures Scaled(Masked(Loaded(raw)), s)[i]
            == if raw[i] == MissingValue then NaN else Divide(raw[i], s)
  {
  }

  /** No -9990 survives the masking, and masking again changes nothing. */
  lemma MaskedHasNoFill(xs: seq<Float>)
    ensures Finite(MissingValue) !in Masked(xs)
    ensures Masked(Masked(xs)) == Masked(xs)
  {
    var m := Masked(xs);
    assert forall i :: 0 <= i < |m| ==> m[i] != Finite(MissingValue);
  }

  /** Scaling by a non-zero scale is undone by multiplying back: the cells that are
      not NaN keep their value up to the factor. */
  lemma ScaledRoundTrip(raw: seq<real>, s: real, i: nat)
    requires s != 0.0 && i < |raw| && raw[i] != MissingValue
    ensures Scaled(Masked(Loaded(raw)), s)[i].Finite?
    ensures Scaled(Masked(Loaded(raw)), s)[i].value * s == raw[i]
  {
    MaskThenScale(raw, s, i);
  }

  /** The two in-place statements on the array read from the file. */
  method MaskAndScale(data: array<Float>, s: real)
    modifies data
    ensures data[..] == Scaled(Masked(old(data[..])), s)
  {
    ghost var before := data[..];
    for i := 0 to data.Length
      invariant forall j :: 0 <= j < i ==> data[j] == MaskCell(before[j])
      invariant forall j :: i <= j < data.Length ==> data[j] == before[j]
    {
      data[i] := MaskCell(data[i]);
    }
    ghost var masked := data[..];
    assert masked == Masked(before);
    for i := 0 to data.Length
      invariant forall j :: 0 <= j < i ==> data[j] == ScaleCell(masked[j], s)
      invariant forall j :: i <= j < data.Length ==> data[j] == masked[j]
    {
      data[i] := ScaleCell(data[i], s);
    }
    assert data[..] == Scaled(masked, s);
  }

  // ---- the mesh of cell centres ----

  /** The grid attributes of an SGD file: `grid_size`, `int(grid_nx)`, `int(grid_ny)`,
      `map_slon` and `map_slat`. */
  datatype GridAttrs = GridAttrs(size: real, nx: nat, ny: nat, slon: real, slat: real)

  /** `np.linspace(start, stop, n)`: `start + i * step` with `step = (stop - start) / (n - 1)`,
      and the last point set to `stop`. */
  function Linspace(start: real, stop: real, n: nat): (r: seq<real>)
    ensures |r| == n
    ensures n > 0 ==> r[0] == start
    ensures n > 1 ==> r[n - 1] == stop
  {
    if n == 0 then []
    else if n == 1 then [start]
    else
      var step := (stop - start) / ((n - 1) as real);
      seq(n, i requires 0 <= i < n => if i == n - 1 then stop else start + (i as real) * step)
  }

  /** With `stop = start + size * (n - 1)`, the points are `size` apart. */
  lemma LinspaceSpaced(start: real, size: real, n: nat, i: nat)
    requires i < n
    ensures Linspace(start, start + size * ((n - 1) as real), n)[i] == start + (i as real) * size
  {
    if n > 1 {
      var m := (n - 1) as real;
      assert (start + size * m - start) / m == size;
      if i == n - 1 {
        assert (i as real) == m;
      }
    }
  }

  /** The axis `np.linspace(start, start + size * (n - 1), n)` the scripts build for
      the longitudes (`n = nx`) and the latitudes (`n = ny`): `n` points `size` apart. */
  function Axis(start: real, size: real, n: nat): (r: seq<real>)
    ensures |r| == n
    ensures forall i :: 0 <= i < n ==> r[i] == start + (i as real) * size
  {
    var r := Linspace(start, start + size * ((n - 1) as real), n);
    assert forall i :: 0 <= i < n ==> r[i] == start + (i as real) * size by {
      forall i | 0 <= i < n
        ensures r[i] == start + (i as real) * size
      {
        LinspaceSpaced(start, size, n, i);
      }
    }
    r
  }

  /** A cell index of a row-major `ny` by `nx` grid splits into its row and column. */
  lemma RowColumn(k: nat, nx: nat, ny: nat)
    requires k < nx * ny
    ensures nx > 0 && k / nx < ny && k % nx < nx
  {
    assert nx != 0;
    var q := k / nx;
    assert q * nx <= k;
    assert (ny - q) * nx == ny * nx - q * nx;
    assert (ny - q) * nx > 0;
  }

  /** `zip(lat_grid.ravel(), lon_grid.ravel())` of `np.meshgrid(lons, lats)`: the
      (lat, lon) of every cell, row by row. */
  function Mesh(lats: seq<real>, lons: seq<real>): (r: seq<(real, real)>)
    ensures |r| == |lats| * |lons|
  {
    seq(|lats| * |lons|, k requires 0 <= k < |lats| * |lons| =>
      RowColumn(k, |lons|, |lats|);
      (lats[k / |lons|], lons[k % |lons|]))
  }

  /** Cell `k` is in row `k div nx` and column `k mod nx`. */
  lemma MeshAt(lats: seq<real>, lons: seq<real>, k: nat)
    requires k < |lats| * |lons|
    ensures |lons| > 0 && k / |lons| < |lats| && k % |lons| < |lons|
    ensures Mesh(lats, lons)[k] == (lats[k / |lons|], lons[k % |lons|])
  {
    RowColumn(k, |lons|, |lats|);
  }

  /** The cell centres of a grid with these attributes. */
  function GridMesh(g: GridAttrs): (r: seq<(real, real)>)
    ensures |r| == g.nx * g.ny
  {
    Mesh(Axis(g.slat, g.size, g.ny), Axis(g.slon, g.size, g.nx))
  }

  /** On evenly spaced axes (as `Axis` builds them), cell `k` is centred at
      `slat + (k div nx) * size`, `slon + (k mod nx) * size`. */
  lemma MeshCell(lats: seq<real>, lons: seq<real>, slat: real, slon: real, size: real, k: nat)
    requires forall i :: 0 <= i < |lats| ==> lats[i] == slat + (i as real) * size
    requires forall i :: 0 <= i < |lons| ==> lons[i] == slon + (i as real) * size
    requires k < |lats| * |lons|
    ensures |lons| > 0
    ensures Mesh(lats, lons)[k] == (slat + ((k / |lons|) as real) * size, slon + ((k % |lons|) as real) * size)
  {
    MeshAt(lats, lons, k);
  }

  // ---- nearest cell ----

  /** The squared Euclidean distance in (lat, lon); it orders cells as the distance does. */
  function Dist2(p: (real, real), q: (real, real)): (d: real)
    ensures d >= 0.0
    ensures p == q ==> d == 0.0
  {
    var a, b := p.0 - q.0, p.1 - q.1;
    SquareNonNegative(a);
    SquareNonNegative(b);
    a * a + b * b
  }

  lemma SquareNonNegative(a: real)
    ensures a * a >= 0.0
  {
    if a < 0.0 {
      var b := -a;
      assert a * a == b * b;
    }
  }

  /** `tree.query(q)`: the index of a point nearest to `q`, the first one on a tie. */
  function Nearest(points: seq<(real, real)>, q: (real, real)): (k: nat)
    requires points != []
    ensures k < |points|
    ensures forall j :: 0 <= j < |points| ==> Dist2(points[k], q) <= Dist2(points[j], q)
    ensures forall j :: 0 <= j < k ==> Dist2(points[k], q) < Dist2(points[j], q)
  {
    if |points| == 1 then 0
    else
      var n := |points| - 1;
      var k := Nearest(points[..n], q);
      assert forall j :: 0 <= j < n ==> points[j] == points[..n][j];
      if Dist2(points[n], q) < Dist2(points[k], q) then n else k
  }

  /** A station on a cell centre is matched to a cell at distance zero. */
  lemma NearestExact(points: seq<(real, real)>, q: (real, real))
    requires q in points
    ensures Dist2(points[Nearest(points, q)], q) == 0.0
  {
    var j :| 0 <= j < |points| && points[j] == q;
    assert Dist2(points[j], q) == 0.0;
  }

  // ---- stations ----

  /** The 17 province centres, in the dictionary's order, as (lat, lon). */
  const Stations: seq<(string, (real, real))> := [
    ("서울", (37.5665, 126.9780)),
    ("부산", (35.1796, 129.0756)),
    ("대구", (35.8714, 128.6014)),
    ("인천", (37.4563, 126.7052)),
    ("광주", (35.1595, 126.8526)),
    ("대전", (36.3504, 127.3845)),
    ("울산", (35.5384, 129.3114)),
    ("세종", (36.4802, 127.2890)),
    ("경기", (37.4138, 127.5183)),
    ("강원", (37.8228, 128.1555)),
    ("충북", (36.6357, 127.4912)),
    ("충남", (36.6588, 126.6728)),
    ("전북", (35.7175, 127.1530)),
    ("전남", (34.8679, 126.9910)),
    ("경북", (36.5760, 128.5056)),
    ("경남", (35.4606, 128.2132)),
    ("제주", (33.4996, 126.5312))
  ]

  /** Seventeen stations, no name twice. */
  lemma StationsDistinct()
    ensures |Stations| == 17
    ensures forall i, j :: 0 <= i < j < |Stations| ==> Stations[i].0 != Stations[j].0
  {
  }

  /** `data.ravel()[idxs]` for the stations' nearest cells: none when the mesh is
      empty or a nearest index falls outside the data (NumPy raises `IndexError`). */
  function StationValues(data: seq<Float>, mesh: seq<(real, real)>, stations: seq<(string, (real, real))>)
    : (r: Option<seq<Float>>)
    ensures r.Some? <==> mesh != [] && forall i :: 0 <= i < |stations| ==> Nearest(mesh, stations[i].1) < |data|
    ensures r.Some? ==> |r.value| == |stations|
  {
    if mesh == [] then None
    else if exists i :: 0 <= i < |stations| && Nearest(mesh, stations[i].1) >= |data| then None
    else Some(seq(|stations|, i requires 0 <= i < |stations| => data[Nearest(mesh, stations[i].1)]))
  }

  /** Each station's value is the value of a cell at least as near as every other cell. */
  lemma StationValueNearest(data: seq<Float>, mesh: seq<(real, real)>, stations: seq<(string, (real, real))>, i: nat)
    requires StationValues(data, mesh, stations).Some? && i < |stations|
    ensures exists k :: 0 <= k < |mesh| && k < |data|
              && StationValues(data, mesh, stations).value[i] == data[k]
              && forall j :: 0 <= j < |mesh| ==> Dist2(mesh[k], stations[i].1) <= Dist2(mesh[j], stations[i].1)
  {
    var k := Nearest(mesh, stations[i].1);
    assert StationValues(data, mesh, stations).value[i] == data[k];
  }

  /** When the data has one value per mesh cell and the mesh is not empty, every
      station gets a value. */
  lemma StationValuesDefined(data: seq<Float>, g: GridAttrs, stations: seq<(string, (real, real))>)
    requires |data| == g.nx * g.ny && g.nx * g.ny > 0
    ensures StationValues(data, GridMesh(g), stations).Some?
  {
  }

  // ---- lapse-rate correction ----

  /** Degrees per kilometre. */
  const LapseRate: real := -6.5

  /** `lapse_rate * (h - 500) / 1000`: the reference height 500 m needs no correction,
      and higher cells are made colder. */
  function LapseOffset(h: real): (d: real)
    ensures h == 500.0 ==> d == 0.0
    ensures h > 500.0 ==> d < 0.0
    ensures h < 500.0 ==> d > 0.0
  {
    LapseRate * (h - 500.0) / 1000.0
  }

  /** For the heights the scripts draw, between 400 m and 600 m, the correction is at
      most 0.65 degrees either way. */
  lemma LapseOffsetBound(h: real)
    requires 400.0 <= h <= 600.0
    ensures -0.65 <= LapseOffset(h) <= 0.65
  {
  }

  /** Heights mirrored about 500 m give the opposite correction. */
  lemma LapseOffsetMirror(h: real)
    ensures LapseOffset(1000.0 - h) == -LapseOffset(h)
  {
  }

  /** `v + d` on a float: NaN and the infinities absorb a finite offset. */
  function AddCell(v: Float, d: real): (r: Float)
    ensures r.Finite? <==> v.Finite?
    ensures v.Finite? ==> r.value == v.value + d
    ensures !v.Finite? ==> r == v
  {
    if v.Finite? then Finite(v.value + d) else v
  }

  /** `data + lapse_rate * (heights - 500) / 1000`, cell by cell; `heights` gives the
      height of every cell index. */
  function Corrected(data: seq<Float>, heights: nat -> real): (r: seq<Float>)
    ensures |r| == |data|
    ensures forall i :: 0 <= i < |data| ==> r[i] == AddCell(data[i], LapseOffset(heights(i)))
  {
    seq(|data|, i requires 0 <= i < |data| => AddCell(data[i], LapseOffset(heights(i))))
  }

  /** A missing (NaN) cell stays missing, and no other cell becomes missing. */
  lemma CorrectedKeepsMissing(data: seq<Float>, heights: nat -> real, i: nat)
    requires i < |data|
    ensures Corrected(data, heights)[i].NaN? <==> data[i].NaN?
  {
  }

  /** At the reference height everywhere, the correction changes nothing. */
  lemma CorrectedAtReference(data: seq<Float>, heights: nat -> real)
    requires forall i :: 0 <= i < |data| ==> heights(i) == 500.0
    ensures Corrected(data, heights) == data
  {
    var r := Corrected(data, heights);
    forall i | 0 <= i < |data|
      ensures r[i] == data[i]
    {
      assert LapseOffset(heights(i)) == 0.0;
    }
  }

  /** With heights drawn from [400, 600], no finite cell moves by more than 0.65. */
  lemma CorrectedBound(data: seq<Float>, heights: nat -> real, i: nat)
    requires i < |data| && data[i].Finite? && 400.0 <= heights(i) <= 600.0
    ensures Corrected(data, heights)[i].Finite?
    ensures -0.65 <= Corrected(data, heights)[i].value - data[i].value <= 0.65
  {
    LapseOffsetBound(heights(i));
  }

  /** Correcting again with the heights mirrored about 500 m gives back the grid. */
  lemma CorrectedRoundTrip(data: seq<Float>, heights: nat -> real)
    ensures Corrected(Corrected(data, heights), (i: nat) => 1000.0 - heights(i)) == data
  {
    var once := Corrected(data, heights);
    var twice := Corrected(once, (i: nat) => 1000.0 - heights(i));
    forall i | 0 <= i < |data|
      ensures twice[i] == data[i]
    {
      LapseOffsetMirror(heights(i));
    }
  }
}
