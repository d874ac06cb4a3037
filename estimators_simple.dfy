/**
 * Model of source/estimators_simple.c: `update_banded_estimators` adds the
 * contribution of one photon path segment to the radiation-field estimators
 * of the plasma cell it crosses. Doubles are modelled as `real`; the
 * geometry helpers it calls are supplied as functions in a `Geometry` value.
 */
module EstimatorsSimple {

  type Vec3 = s: seq<real> | |s| == 3 witness [0.0, 0.0, 0.0]

  /** A band flux accumulator: the three vector components, then the summed magnitude. */
  type Vec4 = s: seq<real> | |s| == 4 witness [0.0, 0.0, 0.0, 0.0]

  /** Photon origin tags (`PTYPE_STAR` ... `PTYPE_AGN`); any other value is unrecognised. */
  const PtypeStar: int := 0
  const PtypeBl: int := 1
  const PtypeDisk: int := 2
  const PtypeWind: int := 3
  const PtypeAgn: int := 4

  /** Hydrogen ionisation edge and the 1000 Rydberg limit, in eV. */
  const HydrogenEdgeEv: real := 13.6
  const ThousandRydbergEv: real := 13600.0

  /** The fields of the photon structure that the update reads. */
  datatype Photon = Photon(x: Vec3, lmn: Vec3, freq: real, nscat: int, np: int, origin: int)

  /**
   * The geometry helpers of the simulation, which are not part of this model:
   * `movePhot(x, lmn, d)` is the position after moving `d` along `lmn`,
   * `renorm(a, s)` rescales `a` to length `s`, `projectFromXyzCyl(x, a)`
   * expresses `a` in the cylindrical basis at `x`, `length(a)` is `|a|`.
   */
  datatype Geometry = Geometry(
    movePhot: (Vec3, Vec3, real) -> Vec3,
    renorm: (Vec3, real) -> Vec3,
    projectFromXyzCyl: (Vec3, Vec3) -> Vec3,
    length: Vec3 -> real)

  /** Physical constants `HEV`, `PLANCK` and the fixed band cut-offs `UV_low`, `UV_hi`. */
  datatype Constants = Constants(hev: real, planck: real, uvLow: real, uvHi: real)

  predicate ConstantsValid(k: Constants) {
    k.hev > 0.0 && k.planck > 0.0 && k.uvLow > 0.0 && k.uvHi > 0.0
  }

  /** The configured variable-width bands `geo.xfreq[0..nxfreq]`. */
  datatype FreqBands = FreqBands(xfreq: seq<real>, nxfreq: int)

  predicate FreqBandsValid(geo: FreqBands) {
    0 <= geo.nxfreq < |geo.xfreq|
  }

  function Dot(a: Vec3, b: Vec3): real {
    a[0] * b[0] + a[1] * b[1] + a[2] * b[2]
  }

  function VAdd(a: Vec4, b: Vec3): Vec4 {
    [a[0] + b[0], a[1] + b[1], a[2] + b[2], a[3]]
  }

  /**
   * The flux element of a segment: the direction rescaled to `wAve * ds`,
   * projected at the segment midpoint, with the z component reversed when
   * the photon STARTS in the lower hemisphere; in a spherical domain only the
   * radial component, the dot product with the unit midpoint vector, is kept.
   */
  function FluxElement(p: Photon, ds: real, wAve: real, spherical: bool, g: Geometry): (flux: Vec3)
    ensures spherical ==> flux[1] == 0.0 && flux[2] == 0.0
    ensures spherical ==>
      flux[0] == Dot(g.renorm(p.lmn, wAve * ds), g.renorm(g.movePhot(p.x, p.lmn, ds / 2.0), 1.0))
    ensures !spherical ==>
      var projected := g.projectFromXyzCyl(g.movePhot(p.x, p.lmn, ds / 2.0), g.renorm(p.lmn, wAve * ds));
      flux[0] == projected[0] && flux[1] == projected[1] &&
      flux[2] == (if p.x[2] < 0.0 then -projected[2] else projected[2])
  {
    var mid := g.movePhot(p.x, p.lmn, ds / 2.0);
    var dirCos := g.renorm(p.lmn, wAve * ds);
    var projected := g.projectFromXyzCyl(mid, dirCos);
    var flux := if p.x[2] < 0.0 then projected[2 := projected[2] * -1.0] else projected;
    if spherical then [Dot(dirCos, g.renorm(mid, 1.0)), 0.0, 0.0] else flux
  }

  /** The fixed band that receives the flux element. */
  datatype FixedBand = Visible | Ultraviolet | XRay

  function FixedBandOf(freq: real, k: Constants): (b: FixedBand)
    ensures b == Visible <==> freq < k.uvLow
    ensures b == XRay <==> !(freq < k.uvLow) && freq > k.uvHi
    ensures b == Ultraviolet <==> k.uvLow <= freq <= k.uvHi
  {
    if freq < k.uvLow then Visible else if freq > k.uvHi then XRay else Ultraviolet
  }

  /** Band `i` takes `freq` when `xfreq[i] < freq <= xfreq[i+1]` (open below, closed above). */
  predicate InBand(xfreq: seq<real>, i: int, freq: real)
    requires 0 <= i && i + 1 < |xfreq|
  {
    xfreq[i] < freq <= xfreq[i + 1]
  }

  /** Band boundaries `xfreq[0..n]` increase strictly from one to the next. */
  predicate StrictlyIncreasing(xfreq: seq<real>, n: int)
    requires 0 <= n < |xfreq|
  {
    forall i :: 0 <= i < n ==> xfreq[i] < xfreq[i + 1]
  }

  lemma {:induction false} IncreasingBetween(xfreq: seq<real>, n: int, i: int, j: int)
    requires 0 <= n < |xfreq| && StrictlyIncreasing(xfreq, n)
    requires 0 <= i < j <= n
    ensures xfreq[i] < xfreq[j]
    decreases j - i
  {
    if i + 1 < j {
      IncreasingBetween(xfreq, n, i + 1, j);
    }
  }

  /** With strictly increasing boundaries a frequency falls in at most one band. */
  lemma AtMostOneBand(xfreq: seq<real>, n: int, freq: real, i: int, j: int)
    requires 0 <= n < |xfreq| && StrictlyIncreasing(xfreq, n)
    requires 0 <= i < n && 0 <= j < n
    requires InBand(xfreq, i, freq) && InBand(xfreq, j, freq)
    ensures i == j
  {
    if i < j {
      if i + 1 < j {
        IncreasingBetween(xfreq, n, i + 1, j);
      }
    } else if j < i {
      if j + 1 < i {
        IncreasingBetween(xfreq, n, j + 1, i);
      }
    }
  }

  /** A frequency at or below the first boundary, or above the last, falls in no band. */
  lemma NoBandOutside(xfreq: seq<real>, n: int, freq: real, i: int)
    requires 0 <= n < |xfreq| && StrictlyIncreasing(xfreq, n)
    requires 0 <= i < n
    requires freq <= xfreq[0] || freq > xfreq[n]
    ensures !InBand(xfreq, i, freq)
  {
    if 0 < i {
      IncreasingBetween(xfreq, n, 0, i);
    }
    if i + 1 < n {
      IncreasingBetween(xfreq, n, i + 1, n);
    }
  }

  /** The "last seen" photon identity: a plasma cell number and a photon number. */
  datatype Marker = Marker(nplasma: int, np: int)

  /** The markers' initial value, `-1` for both numbers. */
  const NoMarker: Marker := Marker(-1, -1)

  /** The distinct-photon counters of a plasma cell. */
  datatype Provenance = Provenance(ntot: int, star: int, bl: int, disk: int, wind: int, agn: int)

  function OriginSum(c: Provenance): int {
    c.star + c.bl + c.disk + c.wind + c.agn
  }

  predicate RecognisedOrigin(origin: int) {
    origin == PtypeStar || origin == PtypeBl || origin == PtypeDisk || origin == PtypeWind || origin == PtypeAgn
  }

  /**
   * One provenance step: a segment whose (cell, photon) pair differs from the
   * last-seen marker counts once in `ntot` and in the counter of its origin,
   * and becomes the new marker; a repeat of the marker counts nothing.
   */
  function CountPhoton(c: Provenance, last: Marker, nplasma: int, np: int, origin: int): (r: (Provenance, Marker))
    ensures r.1 == Marker(nplasma, np)
    ensures r.0.ntot == c.ntot + (if last == Marker(nplasma, np) then 0 else 1)
    ensures OriginSum(r.0) == OriginSum(c) + (if last != Marker(nplasma, np) && RecognisedOrigin(origin) then 1 else 0)
    ensures var counted := last != Marker(nplasma, np);
            && r.0.star == c.star + (if counted && origin == PtypeStar then 1 else 0)
            && r.0.bl == c.bl + (if counted && origin == PtypeBl then 1 else 0)
            && r.0.disk == c.disk + (if counted && origin == PtypeDisk then 1 else 0)
            && r.0.wind == c.wind + (if counted && origin == PtypeWind then 1 else 0)
            && r.0.agn == c.agn + (if counted && origin == PtypeAgn then 1 else 0)
  {
    if last != Marker(nplasma, np) then
      var c1 := c.(ntot := c.ntot + 1);
      var c2 :=
        if origin == PtypeStar then c1.(star := c1.star + 1)
        else if origin == PtypeBl then c1.(bl := c1.bl + 1)
        else if origin == PtypeDisk then c1.(disk := c1.disk + 1)
        else if origin == PtypeWind then c1.(wind := c1.wind + 1)
        else if origin == PtypeAgn then c1.(agn := c1.agn + 1)
        else c1;
      (c2, Marker(nplasma, np))
    else
      (c, last)
  }

  /** A segment of the transport history: which cell it crosses and which photon it is. */
  datatype Segment = Segment(nplasma: int, np: int, origin: int)

  /** The provenance counters and marker after a run of segments. */
  function CountAll(c: Provenance, last: Marker, segs: seq<Segment>): (Provenance, Marker)
    decreases |segs|
  {
    if segs == [] then (c, last)
    else
      var r := CountPhoton(c, last, segs[0].nplasma, segs[0].np, segs[0].origin);
      CountAll(r.0, r.1, segs[1..])
  }

  /**
   * Any number of segments of the same photon in the same cell raise `ntot`
   * and the origin counters by one at most: by exactly one when the marker
   * did not already name that pair, and not at all when it did.
   */
  lemma {:induction false} RepeatedSegmentsCountOnce(c: Provenance, last: Marker, s: Segment, k: nat)
    requires k >= 1
    decreases k
    ensures var r := CountAll(c, last, seq(k, _ => s));
      r.1 == Marker(s.nplasma, s.np) &&
      r.0.ntot == c.ntot + (if last == Marker(s.nplasma, s.np) then 0 else 1) &&
      OriginSum(r.0) == OriginSum(c) + (if last != Marker(s.nplasma, s.np) && RecognisedOrigin(s.origin) then 1 else 0)
  {
    var segs := seq(k, _ => s);
    var r1 := CountPhoton(c, last, s.nplasma, s.np, s.origin);
    if k == 1 {
      assert segs[1..] == [];
    } else {
      assert segs[1..] == seq(k - 1, _ => s);
      RepeatedSegmentsCountOnce(r1.0, r1.1, s, k - 1);
    }
  }

  /** After a run ending with a segment, the marker names that segment's pair. */
  lemma {:induction false} CountAllMarker(c: Provenance, last: Marker, segs: seq<Segment>)
    requires segs != []
    ensures CountAll(c, last, segs).1 == Marker(segs[|segs| - 1].nplasma, segs[|segs| - 1].np)
    decreases |segs|
  {
    var r := CountPhoton(c, last, segs[0].nplasma, segs[0].np, segs[0].origin);
    if |segs| > 1 {
      CountAllMarker(r.0, r.1, segs[1..]);
    }
  }

  /** The number of segments whose pair differs from the pair just before it. */
  function Changes(last: Marker, segs: seq<Segment>): nat
    decreases |segs|
  {
    if segs == [] then 0
    else (if last != Marker(segs[0].nplasma, segs[0].np) then 1 else 0)
         + Changes(Marker(segs[0].nplasma, segs[0].np), segs[1..])
  }

  /** Over any run of segments, `ntot` grows by the number of identity changes. */
  lemma {:induction false} CountAllCountsChanges(c: Provenance, last: Marker, segs: seq<Segment>)
    ensures CountAll(c, last, segs).0.ntot == c.ntot + Changes(last, segs)
    decreases |segs|
  {
    if segs != [] {
      var r := CountPhoton(c, last, segs[0].nplasma, segs[0].np, segs[0].origin);
      CountAllCountsChanges(r.0, r.1, segs[1..]);
    }
  }

  /** `band` after adding the flux element to its vector part and the element's length to entry 3. */
  function AddFlux(band: Vec4, flux: Vec3, g: Geometry): Vec4 {
    VAdd(band, flux)[3 := band[3] + g.length(flux)]
  }

  /**
   * Two segments credited to one band add up: each vector component gains
   * both elements and entry 3 both lengths, whichever segment comes first.
   */
  lemma AddFluxOrderFree(band: Vec4, f1: Vec3, f2: Vec3, g: Geometry)
    ensures var r := AddFlux(AddFlux(band, f1, g), f2, g);
            && (forall i :: 0 <= i < 3 ==> r[i] == band[i] + f1[i] + f2[i])
            && r[3] == band[3] + g.length(f1) + g.length(f2)
            && r == AddFlux(AddFlux(band, f2, g), f1, g)
  {
  }

  /** The per-band arrays of one band before and after a segment at `freq` passes through it. */
  datatype BandTally = BandTally(xaveFreq: real, xsdFreq: real, xj: real, nxtot: int, fmin: real, fmax: real)

  /** What lines 166-178 do to one band that holds the frequency. */
  function TallyBand(b: BandTally, freq: real, wAve: real, ds: real): (r: BandTally)
    ensures r.nxtot == b.nxtot + 1 && r.xj == b.xj + wAve * ds
    ensures r.xaveFreq == b.xaveFreq + freq * wAve * ds && r.xsdFreq == b.xsdFreq + freq * freq * wAve * ds
    ensures r.fmin <= freq <= r.fmax
    ensures r.fmin == (if freq < b.fmin then freq else b.fmin)
    ensures r.fmax == (if freq > b.fmax then freq else b.fmax)
  {
    BandTally(b.xaveFreq + freq * wAve * ds, b.xsdFreq + freq * freq * wAve * ds, b.xj + wAve * ds,
              b.nxtot + 1, if freq < b.fmin then freq else b.fmin, if freq > b.fmax then freq else b.fmax)
  }

  /** The six per-band arrays of a plasma cell. */
  datatype BandArrays = BandArrays(xaveFreq: seq<real>, xsdFreq: seq<real>, xj: seq<real>,
                                   nxtot: seq<int>, fmin: seq<real>, fmax: seq<real>)

  /** Every per-band array has room for `n` bands. */
  predicate ArraysFit(b: BandArrays, n: int) {
    n <= |b.xaveFreq| && n <= |b.xsdFreq| && n <= |b.xj| && n <= |b.nxtot| && n <= |b.fmin| && n <= |b.fmax|
  }

  predicate SameShape(a: BandArrays, b: BandArrays) {
    |a.xaveFreq| == |b.xaveFreq| && |a.xsdFreq| == |b.xsdFreq| && |a.xj| == |b.xj| &&
    |a.nxtot| == |b.nxtot| && |a.fmin| == |b.fmin| && |a.fmax| == |b.fmax|
  }

  /** The entries of band `i` in the six arrays. */
  function TallyAt(b: BandArrays, i: int): BandTally
    requires 0 <= i && ArraysFit(b, i + 1)
  {
    BandTally(b.xaveFreq[i], b.xsdFreq[i], b.xj[i], b.nxtot[i], b.fmin[i], b.fmax[i])
  }

  /** Lines 166-178 applied to band `i` of the arrays. */
  function UpdateAt(b: BandArrays, i: int, freq: real, wAve: real, ds: real): (r: BandArrays)
    requires 0 <= i && ArraysFit(b, i + 1)
    ensures SameShape(r, b)
  {
    var t := TallyBand(TallyAt(b, i), freq, wAve, ds);
    BandArrays(b.xaveFreq[i := t.xaveFreq], b.xsdFreq[i := t.xsdFreq], b.xj[i := t.xj],
               b.nxtot[i := t.nxtot], b.fmin[i := t.fmin], b.fmax[i := t.fmax])
  }

  /** The loop of lines 162-181 from band `i` on. */
  function ScanFrom(b: BandArrays, geo: FreqBands, freq: real, wAve: real, ds: real, i: int): (r: BandArrays)
    requires FreqBandsValid(geo) && ArraysFit(b, geo.nxfreq) && 0 <= i
    ensures SameShape(r, b)
    decreases geo.nxfreq - i
  {
    if i >= geo.nxfreq then b
    else
      var b' := if InBand(geo.xfreq, i, freq) then UpdateAt(b, i, freq, wAve, ds) else b;
      ScanFrom(b', geo, freq, wAve, ds, i + 1)
  }

  /**
   * The scan tallies exactly the bands `i < nxfreq` whose interval holds the
   * frequency, and leaves every other entry as it was.
   */
  lemma {:induction false} ScanFromTallies(b: BandArrays, geo: FreqBands, freq: real, wAve: real, ds: real, i: int, n: int)
    requires FreqBandsValid(geo) && ArraysFit(b, geo.nxfreq) && 0 <= i
    requires 0 <= n < geo.nxfreq
    ensures TallyAt(ScanFrom(b, geo, freq, wAve, ds, i), n) ==
      if i <= n && InBand(geo.xfreq, n, freq) then TallyBand(TallyAt(b, n), freq, wAve, ds) else TallyAt(b, n)
    decreases geo.nxfreq - i
  {
    if i < geo.nxfreq {
      var b' := if InBand(geo.xfreq, i, freq) then UpdateAt(b, i, freq, wAve, ds) else b;
      ScanFromTallies(b', geo, freq, wAve, ds, i + 1, n);
    }
  }

  /** The scan never touches the entries at or beyond `nxfreq`. */
  lemma {:induction false} ScanFromKeepsTail(b: BandArrays, geo: FreqBands, freq: real, wAve: real, ds: real, i: int)
    requires FreqBandsValid(geo) && ArraysFit(b, geo.nxfreq) && 0 <= i
    ensures var r := ScanFrom(b, geo, freq, wAve, ds, i);
      && r.xaveFreq[geo.nxfreq..] == b.xaveFreq[geo.nxfreq..] && r.xsdFreq[geo.nxfreq..] == b.xsdFreq[geo.nxfreq..]
      && r.xj[geo.nxfreq..] == b.xj[geo.nxfreq..] && r.nxtot[geo.nxfreq..] == b.nxtot[geo.nxfreq..]
      && r.fmin[geo.nxfreq..] == b.fmin[geo.nxfreq..] && r.fmax[geo.nxfreq..] == b.fmax[geo.nxfreq..]
    decreases geo.nxfreq - i
  {
    if i < geo.nxfreq {
      var b' := if InBand(geo.xfreq, i, freq) then UpdateAt(b, i, freq, wAve, ds) else b;
      ScanFromKeepsTail(b', geo, freq, wAve, ds, i + 1);
    }
  }

  /** The estimators of one plasma cell that a segment updates, as one value. */
  datatype Estimators = Estimators(
    j: real, jDirect: real, jScatt: real, meanDs: real, nDs: int, aveFreq: real,
    fVis: Vec4, fUv: Vec4, fXray: Vec4,
    bands: BandArrays,
    counters: Provenance,
    nioniz: int, ip: real, ipDirect: real, ipScatt: real, xi: real)

  /** The two process-global "last seen" markers. */
  datatype MarkerState = MarkerState(plog: Marker, nioniz: Marker)

  /** Lines 92-108: mean intensity, its direct/scattered split, path length and frequency sums. */
  function Intensity(e: Estimators, p: Photon, ds: real, wAve: real): Estimators {
    e.(j := e.j + wAve * ds,
       jDirect := if p.nscat == 0 then e.jDirect + wAve * ds else e.jDirect,
       jScatt := if p.nscat == 0 then e.jScatt else e.jScatt + wAve * ds,
       meanDs := e.meanDs + ds, nDs := e.nDs + 1, aveFreq := e.aveFreq + p.freq * wAve * ds)
  }

  /** Lines 113-150: the flux element goes to the one fixed band that holds the frequency. */
  function FluxStep(e: Estimators, p: Photon, ds: real, wAve: real, spherical: bool, g: Geometry, k: Constants): Estimators {
    var flux := FluxElement(p, ds, wAve, spherical, g);
    match FixedBandOf(p.freq, k)
    case Visible => e.(fVis := AddFlux(e.fVis, flux, g))
    case Ultraviolet => e.(fUv := AddFlux(e.fUv, flux, g))
    case XRay => e.(fXray := AddFlux(e.fXray, flux, g))
  }

  /** Lines 162-181: the scan of the variable-width bands. */
  function BandsStep(e: Estimators, geo: FreqBands, freq: real, wAve: real, ds: real): Estimators
    requires FreqBandsValid(geo) && ArraysFit(e.bands, geo.nxfreq)
  {
    e.(bands := ScanFrom(e.bands, geo, freq, wAve, ds, 0))
  }

  /** Lines 196-219: the distinct-photon counters and the `plog` marker. */
  function CountStep(e: Estimators, m: MarkerState, nplasma: int, p: Photon): (Estimators, MarkerState) {
    var r := CountPhoton(e.counters, m.plog, nplasma, p.np, p.origin);
    (e.(counters := r.0), m.(plog := r.1))
  }

  /** The photon-number weight `w ds / (h nu)` that a segment adds to the ionisation parameter. */
  function PhotonNumber(p: Photon, ds: real, wAve: real, k: Constants): real
    requires k.planck > 0.0 && p.freq > 0.0
  {
    wAve * ds / (k.planck * p.freq)
  }

  /** A photon above the hydrogen edge has a positive frequency, so the division is defined. */
  lemma PositiveAboveEdge(p: Photon, k: Constants)
    requires ConstantsValid(k) && k.hev * p.freq > HydrogenEdgeEv
    ensures p.freq > 0.0
  {
  }

  /** Lines 227-259: ionising-photon bookkeeping, only strictly above the hydrogen edge. */
  function IonisingStep(e: Estimators, m: MarkerState, nplasma: int, p: Photon, ds: real, wAve: real, k: Constants)
    : (Estimators, MarkerState)
    requires ConstantsValid(k)
  {
    if k.hev * p.freq > HydrogenEdgeEv then
      PositiveAboveEdge(p, k);
      var isNew := m.nioniz != Marker(nplasma, p.np);
      var ipInc := PhotonNumber(p, ds, wAve, k);
      (e.(nioniz := if isNew then e.nioniz + 1 else e.nioniz,
          ip := e.ip + ipInc,
          xi := if k.hev * p.freq < ThousandRydbergEv then e.xi + wAve * ds else e.xi,
          ipDirect := if p.nscat == 0 then e.ipDirect + ipInc else e.ipDirect,
          ipScatt := if p.nscat == 0 then e.ipScatt else e.ipScatt + ipInc),
       m.(nioniz := if isNew then Marker(nplasma, p.np) else m.nioniz))
    else
      (e, m)
  }

  /**
   * `update_banded_estimators` on values: the estimators `e` of cell
   * `nplasma` and the markers `m` after segment `p` of length `ds` and
   * weight `wAve`. `spherical` stands for `zdom[ndom].coord_type == SPHERICAL`.
   */
  function UpdateEstimators(e: Estimators, m: MarkerState, nplasma: int, p: Photon, ds: real, wAve: real,
                            spherical: bool, geo: FreqBands, g: Geometry, k: Constants): (r: (Estimators, MarkerState))
    requires ConstantsValid(k) && FreqBandsValid(geo) && ArraysFit(e.bands, geo.nxfreq)
    ensures SameShape(r.0.bands, e.bands)
  {
    var e1 := Intensity(e, p, ds, wAve);
    var e2 := FluxStep(e1, p, ds, wAve, spherical, g, k);
    var e3 := BandsStep(e2, geo, p.freq, wAve, ds);
    var c := CountStep(e3, m, nplasma, p);
    IonisingStep(c.0, c.1, nplasma, p, ds, wAve, k)
  }

  /** The whole weighted path goes to `j` and to exactly one of its direct and scattered parts. */
  lemma UpdateIntensity(e: Estimators, m: MarkerState, nplasma: int, p: Photon, ds: real, wAve: real,
                        spherical: bool, geo: FreqBands, g: Geometry, k: Constants)
    requires ConstantsValid(k) && FreqBandsValid(geo) && ArraysFit(e.bands, geo.nxfreq)
    ensures var r := UpdateEstimators(e, m, nplasma, p, ds, wAve, spherical, geo, g, k);
      && r.0.j == e.j + wAve * ds
      && r.0.jDirect + r.0.jScatt == e.jDirect + e.jScatt + wAve * ds
      && (p.nscat == 0 ==> r.0.jScatt == e.jScatt)
      && (p.nscat != 0 ==> r.0.jDirect == e.jDirect)
      && r.0.meanDs == e.meanDs + ds && r.0.nDs == e.nDs + 1
      && r.0.aveFreq == e.aveFreq + p.freq * wAve * ds
  {
  }

  /** Exactly the fixed band that holds the frequency receives the flux element. */
  lemma UpdateFlux(e: Estimators, m: MarkerState, nplasma: int, p: Photon, ds: real, wAve: real,
                   spherical: bool, geo: FreqBands, g: Geometry, k: Constants)
    requires ConstantsValid(k) && FreqBandsValid(geo) && ArraysFit(e.bands, geo.nxfreq)
    ensures var r := UpdateEstimators(e, m, nplasma, p, ds, wAve, spherical, geo, g, k);
      var flux := FluxElement(p, ds, wAve, spherical, g);
      && (r.0.fVis == if p.freq < k.uvLow then AddFlux(e.fVis, flux, g) else e.fVis)
      && (r.0.fXray == if !(p.freq < k.uvLow) && p.freq > k.uvHi then AddFlux(e.fXray, flux, g) else e.fXray)
      && (r.0.fUv == if k.uvLow <= p.freq <= k.uvHi then AddFlux(e.fUv, flux, g) else e.fUv)
  {
  }

  /** Each variable-width band below `nxfreq` is tallied exactly when its interval holds the frequency. */
  lemma UpdateBandTallies(e: Estimators, m: MarkerState, nplasma: int, p: Photon, ds: real, wAve: real,
                          spherical: bool, geo: FreqBands, g: Geometry, k: Constants)
    requires ConstantsValid(k) && FreqBandsValid(geo) && ArraysFit(e.bands, geo.nxfreq)
    ensures forall n :: 0 <= n < geo.nxfreq ==>
      TallyAt(UpdateEstimators(e, m, nplasma, p, ds, wAve, spherical, geo, g, k).0.bands, n) ==
        if InBand(geo.xfreq, n, p.freq) then TallyBand(TallyAt(e.bands, n), p.freq, wAve, ds) else TallyAt(e.bands, n)
  {
    forall n | 0 <= n < geo.nxfreq
      ensures TallyAt(UpdateEstimators(e, m, nplasma, p, ds, wAve, spherical, geo, g, k).0.bands, n) ==
        if InBand(geo.xfreq, n, p.freq) then TallyBand(TallyAt(e.bands, n), p.freq, wAve, ds) else TallyAt(e.bands, n)
    {
      ScanFromTallies(e.bands, geo, p.freq, wAve, ds, 0, n);
    }
  }

  /** The provenance counters and the `plog` marker take one distinct-photon step. */
  lemma UpdateCounts(e: Estimators, m: MarkerState, nplasma: int, p: Photon, ds: real, wAve: real,
                     spherical: bool, geo: FreqBands, g: Geometry, k: Constants)
    requires ConstantsValid(k) && FreqBandsValid(geo) && ArraysFit(e.bands, geo.nxfreq)
    ensures var r := UpdateEstimators(e, m, nplasma, p, ds, wAve, spherical, geo, g, k);
      (r.0.counters, r.1.plog) == CountPhoton(e.counters, m.plog, nplasma, p.np, p.origin)
  {
  }

  /**
   * Strictly above the hydrogen edge a segment counts in `nioniz` once per
   * distinct (cell, photon) pair, and adds its weighted path to `xi` below
   * 1000 Rydberg.
   */
  lemma UpdateIonisingCount(e: Estimators, m: MarkerState, nplasma: int, p: Photon, ds: real, wAve: real,
                            spherical: bool, geo: FreqBands, g: Geometry, k: Constants)
    requires ConstantsValid(k) && FreqBandsValid(geo) && ArraysFit(e.bands, geo.nxfreq)
    requires k.hev * p.freq > HydrogenEdgeEv
    ensures var r := UpdateEstimators(e, m, nplasma, p, ds, wAve, spherical, geo, g, k);
      && r.1.nioniz == Marker(nplasma, p.np)
      && r.0.nioniz == e.nioniz + (if m.nioniz == Marker(nplasma, p.np) then 0 else 1)
      && r.0.xi == e.xi + (if k.hev * p.freq < ThousandRydbergEv then wAve * ds else 0.0)
  {
    PositiveAboveEdge(p, k);
  }

  /**
   * Strictly above the hydrogen edge a segment adds its photon number to `ip`
   * and to exactly one of its direct and scattered parts.
   */
  lemma UpdateIonisingRate(e: Estimators, m: MarkerState, nplasma: int, p: Photon, ds: real, wAve: real,
                           spherical: bool, geo: FreqBands, g: Geometry, k: Constants)
    requires ConstantsValid(k) && FreqBandsValid(geo) && ArraysFit(e.bands, geo.nxfreq)
    requires k.hev * p.freq > HydrogenEdgeEv
    ensures p.freq > 0.0
    ensures var r := UpdateEstimators(e, m, nplasma, p, ds, wAve, spherical, geo, g, k);
      && r.0.ip == e.ip + PhotonNumber(p, ds, wAve, k)
      && r.0.ipDirect + r.0.ipScatt == e.ipDirect + e.ipScatt + PhotonNumber(p, ds, wAve, k)
      && (p.nscat == 0 ==> r.0.ipScatt == e.ipScatt)
      && (p.nscat != 0 ==> r.0.ipDirect == e.ipDirect)
  {
    PositiveAboveEdge(p, k);
    var e2 := FluxStep(Intensity(e, p, ds, wAve), p, ds, wAve, spherical, g, k);
    var c := CountStep(BandsStep(e2, geo, p.freq, wAve, ds), m, nplasma, p);
    assert c.0.ip == e.ip && c.0.ipDirect == e.ipDirect && c.0.ipScatt == e.ipScatt;
  }

  /** At or below the hydrogen edge the ionising-photon estimators and their marker are untouched. */
  lemma UpdateIonisingBelowEdge(e: Estimators, m: MarkerState, nplasma: int, p: Photon, ds: real, wAve: real,
                                spherical: bool, geo: FreqBands, g: Geometry, k: Constants)
    requires ConstantsValid(k) && FreqBandsValid(geo) && ArraysFit(e.bands, geo.nxfreq)
    requires k.hev * p.freq <= HydrogenEdgeEv
    ensures var r := UpdateEstimators(e, m, nplasma, p, ds, wAve, spherical, geo, g, k);
      && r.0.nioniz == e.nioniz && r.0.ip == e.ip && r.0.xi == e.xi
      && r.0.ipDirect == e.ipDirect && r.0.ipScatt == e.ipScatt && r.1.nioniz == m.nioniz
  {
  }

  /**
   * With strictly increasing boundaries a segment tallies at most one
   * variable-width band, and none when its frequency lies outside them all.
   */
  lemma SegmentTalliesAtMostOneBand(e: Estimators, m: MarkerState, nplasma: int, p: Photon, ds: real, wAve: real,
                                    spherical: bool, geo: FreqBands, g: Geometry, k: Constants, i: int, n: int)
    requires ConstantsValid(k) && FreqBandsValid(geo) && ArraysFit(e.bands, geo.nxfreq)
    requires StrictlyIncreasing(geo.xfreq, geo.nxfreq)
    requires 0 <= i < geo.nxfreq && 0 <= n < geo.nxfreq
    requires var r := UpdateEstimators(e, m, nplasma, p, ds, wAve, spherical, geo, g, k).0;
      r.bands.nxtot[i] != e.bands.nxtot[i] && r.bands.nxtot[n] != e.bands.nxtot[n]
    ensures i == n
    ensures geo.xfreq[0] < p.freq <= geo.xfreq[geo.nxfreq]
  {
    var r := UpdateEstimators(e, m, nplasma, p, ds, wAve, spherical, geo, g, k).0;
    UpdateBandTallies(e, m, nplasma, p, ds, wAve, spherical, geo, g, k);
    assert TallyAt(r.bands, i).nxtot != TallyAt(e.bands, i).nxtot;
    assert TallyAt(r.bands, n).nxtot != TallyAt(e.bands, n).nxtot;
    AtMostOneBand(geo.xfreq, geo.nxfreq, p.freq, i, n);
    if p.freq <= geo.xfreq[0] || p.freq > geo.xfreq[geo.nxfreq] {
      NoBandOutside(geo.xfreq, geo.nxfreq, p.freq, i);
    }
  }

  /**
   * The plasma structure pointed to by `xplasma`: its cell number and the
   * estimator fields the update touches, held as one `Estimators` value.
   */
  class Plasma {
    var nplasma: int
    var est: Estimators
  }

  /** The process-global markers `plog_nplasma`/`plog_np` and `nioniz_nplasma`/`nioniz_np`. */
  class Markers {
    var plog: Marker
    var nioniz: Marker

    function State(): MarkerState
      reads this
    {
      MarkerState(plog, nioniz)
    }

    constructor ()
      ensures State() == MarkerState(NoMarker, NoMarker)
    {
      plog := NoMarker;
      nioniz := NoMarker;
    }
  }

  method AccumulateIntensity(xplasma: Plasma, p: Photon, ds: real, wAve: real)
    modifies xplasma`est
    ensures xplasma.est == Intensity(old(xplasma.est), p, ds, wAve)
  {
    xplasma.est := xplasma.est.(j := xplasma.est.j + wAve * ds);
    if p.nscat == 0 {
      xplasma.est := xplasma.est.(jDirect := xplasma.est.jDirect + wAve * ds);
    } else {
      xplasma.est := xplasma.est.(jScatt := xplasma.est.jScatt + wAve * ds);
    }
    xplasma.est := xplasma.est.(meanDs := xplasma.est.meanDs + ds);
    xplasma.est := xplasma.est.(nDs := xplasma.est.nDs + 1);
    xplasma.est := xplasma.est.(aveFreq := xplasma.est.aveFreq + p.freq * wAve * ds);
  }

  method AccumulateFlux(xplasma: Plasma, p: Photon, ds: real, wAve: real, spherical: bool, g: Geometry, k: Constants)
    modifies xplasma`est
    ensures xplasma.est == FluxStep(old(xplasma.est), p, ds, wAve, spherical, g, k)
  {
    var midX := g.movePhot(p.x, p.lmn, ds / 2.0);
    var pDirCos := g.renorm(p.lmn, wAve * ds);
    var flux := g.projectFromXyzCyl(midX, pDirCos);
    if p.x[2] < 0.0 {
      flux := flux[2 := flux[2] * -1.0];
    }
    if spherical {
      var unitX := g.renorm(midX, 1.0);
      flux := flux[0 := Dot(pDirCos, unitX)];
      flux := flux[1 := 0.0][2 := 0.0];
    }
    assert flux == FluxElement(p, ds, wAve, spherical, g);

    var e := xplasma.est;
    if p.freq < k.uvLow {
      e := e.(fVis := VAdd(e.fVis, flux));
      e := e.(fVis := e.fVis[3 := e.fVis[3] + g.length(flux)]);
    } else if p.freq > k.uvHi {
      e := e.(fXray := VAdd(e.fXray, flux));
      e := e.(fXray := e.fXray[3 := e.fXray[3] + g.length(flux)]);
    } else {
      e := e.(fUv := VAdd(e.fUv, flux));
      e := e.(fUv := e.fUv[3 := e.fUv[3] + g.length(flux)]);
    }
    xplasma.est := e;
  }

  method AccumulateBands(xplasma: Plasma, p: Photon, ds: real, wAve: real, geo: FreqBands)
    requires FreqBandsValid(geo) && ArraysFit(xplasma.est.bands, geo.nxfreq)
    modifies xplasma`est
    ensures xplasma.est == BandsStep(old(xplasma.est), geo, p.freq, wAve, ds)
  {
    var b := xplasma.est.bands;
    var i := 0;
    while i < geo.nxfreq
      invariant 0 <= i <= geo.nxfreq
      invariant ArraysFit(b, geo.nxfreq)
      invariant ScanFrom(b, geo, p.freq, wAve, ds, i) == ScanFrom(xplasma.est.bands, geo, p.freq, wAve, ds, 0)
    {
      if geo.xfreq[i] < p.freq && p.freq <= geo.xfreq[i + 1] {
        ghost var t := TallyBand(TallyAt(b, i), p.freq, wAve, ds);
        ghost var before := b;
        b := b.(xaveFreq := b.xaveFreq[i := b.xaveFreq[i] + p.freq * wAve * ds]);
        b := b.(xsdFreq := b.xsdFreq[i := b.xsdFreq[i] + p.freq * p.freq * wAve * ds]);
        b := b.(xj := b.xj[i := b.xj[i] + wAve * ds]);
        b := b.(nxtot := b.nxtot[i := b.nxtot[i] + 1]);
        if p.freq < b.fmin[i] {
          b := b.(fmin := b.fmin[i := p.freq]);
        }
        if p.freq > b.fmax[i] {
          b := b.(fmax := b.fmax[i := p.freq]);
        }
        assert t.xaveFreq == before.xaveFreq[i] + p.freq * wAve * ds;
        assert t.xsdFreq == before.xsdFreq[i] + p.freq * p.freq * wAve * ds;
        assert b.fmin == before.fmin[i := t.fmin] && b.fmax == before.fmax[i := t.fmax];
        assert b == UpdateAt(before, i, p.freq, wAve, ds);
      }
      i := i + 1;
    }
    xplasma.est := xplasma.est.(bands := b);
  }

  method CountDistinctPhoton(xplasma: Plasma, p: Photon, markers: Markers)
    modifies xplasma`est, markers`plog
    ensures (xplasma.est, markers.State()) == CountStep(old(xplasma.est), old(markers.State()), xplasma.nplasma, p)
  {
    if xplasma.nplasma != markers.plog.nplasma || p.np != markers.plog.np {
      var c := xplasma.est.counters.(ntot := xplasma.est.counters.ntot + 1);
      if p.origin == PtypeStar {
        c := c.(star := c.star + 1);
      } else if p.origin == PtypeBl {
        c := c.(bl := c.bl + 1);
      } else if p.origin == PtypeDisk {
        c := c.(disk := c.disk + 1);
      } else if p.origin == PtypeWind {
        c := c.(wind := c.wind + 1);
      } else if p.origin == PtypeAgn {
        c := c.(agn := c.agn + 1);
      }
      xplasma.est := xplasma.est.(counters := c);
      markers.plog := Marker(xplasma.nplasma, p.np);
    }
  }

  method AccumulateIonising(xplasma: Plasma, p: Photon, ds: real, wAve: real, k: Constants, markers: Markers)
    requires ConstantsValid(k)
    modifies xplasma`est, markers`nioniz
    ensures (xplasma.est, markers.State()) ==
      IonisingStep(old(xplasma.est), old(markers.State()), xplasma.nplasma, p, ds, wAve, k)
  {
    if k.hev * p.freq > HydrogenEdgeEv {
      var e := xplasma.est;
      if xplasma.nplasma != markers.nioniz.nplasma || p.np != markers.nioniz.np {
        e := e.(nioniz := e.nioniz + 1);
        markers.nioniz := Marker(xplasma.nplasma, p.np);
      }
      PositiveAboveEdge(p, k);
      e := e.(ip := e.ip + wAve * ds / (k.planck * p.freq));
      if k.hev * p.freq < ThousandRydbergEv {
        e := e.(xi := e.xi + wAve * ds);
      }
      if p.nscat == 0 {
        e := e.(ipDirect := e.ipDirect + wAve * ds / (k.planck * p.freq));
      } else {
        e := e.(ipScatt := e.ipScatt + wAve * ds / (k.planck * p.freq));
      }
      xplasma.est := e;
    }
  }

  /**
   * `update_banded_estimators`: adds segment `p` to the estimators of
   * `xplasma` and updates the markers, in the order of the source; always
   * returns 0.
   */
  method UpdateBandedEstimators(xplasma: Plasma, p: Photon, ds: real, wAve: real, spherical: bool,
                                geo: FreqBands, g: Geometry, k: Constants, markers: Markers)
    returns (status: int)
    requires ConstantsValid(k) && FreqBandsValid(geo) && ArraysFit(xplasma.est.bands, geo.nxfreq)
    modifies xplasma`est, markers
    ensures status == 0
    ensures (xplasma.est, markers.State()) ==
      UpdateEstimators(old(xplasma.est), old(markers.State()), xplasma.nplasma, p, ds, wAve, spherical, geo, g, k)
  {
    AccumulateIntensity(xplasma, p, ds, wAve);
    AccumulateFlux(xplasma, p, ds, wAve, spherical, g, k);
    AccumulateBands(xplasma, p, ds, wAve, geo);
    CountDistinctPhoton(xplasma, p, markers);
    AccumulateIonising(xplasma, p, ds, wAve, k, markers);
    status := 0;
  }
}
