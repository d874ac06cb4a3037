/**
 * Model of source/bands_spec.c: `band_copy` copies the frequency boundaries
 * and the band count of the photon-generation band set `xband` into the
 * spectrum-characterisation fields of every plasma cell.
 */
module BandsSpec {

  /** The global band set `xband`, reduced to the fields `band_copy` reads. */
  datatype BandSet = BandSet(f1: seq<real>, f2: seq<real>, nbands: int)

  /**
   * The band fields of one plasma structure (`plasmamain[n]`): `nbands`, the
   * embedded arrays `f1` and `f2`, and the rest of the structure, which
   * `band_copy` never touches.
   */
  datatype PlasmaBands = PlasmaBands(nplasma: int, nbands: int, f1: seq<real>, f2: seq<real>, rest: seq<real>)

  /** `xband.nbands` indexes both of its own arrays. */
  predicate BandSetValid(xband: BandSet) {
    0 <= xband.nbands <= |xband.f1| && xband.nbands <= |xband.f2|
  }

  /** The cell's embedded arrays are long enough to receive `xband.nbands` entries. */
  predicate FitsBands(cell: PlasmaBands, xband: BandSet) {
    xband.nbands <= |cell.f1| && xband.nbands <= |cell.f2|
  }

  /** The plasma cell after its band fields have been overwritten from `xband`. */
  function WithBands(cell: PlasmaBands, xband: BandSet): (r: PlasmaBands)
    requires BandSetValid(xband) && FitsBands(cell, xband)
    ensures r.nbands == xband.nbands
    ensures |r.f1| == |cell.f1| && |r.f2| == |cell.f2|
    ensures forall k :: 0 <= k < xband.nbands ==> r.f1[k] == xband.f1[k] && r.f2[k] == xband.f2[k]
    ensures forall k :: xband.nbands <= k < |cell.f1| ==> r.f1[k] == cell.f1[k]
    ensures forall k :: xband.nbands <= k < |cell.f2| ==> r.f2[k] == cell.f2[k]
    ensures r.nplasma == cell.nplasma && r.rest == cell.rest
    ensures FitsBands(r, xband)
  {
    var nb := xband.nbands;
    cell.(nbands := nb, f1 := xband.f1[..nb] + cell.f1[nb..], f2 := xband.f2[..nb] + cell.f2[nb..])
  }

  /** Every cell below `nPlasma` fits the band set. */
  predicate AllFit(cells: seq<PlasmaBands>, xband: BandSet, nPlasma: int) {
    0 <= nPlasma <= |cells| && forall n :: 0 <= n < nPlasma ==> FitsBands(cells[n], xband)
  }

  /** The plasma array after `band_copy`: cells `0..nPlasma-1` get the bands, the rest are left alone. */
  function CopyAll(cells: seq<PlasmaBands>, xband: BandSet, nPlasma: int): (r: seq<PlasmaBands>)
    requires BandSetValid(xband) && AllFit(cells, xband, nPlasma)
    ensures |r| == |cells|
  {
    seq(|cells|, n requires 0 <= n < |cells| => if n < nPlasma then WithBands(cells[n], xband) else cells[n])
  }

  /**
   * The inner loop of `band_copy` for cell `n`: set `nbands`, then copy
   * `f1[nband]` and `f2[nband]` for every `nband < xband.nbands`. The cell
   * is a value here, updated field by field and stored back into the array.
   */
  method CopyBands(plasmamain: array<PlasmaBands>, n: int, xband: BandSet)
    requires BandSetValid(xband) && 0 <= n < plasmamain.Length && FitsBands(plasmamain[n], xband)
    modifies plasmamain
    ensures plasmamain[n] == WithBands(old(plasmamain[n]), xband)
    ensures forall k :: 0 <= k < plasmamain.Length && k != n ==> plasmamain[k] == old(plasmamain[k])
  {
    var cell := plasmamain[n];
    cell := cell.(nbands := xband.nbands);
    var nband := 0;
    while nband < xband.nbands
      invariant 0 <= nband <= xband.nbands
      invariant cell.nbands == xband.nbands && cell.nplasma == plasmamain[n].nplasma && cell.rest == plasmamain[n].rest
      invariant |cell.f1| == |plasmamain[n].f1| && |cell.f2| == |plasmamain[n].f2|
      invariant forall k :: 0 <= k < nband ==> cell.f1[k] == xband.f1[k] && cell.f2[k] == xband.f2[k]
      invariant forall k :: nband <= k < |cell.f1| ==> cell.f1[k] == plasmamain[n].f1[k]
      invariant forall k :: nband <= k < |cell.f2| ==> cell.f2[k] == plasmamain[n].f2[k]
    {
      cell := cell.(f1 := cell.f1[nband := xband.f1[nband]]);
      cell := cell.(f2 := cell.f2[nband := xband.f2[nband]]);
      nband := nband + 1;
    }
    ghost var target := WithBands(plasmamain[n], xband);
    assert cell.f1 == target.f1;
    assert cell.f2 == target.f2;
    plasmamain[n] := cell;
  }

  /**
   * `band_copy`: for every plasma cell `n < NPLASMA` set `nbands` and copy
   * `f1[nband]`, `f2[nband]` for every `nband < xband.nbands`. `NPLASMA` is
   * passed as `nPlasma`; `plasmamain` may hold more elements than that.
   * `xband` is passed by value, so the call cannot change it.
   */
  method BandCopy(plasmamain: array<PlasmaBands>, xband: BandSet, nPlasma: int)
    requires BandSetValid(xband) && AllFit(plasmamain[..], xband, nPlasma)
    modifies plasmamain
    ensures plasmamain[..] == CopyAll(old(plasmamain[..]), xband, nPlasma)
  {
    var n := 0;
    while n < nPlasma
      invariant 0 <= n <= nPlasma
      invariant forall k :: 0 <= k < n ==> plasmamain[k] == WithBands(old(plasmamain[k]), xband)
      invariant forall k :: n <= k < plasmamain.Length ==> plasmamain[k] == old(plasmamain[k])
    {
      assert plasmamain[..][n] == plasmamain[n];
      CopyBands(plasmamain, n, xband);
      n := n + 1;
    }
  }

  /** Copying the bands into a cell a second time changes nothing. */
  lemma WithBandsIdempotent(cell: PlasmaBands, xband: BandSet)
    requires BandSetValid(xband) && FitsBands(cell, xband)
    ensures WithBands(WithBands(cell, xband), xband) == WithBands(cell, xband)
  {
    var once := WithBands(cell, xband);
    var twice := WithBands(once, xband);
    assert twice.f1 == once.f1;
    assert twice.f2 == once.f2;
  }

  /** Calling `band_copy` twice leaves the same plasma array as calling it once. */
  lemma CopyAllIdempotent(cells: seq<PlasmaBands>, xband: BandSet, nPlasma: int)
    requires BandSetValid(xband) && AllFit(cells, xband, nPlasma)
    ensures AllFit(CopyAll(cells, xband, nPlasma), xband, nPlasma)
    ensures CopyAll(CopyAll(cells, xband, nPlasma), xband, nPlasma) == CopyAll(cells, xband, nPlasma)
  {
    var once := CopyAll(cells, xband, nPlasma);
    forall n | 0 <= n < nPlasma
      ensures FitsBands(once[n], xband)
    {
    }
    var twice := CopyAll(once, xband, nPlasma);
    forall n | 0 <= n < |cells|
      ensures twice[n] == once[n]
    {
      if n < nPlasma {
        WithBandsIdempotent(cells[n], xband);
      }
    }
  }

  /**
   * After the copy every plasma cell below `nPlasma` agrees with `xband` on
   * the band count and on every band boundary below that count.
   */
  lemma CopyAllMatchesBandSet(cells: seq<PlasmaBands>, xband: BandSet, nPlasma: int, n: int, nband: int)
    requires BandSetValid(xband) && AllFit(cells, xband, nPlasma)
    requires 0 <= n < nPlasma && 0 <= nband < xband.nbands
    ensures CopyAll(cells, xband, nPlasma)[n].nbands == xband.nbands
    ensures CopyAll(cells, xband, nPlasma)[n].f1[nband] == xband.f1[nband]
    ensures CopyAll(cells, xband, nPlasma)[n].f2[nband] == xband.f2[nband]
  {
  }
}
