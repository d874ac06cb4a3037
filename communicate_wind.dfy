/**
 * Model of source/communicate_wind.c: `broadcast_wind_grid` gives every
 * rank a copy of the wind cells updated by every other rank. In round `r`
 * rank `r` packs the cells it owns into a buffer, the buffer is broadcast,
 * and every other rank unpacks it over its own copy of the grid.
 *
 * The packed buffer is a sequence of tagged items, one per scalar element
 * (pack and unpack as in section 4.2 of the MPI-3.1 standard). The broadcast
 * of section 5.4 of the MPI-3.1 standard is "every rank reads the source's
 * buffer", and the ranks run one after another.
 */
module CommunicateWind {

  type Vec3 = s: seq<real> | |s| == 3 witness [0.0, 0.0, 0.0]

  /** The 3x3 velocity gradient, row by row, as MPI packs it. */
  type Tensor9 = s: seq<real> | |s| == 9 witness [0.0, 0.0, 0.0, 0.0, 0.0, 0.0, 0.0, 0.0, 0.0]

  /** The `wcone` record, sent as one element of a derived type with two doubles. */
  datatype Cone = Cone(z: real, dzdr: real)

  /**
   * One element of `wmain`: the fields the broadcast transmits, in the
   * source's names, and `untransmitted` standing for every other field.
   */
  datatype WindCell = WindCell(
    ndom: int, nwindDom: int, nplasma: int,
    x: Vec3, xcen: Vec3,
    r: real, rcen: real, theta: real, thetacen: real, dtheta: real, dr: real,
    wcone: Cone,
    v: Vec3, vGrad: Tensor9,
    divV: real, dvdsAve: real, dvdsMax: real, vol: real, xgamma: real, xgammaCen: real, dfudge: real,
    inwind: int,
    untransmitted: seq<real>)

  /** One packed element: an `MPI_INT`, an `MPI_DOUBLE` or one `wcone` element. */
  datatype Item = IntItem(i: int) | DoubleItem(d: real) | ConeItem(c: Cone)

  datatype Kind = IntKind | DoubleKind | ConeKind

  function KindOf(it: Item): Kind {
    match it
    case IntItem(_) => IntKind
    case DoubleItem(_) => DoubleKind
    case ConeItem(_) => ConeKind
  }

  /** The number of items of kind `k` in `items`. */
  function CountKind(items: seq<Item>, k: Kind): nat
    decreases |items|
  {
    if items == [] then 0
    else CountKind(items[..|items| - 1], k) + (if KindOf(items[|items| - 1]) == k then 1 else 0)
  }

  lemma {:induction false} CountKindAppend(a: seq<Item>, b: seq<Item>, k: Kind)
    ensures CountKind(a + b, k) == CountKind(a, k) + CountKind(b, k)
    decreases |b|
  {
    if b == [] {
      assert a + b == a;
    } else {
      assert (a + b)[..|a + b| - 1] == a + b[..|b| - 1];
      assert (a + b)[|a + b| - 1] == b[|b| - 1];
      CountKindAppend(a, b[..|b| - 1], k);
    }
  }

  /**
   * The packed size of one element of each kind, in bytes, as
   * `MPI_Pack_size` reports it; these sizes are parameters of the model.
   */
  datatype PackSizes = PackSizes(intBytes: nat, doubleBytes: nat, coneBytes: nat)

  function ItemBytes(it: Item, s: PackSizes): nat {
    match KindOf(it)
    case IntKind => s.intBytes
    case DoubleKind => s.doubleBytes
    case ConeKind => s.coneBytes
  }

  /**
   * The items one cell is packed into (lines 100-122), its index `n` first:
   * the groups the packing code emits one after another.
   */
  function CellItems(n: int, c: WindCell): (r: seq<Item>)
    ensures |r| == CellLength
  {
    HeaderItems(n, c) + GeometryItems(c) + [ConeItem(c.wcone)] + VelocityItems(c) + FlowItems(c)
      + [IntItem(c.inwind)]
  }

  /** The four ints that open a cell: its index and three of its own indices. */
  function HeaderItems(n: int, c: WindCell): (r: seq<Item>)
    ensures |r| == 4
  {
    [IntItem(n), IntItem(c.ndom), IntItem(c.nwindDom), IntItem(c.nplasma)]
  }

  /** The twelve doubles that place a cell: `x`, `xcen` and the six scalars up to `dr`. */
  function GeometryItems(c: WindCell): (r: seq<Item>)
    ensures |r| == 12
  {
    [DoubleItem(c.x[0]), DoubleItem(c.x[1]), DoubleItem(c.x[2]),
     DoubleItem(c.xcen[0]), DoubleItem(c.xcen[1]), DoubleItem(c.xcen[2]),
     DoubleItem(c.r), DoubleItem(c.rcen), DoubleItem(c.theta), DoubleItem(c.thetacen),
     DoubleItem(c.dtheta), DoubleItem(c.dr)]
  }

  /** The twelve doubles of the velocity field in a cell: `v` and `v_grad`. */
  function VelocityItems(c: WindCell): (r: seq<Item>)
    ensures |r| == 12
  {
    [DoubleItem(c.v[0]), DoubleItem(c.v[1]), DoubleItem(c.v[2]),
     DoubleItem(c.vGrad[0]), DoubleItem(c.vGrad[1]), DoubleItem(c.vGrad[2]),
     DoubleItem(c.vGrad[3]), DoubleItem(c.vGrad[4]), DoubleItem(c.vGrad[5]),
     DoubleItem(c.vGrad[6]), DoubleItem(c.vGrad[7]), DoubleItem(c.vGrad[8])]
  }

  /** The seven scalar doubles from `div_v` to `dfudge`. */
  function FlowItems(c: WindCell): (r: seq<Item>)
    ensures |r| == 7
  {
    [DoubleItem(c.divV), DoubleItem(c.dvdsAve), DoubleItem(c.dvdsMax), DoubleItem(c.vol),
     DoubleItem(c.xgamma), DoubleItem(c.xgammaCen), DoubleItem(c.dfudge)]
  }

  /** The number of items per packed cell. */
  const CellLength: nat := 37

  /** The kind of each of the 37 items of a packed cell. */
  predicate CellShaped(items: seq<Item>) {
    && |items| == CellLength
    && (forall k :: 0 <= k < 4 ==> items[k].IntItem?)
    && (forall k :: 4 <= k < 16 ==> items[k].DoubleItem?)
    && items[16].ConeItem?
    && (forall k :: 17 <= k < 36 ==> items[k].DoubleItem?)
    && items[36].IntItem?
  }

  /** The int an `MPI_Unpack` of `MPI_INT` reads at item `j`; items of another kind read as 0. */
  function IntAt(items: seq<Item>, j: int): int
    requires 0 <= j < |items|
  {
    if items[j].IntItem? then items[j].i else 0
  }

  /** The double an `MPI_Unpack` of `MPI_DOUBLE` reads at item `j`; items of another kind read as 0. */
  function DoubleAt(items: seq<Item>, j: int): real
    requires 0 <= j < |items|
  {
    if items[j].DoubleItem? then items[j].d else 0.0
  }

  /** The `wcone` an `MPI_Unpack` of the derived type reads at item `j`. */
  function ConeAt(items: seq<Item>, j: int): Cone
    requires 0 <= j < |items|
  {
    if items[j].ConeItem? then items[j].c else Cone(0.0, 0.0)
  }

  /**
   * What the receiver does with one packed cell (lines 135-158): the index
   * it names, and cell `base` with every transmitted field replaced.
   */
  function DecodeCell(items: seq<Item>, base: WindCell): (int, WindCell)
    requires |items| == CellLength
  {
    (IntAt(items, 0),
     base.(ndom := IntAt(items, 1), nwindDom := IntAt(items, 2), nplasma := IntAt(items, 3),
           x := [DoubleAt(items, 4), DoubleAt(items, 5), DoubleAt(items, 6)],
           xcen := [DoubleAt(items, 7), DoubleAt(items, 8), DoubleAt(items, 9)],
           r := DoubleAt(items, 10), rcen := DoubleAt(items, 11), theta := DoubleAt(items, 12),
           thetacen := DoubleAt(items, 13), dtheta := DoubleAt(items, 14), dr := DoubleAt(items, 15),
           wcone := ConeAt(items, 16),
           v := [DoubleAt(items, 17), DoubleAt(items, 18), DoubleAt(items, 19)],
           vGrad := [DoubleAt(items, 20), DoubleAt(items, 21), DoubleAt(items, 22),
                     DoubleAt(items, 23), DoubleAt(items, 24), DoubleAt(items, 25),
                     DoubleAt(items, 26), DoubleAt(items, 27), DoubleAt(items, 28)],
           divV := DoubleAt(items, 29), dvdsAve := DoubleAt(items, 30), dvdsMax := DoubleAt(items, 31),
           vol := DoubleAt(items, 32), xgamma := DoubleAt(items, 33), xgammaCen := DoubleAt(items, 34),
           dfudge := DoubleAt(items, 35),
           inwind := IntAt(items, 36)))
  }

  /** Cell `base` with every transmitted field taken from `c`. */
  function Overwrite(base: WindCell, c: WindCell): WindCell {
    c.(untransmitted := base.untransmitted)
  }

  /** Any item sequence of the packed-cell shape holds 5 ints, 31 doubles and one `wcone`. */
  lemma ShapedCounts(items: seq<Item>)
    requires CellShaped(items)
    ensures CountKind(items, IntKind) == 5
    ensures CountKind(items, DoubleKind) == 31
    ensures CountKind(items, ConeKind) == 1
  {
    var ints, doubles1, cone, doubles2, last := items[..4], items[4..16], [items[16]], items[17..36], [items[36]];
    assert items == ints + doubles1 + cone + doubles2 + last;
    AllOfKind(ints, IntKind);
    AllOfKind(doubles1, DoubleKind);
    AllOfKind(cone, ConeKind);
    AllOfKind(doubles2, DoubleKind);
    AllOfKind(last, IntKind);
    CountKindAppend(ints + doubles1 + cone + doubles2, last, IntKind);
    CountKindAppend(ints + doubles1 + cone, doubles2, IntKind);
    CountKindAppend(ints + doubles1, cone, IntKind);
    CountKindAppend(ints, doubles1, IntKind);
    CountKindAppend(ints + doubles1 + cone + doubles2, last, DoubleKind);
    CountKindAppend(ints + doubles1 + cone, doubles2, DoubleKind);
    CountKindAppend(ints + doubles1, cone, DoubleKind);
    CountKindAppend(ints, doubles1, DoubleKind);
    CountKindAppend(ints + doubles1 + cone + doubles2, last, ConeKind);
    CountKindAppend(ints + doubles1 + cone, doubles2, ConeKind);
    CountKindAppend(ints + doubles1, cone, ConeKind);
    CountKindAppend(ints, doubles1, ConeKind);
  }

  /**
   * A packed cell has 5 ints (`n_wind`, `ndom`, `nwind_dom`, `nplasma`,
   * `inwind`), 31 doubles and one `wcone`, which is the per-cell share of
   * the buffer size of lines 80-81.
   */
  lemma CellItemsShape(n: int, c: WindCell)
    ensures CellShaped(CellItems(n, c))
    ensures CountKind(CellItems(n, c), IntKind) == 5
    ensures CountKind(CellItems(n, c), DoubleKind) == 31
    ensures CountKind(CellItems(n, c), ConeKind) == 1
  {
    ShapedCounts(CellItems(n, c));
  }

  /** A run of items of one kind counts fully for that kind and not at all for the others. */
  lemma {:induction false} AllOfKind(items: seq<Item>, k: Kind)
    requires forall i :: 0 <= i < |items| ==> KindOf(items[i]) == k
    ensures forall k' :: CountKind(items, k') == if k' == k then |items| else 0
    decreases |items|
  {
    if items != [] {
      AllOfKind(items[..|items| - 1], k);
    }
  }

  /** Unpacking a packed cell restores its index and every transmitted field, over any cell. */
  lemma DecodeCellItems(n: int, c: WindCell, base: WindCell)
    ensures CellShaped(CellItems(n, c))
    ensures DecodeCell(CellItems(n, c), base) == (n, Overwrite(base, c))
  {
    CellItemsShape(n, c);
    assert c.x == [c.x[0], c.x[1], c.x[2]];
    assert c.xcen == [c.xcen[0], c.xcen[1], c.xcen[2]];
    assert c.v == [c.v[0], c.v[1], c.v[2]];
    assert c.vGrad == [c.vGrad[0], c.vGrad[1], c.vGrad[2], c.vGrad[3], c.vGrad[4],
                       c.vGrad[5], c.vGrad[6], c.vGrad[7], c.vGrad[8]];
  }

  /** Conversely, packing what the receiver decoded gives back the same items. */
  lemma CellItemsDecode(items: seq<Item>, base: WindCell)
    requires CellShaped(items)
    ensures var (n, c) := DecodeCell(items, base); CellItems(n, c) == items
  {
    var (n, c) := DecodeCell(items, base);
    assert forall k :: 0 <= k < CellLength ==> CellItems(n, c)[k] == items[k];
  }

  /** Overwriting keeps the untransmitted fields, and a second overwrite with the same cell changes nothing. */
  lemma OverwriteProperties(base: WindCell, c: WindCell)
    ensures Overwrite(base, c).untransmitted == base.untransmitted
    ensures forall n :: CellItems(n, Overwrite(base, c)) == CellItems(n, c)
    ensures Overwrite(Overwrite(base, c), c) == Overwrite(base, c)
  {
  }

  /**
   * The doubles of one `MPI_Pack` call with count `|vs|`, one item each:
   * every item is a double, and the receiver's reading of item `k` is `vs[k]`.
   */
  function Doubles(vs: seq<real>): (r: seq<Item>)
    ensures |r| == |vs| && forall k :: 0 <= k < |vs| ==> r[k].DoubleItem? && DoubleAt(r, k) == vs[k]
  {
    seq(|vs|, k requires 0 <= k < |vs| => DoubleItem(vs[k]))
  }

  /** Packing two runs of doubles one after the other packs their concatenation. */
  lemma DoublesAppend(a: seq<real>, b: seq<real>)
    ensures Doubles(a + b) == Doubles(a) + Doubles(b)
  {
    assert forall k :: 0 <= k < |a + b| ==> Doubles(a + b)[k] == (Doubles(a) + Doubles(b))[k];
  }

  /** The packed size of one cell: 5 ints, 31 doubles and one `wcone`. */
  function CellBytes(s: PackSizes): nat {
    5 * s.intBytes + 31 * s.doubleBytes + s.coneBytes
  }

  /**
   * `comm_buffer_size` of line 81: room for `1 + 5 * nCellsMax` ints,
   * `nCellsMax * (13 + 3 * 3 + 1 * 9)` doubles and `nCellsMax` cones.
   */
  function CommBufferSize(nCellsMax: nat, s: PackSizes): nat {
    (1 + 5 * nCellsMax) * s.intBytes + nCellsMax * (13 + 3 * 3 + 1 * 9) * s.doubleBytes + nCellsMax * s.coneBytes
  }

  /** A leading count and any `k <= nCellsMax` cells fit in the buffer. */
  lemma MessageFits(k: nat, nCellsMax: nat, s: PackSizes)
    requires k <= nCellsMax
    ensures s.intBytes + k * CellBytes(s) <= CommBufferSize(nCellsMax, s)
  {
    assert CommBufferSize(nCellsMax, s) == s.intBytes + nCellsMax * CellBytes(s);
    MulMonotone(k, nCellsMax, CellBytes(s));
  }

  lemma MulMonotone(a: nat, b: nat, c: nat)
    requires a <= b
    ensures a * c <= b * c
  {
  }

  /**
   * The packing buffer `comm_buffer` of `size` bytes. `contents` holds the
   * items written from the start of the buffer up to the last pack, `cursor`
   * counts the items packed or unpacked since the last rewind, and
   * `position` is the source's byte cursor.
   */
  class CommBuffer {
    const size: nat
    const sizes: PackSizes
    var contents: seq<Item>
    var cursor: nat
    var position: nat

    constructor (size: nat, sizes: PackSizes)
      ensures this.size == size && this.sizes == sizes
      ensures contents == [] && cursor == 0 && position == 0
    {
      this.size := size;
      this.sizes := sizes;
      contents := [];
      cursor := 0;
      position := 0;
    }

    /** `position = 0` (lines 92 and 128). */
    method Rewind()
      modifies this`cursor, this`position
      ensures cursor == 0 && position == 0
    {
      cursor := 0;
      position := 0;
    }

    /** `MPI_Pack` of one `MPI_INT`; the packed element must fit in the buffer. */
    method PackInt(v: int)
      requires cursor <= |contents| && position + sizes.intBytes <= size
      modifies this`contents, this`cursor, this`position
      ensures contents == old(contents[..cursor]) + [IntItem(v)] && cursor == |contents|
      ensures old(cursor) == old(|contents|) ==> contents == old(contents) + [IntItem(v)]
      ensures cursor == old(cursor) + 1 && position == old(position) + sizes.intBytes
    {
      contents := contents[..cursor] + [IntItem(v)];
      cursor := cursor + 1;
      position := position + sizes.intBytes;
    }

    /** `MPI_Pack` of `count` elements of `MPI_DOUBLE`, taken from `vs`. */
    method PackDoubles(vs: seq<real>, count: nat)
      requires |vs| == count && cursor <= |contents| && position + count * sizes.doubleBytes <= size
      modifies this`contents, this`cursor, this`position
      ensures contents == old(contents[..cursor]) + Doubles(vs) && cursor == |contents|
      ensures old(cursor) == old(|contents|) ==> contents == old(contents) + Doubles(vs)
      ensures cursor == old(cursor) + count && position == old(position) + count * sizes.doubleBytes
    {
      contents := contents[..cursor] + Doubles(vs);
      cursor := cursor + count;
      position := position + count * sizes.doubleBytes;
    }

    /** `MPI_Pack` of one element of the `wcone` derived type. */
    method PackCone(c: Cone)
      requires cursor <= |contents| && position + sizes.coneBytes <= size
      modifies this`contents, this`cursor, this`position
      ensures contents == old(contents[..cursor]) + [ConeItem(c)] && cursor == |contents|
      ensures old(cursor) == old(|contents|) ==> contents == old(contents) + [ConeItem(c)]
      ensures cursor == old(cursor) + 1 && position == old(position) + sizes.coneBytes
    {
      contents := contents[..cursor] + [ConeItem(c)];
      cursor := cursor + 1;
      position := position + sizes.coneBytes;
    }

    /** `MPI_Unpack` of one `MPI_INT`: the next item, which must be an int. */
    method UnpackInt() returns (v: int)
      requires cursor < |contents| && contents[cursor].IntItem?
      modifies this`cursor, this`position
      ensures v == contents[old(cursor)].i
      ensures cursor == old(cursor) + 1 && position == old(position) + sizes.intBytes
    {
      v := contents[cursor].i;
      cursor := cursor + 1;
      position := position + sizes.intBytes;
    }

    /** `MPI_Unpack` of `n` elements of `MPI_DOUBLE`. */
    method UnpackDoubles(n: nat) returns (vs: seq<real>)
      requires cursor + n <= |contents|
      requires forall k :: cursor <= k < cursor + n ==> contents[k].DoubleItem?
      modifies this`cursor, this`position
      ensures |vs| == n && forall k :: 0 <= k < n ==> vs[k] == contents[old(cursor) + k].d
      ensures cursor == old(cursor) + n && position == old(position) + n * sizes.doubleBytes
    {
      var items := contents[cursor..cursor + n];
      vs := seq(n, k requires 0 <= k < n => if items[k].DoubleItem? then items[k].d else 0.0);
      cursor := cursor + n;
      position := position + n * sizes.doubleBytes;
    }

    /** `MPI_Unpack` of one `wcone` element. */
    method UnpackCone() returns (c: Cone)
      requires cursor < |contents| && contents[cursor].ConeItem?
      modifies this`cursor, this`position
      ensures c == contents[old(cursor)].c
      ensures cursor == old(cursor) + 1 && position == old(position) + sizes.coneBytes
    {
      c := contents[cursor].c;
      cursor := cursor + 1;
      position := position + sizes.coneBytes;
    }
  }

  /** Lines 100-103: pack the cell index and the cell's three indices. */
  method PackHeader(buf: CommBuffer, n: int, c: WindCell)
    requires buf.cursor == |buf.contents| && buf.position + 4 * buf.sizes.intBytes <= buf.size
    modifies buf
    ensures buf.contents == old(buf.contents) + HeaderItems(n, c) && buf.cursor == |buf.contents|
    ensures buf.position == old(buf.position) + 4 * buf.sizes.intBytes
  {
    buf.PackInt(n);
    buf.PackInt(c.ndom);
    buf.PackInt(c.nwindDom);
    buf.PackInt(c.nplasma);
  }

  /** Lines 104-111: pack `x`, `xcen` and the scalars `r` to `dr`. */
  method PackGeometry(buf: CommBuffer, c: WindCell)
    requires buf.cursor == |buf.contents| && buf.position + 12 * buf.sizes.doubleBytes <= buf.size
    modifies buf
    ensures buf.contents == old(buf.contents) + GeometryItems(c) && buf.cursor == |buf.contents|
    ensures buf.position == old(buf.position) + 12 * buf.sizes.doubleBytes
  {
    buf.PackDoubles(c.x, 3);
    buf.PackDoubles(c.xcen, 3);
    buf.PackDoubles([c.r], 1);
    buf.PackDoubles([c.rcen], 1);
    buf.PackDoubles([c.theta], 1);
    buf.PackDoubles([c.thetacen], 1);
    buf.PackDoubles([c.dtheta], 1);
    buf.PackDoubles([c.dr], 1);
  }

  /** Lines 113-114: pack `v` and `v_grad`. */
  method PackVelocity(buf: CommBuffer, c: WindCell)
    requires buf.cursor == |buf.contents| && buf.position + 12 * buf.sizes.doubleBytes <= buf.size
    modifies buf
    ensures buf.contents == old(buf.contents) + VelocityItems(c) && buf.cursor == |buf.contents|
    ensures buf.position == old(buf.position) + 12 * buf.sizes.doubleBytes
  {
    buf.PackDoubles(c.v, 3);
    buf.PackDoubles(c.vGrad, 9);
  }

  /** Lines 115-121: pack the scalars `div_v` to `dfudge`. */
  method PackFlow(buf: CommBuffer, c: WindCell)
    requires buf.cursor == |buf.contents| && buf.position + 7 * buf.sizes.doubleBytes <= buf.size
    modifies buf
    ensures buf.contents == old(buf.contents) + FlowItems(c) && buf.cursor == |buf.contents|
    ensures buf.position == old(buf.position) + 7 * buf.sizes.doubleBytes
  {
    buf.PackDoubles([c.divV], 1);
    buf.PackDoubles([c.dvdsAve], 1);
    buf.PackDoubles([c.dvdsMax], 1);
    buf.PackDoubles([c.vol], 1);
    buf.PackDoubles([c.xgamma], 1);
    buf.PackDoubles([c.xgammaCen], 1);
    buf.PackDoubles([c.dfudge], 1);
  }

  /** Lines 100-122: pack cell `c`, whose index is `n`, field by field. */
  method PackCell(buf: CommBuffer, n: int, c: WindCell)
    requires buf.cursor == |buf.contents| && buf.position + CellBytes(buf.sizes) <= buf.size
    modifies buf
    ensures buf.contents == old(buf.contents) + CellItems(n, c) && buf.cursor == |buf.contents|
    ensures buf.position == old(buf.position) + CellBytes(buf.sizes)
  {
    ghost var before := buf.contents;
    PackHeader(buf, n, c);
    PackGeometry(buf, c);
    ghost var placed := HeaderItems(n, c) + GeometryItems(c);
    assert buf.contents == before + placed;
    buf.PackCone(c.wcone);
    PackVelocity(buf, c);
    ghost var moving := placed + [ConeItem(c.wcone)] + VelocityItems(c);
    assert buf.contents == before + moving;
    PackFlow(buf, c);
    buf.PackInt(c.inwind);
    assert buf.contents == before + (moving + FlowItems(c) + [IntItem(c.inwind)]);
  }

  /** Lines 137-139: unpack `ndom`, `nwind_dom` and `nplasma` into `cell`. */
  method UnpackHeader(buf: CommBuffer, cell: WindCell) returns (r: WindCell)
    requires buf.cursor + 3 <= |buf.contents|
    requires forall k :: buf.cursor <= k < buf.cursor + 3 ==> buf.contents[k].IntItem?
    modifies buf`cursor, buf`position
    ensures var at := old(buf.cursor);
      r == cell.(ndom := buf.contents[at].i, nwindDom := buf.contents[at + 1].i,
                 nplasma := buf.contents[at + 2].i)
    ensures buf.cursor == old(buf.cursor) + 3 && buf.position == old(buf.position) + 3 * buf.sizes.intBytes
  {
    r := cell;
    var ndom := buf.UnpackInt();
    r := r.(ndom := ndom);
    var nwindDom := buf.UnpackInt();
    r := r.(nwindDom := nwindDom);
    var nplasma := buf.UnpackInt();
    r := r.(nplasma := nplasma);
  }

  /** Lines 140-147: unpack `x`, `xcen` and the scalars `r` to `dr` into `cell`. */
  method UnpackGeometry(buf: CommBuffer, cell: WindCell) returns (r: WindCell)
    requires buf.cursor + 12 <= |buf.contents|
    requires forall k :: buf.cursor <= k < buf.cursor + 12 ==> buf.contents[k].DoubleItem?
    modifies buf`cursor, buf`position
    ensures var at, b := old(buf.cursor), buf.contents;
      r == cell.(x := [b[at].d, b[at + 1].d, b[at + 2].d],
                 xcen := [b[at + 3].d, b[at + 4].d, b[at + 5].d],
                 r := b[at + 6].d, rcen := b[at + 7].d, theta := b[at + 8].d,
                 thetacen := b[at + 9].d, dtheta := b[at + 10].d, dr := b[at + 11].d)
    ensures buf.cursor == old(buf.cursor) + 12 && buf.position == old(buf.position) + 12 * buf.sizes.doubleBytes
  {
    r := cell;
    var x := buf.UnpackDoubles(3);
    r := r.(x := x);
    var xcen := buf.UnpackDoubles(3);
    r := r.(xcen := xcen);
    var one := buf.UnpackDoubles(1);
    r := r.(r := one[0]);
    one := buf.UnpackDoubles(1);
    r := r.(rcen := one[0]);
    one := buf.UnpackDoubles(1);
    r := r.(theta := one[0]);
    one := buf.UnpackDoubles(1);
    r := r.(thetacen := one[0]);
    one := buf.UnpackDoubles(1);
    r := r.(dtheta := one[0]);
    one := buf.UnpackDoubles(1);
    r := r.(dr := one[0]);
  }

  /** Lines 149-150: unpack `v` and `v_grad` into `cell`. */
  method UnpackVelocity(buf: CommBuffer, cell: WindCell) returns (r: WindCell)
    requires buf.cursor + 12 <= |buf.contents|
    requires forall k :: buf.cursor <= k < buf.cursor + 12 ==> buf.contents[k].DoubleItem?
    modifies buf`cursor, buf`position
    ensures var at, b := old(buf.cursor), buf.contents;
      r == cell.(v := [b[at].d, b[at + 1].d, b[at + 2].d],
                 vGrad := [b[at + 3].d, b[at + 4].d, b[at + 5].d, b[at + 6].d, b[at + 7].d,
                           b[at + 8].d, b[at + 9].d, b[at + 10].d, b[at + 11].d])
    ensures buf.cursor == old(buf.cursor) + 12 && buf.position == old(buf.position) + 12 * buf.sizes.doubleBytes
  {
    r := cell;
    var v := buf.UnpackDoubles(3);
    r := r.(v := v);
    var vGrad := buf.UnpackDoubles(9);
    r := r.(vGrad := vGrad);
  }

  /** Lines 151-157: unpack the scalars `div_v` to `dfudge` into `cell`. */
  method UnpackFlow(buf: CommBuffer, cell: WindCell) returns (r: WindCell)
    requires buf.cursor + 7 <= |buf.contents|
    requires forall k :: buf.cursor <= k < buf.cursor + 7 ==> buf.contents[k].DoubleItem?
    modifies buf`cursor, buf`position
    ensures var at, b := old(buf.cursor), buf.contents;
      r == cell.(divV := b[at].d, dvdsAve := b[at + 1].d, dvdsMax := b[at + 2].d, vol := b[at + 3].d,
                 xgamma := b[at + 4].d, xgammaCen := b[at + 5].d, dfudge := b[at + 6].d)
    ensures buf.cursor == old(buf.cursor) + 7 && buf.position == old(buf.position) + 7 * buf.sizes.doubleBytes
  {
    r := cell;
    var one := buf.UnpackDoubles(1);
    r := r.(divV := one[0]);
    one := buf.UnpackDoubles(1);
    r := r.(dvdsAve := one[0]);
    one := buf.UnpackDoubles(1);
    r := r.(dvdsMax := one[0]);
    one := buf.UnpackDoubles(1);
    r := r.(vol := one[0]);
    one := buf.UnpackDoubles(1);
    r := r.(xgamma := one[0]);
    one := buf.UnpackDoubles(1);
    r := r.(xgammaCen := one[0]);
    one := buf.UnpackDoubles(1);
    r := r.(dfudge := one[0]);
  }

  /** Where the `i`-th packed cell starts in a message: after the count, 37 items per cell. */
  function BlockStart(i: int): int {
    1 + 37 * i
  }

  /** The items of the `i`-th packed cell of a message. */
  function Block(items: seq<Item>, i: int): (b: seq<Item>)
    requires 0 <= i && BlockStart(i + 1) <= |items|
    ensures |b| == CellLength
  {
    items[BlockStart(i)..BlockStart(i + 1)]
  }

  /**
   * One pass of the receiver's cell loop (lines 135-158) over the packed
   * cell `b`, whose index must lie in the grid (the receiver does not check).
   */
  function ReceiveBlock(b: seq<Item>, grid: seq<WindCell>): (g: seq<WindCell>)
    requires |b| == CellLength && 0 <= IntAt(b, 0) < |grid|
    ensures |g| == |grid|
  {
    var n := IntAt(b, 0);
    grid[n := DecodeCell(b, grid[n]).1]
  }

  /**
   * Lines 136-157 after the index: unpack the remaining 36 items of the
   * packed cell that starts one item before the cursor, over `cell`.
   */
  method UnpackCellFields(buf: CommBuffer, cell: WindCell) returns (r: WindCell)
    requires 1 <= buf.cursor && buf.cursor - 1 + CellLength <= |buf.contents|
    requires CellShaped(buf.contents[buf.cursor - 1..buf.cursor - 1 + CellLength])
    modifies buf`cursor, buf`position
    ensures r == DecodeCell(buf.contents[old(buf.cursor) - 1..old(buf.cursor) - 1 + CellLength], cell).1
    ensures buf.cursor == old(buf.cursor) + CellLength - 1
    ensures buf.position == old(buf.position) + CellBytes(buf.sizes) - buf.sizes.intBytes
  {
    ghost var at := buf.cursor - 1;
    ghost var items := buf.contents[at..at + CellLength];
    assert forall k :: 0 <= k < CellLength ==> items[k] == buf.contents[at + k];
    r := UnpackHeader(buf, cell);
    r := UnpackGeometry(buf, r);
    var wcone := buf.UnpackCone();
    r := r.(wcone := wcone);
    r := UnpackVelocity(buf, r);
    r := UnpackFlow(buf, r);
    var inwind := buf.UnpackInt();
    r := r.(inwind := inwind);
  }

  /** Lines 135-158: unpack one cell into rank `q`'s grid, over the cell it names. */
  method ReceiveCell(buf: CommBuffer, wmain: array<seq<WindCell>>, q: int)
    requires 0 <= q < wmain.Length && buf.cursor + CellLength <= |buf.contents|
    requires CellShaped(buf.contents[buf.cursor..buf.cursor + CellLength])
    requires 0 <= IntAt(buf.contents[buf.cursor..buf.cursor + CellLength], 0) < |wmain[q]|
    modifies buf`cursor, buf`position, wmain
    ensures wmain[..] == old(wmain[..])[q := ReceiveBlock(buf.contents[old(buf.cursor)..old(buf.cursor) + CellLength], old(wmain[q]))]
    ensures buf.cursor == old(buf.cursor) + CellLength
    ensures buf.position == old(buf.position) + CellBytes(buf.sizes)
  {
    var nWind := buf.UnpackInt();
    var cell := UnpackCellFields(buf, wmain[q][nWind]);
    wmain[q] := wmain[q][nWind := cell];
  }

  /** The cells `cells`, whose indices start at `start`, packed one after another. */
  function EncodeCells(start: int, cells: seq<WindCell>): (r: seq<Item>)
    ensures |r| == 37 * |cells|
    decreases |cells|
  {
    if cells == [] then []
    else EncodeCells(start, cells[..|cells| - 1]) + CellItems(start + |cells| - 1, cells[|cells| - 1])
  }

  /** What a rank packs in its round (lines 96-122): the count it announces, then its cells. */
  function Message(count: int, start: int, cells: seq<WindCell>): seq<Item> {
    [IntItem(count)] + EncodeCells(start, cells)
  }

  lemma AppendAssoc<T>(a: seq<T>, b: seq<T>, c: seq<T>)
    ensures (a + b) + c == a + (b + c)
  {
  }

  lemma SliceAppendLeft<T>(a: seq<T>, b: seq<T>, x: int, y: int)
    requires 0 <= x <= y <= |a|
    ensures (a + b)[x..y] == a[x..y]
  {
  }

  lemma SliceAppendRight<T>(a: seq<T>, b: seq<T>, x: int, y: int)
    requires |a| <= x <= y <= |a| + |b|
    ensures (a + b)[x..y] == b[x - |a|..y - |a|]
  {
  }

  lemma SliceAppendTail<T>(a: seq<T>, b: seq<T>, x: int, y: int)
    requires x == |a| && y == |a| + |b|
    ensures (a + b)[x..y] == b
  {
  }

  /** The last cell of an encoding is the items of its last cell. */
  lemma EncodeCellsLast(start: int, cells: seq<WindCell>, i: int)
    requires i == |cells| - 1 >= 0
    ensures EncodeCells(start, cells)[37 * i..37 * i + 37] == CellItems(start + i, cells[i])
  {
    var init, c := cells[..i], CellItems(start + i, cells[i]);
    assert EncodeCells(start, cells) == EncodeCells(start, init) + c;
    SliceAppendTail(EncodeCells(start, init), c, 37 * i, 37 * i + 37);
  }

  /** Encoding one more cell leaves the earlier cells' items in place. */
  lemma EncodeCellsPrefix(start: int, cells: seq<WindCell>, i: int)
    requires 0 <= i < |cells| - 1
    ensures EncodeCells(start, cells)[37 * i..37 * i + 37] == EncodeCells(start, cells[..|cells| - 1])[37 * i..37 * i + 37]
  {
    var init, c := cells[..|cells| - 1], CellItems(start + |cells| - 1, cells[|cells| - 1]);
    assert EncodeCells(start, cells) == EncodeCells(start, init) + c;
    SliceAppendLeft(EncodeCells(start, init), c, 37 * i, 37 * i + 37);
  }

  /** The `i`-th cell of an encoding is exactly the items of cell `start + i`. */
  lemma {:induction false} EncodeCellsBlock(start: int, cells: seq<WindCell>, i: int)
    requires 0 <= i < |cells|
    ensures EncodeCells(start, cells)[37 * i..37 * i + 37] == CellItems(start + i, cells[i])
    decreases |cells|
  {
    if i < |cells| - 1 {
      EncodeCellsPrefix(start, cells, i);
      EncodeCellsBlock(start, cells[..|cells| - 1], i);
    } else {
      EncodeCellsLast(start, cells, i);
    }
  }

  /** The `i`-th block of a message is exactly the items of cell `start + i`. */
  lemma MessageBlock(count: int, start: int, cells: seq<WindCell>, i: int)
    requires 0 <= i < |cells|
    ensures BlockStart(i + 1) <= |Message(count, start, cells)|
    ensures Block(Message(count, start, cells), i) == CellItems(start + i, cells[i])
  {
    SliceAppendRight([IntItem(count)], EncodeCells(start, cells), BlockStart(i), BlockStart(i + 1));
    EncodeCellsBlock(start, cells, i);
  }

  /** The number of cells the receiver unpacks: the leading count, or none when it is negative. */
  function Announced(items: seq<Item>): nat
    requires |items| >= 1
  {
    if IntAt(items, 0) < 0 then 0 else IntAt(items, 0)
  }

  /** The first `k` blocks are present and each names a cell of a grid of `size` cells. */
  predicate BlocksInGrid(items: seq<Item>, k: nat, size: int) {
    && BlockStart(k) <= |items|
    && forall i {:trigger Block(items, i)} :: 0 <= i < k ==> 0 <= IntAt(Block(items, i), 0) < size
  }

  /**
   * A well-formed message for a grid of `size` cells: a leading count, then
   * that many packed cells, each of the packed-cell shape and naming a cell
   * of the grid.
   */
  predicate MessageShaped(items: seq<Item>, size: int) {
    && |items| >= 1 && items[0].IntItem?
    && BlocksInGrid(items, Announced(items), size)
    && forall i {:trigger Block(items, i)} :: 0 <= i < Announced(items) ==> CellShaped(Block(items, i))
  }

  /** The receiver's cell loop after `k` passes. */
  function ApplyBlocks(items: seq<Item>, grid: seq<WindCell>, k: nat): (g: seq<WindCell>)
    requires BlocksInGrid(items, k, |grid|)
    ensures |g| == |grid|
  {
    if k == 0 then grid
    else ReceiveBlock(Block(items, k - 1), ApplyBlocks(items, grid, k - 1))
  }

  /** Lines 132-158: what a receiving rank's grid becomes. */
  function Received(items: seq<Item>, grid: seq<WindCell>): (g: seq<WindCell>)
    requires MessageShaped(items, |grid|)
    ensures |g| == |grid|
  {
    ApplyBlocks(items, grid, Announced(items))
  }

  /**
   * The packed cell `b` delivers cell `c` under index `n`: it names `n`, and
   * unpacking it over any cell gives that cell with `c`'s transmitted fields.
   */
  ghost predicate Delivers(b: seq<Item>, n: int, c: WindCell) {
    && |b| == CellLength && IntAt(b, 0) == n
    && forall base {:trigger DecodeCell(b, base)} :: DecodeCell(b, base).1 == Overwrite(base, c)
  }

  /** The items of a cell deliver that cell. */
  lemma CellItemsDeliver(n: int, c: WindCell)
    ensures Delivers(CellItems(n, c), n, c)
  {
    forall base {:trigger DecodeCell(CellItems(n, c), base)}
      ensures DecodeCell(CellItems(n, c), base).1 == Overwrite(base, c)
    {
      DecodeCellItems(n, c, base);
    }
    DecodeCellItems(n, c, c);
  }

  /** Blocks `0..k-1` of `items` deliver the cells `cells[0..k-1]`, indexed from `start`. */
  ghost predicate Carries(items: seq<Item>, start: int, cells: seq<WindCell>, k: nat) {
    && k <= |cells| && BlockStart(k) <= |items|
    && forall i {:trigger Block(items, i)} :: 0 <= i < k ==> Delivers(Block(items, i), start + i, cells[i])
  }

  /** A message carries all of its cells. */
  lemma MessageCarries(count: int, start: int, cells: seq<WindCell>)
    ensures Carries(Message(count, start, cells), start, cells, |cells|)
  {
    forall i | 0 <= i < |cells|
      ensures Delivers(Block(Message(count, start, cells), i), start + i, cells[i])
    {
      MessageBlock(count, start, cells, i);
      CellItemsDeliver(start + i, cells[i]);
    }
  }

  /**
   * After `k` passes over items that carry cells `start..`, the grid holds
   * the first `k` of them, each over the receiver's own untransmitted
   * fields, and nothing else changed.
   */
  lemma {:induction false} ApplyCarried(items: seq<Item>, start: int, cells: seq<WindCell>, grid: seq<WindCell>, k: nat)
    requires Carries(items, start, cells, k) && 0 <= start && start + k <= |grid|
    ensures BlocksInGrid(items, k, |grid|)
    ensures forall n :: 0 <= n < |grid| ==>
      ApplyBlocks(items, grid, k)[n]
        == if start <= n < start + k then Overwrite(grid[n], cells[n - start]) else grid[n]
  {
    if k > 0 {
      ApplyCarried(items, start, cells, grid, k - 1);
      var prev, n0 := ApplyBlocks(items, grid, k - 1), start + (k - 1);
      assert Delivers(Block(items, k - 1), n0, cells[k - 1]);
      var next := ApplyBlocks(items, grid, k);
      assert next == prev[n0 := Overwrite(prev[n0], cells[k - 1])];
      forall n | 0 <= n < |grid|
        ensures next[n] == if start <= n < start + k then Overwrite(grid[n], cells[n - start]) else grid[n]
      {
        if n != n0 {
          assert next[n] == prev[n];
        }
      }
    }
  }

  /** A message announcing at most its cells, all inside the grid, is well formed. */
  lemma MessageShape(count: int, start: int, cells: seq<WindCell>, size: int)
    requires count <= |cells| && 0 <= start && start + |cells| <= size
    ensures MessageShaped(Message(count, start, cells), size)
  {
    var m := Message(count, start, cells);
    assert m[0] == IntItem(count);
    forall i | 0 <= i < Announced(m)
      ensures CellShaped(Block(m, i)) && 0 <= IntAt(Block(m, i), 0) < size
    {
      MessageBlockShaped(count, start, cells, size, i);
    }
  }

  /** Block `i` of a message is a packed cell naming cell `start + i`. */
  lemma MessageBlockShaped(count: int, start: int, cells: seq<WindCell>, size: int, i: int)
    requires 0 <= i < |cells| && 0 <= start && start + |cells| <= size
    ensures BlockStart(i + 1) <= |Message(count, start, cells)|
    ensures CellShaped(Block(Message(count, start, cells), i))
    ensures 0 <= IntAt(Block(Message(count, start, cells), i), 0) < size
  {
    MessageBlock(count, start, cells, i);
    CellItemsShape(start + i, cells[i]);
    assert CellItems(start + i, cells[i])[0] == IntItem(start + i);
  }

  /** A receiver holds exactly the announced cells of the message, over its own untransmitted fields. */
  lemma ReceivedMessage(count: int, start: int, cells: seq<WindCell>, grid: seq<WindCell>)
    requires count <= |cells| && 0 <= start && start + |cells| <= |grid|
    ensures MessageShaped(Message(count, start, cells), |grid|)
    ensures forall n :: 0 <= n < |grid| ==>
      Received(Message(count, start, cells), grid)[n]
        == if start <= n < start + count then Overwrite(grid[n], cells[n - start]) else grid[n]
  {
    MessageShape(count, start, cells, |grid|);
    MessageCarries(count, start, cells);
    var m := Message(count, start, cells);
    ApplyCarried(m, start, cells, grid, Announced(m));
  }

  /** Packing one more cell appends its items to the message. */
  lemma MessageSnoc(count: int, start: int, cells: seq<WindCell>, c: WindCell)
    ensures Message(count, start, cells + [c]) == Message(count, start, cells) + CellItems(start + |cells|, c)
  {
    assert (cells + [c])[..|cells|] == cells;
    AppendAssoc([IntItem(count)], EncodeCells(start, cells), CellItems(start + |cells|, c));
  }

  /** Bytes packed for a message of `k` cells. */
  function MessageBytes(s: PackSizes, k: nat): nat {
    s.intBytes + k * CellBytes(s)
  }

  lemma MessageBytesStep(s: PackSizes, k: nat, total: nat)
    requires k < total
    ensures MessageBytes(s, k + 1) == MessageBytes(s, k) + CellBytes(s)
    ensures MessageBytes(s, k + 1) <= MessageBytes(s, total)
  {
    MulMonotone(k + 1, total, CellBytes(s));
  }

  /**
   * Lines 96-122: the rank whose round it is packs `count`, then its cells
   * `start` to `stop - 1` of `grid`, into the rewound buffer.
   */
  method PackRank(buf: CommBuffer, grid: seq<WindCell>, start: int, stop: int, count: int)
    requires 0 <= start <= stop <= |grid|
    requires buf.cursor == 0 && buf.position == 0 && MessageBytes(buf.sizes, stop - start) <= buf.size
    modifies buf
    ensures buf.contents == Message(count, start, grid[start..stop]) && buf.cursor == |buf.contents|
    ensures buf.position == MessageBytes(buf.sizes, stop - start)
  {
    buf.PackInt(count);
    var nWind := start;
    while nWind < stop
      invariant start <= nWind <= stop
      invariant buf.contents == Message(count, start, grid[start..nWind]) && buf.cursor == |buf.contents|
      invariant buf.position == MessageBytes(buf.sizes, nWind - start)
    {
      PackNext(buf, grid, start, stop, count, nWind);
      nWind := nWind + 1;
    }
  }

  /** One pass of the sender's cell loop (lines 97-123): pack cell `n` of `grid`. */
  method PackNext(buf: CommBuffer, grid: seq<WindCell>, start: int, stop: int, count: int, n: int)
    requires 0 <= start <= n < stop <= |grid| && MessageBytes(buf.sizes, stop - start) <= buf.size
    requires buf.contents == Message(count, start, grid[start..n]) && buf.cursor == |buf.contents|
    requires buf.position == MessageBytes(buf.sizes, n - start)
    modifies buf
    ensures buf.contents == Message(count, start, grid[start..n + 1]) && buf.cursor == |buf.contents|
    ensures buf.position == MessageBytes(buf.sizes, n + 1 - start)
  {
    MessageBytesStep(buf.sizes, n - start, stop - start);
    PackCell(buf, n, grid[n]);
    assert grid[start..n + 1] == grid[start..n] + [grid[n]];
    MessageSnoc(count, start, grid[start..n], grid[n]);
  }

  /** One pass of the receiver's cell loop (lines 135-158): unpack block `i` of the message. */
  method ReceiveNext(buf: CommBuffer, wmain: array<seq<WindCell>>, q: int, ghost grid0: seq<WindCell>,
                     ghost orig: seq<seq<WindCell>>, i: nat)
    requires 0 <= q < |orig| && MessageShaped(buf.contents, |grid0|) && i < Announced(buf.contents)
    requires buf.cursor == BlockStart(i) && BlocksInGrid(buf.contents, i, |grid0|)
    requires wmain[..] == orig[q := ApplyBlocks(buf.contents, grid0, i)]
    modifies buf`cursor, buf`position, wmain
    ensures BlocksInGrid(buf.contents, i + 1, |grid0|) && buf.cursor == BlockStart(i + 1)
    ensures wmain[..] == orig[q := ApplyBlocks(buf.contents, grid0, i + 1)]
  {
    assert wmain[q] == wmain[..][q];
    assert CellShaped(Block(buf.contents, i));
    assert Block(buf.contents, i) == buf.contents[buf.cursor..buf.cursor + CellLength];
    ghost var before := wmain[..];
    ReceiveCell(buf, wmain, q);
    ghost var after := ApplyBlocks(buf.contents, grid0, i + 1);
    assert wmain[..] == before[q := after];
    forall k | 0 <= k < |orig|
      ensures wmain[..][k] == orig[q := after][k]
    {
    }
  }

  /** Lines 132-158: a receiving rank reads the count, then unpacks that many cells into its grid. */
  method ReceiveRank(buf: CommBuffer, wmain: array<seq<WindCell>>, q: int)
    requires 0 <= q < wmain.Length && buf.cursor == 0 && MessageShaped(buf.contents, |wmain[q]|)
    modifies buf`cursor, buf`position, wmain
    ensures wmain[..] == old(wmain[..])[q := Received(buf.contents, old(wmain[q]))]
  {
    ghost var grid0 := wmain[q];
    var numComm := buf.UnpackInt();
    var i := 0;
    while i < numComm
      invariant 0 <= i <= Announced(buf.contents) && numComm == IntAt(buf.contents, 0)
      invariant buf.cursor == BlockStart(i) && BlocksInGrid(buf.contents, i, |grid0|)
      invariant wmain[..] == old(wmain[..])[q := ApplyBlocks(buf.contents, grid0, i)]
    {
      ReceiveNext(buf, wmain, q, grid0, old(wmain[..]), i);
      i := i + 1;
    }
    assert i == Announced(buf.contents);
  }

  /** Every rank's grid has `nCells` cells (`NDIM2` in the source). */
  predicate Uniform(grids: seq<seq<WindCell>>, nCells: nat) {
    forall q :: 0 <= q < |grids| ==> |grids[q]| == nCells
  }

  /**
   * What the ranks pass in (line 40): rank `r` updated cells
   * `starts[r]..stops[r] - 1` of a grid of `nCells` cells and announces
   * `counts[r]` of them, which must not exceed the cells it packs.
   */
  predicate Plan(np: nat, nCells: nat, starts: seq<int>, stops: seq<int>, counts: seq<int>) {
    && |starts| == np && |stops| == np && |counts| == np
    && forall r :: 0 <= r < np ==> 0 <= starts[r] <= stops[r] <= nCells && counts[r] <= stops[r] - starts[r]
  }

  /**
   * The effect of one round of lines 92-160 in which rank `r` sends its
   * cells `start..stop - 1` and announces `count` of them: every other rank
   * takes the sender's copy of each announced cell over its own
   * untransmitted fields, and nothing else changes.
   */
  function Round(grids: seq<seq<WindCell>>, nCells: nat, r: int, start: int, stop: int, count: int): (g: seq<seq<WindCell>>)
    requires Uniform(grids, nCells) && 0 <= r < |grids| && 0 <= start <= stop <= nCells && count <= stop - start
    ensures |g| == |grids| && Uniform(g, nCells)
  {
    seq(|grids|, q requires 0 <= q < |grids| =>
      if q == r then grids[q]
      else seq(nCells, n requires 0 <= n < nCells =>
             if start <= n < start + count then Overwrite(grids[q][n], grids[r][n]) else grids[q][n]))
  }

  /** What a receiving rank unpacks from the sender's message is its grid after the round. */
  lemma RoundIsReceived(grids: seq<seq<WindCell>>, nCells: nat, r: int, start: int, stop: int, count: int, q: int)
    requires Uniform(grids, nCells) && 0 <= r < |grids| && 0 <= start <= stop <= nCells && count <= stop - start
    requires 0 <= q < |grids| && q != r
    ensures MessageShaped(Message(count, start, grids[r][start..stop]), nCells)
    ensures Received(Message(count, start, grids[r][start..stop]), grids[q])
      == Round(grids, nCells, r, start, stop, count)[q]
  {
    var cells := grids[r][start..stop];
    ReceivedMessage(count, start, cells, grids[q]);
    var received := Received(Message(count, start, cells), grids[q]);
    var after := Round(grids, nCells, r, start, stop, count)[q];
    forall n | 0 <= n < nCells
      ensures received[n] == after[n]
    {
      if start <= n < start + count {
        assert cells[n - start] == grids[r][n];
      }
    }
  }

  /** The sender of a round never unpacks, so its grid is left as it was. */
  lemma RoundSenderKeeps(grids: seq<seq<WindCell>>, nCells: nat, r: int, start: int, stop: int, count: int)
    requires Uniform(grids, nCells) && 0 <= r < |grids| && 0 <= start <= stop <= nCells && count <= stop - start
    ensures Round(grids, nCells, r, start, stop, count)[r] == grids[r]
  {
  }

  /** The first `k` rounds of the loop of line 90. */
  function Rounds(grids: seq<seq<WindCell>>, nCells: nat, starts: seq<int>, stops: seq<int>, counts: seq<int>, k: nat)
    : (g: seq<seq<WindCell>>)
    requires Uniform(grids, nCells) && Plan(|grids|, nCells, starts, stops, counts) && k <= |grids|
    ensures |g| == |grids| && Uniform(g, nCells)
    decreases k
  {
    if k == 0 then grids
    else Round(Rounds(grids, nCells, starts, stops, counts, k - 1), nCells, k - 1, starts[k - 1], stops[k - 1], counts[k - 1])
  }

  /** Rank `r` updated cell `n`. */
  predicate Owns(starts: seq<int>, stops: seq<int>, r: int, n: int)
    requires 0 <= r < |starts| && |stops| == |starts|
  {
    starts[r] <= n < stops[r]
  }

  /** No cell is updated by two ranks. */
  predicate Disjoint(starts: seq<int>, stops: seq<int>)
    requires |stops| == |starts|
  {
    forall r, s :: 0 <= r < s < |starts| ==> stops[r] <= starts[s] || stops[s] <= starts[r]
  }

  /** With disjoint ranges a cell has at most one owner. */
  lemma OwnerUnique(starts: seq<int>, stops: seq<int>, r: int, s: int, n: int)
    requires |stops| == |starts| && Disjoint(starts, stops) && 0 <= r < |starts| && 0 <= s < |starts|
    requires Owns(starts, stops, r, n) && Owns(starts, stops, s, n)
    ensures r == s
  {
  }

  /** With disjoint ranges, no rank but the owner of a cell updated it. */
  lemma OtherNotOwner(starts: seq<int>, stops: seq<int>, o: int, r: int, n: int)
    requires |stops| == |starts| && Disjoint(starts, stops) && 0 <= o < |starts| && 0 <= r < |starts|
    requires Owns(starts, stops, o, n) && r != o
    ensures !Owns(starts, stops, r, n)
  {
  }

  /** Every rank announces all the cells it packs. */
  predicate FullCounts(starts: seq<int>, stops: seq<int>, counts: seq<int>)
    requires |stops| == |starts| && |counts| == |starts|
  {
    forall r :: 0 <= r < |starts| ==> counts[r] == stops[r] - starts[r]
  }

  /** A round whose sender did not update cell `n` leaves cell `n` alone on every rank. */
  lemma RoundsSkip(grids: seq<seq<WindCell>>, nCells: nat, starts: seq<int>, stops: seq<int>,
                   counts: seq<int>, k: nat, q: int, n: int)
    requires Uniform(grids, nCells) && Plan(|grids|, nCells, starts, stops, counts) && 0 < k <= |grids|
    requires 0 <= q < |grids| && 0 <= n < nCells && !Owns(starts, stops, k - 1, n)
    ensures Rounds(grids, nCells, starts, stops, counts, k)[q][n]
      == Rounds(grids, nCells, starts, stops, counts, k - 1)[q][n]
  {
  }

  /** A cell no rank among the first `k` updated is where it was, on every rank. */
  lemma {:induction false} RoundsUnowned(grids: seq<seq<WindCell>>, nCells: nat, starts: seq<int>, stops: seq<int>,
                                         counts: seq<int>, k: nat, q: int, n: int)
    requires Uniform(grids, nCells) && Plan(|grids|, nCells, starts, stops, counts) && k <= |grids|
    requires 0 <= q < |grids| && 0 <= n < nCells
    requires forall r :: 0 <= r < k ==> !Owns(starts, stops, r, n)
    ensures Rounds(grids, nCells, starts, stops, counts, k)[q][n] == grids[q][n]
    decreases k
  {
    if k > 0 {
      RoundsUnowned(grids, nCells, starts, stops, counts, k - 1, q, n);
      RoundsSkip(grids, nCells, starts, stops, counts, k, q, n);
    }
  }

  /**
   * The round of the owner `o` of cell `n`, when no earlier rank updated
   * it: the owner keeps its cell and every other rank takes the owner's copy.
   */
  lemma RoundsOwnerTurn(grids: seq<seq<WindCell>>, nCells: nat, starts: seq<int>, stops: seq<int>,
                        counts: seq<int>, o: int, q: int, n: int)
    requires Uniform(grids, nCells) && Plan(|grids|, nCells, starts, stops, counts) && 0 <= o < |grids|
    requires Disjoint(starts, stops) && FullCounts(starts, stops, counts)
    requires Owns(starts, stops, o, n) && 0 <= q < |grids| && 0 <= n < nCells
    ensures Rounds(grids, nCells, starts, stops, counts, o + 1)[q][n]
      == if q == o then grids[q][n] else Overwrite(grids[q][n], grids[o][n])
  {
    forall r | 0 <= r < o
      ensures !Owns(starts, stops, r, n)
    {
      OtherNotOwner(starts, stops, o, r, n);
    }
    RoundsUnowned(grids, nCells, starts, stops, counts, o, q, n);
    RoundsUnowned(grids, nCells, starts, stops, counts, o, o, n);
  }

  /**
   * With disjoint ranges and full counts, once the owner `o` of cell `n` has
   * had its round, the owner still holds its own cell and every other rank
   * holds the owner's copy over its own untransmitted fields.
   */
  lemma {:induction false} RoundsOwned(grids: seq<seq<WindCell>>, nCells: nat, starts: seq<int>, stops: seq<int>,
                                       counts: seq<int>, k: nat, o: int, q: int, n: int)
    requires Uniform(grids, nCells) && Plan(|grids|, nCells, starts, stops, counts) && k <= |grids|
    requires Disjoint(starts, stops) && FullCounts(starts, stops, counts)
    requires 0 <= o < k && Owns(starts, stops, o, n) && 0 <= q < |grids| && 0 <= n < nCells
    ensures Rounds(grids, nCells, starts, stops, counts, k)[q][n]
      == if q == o then grids[q][n] else Overwrite(grids[q][n], grids[o][n])
    decreases k
  {
    if o == k - 1 {
      RoundsOwnerTurn(grids, nCells, starts, stops, counts, o, q, n);
    } else {
      OtherNotOwner(starts, stops, o, k - 1, n);
      RoundsOwned(grids, nCells, starts, stops, counts, k - 1, o, q, n);
      RoundsSkip(grids, nCells, starts, stops, counts, k, q, n);
    }
  }

  /** The transmitted fields of a cell, with the untransmitted ones cleared. */
  function Transmitted(c: WindCell): WindCell {
    c.(untransmitted := [])
  }

  /**
   * After every rank's round, with disjoint ranges and full counts, all
   * ranks agree on the transmitted fields of each updated cell, which are
   * those of the rank that updated it; cells no rank updated are unchanged.
   */
  lemma BroadcastAgrees(grids: seq<seq<WindCell>>, nCells: nat, starts: seq<int>, stops: seq<int>,
                        counts: seq<int>, q: int, n: int)
    requires Uniform(grids, nCells) && Plan(|grids|, nCells, starts, stops, counts)
    requires Disjoint(starts, stops) && FullCounts(starts, stops, counts)
    requires 0 <= q < |grids| && 0 <= n < nCells
    ensures var after := Rounds(grids, nCells, starts, stops, counts, |grids|);
      && after[q][n].untransmitted == grids[q][n].untransmitted
      && (forall o :: 0 <= o < |grids| && Owns(starts, stops, o, n) ==> Transmitted(after[q][n]) == Transmitted(grids[o][n]))
      && ((forall o :: 0 <= o < |grids| ==> !Owns(starts, stops, o, n)) ==> after[q][n] == grids[q][n])
  {
    var after := Rounds(grids, nCells, starts, stops, counts, |grids|);
    if o :| 0 <= o < |grids| && Owns(starts, stops, o, n) {
      RoundsOwned(grids, nCells, starts, stops, counts, |grids|, o, q, n);
      forall o' | 0 <= o' < |grids| && Owns(starts, stops, o', n)
        ensures Transmitted(after[q][n]) == Transmitted(grids[o'][n])
      {
        OwnerUnique(starts, stops, o, o', n);
      }
    } else {
      RoundsUnowned(grids, nCells, starts, stops, counts, |grids|, q, n);
    }
  }

  /**
   * `broadcast_wind_grid` (lines 40-167) over every rank's copy of the grid,
   * `wmain[q]` being rank `q`'s. `allocOk` is whether `malloc` of line 83
   * succeeded: when it fails the source exits (lines 84-88), which here
   * returns `false` with nothing changed. Otherwise the ranks take their
   * rounds in order.
   */
  method BroadcastWindGrid(wmain: array<seq<WindCell>>, nCells: nat, starts: seq<int>, stops: seq<int>,
                           counts: seq<int>, nCellsMax: nat, sizes: PackSizes, allocOk: bool)
    returns (ok: bool)
    requires Uniform(wmain[..], nCells) && Plan(wmain.Length, nCells, starts, stops, counts)
    requires forall r :: 0 <= r < wmain.Length ==> stops[r] - starts[r] <= nCellsMax
    modifies wmain
    ensures ok == allocOk
    ensures ok ==> wmain[..] == Rounds(old(wmain[..]), nCells, starts, stops, counts, wmain.Length)
    ensures !ok ==> wmain[..] == old(wmain[..])
  {
    if !allocOk {
      return false;
    }
    var buf := new CommBuffer(CommBufferSize(nCellsMax, sizes), sizes);
    var current := 0;
    while current < wmain.Length
      invariant 0 <= current <= wmain.Length && buf.size == CommBufferSize(nCellsMax, sizes) && buf.sizes == sizes
      invariant wmain[..] == Rounds(old(wmain[..]), nCells, starts, stops, counts, current)
    {
      BroadcastRound(buf, wmain, nCells, current, starts[current], stops[current], counts[current], nCellsMax);
      current := current + 1;
    }
    ok := true;
  }

  /** Lines 92-160 for one value of `current_rank`. */
  method BroadcastRound(buf: CommBuffer, wmain: array<seq<WindCell>>, nCells: nat, current: int,
                        start: int, stop: int, count: int, nCellsMax: nat)
    requires Uniform(wmain[..], nCells) && 0 <= current < wmain.Length
    requires 0 <= start <= stop <= nCells && count <= stop - start && stop - start <= nCellsMax
    requires buf.size == CommBufferSize(nCellsMax, buf.sizes)
    modifies buf, wmain
    ensures wmain[..] == Round(old(wmain[..]), nCells, current, start, stop, count)
  {
    ghost var before := wmain[..];
    buf.Rewind();
    MessageFits(stop - start, nCellsMax, buf.sizes);
    PackRank(buf, wmain[current], start, stop, count);
    ghost var m := Message(count, start, before[current][start..stop]);
    MessageShape(count, start, before[current][start..stop], nCells);
    var q := 0;
    while q < wmain.Length
      invariant 0 <= q <= wmain.Length && buf.contents == m
      invariant |wmain[..]| == |before|
      invariant forall p :: 0 <= p < wmain.Length ==>
        wmain[p] == if p < q then Round(before, nCells, current, start, stop, count)[p] else before[p]
    {
      if q != current {
        buf.Rewind();
        assert wmain[q] == before[q];
        ReceiveRank(buf, wmain, q);
        RoundIsReceived(before, nCells, current, start, stop, count, q);
      }
      q := q + 1;
    }
    assert wmain[..] == Round(before, nCells, current, start, stop, count);
  }
}
