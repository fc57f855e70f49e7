/**
 The CPU loops behind the primitive operations, over real numbers: every element index is computed with
 wrapping 64-bit arithmetic, and every accepted operation fills its whole output with the values that the
 textbook formula gives. Rounding, and the approximations of exp, sqrt and silu, are not modelled.
 */
module OpLoops {
  import opened Bits
  import opened Common
  import opened OpShapes

  // A tensor and its decoded elements.
  datatype Tensor = Tensor(shape: Shape, data: seq<real>)

  predicate Holds(t: Tensor) {
    |t.data| == t.shape.bytes / Width(t.shape.dtype)
  }

  lemma Length(t: Tensor, elements: nat)
    requires Holds(t) && t.shape.bytes == Width(t.shape.dtype) * elements
    ensures |t.data| == elements <= U64_MAX
  {
  }

  lemma OutLength(s: Shape, elements: nat)
    requires s.bytes == 4 * elements
    ensures s.bytes / 4 == elements <= U64_MAX
  {
  }

  function At(s: seq<real>, i: nat): real {
    if i < |s| then s[i] else 0.0
  }

  // ---- Row-major tables ----

  type CellOf = (nat, nat) -> real

  // The cells of all rows before row, and of that row before col.
  ghost function Filled(cell: CellOf, width: nat, row: nat, col: nat): (s: seq<real>)
    requires col <= width
    ensures |s| == row * width + col
    decreases row, col
  {
    if col > 0 then Filled(cell, width, row, col - 1) + [cell(row, col - 1)]
    else if row > 0 then Next(row - 1, width); Filled(cell, width, row - 1, width)
    else []
  }

  lemma Next(row: nat, width: nat)
    ensures (row + 1) * width == row * width + width
  {
  }

  ghost function Table(cell: CellOf, rows: nat, width: nat): (s: seq<real>)
    ensures |s| == rows * width
  {
    Filled(cell, width, rows, 0)
  }

  lemma Inside(rows: nat, width: nat, row: nat, col: nat)
    requires row < rows && col < width
    ensures row * width + col < row * width + width <= rows * width
  {
    MulStep(width, row, rows);
  }

  /** The row-major index of a cell inside a table that fits is computed without wrapping. */
  lemma Index(rows: nat, width: nat, row: nat, col: nat)
    requires row < rows && col < width && rows * width <= U64_MAX
    ensures Add64(Mul64(row, width), col) == row * width + col < rows * width
  {
    hide Add64, Mul64;
    Inside(rows, width, row, col);
    NoWrap(row, width);
    NoWrap(row * width, col);
  }

  lemma {:induction false} FilledGrows(cell: CellOf, width: nat, row: nat, col: nat, row': nat, col': nat)
    requires col <= width && col' <= width && (row < row' || (row == row' && col <= col'))
    ensures Filled(cell, width, row, col) <= Filled(cell, width, row', col')
    decreases row', col'
  {
    if row == row' && col == col' {
    } else if col' > 0 {
      FilledGrows(cell, width, row, col, row', col' - 1);
    } else {
      Next(row' - 1, width);
      FilledGrows(cell, width, row, col, row' - 1, width);
    }
  }

  /** The table holds each cell at its row-major index. */
  lemma TableAt(cell: CellOf, rows: nat, width: nat, row: nat, col: nat)
    requires row < rows && col < width
    ensures row * width + col < rows * width
    ensures Table(cell, rows, width)[row * width + col] == cell(row, col)
  {
    hide Filled;
    Inside(rows, width, row, col);
    FilledStep(cell, width, row, col);
    FilledGrows(cell, width, row, col + 1, rows, 0);
  }

  lemma FilledStep(cell: CellOf, width: nat, row: nat, col: nat)
    requires col < width
    ensures Filled(cell, width, row, col + 1) == Filled(cell, width, row, col) + [cell(row, col)]
  {
  }

  lemma FilledRow(cell: CellOf, width: nat, row: nat)
    ensures Filled(cell, width, row + 1, 0) == Filled(cell, width, row, width)
  {
  }

  // Store a cell; the index is computed as the loops compute it.
  method Store(out: array<real>, ghost cell: CellOf, ghost rows: nat, width: u64, row: u64, col: u64, value: real)
    requires row < rows && col < width && out.Length == rows * width <= U64_MAX
    requires Filled(cell, width, row, col) <= out[..] && value == cell(row, col)
    modifies out
    ensures Filled(cell, width, row, col + 1) <= out[..]
  {
    hide Filled, Add64, Mul64;
    Index(rows, width, row, col);
    FilledStep(cell, width, row, col);
    ghost var before := out[..];
    var index := Add64(Mul64(row, width), col);
    out[index] := value;
    assert out[..] == before[index := value];
  }

  // ---- Dot products ----

  // The sum of a[x + i] * b[y + i * width] for i below n.
  function Dot(a: seq<real>, x: nat, b: seq<real>, y: nat, width: nat, n: nat): real {
    if n == 0 then 0.0
    else Dot(a, x, b, y, width, n - 1) + At(a, x + (n - 1)) * At(b, y + (n - 1) * width)
  }

  // One row of a times one column of b, where b starts at base.
  method RowTimesColumn(a: seq<real>, row: u64, inner: u64, b: seq<real>, base: u64, width: u64, col: u64)
    returns (sum: real)
    requires row * inner + inner <= |a| <= U64_MAX && col < width && base + inner * width <= |b| <= U64_MAX
    ensures sum == Dot(a, row * inner, b, base + col, width, inner)
  {
    hide Add64, Mul64;
    sum := 0.0;
    for i := 0 to inner
      invariant sum == Dot(a, row * inner, b, base + col, width, i)
    {
      Next(row, inner);
      Index(row + 1, inner, row, i);
      Index(inner, width, i, col);
      sum := sum + a[Add64(Mul64(row, inner), i)] * b[base + Add64(Mul64(i, width), col)];
    }
  }

  // ---- Matrix product ----

  function Matmul(a: seq<real>, b: seq<real>, g: Product): CellOf {
    (row: nat, col: nat) => Dot(a, row * g.k, b, col, g.n, g.k)
  }

  method MatmulRow(a: seq<real>, b: seq<real>, g: Product, row: u64, out: array<real>)
    requires row < g.m && |a| == g.m * g.k <= U64_MAX && |b| == g.k * g.n <= U64_MAX
    requires out.Length == g.m * g.n <= U64_MAX && Filled(Matmul(a, b, g), g.n, row, 0) <= out[..]
    modifies out
    ensures Filled(Matmul(a, b, g), g.n, row + 1, 0) <= out[..]
  {
    hide Filled;
    MulStep(g.k, row, g.m);
    for col := 0 to g.n
      invariant Filled(Matmul(a, b, g), g.n, row, col) <= out[..]
    {
      var sum := RowTimesColumn(a, row, g.k, b, 0, g.n, col);
      Store(out, Matmul(a, b, g), g.m, g.n, row, col, sum);
    }
    FilledRow(Matmul(a, b, g), g.n, row);
  }

  method MatmulFill(a: seq<real>, b: seq<real>, g: Product, out: array<real>)
    requires |a| == g.m * g.k <= U64_MAX && |b| == g.k * g.n <= U64_MAX && out.Length == g.m * g.n <= U64_MAX
    modifies out
    ensures out[..] == Table(Matmul(a, b, g), g.m, g.n)
  {
    hide Filled;
    FilledNone(Matmul(a, b, g), g.n);
    for row := 0 to g.m
      invariant Filled(Matmul(a, b, g), g.n, row, 0) <= out[..]
    {
      MatmulRow(a, b, g, row, out);
    }
  }

  lemma FilledNone(cell: CellOf, width: nat)
    ensures Filled(cell, width, 0, 0) == []
  {
  }

  lemma MatmulLengths(input: Tensor, weight: Tensor, shape: Shape, g: Product)
    requires Holds(input) && Holds(weight)
    requires ValidateMatmul(input.shape, weight.shape, shape) == Some(g)
    ensures |input.data| == g.m * g.k <= U64_MAX && |weight.data| == g.k * g.n <= U64_MAX
    ensures shape.bytes / 4 == g.m * g.n <= U64_MAX
  {
    hide ValidateMatmul;
    MatmulExact(input.shape, weight.shape, shape, g);
    var all := [input.shape, weight.shape, shape];
    assert all[0].dtype == F32 && all[1].dtype == F32;
    Length(input, g.m * g.k);
    Length(weight, g.k * g.n);
    OutLength(shape, g.m * g.n);
  }

  /** An accepted product fills the output with the product; a refused one leaves it alone. */
  method MatmulOp(input: Tensor, weight: Tensor, shape: Shape, out: array<real>) returns (r: Option<Product>)
    requires Holds(input) && Holds(weight) && out.Length == shape.bytes / 4
    modifies out
    ensures r == ValidateMatmul(input.shape, weight.shape, shape)
    ensures r.None? ==> out[..] == old(out[..])
    ensures r.Some? ==> out[..] == Table(Matmul(input.data, weight.data, r.value), r.value.m, r.value.n)
  {
    hide Filled, ValidateMatmul;
    r := ValidateMatmul(input.shape, weight.shape, shape);
    if r.None? { return; }
    MatmulLengths(input, weight, shape, r.value);
    MatmulFill(input.data, weight.data, r.value, out);
  }

  // ---- MLP ----

  // The operands of an MLP step: the input, the three weights, the geometry and the activation.
  datatype MlpData = MlpData(x: seq<real>, gate: seq<real>, up: seq<real>, down: seq<real>, g: Mlp,
                             silu: real -> real)
  {
    predicate Sized() {
      && |x| == g.batch * g.hidden <= U64_MAX && g.batch * g.ffn <= U64_MAX
      && |gate| == |up| == |down| <= U64_MAX
      && g.offset + g.hidden * g.ffn <= |gate| && g.offset + g.ffn * g.hidden <= |down|
    }

    function Gated(row: nat, j: nat): real {
      silu(Dot(x, row * g.hidden, gate, g.offset + j, g.ffn, g.hidden))
      * Dot(x, row * g.hidden, up, g.offset + j, g.ffn, g.hidden)
    }

    function Middle(): CellOf {
      (row: nat, j: nat) => Gated(row, j)
    }

    ghost function MiddleTable(): seq<real> {
      Table(Middle(), g.batch, g.ffn)
    }

    ghost function Final(): CellOf {
      (row: nat, h: nat) => Dot(MiddleTable(), row * g.ffn, down, g.offset + h, g.hidden, g.ffn)
    }
  }

  method MiddleRow(d: MlpData, row: u64, middle: array<real>)
    requires d.Sized() && row < d.g.batch && middle.Length == d.g.batch * d.g.ffn
    requires Filled(d.Middle(), d.g.ffn, row, 0) <= middle[..]
    modifies middle
    ensures Filled(d.Middle(), d.g.ffn, row + 1, 0) <= middle[..]
  {
    hide Filled, Dot;
    var g := d.g;
    MulStep(g.hidden, row, g.batch);
    for j := 0 to g.ffn
      invariant Filled(d.Middle(), g.ffn, row, j) <= middle[..]
    {
      var gateSum := RowTimesColumn(d.x, row, g.hidden, d.gate, g.offset, g.ffn, j);
      var upSum := RowTimesColumn(d.x, row, g.hidden, d.up, g.offset, g.ffn, j);
      Store(middle, d.Middle(), g.batch, g.ffn, row, j, d.silu(gateSum) * upSum);
    }
    FilledRow(d.Middle(), g.ffn, row);
  }

  lemma {:induction false} DotShared(p: seq<real>, a: seq<real>, a': seq<real>, x: nat, b: seq<real>, y: nat, width: nat, n: nat)
    requires x + n <= |p| && p <= a && p <= a'
    ensures Dot(a, x, b, y, width, n) == Dot(a', x, b, y, width, n)
  {
    if n == 0 {
    } else {
      DotShared(p, a, a', x, b, y, width, n - 1);
      assert p[x + (n - 1)] == a[x + (n - 1)] == a'[x + (n - 1)];
    }
  }

  method FinalCell(d: MlpData, row: u64, h: u64, middle: seq<real>, ghost shared: seq<real>) returns (sum: real)
    requires d.Sized() && row < d.g.batch && h < d.g.hidden && |middle| == d.g.batch * d.g.ffn
    requires |shared| == row * d.g.ffn + d.g.ffn && shared <= middle && shared <= d.MiddleTable()
    ensures sum == d.Final()(row, h)
  {
    hide Filled, Dot, Table, MlpData.Middle;
    var g := d.g;
    sum := RowTimesColumn(middle, row, g.ffn, d.down, g.offset, g.hidden, h);
    DotShared(shared, middle, d.MiddleTable(), row * g.ffn, d.down, g.offset + h, g.hidden, g.ffn);
  }

  lemma FinalFits(d: MlpData)
    requires d.Sized()
    ensures d.g.batch * d.g.hidden <= U64_MAX
  {
  }

  method FinalRow(d: MlpData, row: u64, middle: seq<real>, ghost shared: seq<real>, out: array<real>)
    requires d.Sized() && row < d.g.batch && |middle| == d.g.batch * d.g.ffn
    requires |shared| == row * d.g.ffn + d.g.ffn && shared <= middle && shared <= d.MiddleTable()
    requires out.Length == d.g.batch * d.g.hidden && Filled(d.Final(), d.g.hidden, row, 0) <= out[..]
    modifies out
    ensures Filled(d.Final(), d.g.hidden, row + 1, 0) <= out[..]
  {
    hide Filled, Dot, Table, MlpData.MiddleTable, MlpData.Final, MlpData.Sized;
    var g := d.g;
    FinalFits(d);
    for h := 0 to g.hidden
      invariant Filled(d.Final(), g.hidden, row, h) <= out[..]
    {
      var sum := FinalCell(d, row, h, middle, shared);
      Store(out, d.Final(), g.batch, g.hidden, row, h, sum);
    }
    FilledRow(d.Final(), g.hidden, row);
  }

  method MlpRow(d: MlpData, row: u64, middle: array<real>, out: array<real>)
    requires d.Sized() && row < d.g.batch && middle != out
    requires middle.Length == d.g.batch * d.g.ffn && out.Length == d.g.batch * d.g.hidden
    requires Filled(d.Middle(), d.g.ffn, row, 0) <= middle[..] && Filled(d.Final(), d.g.hidden, row, 0) <= out[..]
    modifies middle, out
    ensures Filled(d.Middle(), d.g.ffn, row + 1, 0) <= middle[..] && Filled(d.Final(), d.g.hidden, row + 1, 0) <= out[..]
  {
    hide Filled, Dot, MlpData.Middle, MlpData.Final, MlpData.Sized;
    MiddleRow(d, row, middle);
    FilledGrows(d.Middle(), d.g.ffn, row + 1, 0, d.g.batch, 0);
    Next(row, d.g.ffn);
    FinalRow(d, row, middle[..], Filled(d.Middle(), d.g.ffn, row + 1, 0), out);
  }

  method MlpFill(d: MlpData, middle: array<real>, out: array<real>)
    requires d.Sized() && middle != out
    requires middle.Length == d.g.batch * d.g.ffn && out.Length == d.g.batch * d.g.hidden
    modifies middle, out
    ensures middle[..] == d.MiddleTable() && out[..] == Table(d.Final(), d.g.batch, d.g.hidden)
  {
    hide Filled, Dot, MlpData.Middle, MlpData.Final, MlpData.Sized;
    FilledNone(d.Middle(), d.g.ffn);
    FilledNone(d.Final(), d.g.hidden);
    for row := 0 to d.g.batch
      invariant Filled(d.Middle(), d.g.ffn, row, 0) <= middle[..] && Filled(d.Final(), d.g.hidden, row, 0) <= out[..]
    {
      MlpRow(d, row, middle, out);
    }
  }

  lemma WeightSizes(gate: Tensor, up: Tensor, down: Tensor, o: MlpOptions, offset: u64)
    requires Holds(gate) && Holds(up) && Holds(down) && WeightsShaped(gate.shape, up.shape, down.shape, o, offset)
    requires gate.shape.dtype == up.shape.dtype == down.shape.dtype == F32
    requires o.routing.Routed? ==> o.routing.id < o.routing.count
    ensures |gate.data| == |up.data| == |down.data| <= U64_MAX
    ensures offset + o.hidden * o.ffn <= |gate.data|
  {
    var elements;
    if o.routing.Routed? {
      Commutes3(o.routing.count, o.hidden, o.ffn);
      ExpertFits(o.routing.id, o.routing.count, o.hidden * o.ffn);
      elements := o.routing.count * o.hidden * o.ffn;
    } else {
      elements := o.hidden * o.ffn;
    }
    Length(gate, elements);
  }

  lemma MlpSizes(input: Tensor, gate: Tensor, up: Tensor, down: Tensor, o: MlpOptions, middle: Shape, out: Shape, g: Mlp)
    requires Holds(input) && Holds(gate) && Holds(up) && Holds(down)
    requires MlpShaped(input.shape, gate.shape, up.shape, down.shape, o, middle, out, g)
    ensures |input.data| == g.batch * g.hidden <= U64_MAX && g.batch * g.ffn <= U64_MAX
    ensures |gate.data| == |up.data| == |down.data| <= U64_MAX
    ensures g.offset + g.hidden * g.ffn <= |gate.data|
    ensures middle.bytes / 4 == g.batch * g.ffn && out.bytes / 4 == g.batch * g.hidden
  {
    hide WeightsShaped, Holds;
    var all := [input.shape, gate.shape, up.shape, down.shape, middle, out];
    assert all[0].dtype == F32 && all[1].dtype == F32 && all[2].dtype == F32 && all[3].dtype == F32;
    WeightSizes(gate, up, down, o, g.offset);
    Length(input, g.batch * g.hidden);
    OutLength(middle, g.batch * g.ffn);
    OutLength(out, g.batch * g.hidden);
  }

  /** An accepted MLP step, dense or routed, fills both its outputs and reads only its own expert. */
  method MlpOp(input: Tensor, gate: Tensor, up: Tensor, down: Tensor, o: MlpOptions, silu: real -> real,
               middleShape: Shape, outShape: Shape, middle: array<real>, out: array<real>)
    returns (r: Option<Mlp>)
    requires Holds(input) && Holds(gate) && Holds(up) && Holds(down) && middle != out
    requires middle.Length == middleShape.bytes / 4 && out.Length == outShape.bytes / 4
    modifies middle, out
    ensures r == ValidateMlp(input.shape, gate.shape, up.shape, down.shape, o, middleShape, outShape)
    ensures r.None? ==> middle[..] == old(middle[..]) && out[..] == old(out[..])
    ensures r.Some? ==>
              var d := MlpData(input.data, gate.data, up.data, down.data, r.value, silu);
              middle[..] == d.MiddleTable() && out[..] == Table(d.Final(), r.value.batch, r.value.hidden)
  {
    hide Filled, Dot, ValidateMlp, MlpShaped, MlpData.Middle, MlpData.Final, Table;
    r := ValidateMlp(input.shape, gate.shape, up.shape, down.shape, o, middleShape, outShape);
    if r.None? { return; }
    MlpExact(input.shape, gate.shape, up.shape, down.shape, o, middleShape, outShape, r.value);
    MlpSizes(input, gate, up, down, o, middleShape, outShape, r.value);
    MlpFill(MlpData(input.data, gate.data, up.data, down.data, r.value, silu), middle, out);
  }

  // ---- A routed step is the dense step of its expert ----

  // The same step with the chosen expert's weights alone.
  function Expert(d: MlpData): MlpData
    requires d.Sized()
  {
    var size := d.g.hidden * d.g.ffn;
    var from := d.g.offset;
    d.(gate := d.gate[from..from + size], up := d.up[from..from + size], down := d.down[from..from + size],
    g := d.g.(offset := 0))
  }

  lemma DotStep(a: seq<real>, x: nat, b: seq<real>, y: nat, width: nat, n: nat)
    requires n > 0
    ensures Dot(a, x, b, y, width, n)
         == Dot(a, x, b, y, width, n - 1) + At(a, x + (n - 1)) * At(b, y + (n - 1) * width)
  {
  }

  lemma AtSlice(b: seq<real>, from: nat, size: nat, i: nat)
    requires from + size <= |b| && i < size
    ensures At(b[from..from + size], i) == At(b, from + i)
  {
  }

  lemma {:induction false} DotSlice(a: seq<real>, x: nat, b: seq<real>, from: nat, size: nat, col: nat, width: nat, n: nat)
    requires from + size <= |b| && col < width && n * width <= size
    ensures Dot(a, x, b, from + col, width, n) == Dot(a, x, b[from..from + size], col, width, n)
  {
    if n == 0 {
    } else {
      hide Dot, At;
      Next(n - 1, width);
      DotSlice(a, x, b, from, size, col, width, n - 1);
      AtSlice(b, from, size, col + (n - 1) * width);
      DotStep(a, x, b, from + col, width, n);
      DotStep(a, x, b[from..from + size], col, width, n);
      assert from + col + (n - 1) * width == from + (col + (n - 1) * width);
    }
  }

  ghost predicate SameCells(one: CellOf, two: CellOf, rows: nat, width: nat) {
    forall r: nat, c: nat :: r < rows && c < width ==> one(r, c) == two(r, c)
  }

  lemma {:induction false} FilledSame(one: CellOf, two: CellOf, rows: nat, width: nat, row: nat, col: nat)
    requires SameCells(one, two, rows, width) && col <= width && (row < rows || (row == rows && col == 0))
    ensures Filled(one, width, row, col) == Filled(two, width, row, col)
    decreases row, col
  {
    hide SameCells;
    if col > 0 {
      FilledSame(one, two, rows, width, row, col - 1);
      SameAt(one, two, rows, width, row, col - 1);
    } else if row > 0 {
      FilledSame(one, two, rows, width, row - 1, width);
    }
  }

  lemma SameAt(one: CellOf, two: CellOf, rows: nat, width: nat, r: nat, c: nat)
    requires SameCells(one, two, rows, width) && r < rows && c < width
    ensures one(r, c) == two(r, c)
  {
  }

  lemma SameMiddle(d: MlpData)
    requires d.Sized()
    ensures d.MiddleTable() == Expert(d).MiddleTable()
  {
    hide Filled, Dot;
    var g, e := d.g, Expert(d);
    var one, two := d.Middle(), e.Middle();
    forall r: nat, c: nat | r < g.batch && c < g.ffn
      ensures one(r, c) == two(r, c)
    {
      DotSlice(d.x, r * g.hidden, d.gate, g.offset, g.hidden * g.ffn, c, g.ffn, g.hidden);
      DotSlice(d.x, r * g.hidden, d.up, g.offset, g.hidden * g.ffn, c, g.ffn, g.hidden);
    }
    FilledSame(one, two, g.batch, g.ffn, g.batch, 0);
  }

  /** A routed step computes what a dense step over its expert's weights computes. */
  lemma RoutedIsDense(d: MlpData)
    requires d.Sized()
    ensures Expert(d).MiddleTable() == d.MiddleTable()
    ensures Table(Expert(d).Final(), d.g.batch, d.g.hidden) == Table(d.Final(), d.g.batch, d.g.hidden)
  {
    hide Filled, Dot, MlpData.MiddleTable, MlpData.Middle;
    SameMiddle(d);
    var g, e := d.g, Expert(d);
    var one, two := d.Final(), e.Final();
    forall r: nat, c: nat | r < g.batch && c < g.hidden
      ensures one(r, c) == two(r, c)
    {
      DotSlice(d.MiddleTable(), r * g.ffn, d.down, g.offset, g.hidden * g.ffn, c, g.hidden, g.ffn);
    }
    FilledSame(one, two, g.batch, g.hidden, g.batch, 0);
  }
}
