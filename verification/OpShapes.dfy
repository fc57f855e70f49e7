/**
 The validators of the backend's primitive operations: conditions on ownership, element type, rank and
 dimensions, with element counts that are multiplied in 64 bits after a division check. Each accepts
 exactly the tensors whose byte sizes are the true products of their dimensions.
 */
module OpShapes {
  import opened Bits
  import opened Common

  datatype DType = F32 | F16 | Other

  // A device tensor, apart from its data.
  datatype Shape = Shape(owned: bool, dtype: DType, rank: nat, d0: u64, d1: u64, d2: u64, bytes: u64)

  // ---- Machine arithmetic ----

  function Add64(a: nat, b: nat): u64 {
    (a + b) % (U64_MAX + 1)
  }

  function Mul64(a: nat, b: nat): u64 {
    (a * b) % (U64_MAX + 1)
  }

  lemma NoWrap(a: nat, b: nat)
    ensures a + b <= U64_MAX ==> Add64(a, b) == a + b
    ensures a * b <= U64_MAX ==> Mul64(a, b) == a * b
  {
  }

  /** The division check is exact. */
  lemma DivisionCheck(a: nat, b: nat, limit: nat)
    requires b > 0
    ensures a <= limit / b <==> a * b <= limit
  {
    Division(limit, b);
    var q := limit / b;
    if a <= q {
      assert b * a + b * (q - a) == b * q;
    } else {
      MulStep(b, q, a);
    }
  }

  predicate F32Elements(s: Shape, elements: nat) {
    elements <= U64_MAX / 4 && s.bytes == Mul64(elements, 4)
  }

  predicate F16Elements(s: Shape, elements: nat) {
    elements <= U64_MAX / 2 && s.bytes == Mul64(elements, 2)
  }

  lemma ElementsExact(s: Shape, elements: nat)
    ensures F32Elements(s, elements) <==> s.bytes == 4 * elements
    ensures F16Elements(s, elements) <==> s.bytes == 2 * elements
  {
  }

  /** A checked product and a byte comparison together say that the bytes are the true product. */
  lemma ProductExact(s: Shape, a: nat, b: nat)
    requires b > 0
    ensures a <= U64_MAX / b && F32Elements(s, Mul64(a, b)) <==> s.bytes == 4 * (a * b)
    ensures a <= U64_MAX / b && F16Elements(s, Mul64(a, b)) <==> s.bytes == 2 * (a * b)
    ensures a <= U64_MAX / b ==> Mul64(a, b) == a * b <= U64_MAX
  {
    DivisionCheck(a, b, U64_MAX);
    NoWrap(a, b);
    ElementsExact(s, a * b);
  }

  // backend_mul3
  function Mul3(a: u64, b: u64, c: u64): Option<u64> {
    if b == 0 || c == 0 || a > U64_MAX / b || Mul64(a, b) > U64_MAX / c then None
    else Some(Mul64(Mul64(a, b), c))
  }

  lemma Mul3Exact(a: u64, b: u64, c: u64)
    requires b > 0 && c > 0
    ensures Mul3(a, b, c) == if a * b * c <= U64_MAX then Some(a * b * c) else None
  {
    DivisionCheck(a, b, U64_MAX);
    NoWrap(a, b);
    if a * b <= U64_MAX {
      DivisionCheck(a * b, c, U64_MAX);
      NoWrap(a * b, c);
    } else {
      assert a * b * c == a * b + a * b * (c - 1);
    }
  }

  lemma RoutedExact(s: Shape, a: u64, b: u64, c: u64)
    requires b > 0 && c > 0
    ensures Mul3(a, b, c).Some? && F32Elements(s, Mul3(a, b, c).value) <==> s.bytes == 4 * (a * b * c)
  {
    hide Mul3;
    Mul3Exact(a, b, c);
    ElementsExact(s, a * b * c);
  }

  // ---- Matrix product ----

  predicate AllF32(shapes: seq<Shape>) {
    forall i | 0 <= i < |shapes| :: shapes[i].owned && shapes[i].dtype == F32
  }

  predicate Matrix(s: Shape, d0: u64, d1: u64) {
    s.rank == 2 && s.d0 == d0 && s.d1 == d1
  }

  predicate Vector(s: Shape, d0: u64) {
    s.rank == 1 && s.d0 == d0
  }

  datatype Product = Product(m: u64, k: u64, n: u64)

  function ValidateMatmul(input: Shape, weight: Shape, out: Shape): Option<Product> {
    if !AllF32([input, weight, out]) then None
    else if input.rank != 2 || weight.rank != 2 || out.rank != 2 then None
    else
      var m, k, n := input.d0, input.d1, weight.d1;
      if m == 0 || k == 0 || n == 0 || weight.d0 == 0 then None
      else if weight.d0 != k || out.d0 != m || out.d1 != n then None
      else if m > U64_MAX / k || k > U64_MAX / n || m > U64_MAX / n then None
      else if !F32Elements(input, Mul64(m, k)) || !F32Elements(weight, Mul64(k, n)) || !F32Elements(out, Mul64(m, n))
      then None
      else Some(Product(m, k, n))
  }

  ghost predicate ProductShaped(input: Shape, weight: Shape, out: Shape, p: Product) {
    && AllF32([input, weight, out]) && p.m > 0 && p.k > 0 && p.n > 0
    && Matrix(input, p.m, p.k) && Matrix(weight, p.k, p.n) && Matrix(out, p.m, p.n)
    && input.bytes == 4 * (p.m * p.k) && weight.bytes == 4 * (p.k * p.n) && out.bytes == 4 * (p.m * p.n)
  }

  /** The validator accepts exactly the shapes of a matrix product. */
  lemma MatmulExact(input: Shape, weight: Shape, out: Shape, p: Product)
    ensures ValidateMatmul(input, weight, out) == Some(p) <==> ProductShaped(input, weight, out, p)
  {
    hide F32Elements, Mul64, AllF32;
    if p.k > 0 && p.n > 0 {
      ProductExact(input, p.m, p.k);
      ProductExact(weight, p.k, p.n);
      ProductExact(out, p.m, p.n);
    }
  }

  // ---- Attention ----

  function ValidateAttention(query: Shape, keys: Shape, values: Shape, length: u64, position: u64,
                             scores: Shape, probabilities: Shape, out: Shape): Option<u64> {
    if !AllF32([query, keys, values, scores, probabilities, out]) then None
    else if length == 0 || query.rank != 1 || query.d0 == 0 then None
    else if position >= length then None
    else
      var head := query.d0;
      if length > U64_MAX / head then None
      else if !Matrix(keys, length, head) || !Matrix(values, length, head) then None
      else if !Vector(scores, length) || !Vector(probabilities, length) || !Vector(out, head) then None
      else if (
        || !F32Elements(query, head) || !F32Elements(keys, Mul64(length, head))
        || !F32Elements(values, Mul64(length, head)) || !F32Elements(scores, length)
        || !F32Elements(probabilities, length) || !F32Elements(out, head)
      ) then None
      else Some(head)
  }

  ghost predicate AttentionShaped(query: Shape, keys: Shape, values: Shape, length: u64, position: u64,
                                  scores: Shape, probabilities: Shape, out: Shape, head: u64) {
    && AllF32([query, keys, values, scores, probabilities, out]) && position < length && head > 0
    && Vector(query, head) && Matrix(keys, length, head) && Matrix(values, length, head)
    && Vector(scores, length) && Vector(probabilities, length) && Vector(out, head)
    && query.bytes == out.bytes == 4 * head && scores.bytes == probabilities.bytes == 4 * length
    && keys.bytes == values.bytes == 4 * (length * head)
  }

  /** The validator accepts exactly the shapes of an attention step at a position inside the sequence. */
  lemma AttentionExact(query: Shape, keys: Shape, values: Shape, length: u64, position: u64,
                       scores: Shape, probabilities: Shape, out: Shape, head: u64)
    ensures ValidateAttention(query, keys, values, length, position, scores, probabilities, out) == Some(head)
       <==> AttentionShaped(query, keys, values, length, position, scores, probabilities, out, head)
  {
    hide F32Elements, Mul64, AllF32;
    ElementsExact(query, head);
    ElementsExact(out, head);
    ElementsExact(scores, length);
    ElementsExact(probabilities, length);
    if head > 0 {
      ProductExact(keys, length, head);
      ProductExact(values, length, head);
    }
  }

  // ---- Dense and routed MLP ----

  datatype Routing = Dense | Routed(count: u64, id: u64)

  datatype MlpOptions = MlpOptions(batch: u64, hidden: u64, ffn: u64, silu: bool, routing: Routing)

  // The geometry of an MLP step and the first element of the chosen expert in each weight.
  datatype Mlp = Mlp(batch: u64, hidden: u64, ffn: u64, offset: u64)

  predicate Cube(s: Shape, d0: u64, d1: u64, d2: u64) {
    s.rank == 3 && s.d0 == d0 && s.d1 == d1 && s.d2 == d2
  }

  // The weights, when the products of the dimensions are known to fit; gives the expert's offset.
  function ValidateWeights(gate: Shape, up: Shape, down: Shape, o: MlpOptions): Option<u64>
  {
    match o.routing
    case Dense =>
      if !Matrix(gate, o.hidden, o.ffn) || !Matrix(up, o.hidden, o.ffn) || !Matrix(down, o.ffn, o.hidden) then None
      else if (
        || !F32Elements(gate, Mul64(o.hidden, o.ffn)) || !F32Elements(up, Mul64(o.hidden, o.ffn))
        || !F32Elements(down, Mul64(o.ffn, o.hidden))
      ) then None
      else Some(0)
    case Routed(count, id) =>
      var routedUp, routedDown := Mul3(count, o.hidden, o.ffn), Mul3(count, o.ffn, o.hidden);
      if routedUp.None? || routedDown.None? then None
      else if (
        || !Cube(gate, count, o.hidden, o.ffn) || !Cube(up, count, o.hidden, o.ffn)
        || !Cube(down, count, o.ffn, o.hidden)
      ) then None
      else if (
        || !F32Elements(gate, routedUp.value) || !F32Elements(up, routedUp.value)
        || !F32Elements(down, routedDown.value)
      ) then None
      else Some(Mul64(id, Mul64(o.hidden, o.ffn)))
  }

  function ValidateMlp(input: Shape, gate: Shape, up: Shape, down: Shape, o: MlpOptions, middle: Shape, out: Shape)
    : Option<Mlp>
  {
    if !AllF32([input, gate, up, down, middle, out]) then None
    else if o.batch == 0 || o.hidden == 0 || o.ffn == 0 then None
    else if !o.silu then None
    else if o.routing.Routed? && (o.routing.count == 0 || o.routing.id >= o.routing.count) then None
    else if (
      || o.batch > U64_MAX / o.hidden || o.batch > U64_MAX / o.ffn
      || o.hidden > U64_MAX / o.ffn || o.ffn > U64_MAX / o.hidden
    ) then None
    else if !Matrix(input, o.batch, o.hidden) || !Matrix(middle, o.batch, o.ffn) || !Matrix(out, o.batch, o.hidden)
    then None
    else
      var offset := ValidateWeights(gate, up, down, o);
      if offset.None? then None
      else if (
        || !F32Elements(input, Mul64(o.batch, o.hidden)) || !F32Elements(middle, Mul64(o.batch, o.ffn))
        || !F32Elements(out, Mul64(o.batch, o.hidden))
      ) then None
      else Some(Mlp(o.batch, o.hidden, o.ffn, offset.value))
  }

  ghost predicate WeightsShaped(gate: Shape, up: Shape, down: Shape, o: MlpOptions, offset: u64) {
    match o.routing
    case Dense =>
      && Matrix(gate, o.hidden, o.ffn) && Matrix(up, o.hidden, o.ffn) && Matrix(down, o.ffn, o.hidden)
      && gate.bytes == up.bytes == down.bytes == 4 * (o.hidden * o.ffn) && offset == 0
    case Routed(count, id) =>
      && Cube(gate, count, o.hidden, o.ffn) && Cube(up, count, o.hidden, o.ffn) && Cube(down, count, o.ffn, o.hidden)
      && gate.bytes == up.bytes == down.bytes == 4 * (count * o.hidden * o.ffn)
      && offset == id * (o.hidden * o.ffn)
  }

  ghost predicate MlpShaped(input: Shape, gate: Shape, up: Shape, down: Shape, o: MlpOptions, middle: Shape, out: Shape,
                            g: Mlp) {
    && AllF32([input, gate, up, down, middle, out]) && o.silu
    && g.batch == o.batch > 0 && g.hidden == o.hidden > 0 && g.ffn == o.ffn > 0
    && (o.routing.Routed? ==> o.routing.id < o.routing.count)
    && Matrix(input, o.batch, o.hidden) && Matrix(middle, o.batch, o.ffn) && Matrix(out, o.batch, o.hidden)
    && input.bytes == out.bytes == 4 * (o.batch * o.hidden) && middle.bytes == 4 * (o.batch * o.ffn)
    && WeightsShaped(gate, up, down, o, g.offset)
  }

  lemma Commutes3(a: nat, b: nat, c: nat)
    ensures a * b * c == a * c * b == a * (b * c)
  {
    assert a * b * c == a * (b * c);
    assert a * c * b == a * (c * b);
  }

  lemma ExpertFits(id: nat, count: nat, size: nat)
    requires id < count
    ensures id * size + size <= count * size
  {
    MulStep(size, id, count);
  }

  lemma RoutedWeights(gate: Shape, up: Shape, down: Shape, o: MlpOptions, offset: u64)
    requires o.routing.Routed? && o.hidden > 0 && o.ffn > 0 && o.routing.id < o.routing.count
    ensures ValidateWeights(gate, up, down, o) == Some(offset) <==> WeightsShaped(gate, up, down, o, offset)
    ensures WeightsShaped(gate, up, down, o, offset) ==> o.hidden * o.ffn <= U64_MAX
  {
    hide F32Elements, Mul3, Mul64;
    var count, id, size := o.routing.count, o.routing.id, o.hidden * o.ffn;
    RoutedExact(gate, count, o.hidden, o.ffn);
    RoutedExact(up, count, o.hidden, o.ffn);
    RoutedExact(down, count, o.ffn, o.hidden);
    Commutes3(count, o.hidden, o.ffn);
    ExpertFits(id, count, size);
    ExpertFits(0, count, size);
    Mul3Exact(count, o.hidden, o.ffn);
    NoWrap(o.hidden, o.ffn);
    NoWrap(id, size);
  }

  lemma DenseWeights(gate: Shape, up: Shape, down: Shape, o: MlpOptions, offset: u64)
    requires o.routing.Dense? && o.hidden > 0 && o.ffn > 0
    ensures o.hidden <= U64_MAX / o.ffn && o.ffn <= U64_MAX / o.hidden
            && ValidateWeights(gate, up, down, o) == Some(offset)
       <==> WeightsShaped(gate, up, down, o, offset)
  {
    hide F32Elements, Mul64;
    ProductExact(gate, o.hidden, o.ffn);
    ProductExact(up, o.hidden, o.ffn);
    ProductExact(down, o.ffn, o.hidden);
  }

  /** The validator accepts exactly the shapes of an MLP step, dense or for an expert that exists. */
  lemma MlpExact(input: Shape, gate: Shape, up: Shape, down: Shape, o: MlpOptions, middle: Shape, out: Shape, g: Mlp)
    ensures ValidateMlp(input, gate, up, down, o, middle, out) == Some(g)
       <==> MlpShaped(input, gate, up, down, o, middle, out, g)
  {
    hide F32Elements, Mul64, AllF32, ValidateWeights, WeightsShaped;
    if o.hidden > 0 && o.ffn > 0 {
      ProductExact(input, o.batch, o.hidden);
      ProductExact(out, o.batch, o.hidden);
      ProductExact(middle, o.batch, o.ffn);
      DivisionCheck(o.hidden, o.ffn, U64_MAX);
      DivisionCheck(o.ffn, o.hidden, U64_MAX);
      if o.routing.Dense? {
        DenseWeights(gate, up, down, o, g.offset);
      } else if o.routing.id < o.routing.count {
        RoutedWeights(gate, up, down, o, g.offset);
      }
    }
  }

  // ---- Embedding and RMSNorm ----

  predicate Elements(s: Shape, elements: nat) {
    (s.dtype == F32 && F32Elements(s, elements)) || (s.dtype == F16 && F16Elements(s, elements))
  }

  function Width(t: DType): nat {
    if t == F16 then 2 else 4
  }

  datatype Embedding = Embedding(hidden: u64, vocab: u64)

  // The shapes; the token identifiers are checked in a loop of their own.
  function EmbedGeometry(table: Shape, tokens: u64, out: Shape): Option<Embedding> {
    if tokens == 0 then None
    else if !table.owned || !out.owned then None
    else if (table.dtype != F32 && table.dtype != F16) || out.dtype != F32 then None
    else if table.rank != 2 then None
    else
      var hidden, vocab := table.d0, table.d1;
      if hidden == 0 || vocab == 0 || hidden > U64_MAX / vocab then None
      else if !Elements(table, Mul64(hidden, vocab)) then None
      else if tokens > U64_MAX / hidden || !Matrix(out, tokens, hidden) || !F32Elements(out, Mul64(tokens, hidden)) then None
      else Some(Embedding(hidden, vocab))
  }

  ghost predicate EmbedShaped(table: Shape, tokens: u64, out: Shape, g: Embedding) {
    && tokens > 0 && table.owned && out.owned && table.dtype != Other && out.dtype == F32
    && g.hidden > 0 && g.vocab > 0 && Matrix(table, g.hidden, g.vocab) && Matrix(out, tokens, g.hidden)
    && table.bytes == Width(table.dtype) * (g.hidden * g.vocab) && out.bytes == 4 * (tokens * g.hidden)
  }

  /** The shape checks accept exactly the shapes of an embedding lookup. */
  lemma EmbedExact(table: Shape, tokens: u64, out: Shape, g: Embedding)
    ensures EmbedGeometry(table, tokens, out) == Some(g) <==> EmbedShaped(table, tokens, out, g)
  {
    hide F32Elements, F16Elements, Mul64;
    if g.hidden > 0 && g.vocab > 0 {
      ProductExact(table, g.hidden, g.vocab);
      ProductExact(out, tokens, g.hidden);
    }
  }

  datatype Norm = Norm(rows: u64, hidden: u64)

  function ValidateRmsNorm(input: Shape, weight: Shape, epsilon: bool, out: Shape): Option<Norm> {
    if !input.owned || !weight.owned || !out.owned then None
    else if input.dtype != F32 || out.dtype != F32 || (weight.dtype != F32 && weight.dtype != F16) then None
    else if !epsilon then None
    else if input.rank != 1 && input.rank != 2 then None
    else
      var rows, hidden := if input.rank == 2 then input.d0 else 1, if input.rank == 2 then input.d1 else input.d0;
      if rows == 0 || hidden == 0 then None
      else if hidden > U64_MAX / rows then None
      else if !Vector(weight, hidden) then None
      else if out.rank != input.rank || out.d0 != input.d0 || (input.rank == 2 && out.d1 != input.d1) then None
      else if (
        || !F32Elements(input, Mul64(rows, hidden)) || !F32Elements(out, Mul64(rows, hidden))
        || !Elements(weight, hidden)
      ) then None
      else Some(Norm(rows, hidden))
  }

  ghost predicate NormShaped(input: Shape, weight: Shape, epsilon: bool, out: Shape, g: Norm) {
    && input.owned && weight.owned && out.owned && epsilon
    && input.dtype == F32 && out.dtype == F32 && weight.dtype != Other && g.rows > 0 && g.hidden > 0
    && (|| (Matrix(input, g.rows, g.hidden) && Matrix(out, g.rows, g.hidden))
        || (g.rows == 1 && Vector(input, g.hidden) && Vector(out, g.hidden)))
    && Vector(weight, g.hidden) && weight.bytes == Width(weight.dtype) * g.hidden
    && input.bytes == out.bytes == 4 * (g.rows * g.hidden)
  }

  /** The validator accepts exactly the shapes of a normalisation of one row or many. */
  lemma RmsNormExact(input: Shape, weight: Shape, epsilon: bool, out: Shape, g: Norm)
    ensures ValidateRmsNorm(input, weight, epsilon, out) == Some(g) <==> NormShaped(input, weight, epsilon, out, g)
  {
    hide F32Elements, F16Elements, Mul64;
    ElementsExact(weight, g.hidden);
    if g.hidden > 0 && g.rows > 0 {
      ProductExact(input, g.rows, g.hidden);
      ProductExact(out, g.rows, g.hidden);
      DivisionCheck(g.hidden, g.rows, U64_MAX);
      DivisionCheck(g.rows, g.hidden, U64_MAX);
    }
  }
}
