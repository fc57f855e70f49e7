/**
 Embedding lookup and RMSNorm on the CPU, over real numbers and with wrapping 64-bit indices.
 */
module OpRows {
  import opened Bits
  import opened Common
  import opened OpShapes
  import opened OpLoops

  // Element i of a tensor: a half-precision element is addressed by its first byte.
  method Load(t: Tensor, i: u64) returns (value: real)
    requires i < |t.data| && |t.data| * Width(t.shape.dtype) <= U64_MAX
    ensures value == At(t.data, i)
  {
    if t.shape.dtype == F16 {
      NoWrap(i, 2);
      var address := Mul64(i, 2);
      value := t.data[address / 2];
    } else {
      value := t.data[i];
    }
  }

  lemma HeldBytes(t: Tensor, elements: nat)
    requires Holds(t) && t.shape.bytes == Width(t.shape.dtype) * elements
    ensures |t.data| == elements && |t.data| * Width(t.shape.dtype) <= U64_MAX
  {
    Length(t, elements);
  }

  // ---- Embedding ----

  type u32 = x: nat | x < 0x1_0000_0000

  method CheckTokens(tokens: seq<u32>, vocab: u64) returns (ok: bool)
    ensures ok <==> InVocabulary(tokens, vocab)
  {
    ok := true;
    for i := 0 to |tokens|
      invariant forall k | 0 <= k < i :: tokens[k] < vocab
    {
      if tokens[i] >= vocab {
        return false;
      }
    }
  }

  ghost predicate InVocabulary(tokens: seq<u32>, vocab: u64) {
    forall i | 0 <= i < |tokens| :: tokens[i] < vocab
  }

  function Token(tokens: seq<u32>, t: nat): u32 {
    if t < |tokens| then tokens[t] else 0
  }

  // Row t is the embedding of token t.
  function Looked(data: seq<real>, tokens: seq<u32>, hidden: nat): CellOf {
    (t: nat, e: nat) => At(data, Token(tokens, t) * hidden + e)
  }

  method LookUp(table: Tensor, tokens: seq<u32>, g: Embedding, t: u64, e: u64) returns (value: real)
    requires |table.data| == g.hidden * g.vocab && |table.data| * Width(table.shape.dtype) <= U64_MAX
    requires t < |tokens| && tokens[t] < g.vocab && e < g.hidden
    ensures value == Looked(table.data, tokens, g.hidden)(t, e)
  {
    hide Width, Add64, Mul64, Looked;
    var token, hidden := tokens[t], g.hidden;
    TableFits(|table.data|, table.shape.dtype);
    assert g.vocab * hidden == |table.data|;
    Index(g.vocab, hidden, token, e);
    LookedAt(table.data, tokens, hidden, t, e);
    value := Load(table, Add64(Mul64(token, hidden), e));
  }

  lemma LookedAt(data: seq<real>, tokens: seq<u32>, hidden: nat, t: nat, e: nat)
    requires t < |tokens|
    ensures Looked(data, tokens, hidden)(t, e) == At(data, tokens[t] * hidden + e)
  {
    assert Token(tokens, t) == tokens[t];
  }

  lemma TableFits(elements: nat, t: DType)
    requires elements * Width(t) <= U64_MAX
    ensures elements <= U64_MAX
  {
  }

  method EmbedRow(table: Tensor, tokens: seq<u32>, g: Embedding, t: u64, out: array<real>)
    requires |table.data| == g.hidden * g.vocab && |table.data| * Width(table.shape.dtype) <= U64_MAX
    requires t < |tokens| && tokens[t] < g.vocab
    requires out.Length == |tokens| * g.hidden <= U64_MAX
    requires Filled(Looked(table.data, tokens, g.hidden), g.hidden, t, 0) <= out[..]
    modifies out
    ensures Filled(Looked(table.data, tokens, g.hidden), g.hidden, t + 1, 0) <= out[..]
  {
    hide Filled, Looked;
    var hidden := g.hidden;
    for e := 0 to hidden
      invariant Filled(Looked(table.data, tokens, hidden), hidden, t, e) <= out[..]
    {
      var value := LookUp(table, tokens, g, t, e);
      Store(out, Looked(table.data, tokens, hidden), |tokens|, hidden, t, e, value);
    }
    FilledRow(Looked(table.data, tokens, hidden), hidden, t);
  }

  method EmbedFill(table: Tensor, tokens: seq<u32>, g: Embedding, out: array<real>)
    requires |table.data| == g.hidden * g.vocab && |table.data| * Width(table.shape.dtype) <= U64_MAX
    requires InVocabulary(tokens, g.vocab) && out.Length == |tokens| * g.hidden <= U64_MAX && |tokens| <= U64_MAX
    modifies out
    ensures out[..] == Table(Looked(table.data, tokens, g.hidden), |tokens|, g.hidden)
  {
    hide Filled, Looked;
    FilledNone(Looked(table.data, tokens, g.hidden), g.hidden);
    for t := 0 to |tokens|
      invariant Filled(Looked(table.data, tokens, g.hidden), g.hidden, t, 0) <= out[..]
    {
      EmbedRow(table, tokens, g, t, out);
    }
  }

  /** An accepted lookup fills the output with the rows of its tokens; a refused one leaves it alone. */
  method EmbedOp(table: Tensor, tokens: seq<u32>, shape: Shape, out: array<real>) returns (r: Option<Embedding>)
    requires Holds(table) && |tokens| <= U64_MAX && out.Length == shape.bytes / 4
    modifies out
    ensures r.Some? ==> EmbedGeometry(table.shape, |tokens|, shape) == r && InVocabulary(tokens, r.value.vocab)
    ensures r.None? ==>
              var g := EmbedGeometry(table.shape, |tokens|, shape);
              g.None? || !InVocabulary(tokens, g.value.vocab)
    ensures r.None? ==> out[..] == old(out[..])
    ensures r.Some? ==> out[..] == Table(Looked(table.data, tokens, r.value.hidden), |tokens|, r.value.hidden)
  {
    hide Filled, Looked, EmbedGeometry, InVocabulary;
    r := EmbedGeometry(table.shape, |tokens|, shape);
    if r.None? { return; }
    var g := r.value;
    var known := CheckTokens(tokens, g.vocab);
    if !known {
      return None;
    }
    EmbedExact(table.shape, |tokens|, shape, g);
    HeldBytes(table, g.hidden * g.vocab);
    OutLength(shape, |tokens| * g.hidden);
    EmbedFill(table, tokens, g, out);
  }

  // ---- RMSNorm ----

  function SquareSum(x: seq<real>, from: nat, n: nat): real {
    if n == 0 then 0.0 else SquareSum(x, from, n - 1) + At(x, from + (n - 1)) * At(x, from + (n - 1))
  }

  function Inverse(rms: real): real {
    if rms > 0.0 then 1.0 / rms else 0.0
  }

  // The factor by which a row is scaled.
  function Scale(x: seq<real>, row: nat, hidden: nat, epsilon: real, sqrt: real -> real): real
    requires hidden > 0
  {
    Inverse(sqrt(SquareSum(x, row * hidden, hidden) / (hidden as real) + epsilon))
  }

  function Normalised(x: seq<real>, w: seq<real>, hidden: nat, epsilon: real, sqrt: real -> real): CellOf
    requires hidden > 0
  {
    (row: nat, i: nat) => At(x, row * hidden + i) * Scale(x, row, hidden, epsilon, sqrt) * At(w, i)
  }

  method RowScale(x: seq<real>, g: Norm, row: u64, epsilon: real, sqrt: real -> real) returns (scale: real)
    requires g.hidden > 0 && row < g.rows && |x| == g.rows * g.hidden <= U64_MAX
    ensures scale == Scale(x, row, g.hidden, epsilon, sqrt)
  {
    hide Add64, Mul64;
    var offset := Mul64(row, g.hidden);
    var sum := 0.0;
    for i := 0 to g.hidden
      invariant sum == SquareSum(x, row * g.hidden, i)
    {
      Index(g.rows, g.hidden, row, i);
      sum := sum + x[Add64(offset, i)] * x[Add64(offset, i)];
    }
    scale := Inverse(sqrt(sum / (g.hidden as real) + epsilon));
  }

  method NormRow(x: seq<real>, w: Tensor, g: Norm, row: u64, epsilon: real, sqrt: real -> real, out: array<real>)
    requires g.hidden > 0 && row < g.rows && |x| == g.rows * g.hidden <= U64_MAX
    requires |w.data| == g.hidden && |w.data| * Width(w.shape.dtype) <= U64_MAX
    requires out.Length == g.rows * g.hidden
    requires Filled(Normalised(x, w.data, g.hidden, epsilon, sqrt), g.hidden, row, 0) <= out[..]
    modifies out
    ensures Filled(Normalised(x, w.data, g.hidden, epsilon, sqrt), g.hidden, row + 1, 0) <= out[..]
  {
    hide Filled, Scale, Add64, Mul64;
    var hidden := g.hidden;
    var scale := RowScale(x, g, row, epsilon, sqrt);
    for i := 0 to hidden
      invariant Filled(Normalised(x, w.data, hidden, epsilon, sqrt), hidden, row, i) <= out[..]
    {
      var weight := Load(w, i);
      Index(g.rows, hidden, row, i);
      var value := x[Add64(Mul64(row, hidden), i)] * scale * weight;
      Store(out, Normalised(x, w.data, hidden, epsilon, sqrt), g.rows, hidden, row, i, value);
    }
    FilledRow(Normalised(x, w.data, hidden, epsilon, sqrt), hidden, row);
  }

  method NormFill(x: seq<real>, w: Tensor, g: Norm, epsilon: real, sqrt: real -> real, out: array<real>)
    requires g.hidden > 0 && |x| == g.rows * g.hidden <= U64_MAX && out.Length == g.rows * g.hidden
    requires |w.data| == g.hidden && |w.data| * Width(w.shape.dtype) <= U64_MAX
    modifies out
    ensures out[..] == Table(Normalised(x, w.data, g.hidden, epsilon, sqrt), g.rows, g.hidden)
  {
    hide Filled, Normalised;
    ghost var cell := Normalised(x, w.data, g.hidden, epsilon, sqrt);
    FilledNone(cell, g.hidden);
    for row := 0 to g.rows
      invariant Filled(cell, g.hidden, row, 0) <= out[..]
    {
      NormRow(x, w, g, row, epsilon, sqrt, out);
    }
  }

  /** An accepted normalisation fills the output with the scaled rows; a refused one leaves it alone. */
  method RmsNormOp(input: Tensor, weight: Tensor, epsilon: real, sqrt: real -> real, shape: Shape, out: array<real>)
    returns (r: Option<Norm>)
    requires Holds(input) && Holds(weight) && out.Length == shape.bytes / 4
    modifies out
    ensures r == ValidateRmsNorm(input.shape, weight.shape, epsilon > 0.0, shape)
    ensures r.None? ==> out[..] == old(out[..])
    ensures r.Some? ==>
              && r.value.hidden > 0
              && out[..] == Table(Normalised(input.data, weight.data, r.value.hidden, epsilon, sqrt),
                                  r.value.rows, r.value.hidden)
  {
    hide Filled, Normalised, ValidateRmsNorm;
    r := ValidateRmsNorm(input.shape, weight.shape, epsilon > 0.0, shape);
    if r.None? { return; }
    var g := r.value;
    RmsNormExact(input.shape, weight.shape, epsilon > 0.0, shape, g);
    Length(input, g.rows * g.hidden);
    HeldBytes(weight, g.hidden);
    OutLength(shape, g.rows * g.hidden);
    NormFill(input.data, weight, g, epsilon, sqrt, out);
  }
}
