/**
 Scaled dot-product attention of one query on the CPU, over real numbers and with wrapping 64-bit
 indices: scores, a softmax shifted by the largest score, and a weighted sum of the visible values.
 */
module OpAttention {
  import opened Bits
  import opened Common
  import opened OpShapes
  import opened OpLoops

  datatype Attention = Attention(q: seq<real>, k: seq<real>, v: seq<real>, head: u64, length: u64, position: u64,
                                 causal: bool, scale: real, exp: real -> real)
  {
    predicate Sized() {
      |q| == head > 0 && |k| == |v| == length * head <= U64_MAX && position < length
    }

    // How many positions the query sees.
    function Visible(): nat {
      if causal then position + 1 else length
    }

    function Score(i: nat): real {
      Dot(q, 0, k, i * head, 1, head) * scale
    }

    // The largest of the first n scores.
    function Top(n: nat): real
      requires n > 0
    {
      if n == 1 then Score(0)
      else
        var top := Top(n - 1);
        if Score(n - 1) > top then Score(n - 1) else top
    }

    function Weight(i: nat): real
      requires Visible() > 0
    {
      exp(Score(i) - Top(Visible()))
    }

    function Total(n: nat): real
      requires Visible() > 0
    {
      if n == 0 then 0.0 else Total(n - 1) + Weight(n - 1)
    }

    function Share(i: nat): real
      requires Visible() > 0 && Total(Visible()) != 0.0
    {
      Weight(i) / Total(Visible())
    }

    // ---- What the three output tensors hold ----

    function Scores(n: nat): (s: seq<real>)
      ensures |s| == n
    {
      if n == 0 then [] else Scores(n - 1) + [if n - 1 < Visible() then Score(n - 1) else 0.0]
    }

    function Shares(n: nat): (s: seq<real>)
      requires Visible() > 0 && Total(Visible()) != 0.0
      ensures |s| == n
    {
      if n == 0 then [] else Shares(n - 1) + [if n - 1 < Visible() then Share(n - 1) else 0.0]
    }

    function Mixed(n: nat): (s: seq<real>)
      requires Visible() > 0 && Total(Visible()) != 0.0
      ensures |s| == n
    {
      if n == 0 then [] else Mixed(n - 1) + [Dot(Shares(Visible()), 0, v, n - 1, head, Visible())]
    }
  }

  // ---- Properties of the formula ----

  /** The shift is the largest of the scores: none is above it, and one attains it. */
  lemma {:induction false} TopIsLargest(a: Attention, n: nat)
    requires n > 0
    ensures (forall i: nat | i < n :: a.Score(i) <= a.Top(n)) && exists i: nat | i < n :: a.Score(i) == a.Top(n)
  {
    hide Attention.Score;
    if n == 1 {
      assert a.Score(0) == a.Top(1);
    } else {
      TopIsLargest(a, n - 1);
      var i: nat :| i < n - 1 && a.Score(i) == a.Top(n - 1);
      assert a.Top(n) == a.Score(i) || a.Top(n) == a.Score(n - 1);
    }
  }

  /** Each output is the sum of the visible values of its column, weighted by their shares. */
  lemma {:induction false} MixedAt(a: Attention, n: nat, d: nat)
    requires a.Visible() > 0 && a.Total(a.Visible()) != 0.0 && d < n
    ensures a.Mixed(n)[d] == WeightedSum(a, d, a.Visible())
  {
    hide Attention.Total, Attention.Shares, Attention.Share;
    if d < n - 1 {
      MixedAt(a, n - 1, d);
    } else {
      DotIsWeighted(a, d, a.Visible());
    }
  }

  // The sum of the shares of the first n positions times their values in column d.
  function WeightedSum(a: Attention, d: nat, n: nat): real
    requires a.Visible() > 0 && a.Total(a.Visible()) != 0.0
  {
    if n == 0 then 0.0 else WeightedSum(a, d, n - 1) + a.Share(n - 1) * At(a.v, (n - 1) * a.head + d)
  }

  lemma {:induction false} SharesAt(a: Attention, n: nat, i: nat)
    requires a.Visible() > 0 && a.Total(a.Visible()) != 0.0 && i < n
    ensures a.Shares(n)[i] == if i < a.Visible() then a.Share(i) else 0.0
  {
    hide Attention.Total, Attention.Share;
    if i == n - 1 {
    } else {
      SharesAt(a, n - 1, i);
    }
  }

  lemma {:induction false} DotIsWeighted(a: Attention, d: nat, n: nat)
    requires a.Visible() > 0 && a.Total(a.Visible()) != 0.0 && n <= a.Visible()
    ensures Dot(a.Shares(a.Visible()), 0, a.v, d, a.head, n) == WeightedSum(a, d, n)
  {
    hide Attention.Total, Attention.Shares, Attention.Share;
    if n == 0 {
    } else {
      DotIsWeighted(a, d, n - 1);
      SharesAt(a, a.Visible(), n - 1);
      assert d + (n - 1) * a.head == (n - 1) * a.head + d;
    }
  }

  function ShareSum(a: Attention, n: nat): real
    requires a.Visible() > 0 && a.Total(a.Visible()) != 0.0
  {
    if n == 0 then 0.0 else ShareSum(a, n - 1) + a.Share(n - 1)
  }

  lemma {:induction false} ShareSumIs(a: Attention, n: nat)
    requires a.Visible() > 0 && a.Total(a.Visible()) != 0.0
    ensures ShareSum(a, n) == a.Total(n) / a.Total(a.Visible())
  {
    hide Attention.Weight;
    if n == 0 {
    } else {
      ShareSumIs(a, n - 1);
    }
  }

  /** The shares of the visible positions sum to one. */
  lemma SharesSumToOne(a: Attention)
    requires a.Visible() > 0 && a.Total(a.Visible()) != 0.0
    ensures ShareSum(a, a.Visible()) == 1.0
  {
    ShareSumIs(a, a.Visible());
  }

  // Two inputs that differ only in what a causal query must not see.
  ghost predicate SamePast(a: Attention, b: Attention) {
    && a.Sized() && b.Sized() && a.causal
    && b == a.(k := b.k, v := b.v)
    && (a.position + 1) * a.head <= |a.k|
    && a.k[..(a.position + 1) * a.head] == b.k[..(a.position + 1) * a.head]
    && a.v[..(a.position + 1) * a.head] == b.v[..(a.position + 1) * a.head]
  }

  lemma {:induction false} DotPast(p: seq<real>, q: seq<real>, b: seq<real>, b': seq<real>, y: nat, width: nat, n: nat)
    requires p <= b && p <= b' && (n > 0 ==> y + (n - 1) * width < |p|)
    ensures Dot(q, 0, b, y, width, n) == Dot(q, 0, b', y, width, n)
  {
    if n == 0 {
    } else {
      if n > 1 { Next(n - 2, width); }
      DotPast(p, q, b, b', y, width, n - 1);
      var i := y + (n - 1) * width;
      assert p[i] == b[i] == b'[i];
    }
  }

  lemma PastScore(a: Attention, b: Attention, i: nat)
    requires SamePast(a, b) && i < a.Visible()
    ensures a.Score(i) == b.Score(i)
  {
    hide Dot;
    Inside(a.position + 1, a.head, i, a.head - 1);
    DotPast(a.k[..(a.position + 1) * a.head], a.q, a.k, b.k, i * a.head, 1, a.head);
  }

  lemma {:induction false} PastTop(a: Attention, b: Attention, n: nat)
    requires SamePast(a, b) && 0 < n <= a.Visible()
    ensures a.Top(n) == b.Top(n)
  {
    hide SamePast, Attention.Score, Attention.Visible;
    PastScore(a, b, n - 1);
    if n == 1 {
    } else {
      PastTop(a, b, n - 1);
    }
  }

  lemma PastWeight(a: Attention, b: Attention, i: nat)
    requires SamePast(a, b) && i < a.Visible()
    ensures a.Weight(i) == b.Weight(i)
  {
    hide Attention.Score, Attention.Top;
    PastScore(a, b, i);
    PastTop(a, b, a.Visible());
  }

  lemma {:induction false} PastTotal(a: Attention, b: Attention, n: nat)
    requires SamePast(a, b) && n <= a.Visible()
    ensures a.Total(n) == b.Total(n)
  {
    hide Attention.Weight;
    if n == 0 {
    } else {
      PastTotal(a, b, n - 1);
      PastWeight(a, b, n - 1);
    }
  }

  lemma {:induction false} PastShares(a: Attention, b: Attention, n: nat)
    requires SamePast(a, b) && n <= a.Visible() && a.Total(a.Visible()) != 0.0
    ensures b.Total(b.Visible()) != 0.0 && a.Shares(n) == b.Shares(n)
  {
    hide Attention.Weight, Attention.Total;
    PastTotal(a, b, a.Visible());
    if n == 0 {
    } else {
      PastShares(a, b, n - 1);
      PastWeight(a, b, n - 1);
    }
  }

  lemma PastReach(position: nat, head: nat, d: nat)
    requires d < head
    ensures d + position * head < (position + 1) * head
  {
    Next(position, head);
  }

  /** A causal query's result does not depend on keys or values after its position. */
  lemma {:induction false} CausalIgnoresFuture(a: Attention, b: Attention, n: nat)
    requires SamePast(a, b) && n <= a.head && a.Total(a.Visible()) != 0.0
    ensures b.Total(b.Visible()) != 0.0 && a.Mixed(n) == b.Mixed(n)
  {
    hide Attention.Weight, Attention.Total, Attention.Shares;
    PastShares(a, b, a.Visible());
    if n == 0 {
    } else {
      CausalIgnoresFuture(a, b, n - 1);
      PastReach(a.position, a.head, n - 1);
      DotPast(a.v[..(a.position + 1) * a.head], a.Shares(a.Visible()), a.v, b.v, n - 1, a.head, a.Visible());
    }
  }

  // ---- The loops ----

  method ScoreAt(a: Attention, i: u64) returns (score: real)
    requires a.Sized() && i < a.length
    ensures score == a.Score(i)
  {
    hide Add64, Mul64;
    score := 0.0;
    for d := 0 to a.head
      invariant score == Dot(a.q, 0, a.k, i * a.head, 1, d)
    {
      Index(a.length, a.head, i, d);
      score := score + a.q[d] * a.k[Add64(Mul64(i, a.head), d)];
    }
    score := score * a.scale;
  }

  ghost predicate Masked(s: seq<real>, from: nat, to: nat) {
    forall j | from <= j < to && j < |s| :: s[j] == 0.0
  }

  // Score every position; the ones the query must not see get zeros in both scratch tensors.
  method ScoreAll(a: Attention, scores: array<real>, shares: array<real>) returns (top: real)
    requires a.Sized() && scores.Length == shares.Length == a.length && scores != shares
    modifies scores, shares
    ensures scores[..] == a.Scores(a.length) && Masked(shares[..], a.Visible(), a.length)
    ensures top == a.Top(a.Visible())
  {
    hide Attention.Score;
    top := 0.0;
    for i := 0 to a.length
      invariant scores[..i] == a.Scores(i) && Masked(shares[..], a.Visible(), i)
      invariant i > 0 ==> top == a.Top(if i < a.Visible() then i else a.Visible())
    {
      if a.causal && i > a.position {
        scores[i], shares[i] := 0.0, 0.0;
      } else {
        var score := ScoreAt(a, i);
        scores[i] := score;
        if i == 0 || score > top {
          top := score;
        }
      }
      assert scores[..i + 1] == scores[..i] + [scores[i]];
    }
    assert scores[..] == scores[..a.length];
  }

  lemma {:induction false} ScoresAt(a: Attention, n: nat, i: nat)
    requires i < n && i < a.Visible()
    ensures a.Scores(n)[i] == a.Score(i)
  {
    hide Attention.Score;
    if i == n - 1 {
    } else {
      ScoresAt(a, n - 1, i);
    }
  }

  // The unnormalised weights.
  function Weights(a: Attention, n: nat): (s: seq<real>)
    requires a.Visible() > 0
    ensures |s| == n
  {
    if n == 0 then [] else Weights(a, n - 1) + [a.Weight(n - 1)]
  }

  method WeightAll(a: Attention, top: real, scores: seq<real>, shares: array<real>) returns (sum: real)
    requires a.Sized() && |scores| == shares.Length == a.length && scores == a.Scores(a.length)
    requires top == a.Top(a.Visible()) && Masked(shares[..], a.Visible(), a.length)
    modifies shares
    ensures shares[..a.Visible()] == Weights(a, a.Visible()) && Masked(shares[..], a.Visible(), a.length)
    ensures sum == a.Total(a.Visible())
  {
    hide Attention.Score, Attention.Top, Attention.Scores;
    sum := 0.0;
    for i := 0 to a.Visible()
      invariant shares[..i] == Weights(a, i) && Masked(shares[..], a.Visible(), a.length) && sum == a.Total(i)
    {
      ScoresAt(a, a.length, i);
      var e := a.exp(scores[i] - top);
      shares[i] := e;
      sum := sum + e;
      assert shares[..i + 1] == shares[..i] + [e];
    }
  }

  lemma {:induction false} WeightsAt(a: Attention, n: nat, i: nat)
    requires i < n && a.Visible() > 0
    ensures Weights(a, n)[i] == a.Weight(i)
  {
    hide Attention.Weight;
    if i == n - 1 {
    } else {
      WeightsAt(a, n - 1, i);
    }
  }

  method ShareAll(a: Attention, sum: real, shares: array<real>)
    requires a.Sized() && shares.Length == a.length && sum == a.Total(a.Visible()) != 0.0
    requires shares[..a.Visible()] == Weights(a, a.Visible()) && Masked(shares[..], a.Visible(), a.length)
    modifies shares
    ensures shares[..] == a.Shares(a.length)
  {
    hide Attention.Weight, Attention.Total, Weights;
    ghost var before := shares[..];
    for i := 0 to a.Visible()
      invariant shares[..i] == a.Shares(i) && shares[i..] == before[i..]
    {
      WeightsAt(a, a.Visible(), i);
      assert shares[i] == before[i] == Weights(a, a.Visible())[i];
      shares[i] := shares[i] / sum;
      assert shares[..i + 1] == shares[..i] + [shares[i]];
    }
    MaskedShares(a, shares[..], a.length);
    assert shares[..] == shares[..a.length];
  }

  lemma {:induction false} MaskedShares(a: Attention, s: seq<real>, n: nat)
    requires a.Visible() > 0 && a.Total(a.Visible()) != 0.0 && a.Visible() <= n <= |s|
    requires s[..a.Visible()] == a.Shares(a.Visible()) && Masked(s, a.Visible(), |s|)
    ensures s[..n] == a.Shares(n)
  {
    hide Attention.Weight, Attention.Total;
    if n == a.Visible() {
    } else {
      MaskedShares(a, s, n - 1);
      assert s[..n] == s[..n - 1] + [s[n - 1]];
    }
  }

  method MixAt(a: Attention, shares: seq<real>, d: u64) returns (value: real)
    requires a.Sized() && |shares| == a.length && d < a.head
    ensures value == Dot(shares, 0, a.v, d, a.head, a.Visible())
  {
    hide Add64, Mul64;
    value := 0.0;
    for i := 0 to a.Visible()
      invariant value == Dot(shares, 0, a.v, d, a.head, i)
    {
      Index(a.length, a.head, i, d);
      value := value + shares[i] * a.v[Add64(Mul64(i, a.head), d)];
    }
  }

  lemma {:induction false} SharesGrow(a: Attention, n: nat, m: nat)
    requires a.Visible() > 0 && a.Total(a.Visible()) != 0.0 && n <= m
    ensures a.Shares(n) <= a.Shares(m)
  {
    hide Attention.Weight, Attention.Total;
    if n == m {
    } else {
      SharesGrow(a, n, m - 1);
    }
  }

  method MixAll(a: Attention, shares: seq<real>, out: array<real>)
    requires a.Sized() && a.Total(a.Visible()) != 0.0 && shares == a.Shares(a.length) && out.Length == a.head
    modifies out
    ensures out[..] == a.Mixed(a.head)
  {
    hide Attention.Weight, Attention.Total, Attention.Shares, Dot;
    SharesGrow(a, a.Visible(), a.length);
    for d := 0 to a.head
      invariant out[..d] == a.Mixed(d)
    {
      out[d] := MixAt(a, shares, d);
      DotShared(a.Shares(a.Visible()), a.Shares(a.Visible()), shares, 0, a.v, d, a.head, a.Visible());
      assert out[..d + 1] == out[..d] + [out[d]];
    }
    assert out[..] == out[..a.head];
  }

  datatype Outcome = Refused | Degenerate(a: Attention) | Attended(a: Attention)

  lemma AttentionSizes(query: Tensor, keys: Tensor, values: Tensor, length: u64, position: u64, causal: bool,
                       scale: real, exp: real -> real, scores: Shape, shares: Shape, out: Shape, head: u64)
    requires Holds(query) && Holds(keys) && Holds(values)
    requires ValidateAttention(query.shape, keys.shape, values.shape, length, position, scores, shares, out) == Some(head)
    ensures Attention(query.data, keys.data, values.data, head, length, position, causal, scale, exp).Sized()
    ensures scores.bytes / 4 == shares.bytes / 4 == length && out.bytes / 4 == head
  {
    hide ValidateAttention;
    AttentionExact(query.shape, keys.shape, values.shape, length, position, scores, shares, out, head);
    var all := [query.shape, keys.shape, values.shape, scores, shares, out];
    assert all[0].dtype == F32 && all[1].dtype == F32 && all[2].dtype == F32;
    Length(query, head);
    Length(keys, length * head);
    Length(values, length * head);
    OutLength(scores, length);
    OutLength(shares, length);
    OutLength(out, head);
  }

  /** An accepted step fills the scores, the shares and the output, unless its weights do not sum to more than zero. */
  method AttentionOp(query: Tensor, keys: Tensor, values: Tensor, length: u64, position: u64, causal: bool,
                     scale: real, exp: real -> real, scoreShape: Shape, shareShape: Shape, outShape: Shape,
                     scores: array<real>, shares: array<real>, out: array<real>)
    returns (r: Outcome)
    requires Holds(query) && Holds(keys) && Holds(values)
    requires scores != shares && shares != out && scores != out
    requires scores.Length == scoreShape.bytes / 4 && shares.Length == shareShape.bytes / 4
    requires out.Length == outShape.bytes / 4
    modifies scores, shares, out
    ensures r.Refused? <==>
              || scale <= 0.0
              || ValidateAttention(query.shape, keys.shape, values.shape, length, position,
                                   scoreShape, shareShape, outShape).None?
    ensures !r.Attended? ==> out[..] == old(out[..])
    ensures r.Refused? ==> scores[..] == old(scores[..]) && shares[..] == old(shares[..])
    ensures !r.Refused? ==>
              && r.a == Attention(query.data, keys.data, values.data, r.a.head, length, position, causal, scale, exp)
              && r.a.Sized() && scores[..] == r.a.Scores(length)
              && (r.Attended? <==> r.a.Total(r.a.Visible()) > 0.0)
    ensures r.Attended? ==> shares[..] == r.a.Shares(length) && out[..] == r.a.Mixed(r.a.head)
  {
    hide ValidateAttention, Attention.Total, Attention.Shares, Attention.Mixed, Attention.Scores, Attention.Top, Weights;
    if scale <= 0.0 {
      return Refused;
    }
    var head := ValidateAttention(query.shape, keys.shape, values.shape, length, position, scoreShape, shareShape, outShape);
    if head.None? {
      return Refused;
    }
    AttentionSizes(query, keys, values, length, position, causal, scale, exp, scoreShape, shareShape, outShape, head.value);
    var a := Attention(query.data, keys.data, values.data, head.value, length, position, causal, scale, exp);
    var top := ScoreAll(a, scores, shares);
    var sum := WeightAll(a, top, scores[..], shares);
    if sum <= 0.0 {
      return Degenerate(a);
    }
    ShareAll(a, sum, shares);
    MixAll(a, shares[..], out);
    r := Attended(a);
  }
}
