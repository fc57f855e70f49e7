/**
 The scanner accepts exactly the grammar: every accepted text has a derivation (soundness), and
 every text with a derivation is accepted (completeness).
 */
module JsonProof {
  import opened JsonGrammar
  import opened JsonScan

  // ---- Runs ----

  lemma {:induction false} SpacesFrom(s: string, p: nat)
    requires p <= |s|
    ensures var q := SpaceEnd(s, p); SpacesTo(s, p, q - p) == At(q) && SpaceEnd(s, q) == q
    decreases |s| - p
  {
    if p == |s| || !IsSpace(s[p]) {
    } else {
      SpacesFrom(s, p + 1);
    }
  }

  lemma {:induction false} SpaceEndAt(s: string, p: nat, n: nat, q: nat)
    requires p <= |s| && SpacesTo(s, p, n) == At(q)
    requires q >= |s| || !IsSpace(s[q])
    ensures SpaceEnd(s, p) == q
    decreases n
  {
    if n == 0 {
    } else {
      SpaceEndAt(s, p + 1, n - 1, q);
    }
  }

  lemma {:induction false} RunLength(s: string, p: nat, n: nat)
    requires p <= |s| && DigitsTo(s, p, n).At?
    ensures DigitsTo(s, p, n).pos == p + n <= |s|
    decreases n
  {
    if n == 0 {
    } else {
      RunLength(s, p + 1, n - 1);
    }
  }

  lemma {:induction false} RunFrom(s: string, p: nat)
    requires p <= |s|
    ensures var q := DigitsEnd(s, p); DigitsTo(s, p, q - p) == At(q)
    decreases |s| - p
  {
    if p == |s| || !IsDigit(s[p]) {
    } else {
      RunFrom(s, p + 1);
    }
  }

  lemma {:induction false} RunEndAt(s: string, p: nat, n: nat, q: nat)
    requires p <= |s| && DigitsTo(s, p, n) == At(q)
    requires q >= |s| || !IsDigit(s[q])
    ensures DigitsEnd(s, p) == q && p + n == q <= |s|
    decreases n
  {
    if n == 0 {
    } else {
      RunEndAt(s, p + 1, n - 1, q);
    }
  }

  // ---- Strings ----

  lemma {:induction false} StringTailSound(s: string, p: nat) returns (us: Units)
    requires p <= |s| && StringTail(s, p).Decoded?
    ensures UnitsTo(us, s, p) == StringTail(s, p)
    decreases |s| - p
  {
    if CharTo(s, p, '"').At? {
      us := NoUnits;
    } else {
      var u := Announced(s, p);
      var rest := StringTailSound(s, UnitTo(u, s, p).pos);
      us := Units(u, rest);
    }
  }

  lemma {:induction false} StringTailComplete(s: string, p: nat, us: Units)
    requires p <= |s| && UnitsTo(us, s, p).Decoded?
    ensures StringTail(s, p) == UnitsTo(us, s, p)
    decreases us
  {
    if !us.Units? {
    } else {
      UnitAnnounced(s, p, us.first);
      StringTailComplete(s, UnitTo(us.first, s, p).pos, us.rest);
    }
  }

  lemma UnitAnnounced(s: string, p: nat, u: Unit)
    requires UnitTo(u, s, p).Decoded?
    ensures p < |s| && s[p] != '"' && Announced(s, p) == u
  {
  }

  // ---- Names ----

  lemma LeadSound(s: string, p: nat, shape: Shape) returns (lead: Lead)
    requires p <= |s| && LeadEnd(s, p, shape).At?
    ensures LeadTo(lead, shape, s, p) == LeadEnd(s, p, shape)
  {
    hide StringTail, UnitTo;
    if shape.Arrays? {
      lead := NoName;
    } else {
      var q := SpaceEnd(s, p);
      SpacesFrom(s, p);
      var us := StringTailSound(s, q + 1);
      var k := StringEnd(s, p).pos;
      SpacesFrom(s, k);
      lead := Name(q - p, us, SpaceEnd(s, k) - k);
    }
  }

  lemma LeadComplete(s: string, p: nat, lead: Lead, shape: Shape)
    requires p <= |s| && LeadTo(lead, shape, s, p).At?
    ensures LeadEnd(s, p, shape) == LeadTo(lead, shape, s, p)
  {
    if lead.Name? {
      var q := SpacesTo(s, p, lead.before).pos;
      SpaceEndAt(s, p, lead.before, q);
      StringTailComplete(s, q + 1, lead.units);
      var k := StringTail(s, q + 1).pos;
      SpaceEndAt(s, k, lead.after, SpacesTo(s, k, lead.after).pos);
    }
  }

  // ---- Numbers ----

  // A position whose character cannot extend a number.
  ghost predicate Stops(s: string, q: nat) {
    q >= |s| || !(IsDigit(s[q]) || s[q] == '.' || IsExponentMark(s[q]))
  }

  lemma WholeSound(s: string, p: nat, q: nat)
    requires p <= |s| && WholeEnd(s, p) == At(q)
    ensures WholeTo(s, p, q - p) == At(q)
  {
    if s[p] == '0' {
      assert DigitsTo(s, p, 1) == At(q);
    } else {
      RunFrom(s, p);
    }
  }

  lemma FractionSound(s: string, p: nat, q: nat) returns (n: nat)
    requires p <= |s| && FractionEnd(s, p) == At(q)
    ensures FractionTo(s, p, n) == At(q)
  {
    if p == q {
      n := 0;
    } else {
      RunFrom(s, p + 1);
      n := q - p - 1;
    }
  }

  lemma ExponentSound(s: string, p: nat, q: nat) returns (signed: bool, n: nat)
    requires p <= |s| && ExponentEnd(s, p) == At(q)
    ensures ExponentTo(s, p, signed, n) == At(q)
  {
    if p == q {
      signed, n := false, 0;
    } else {
      signed := p + 1 < |s| && IsSign(s[p + 1]);
      var a := if signed then p + 2 else p + 1;
      RunFrom(s, a);
      n := q - a;
    }
  }

  lemma NumberSound(s: string, p: nat) returns (n: Number)
    requires p < |s| && SpaceEnd(s, p) == p && NumberEnd(s, p).At?
    ensures NumberTo(n, s, p) == NumberEnd(s, p)
  {
    var minus := s[p] == '-';
    var a := if minus then p + 1 else p;
    var b := WholeEnd(s, a).pos;
    WholeSound(s, a, b);
    var c := FractionEnd(s, b).pos;
    var fraction := FractionSound(s, b, c);
    var signed, exponent := ExponentSound(s, c, ExponentEnd(s, c).pos);
    n := Number(minus, b - a, fraction, signed, exponent);
  }

  lemma ExponentComplete(s: string, p: nat, signed: bool, n: nat, q: nat)
    requires ExponentTo(s, p, signed, n) == At(q) && Stops(s, q) && p <= |s|
    ensures ExponentEnd(s, p) == At(q)
    ensures n > 0 ==> p < |s| && !IsDigit(s[p]) && s[p] != '.'
  {
    if n > 0 { RunEndAt(s, if signed then p + 2 else p + 1, n, q); }
  }

  lemma FractionComplete(s: string, p: nat, n: nat, q: nat)
    requires FractionTo(s, p, n) == At(q) && p <= |s|
    requires q >= |s| || (!IsDigit(s[q]) && s[q] != '.')
    ensures FractionEnd(s, p) == At(q)
    ensures n > 0 ==> p < |s| && s[p] == '.'
  {
    if n > 0 { RunEndAt(s, p + 1, n, q); }
  }

  lemma WholeComplete(s: string, p: nat, n: nat, q: nat)
    requires p <= |s| && WholeTo(s, p, n) == At(q)
    requires q >= |s| || !IsDigit(s[q])
    ensures p < |s| && IsDigit(s[p]) && WholeEnd(s, p) == At(q)
  {
    RunEndAt(s, p, n, q);
  }

  lemma NumberComplete(s: string, p: nat, n: Number, q: nat)
    requires NumberTo(n, s, p) == At(q) && Stops(s, q)
    ensures p < |s| && (IsDigit(s[p]) || s[p] == '-') && NumberEnd(s, p) == At(q)
  {
    var a := if n.minus then p + 1 else p;
    var b := WholeTo(s, a, n.whole).pos;
    RunLength(s, a, n.whole);
    var c := FractionTo(s, b, n.fraction).pos;
    if n.fraction > 0 { RunLength(s, b + 1, n.fraction); }
    ExponentComplete(s, c, n.signed, n.exponent, q);
    FractionComplete(s, b, n.fraction, c);
    WholeComplete(s, a, n.whole, b);
  }

  // ---- Scalars ----

  lemma ScalarSound(s: string, p: nat, infinity: bool) returns (v: Value)
    requires p < |s| && SpaceEnd(s, p) == p && ScalarEnd(s, p, infinity).At?
    ensures ValueTo(v, s, p, infinity) == ScalarEnd(s, p, infinity) && Nesting(v) == 0
  {
    if s[p] == '"' {
      var us := StringTailSound(s, p + 1);
      v := Str(us);
    } else if s[p] == 't' {
      v := Literal("true");
    } else if s[p] == 'f' {
      v := Literal("false");
    } else if s[p] == 'n' {
      v := Literal("null");
    } else if s[p] == 'I' && infinity {
      v := Literal("Infinity");
    } else {
      var n := NumberSound(s, p);
      v := Num(n);
    }
  }

  ghost predicate IsScalar(v: Value) {
    v.Literal? || v.Num? || v.Str?
  }

  lemma ScalarComplete(s: string, p: nat, v: Value, infinity: bool, q: nat)
    requires IsScalar(v) && ValueTo(v, s, p, infinity) == At(q) && Stops(s, q)
    ensures p < |s| && !IsSpace(s[p]) && s[p] != '{' && s[p] != '['
    ensures SpaceEnd(s, p) == p && ScalarEnd(s, p, infinity) == At(q)
  {
    hide NumberEnd, NumberTo, StringTail, UnitsTo;
    match v {
      case Literal(word) =>
        assert s[p] == s[p..p + |word|][0];
      case Num(n) =>
        NumberComplete(s, p, n, q);
      case Str(us) =>
        StringTailComplete(s, p + 1, us);
    }
  }

  // ---- Soundness of values ----

  // A value, or an item, is scanned from its first character as from the space before it.
  lemma FromSpace(s: string, p: nat, shape: Shape, d: nat, infinity: bool)
    requires p <= |s|
    ensures ValueEnd(s, SpaceEnd(s, p), d, infinity) == ValueEnd(s, p, d, infinity)
    ensures shape.Objects? ==> LeadEnd(s, SpaceEnd(s, p), shape) == LeadEnd(s, p, shape)
  {
    SpacesFrom(s, p);
  }

  lemma {:induction false} ValueSound(s: string, p: nat, d: nat, infinity: bool, e: nat)
    returns (v: Value)
    requires p <= |s| && d <= DEPTH_CAP && ValueEnd(s, p, d, infinity) == At(e)
    ensures ValueTo(v, s, SpaceEnd(s, p), infinity) == At(e)
    ensures d + Nesting(v) <= DEPTH_CAP
    decreases |s| - p, 0
  {
    var q := SpaceEnd(s, p);
    SpacesFrom(s, p);
    if s[q] == '{' || s[q] == '[' {
      v := ContainerSound(s, q, if s[q] == '[' then Arrays else Objects, d, infinity, e);
    } else {
      v := ScalarSound(s, q, infinity);
    }
  }

  lemma {:induction false} ContainerSound(s: string, p: nat, shape: Shape, d: nat, infinity: bool, e: nat)
    returns (v: Value)
    requires p < |s| && s[p] == Opening(shape)
    requires d < DEPTH_CAP && ItemsEnd(s, p + 1, true, shape, d + 1, infinity) == At(e)
    ensures ValueTo(v, s, p, infinity) == At(e)
    ensures d + Nesting(v) <= DEPTH_CAP
    decreases |s| - p - 1, 2
  {
    hide ItemsEnd, ValueEnd;
    var q := SpaceEnd(s, p + 1);
    SpacesFrom(s, p + 1);
    FirstItem(s, p + 1, shape, d + 1, infinity, e);
    if s[q] == Closing(shape) {
      v := Empty(shape, q - p - 1);
    } else {
      var items := ItemsSound(s, p + 1, shape, d + 1, infinity, e);
      v := Container(shape, items);
    }
  }

  // What a finished scan of items means at its start, ...
  lemma FirstItem(s: string, p: nat, shape: Shape, d: nat, infinity: bool, e: nat)
    requires p <= |s| && ItemsEnd(s, p, true, shape, d, infinity) == At(e)
    ensures var q := SpaceEnd(s, p);
            q < |s| &&
            if s[q] == Closing(shape) then e == q + 1
            else
              var n := LeadEnd(s, q, shape);
              n.At? && ValueEnd(s, n.pos, d, infinity).At? &&
              ItemsEnd(s, ValueEnd(s, n.pos, d, infinity).pos, false, shape, d, infinity) == At(e)
  {
  }

  // ... and after each value.
  lemma LaterItem(s: string, p: nat, shape: Shape, d: nat, infinity: bool, e: nat)
    requires p <= |s| && ItemsEnd(s, p, false, shape, d, infinity) == At(e)
    ensures var q := SpaceEnd(s, p);
            q < |s| &&
            if s[q] == Closing(shape) then e == q + 1
            else
              s[q] == ',' && SpaceEnd(s, q + 1) < |s| && s[SpaceEnd(s, q + 1)] != Closing(shape) &&
              ItemsEnd(s, q + 1, true, shape, d, infinity) == At(e)
  {
  }

  // The items that start after the space at p, when they run to e.
  lemma {:induction false} ItemsSound(s: string, p: nat, shape: Shape, d: nat, infinity: bool, e: nat)
    returns (items: Items)
    requires p <= |s| && d <= DEPTH_CAP && SpaceEnd(s, p) < |s| && s[SpaceEnd(s, p)] != Closing(shape)
    requires ItemsEnd(s, p, true, shape, d, infinity) == At(e)
    ensures ItemsTo(items, shape, s, p, infinity) == At(e)
    ensures d + ItemsNesting(items) <= DEPTH_CAP
    decreases |s| - p, 1
  {
    hide ItemsEnd, ValueEnd, LeadEnd, LeadTo, ValueTo;
    FirstItem(s, p, shape, d, infinity, e);
    var lead, n := LeadFromSpace(s, p, shape, d, infinity);
    var m := ValueEnd(s, n, d, infinity).pos;
    var v := ValueSound(s, n, d, infinity, m);
    var c := SpaceEnd(s, m);
    SpacesFrom(s, n);
    SpacesFrom(s, m);
    LaterItem(s, m, shape, d, infinity, e);
    if s[c] == Closing(shape) {
      items := Last(lead, SpaceEnd(s, n) - n, v, c - m);
    } else {
      var rest := ItemsSound(s, c + 1, shape, d, infinity, e);
      items := Items(lead, SpaceEnd(s, n) - n, v, c - m, rest);
    }
  }

  // An array element has no name, so its value may be scanned from the space before it.
  lemma LeadFromSpace(s: string, p: nat, shape: Shape, d: nat, infinity: bool)
    returns (lead: Lead, n: nat)
    requires p <= |s| && LeadEnd(s, SpaceEnd(s, p), shape).At?
    ensures LeadTo(lead, shape, s, p) == At(n) && n <= |s| && p <= n
    ensures ValueEnd(s, n, d, infinity) == ValueEnd(s, LeadEnd(s, SpaceEnd(s, p), shape).pos, d, infinity)
  {
    FromSpace(s, p, shape, d, infinity);
    lead := LeadSound(s, p, shape);
    n := LeadEnd(s, p, shape).pos;
  }

  // ---- Completeness of values ----

  // A text position that ends a value inside a container, or the text.
  lemma SpacesStop(s: string, p: nat, n: nat)
    requires SpacesTo(s, p, n).At? && Stops(s, SpacesTo(s, p, n).pos)
    ensures Stops(s, p)
  {
  }

  lemma {:induction false} ValueComplete(s: string, p: nat, v: Value, d: nat, infinity: bool, e: nat)
    requires p <= |s| && ValueTo(v, s, p, infinity) == At(e)
    requires d + Nesting(v) <= DEPTH_CAP && Stops(s, e)
    ensures p < |s| && SpaceEnd(s, p) == p && s[p] != ']' && s[p] != '}'
    ensures e <= |s| && ValueEnd(s, p, d, infinity) == At(e)
    decreases v, 0
  {
    hide ItemsEnd, ScalarEnd, NumberTo, StringTo, ItemsTo;
    match v {
      case Empty(shape, n) =>
        SpaceEndAt(s, p + 1, n, SpacesTo(s, p + 1, n).pos);
        NoItems(s, p + 1, shape, d + 1, infinity);
      case Container(shape, items) =>
        ItemsComplete(s, p + 1, items, shape, d + 1, infinity, e);
      case _ =>
        ScalarComplete(s, p, v, infinity, e);
        ScalarStart(s, p, infinity);
    }
  }

  lemma ScalarStart(s: string, p: nat, infinity: bool)
    requires p < |s| && SpaceEnd(s, p) == p && ScalarEnd(s, p, infinity).At?
    ensures s[p] != ']' && s[p] != '}'
  {
  }

  lemma NoItems(s: string, p: nat, shape: Shape, d: nat, infinity: bool)
    requires p <= |s| && SpaceEnd(s, p) < |s| && s[SpaceEnd(s, p)] == Closing(shape)
    ensures ItemsEnd(s, p, true, shape, d, infinity) == At(SpaceEnd(s, p) + 1)
  {
  }

  // How a scan of items continues from an item that is there.
  lemma ItemThere(s: string, p: nat, shape: Shape, d: nat, infinity: bool, n: nat, m: nat)
    requires p <= |s| && LeadEnd(s, p, shape) == At(n) && ValueEnd(s, n, d, infinity) == At(m)
    ensures var q := SpaceEnd(s, p);
            q < |s| && s[q] != Closing(shape) && s[q] != ',' &&
            ItemsEnd(s, p, true, shape, d, infinity) == ItemsEnd(s, m, false, shape, d, infinity)
  {
    FromSpace(s, p, shape, d, infinity);
  }

  // The scan after a value: a closing mark ends it, a separator starts the next item.
  lemma AfterValue(s: string, m: nat, shape: Shape, d: nat, infinity: bool)
    requires m <= |s| && SpaceEnd(s, m) < |s|
    ensures var c := SpaceEnd(s, m);
            s[c] == Closing(shape) ==> ItemsEnd(s, m, false, shape, d, infinity) == At(c + 1)
    ensures var c := SpaceEnd(s, m);
            s[c] == ',' && SpaceEnd(s, c + 1) < |s| && s[SpaceEnd(s, c + 1)] != Closing(shape) ==>
            ItemsEnd(s, m, false, shape, d, infinity) == ItemsEnd(s, c + 1, true, shape, d, infinity)
  {
  }

  lemma {:induction false} ItemsComplete(s: string, p: nat, items: Items, shape: Shape, d: nat,
                                         infinity: bool, e: nat)
    requires p <= |s| && ItemsTo(items, shape, s, p, infinity) == At(e)
    requires d + ItemsNesting(items) <= DEPTH_CAP
    ensures SpaceEnd(s, p) < |s| && s[SpaceEnd(s, p)] != Closing(shape)
    ensures e <= |s| && ItemsEnd(s, p, true, shape, d, infinity) == At(e)
    decreases items, 0
  {
    hide ItemsEnd, ValueEnd, LeadEnd, LeadTo, ValueTo;
    var n := LeadTo(items.lead, shape, s, p).pos;
    LeadComplete(s, p, items.lead, shape);
    var c := PaddedTo(items.before, items.value, items.after, s, n, infinity).pos;
    var m := PaddedComplete(s, n, items.before, items.value, items.after, d, infinity, c);
    ItemThere(s, p, shape, d, infinity, n, m);
    if !items.Items? {
    } else {
      ItemsComplete(s, c + 1, items.rest, shape, d, infinity, e);
    }
    AfterValue(s, m, shape, d, infinity);
  }

  lemma {:induction false} PaddedComplete(s: string, p: nat, before: nat, v: Value, after: nat, d: nat,
                                          infinity: bool, c: nat)
    returns (m: nat)
    requires p <= |s| && PaddedTo(before, v, after, s, p, infinity) == At(c)
    requires d + Nesting(v) <= DEPTH_CAP && Stops(s, c) && (c >= |s| || !IsSpace(s[c]))
    ensures m <= |s| && ValueEnd(s, p, d, infinity) == At(m) && SpaceEnd(s, m) == c
    decreases v, 1
  {
    hide ItemsEnd, ValueEnd, ValueTo;
    var q := SpacesTo(s, p, before).pos;
    m := ValueTo(v, s, q, infinity).pos;
    SpacesLength(s, p, before);
    SpacesStop(s, m, after);
    ValueComplete(s, q, v, d, infinity, m);
    SpaceEndAt(s, p, before, q);
    ValueFromSpace(s, p, d, infinity);
    SpaceEndAt(s, m, after, c);
  }

  lemma ValueFromSpace(s: string, p: nat, d: nat, infinity: bool)
    requires p <= |s|
    ensures ValueEnd(s, SpaceEnd(s, p), d, infinity) == ValueEnd(s, p, d, infinity)
  {
    SpacesFrom(s, p);
  }

  lemma {:induction false} SpacesLength(s: string, p: nat, n: nat)
    requires p <= |s| && SpacesTo(s, p, n).At?
    ensures SpacesTo(s, p, n).pos == p + n <= |s|
    decreases n
  {
    if n == 0 {
    } else {
      SpacesLength(s, p + 1, n - 1);
    }
  }

  // ---- The theorem ----

  /** The reader accepts a text exactly when the grammar derives it. */
  lemma AcceptsIffText(s: string, infinity: bool)
    ensures Accepts(s, infinity) <==> IsText(s, infinity)
  {
    hide ItemsEnd, ValueEnd, ValueTo;
    if Accepts(s, infinity) {
      var e := ValueEnd(s, 0, 0, infinity).pos;
      var v := ValueSound(s, 0, 0, infinity, e);
      SpacesFrom(s, 0);
      SpacesFrom(s, e);
      assert Spells(Text(SpaceEnd(s, 0), v, |s| - e), s, infinity);
    }
    if IsText(s, infinity) {
      var t :| Spells(t, s, infinity);
      var m := PaddedComplete(s, 0, t.before, t.value, t.after, 0, infinity, |s|);
    }
  }
}
