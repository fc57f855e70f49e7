/**
 What the cursor functions of src/core/json.c compute, as functions of the text and a position:
 the position after the construct, or a refusal. JsonReader proves its methods against these
 functions; JsonProof proves the functions against the grammar, in both directions.
 */
module JsonScan {
  import opened JsonGrammar

  // ---- Whitespace and digit runs ----

  function SpaceEnd(s: string, p: nat): (q: nat)
    requires p <= |s|
    ensures p <= q <= |s|
    ensures q == |s| || !IsSpace(s[q])
    decreases |s| - p
  {
    if p < |s| && IsSpace(s[p]) then SpaceEnd(s, p + 1) else p
  }

  function DigitsEnd(s: string, p: nat): (q: nat)
    requires p <= |s|
    ensures p <= q <= |s|
    ensures q == |s| || !IsDigit(s[q])
    decreases |s| - p
  {
    if p < |s| && IsDigit(s[p]) then DigitsEnd(s, p + 1) else p
  }

  // ---- Strings ----

  // The unit that the next character announces.
  function Announced(s: string, p: nat): Unit {
    if p < |s| && s[p] == '\\' then
      if p + 1 < |s| && s[p + 1] == 'u' then Unicode else Escape
    else Plain
  }

  // From just after the opening quote.
  function StringTail(s: string, p: nat): (r: Decoding)
    requires p <= |s|
    ensures r.Decoded? ==> p < r.pos <= |s|
    decreases |s| - p
  {
    if CharTo(s, p, '"').At? then Decoded("", p + 1) else
    var u := UnitTo(Announced(s, p), s, p);
    if u.Undecodable? then Undecodable else Prepend(u.text, StringTail(s, u.pos))
  }

  function StringEnd(s: string, p: nat): (r: Decoding)
    requires p <= |s|
    ensures r.Decoded? ==> p < r.pos <= |s|
  {
    var q := SpaceEnd(s, p);
    if CharTo(s, q, '"').At? then StringTail(s, q + 1) else Undecodable
  }

  // ---- Numbers ----

  // A digit run that must not be empty.
  function RunEnd(s: string, p: nat): (r: Scan)
    requires p <= |s|
    ensures r.At? ==> p < r.pos <= |s|
  {
    if p < |s| && IsDigit(s[p]) then At(DigitsEnd(s, p)) else Nowhere
  }

  function WholeEnd(s: string, p: nat): (r: Scan)
    requires p <= |s|
    ensures r.At? ==> p < r.pos <= |s|
  {
    if p < |s| && s[p] == '0' then At(p + 1) else RunEnd(s, p)
  }

  function FractionEnd(s: string, p: nat): (r: Scan)
    requires p <= |s|
    ensures r.At? ==> p <= r.pos <= |s|
  {
    if p < |s| && s[p] == '.' then RunEnd(s, p + 1) else At(p)
  }

  function ExponentEnd(s: string, p: nat): (r: Scan)
    requires p <= |s|
    ensures r.At? ==> p <= r.pos <= |s|
  {
    if p == |s| || !IsExponentMark(s[p]) then At(p)
    else RunEnd(s, if p + 1 < |s| && IsSign(s[p + 1]) then p + 2 else p + 1)
  }

  function NumberEnd(s: string, p: nat): (r: Scan)
    requires p <= |s|
    ensures r.At? ==> p < r.pos <= |s|
  {
    var q := SpaceEnd(s, p);
    var w :- WholeEnd(s, if q < |s| && s[q] == '-' then q + 1 else q);
    var f :- FractionEnd(s, w);
    ExponentEnd(s, f)
  }

  // ---- Values ----

  // Everything that is not a container.
  function ScalarEnd(s: string, p: nat, infinity: bool): (r: Scan)
    requires p < |s| && SpaceEnd(s, p) == p
    ensures r.At? ==> p < r.pos <= |s|
  {
    if s[p] == '"' then PositionOf(StringTail(s, p + 1))
    else if s[p] == 't' then WordTo(s, p, "true")
    else if s[p] == 'f' then WordTo(s, p, "false")
    else if s[p] == 'n' then WordTo(s, p, "null")
    else if s[p] == 'I' && infinity then WordTo(s, p, "Infinity")
    else NumberEnd(s, p)
  }

  // d is the number of containers already open.
  function ValueEnd(s: string, p: nat, d: nat, infinity: bool): (r: Scan)
    requires p <= |s|
    ensures r.At? ==> p < r.pos <= |s|
    decreases |s| - p, 0
  {
    var q := SpaceEnd(s, p);
    if q == |s| then Nowhere
    else if s[q] == '{' || s[q] == '[' then
      if d >= DEPTH_CAP then Nowhere
      else ItemsEnd(s, q + 1, true, if s[q] == '[' then Arrays else Objects, d + 1, infinity)
    else ScalarEnd(s, q, infinity)
  }

  // Where the next item of a collection starts: the collection may instead be closed, in which
  // case the answer says whether a separator was left dangling.
  datatype Item = BadItem | Closed(end: nat, dangling: bool) | Next(pos: nat)

  function NextItem(s: string, p: nat, first: bool, closing: char): (item: Item)
    requires p <= |s|
    ensures item.Closed? ==> p < item.end <= |s|
    ensures item.Next? ==> p <= item.pos < |s| && (!first ==> p < item.pos)
  {
    var q := SpaceEnd(s, p);
    if q == |s| then BadItem
    else if s[q] == closing then Closed(q + 1, false)
    else if first then Next(q)
    else if s[q] != ',' then BadItem
    else
      var r := SpaceEnd(s, q + 1);
      if r == |s| then BadItem
      else if s[r] == closing then Closed(r + 1, true)
      else Next(r)
  }

  // A member name that decodes to fewer than cap characters, and its colon.
  function NameEnd(s: string, p: nat, cap: nat): (r: Scan)
    requires p <= |s|
    ensures r.At? ==> p <= r.pos <= |s|
  {
    var k := StringEnd(s, p);
    if k.Undecodable? || |k.text| >= cap then Nowhere else
    CharTo(s, SpaceEnd(s, k.pos), ':')
  }

  // A member name and its colon, or nothing in front of an array element.
  function LeadEnd(s: string, p: nat, shape: Shape): (r: Scan)
    requires p <= |s|
    ensures r.At? ==> p <= r.pos <= |s|
  {
    if shape.Arrays? then At(p) else NameEnd(s, p, KEY_CAP)
  }

  // From after the opening mark (first) or after an item's value.
  function ItemsEnd(s: string, p: nat, first: bool, shape: Shape, d: nat, infinity: bool): (r: Scan)
    requires p <= |s|
    ensures r.At? ==> p < r.pos <= |s|
    decreases |s| - p, 1
  {
    match NextItem(s, p, first, Closing(shape))
    case BadItem => Nowhere
    case Closed(end, dangling) => if dangling then Nowhere else At(end)
    case Next(q) =>
      var n :- LeadEnd(s, q, shape);
      var v :- ValueEnd(s, n, d, infinity);
      ItemsEnd(s, v, false, shape, d, infinity)
  }

  // A value at depth 0, then only whitespace.
  predicate Accepts(s: string, infinity: bool) {
    var v := ValueEnd(s, 0, 0, infinity);
    v.At? && SpaceEnd(s, v.pos) == |s|
  }
}
