/**
 The concrete syntax that the bounded JSON reader of src/core/json.c is meant to recognise.

 A derivation says how the characters of a text group into values. Following a derivation from
 position p of a text either ends at a position q, when the characters from p to q are grouped as
 the derivation says and obey the grammar, or gets nowhere. The rules follow RFC 8259: section 2
 (texts, whitespace), section 4 (objects), section 5 (arrays), section 6 (numbers) and section 7
 (strings). Where the reader has its own rule, the grammar carries that rule: whitespace is what
 isspace accepts, a member name decodes to fewer than KEY_CAP characters, a \u escape is not
 paired with another one, Infinity is a literal when the extension is on, and containers nest at
 most DEPTH_CAP deep.

 One char stands for one byte of the file.
 */
module JsonGrammar {

  const DEPTH_CAP: nat := 64
  const KEY_CAP: nat := 1024

  // The position after something, or nowhere.
  datatype Scan = Nowhere | At(pos: nat) {
    predicate IsFailure() {
      Nowhere?
    }
    function PropagateFailure(): Scan
      requires Nowhere?
    {
      Nowhere
    }
    function Extract(): nat
      requires At?
    {
      pos
    }
  }

  predicate IsSpace(c: char) {
    c == ' ' || '\t' <= c <= '\r'
  }

  predicate IsDigit(c: char) {
    '0' <= c <= '9'
  }

  predicate IsHex(c: char) {
    IsDigit(c) || 'a' <= c <= 'f' || 'A' <= c <= 'F'
  }

  // ---- Runs and single characters ----

  ghost function SpacesTo(s: string, p: nat, n: nat): Scan
    decreases n
  {
    if n == 0 then At(p)
    else if p < |s| && IsSpace(s[p]) then SpacesTo(s, p + 1, n - 1)
    else Nowhere
  }

  ghost function DigitsTo(s: string, p: nat, n: nat): Scan
    decreases n
  {
    if n == 0 then At(p)
    else if p < |s| && IsDigit(s[p]) then DigitsTo(s, p + 1, n - 1)
    else Nowhere
  }

  function CharTo(s: string, p: nat, c: char): Scan {
    if p < |s| && s[p] == c then At(p + 1) else Nowhere
  }

  function WordTo(s: string, p: nat, word: string): Scan {
    if p + |word| <= |s| && s[p..p + |word|] == word then At(p + |word|) else Nowhere
  }

  // ---- Strings (section 7) ----

  datatype Unit = Plain | Escape | Unicode
  datatype Units = NoUnits | Units(first: Unit, rest: Units)

  predicate IsEscape(c: char) {
    c == '"' || c == '\\' || c == '/' || c == 'b' || c == 'f' || c == 'n' || c == 'r' || c == 't'
  }

  function Unescape(c: char): char {
    match c
    case 'b' => 8 as char
    case 'f' => 12 as char
    case 'n' => '\n'
    case 'r' => '\r'
    case 't' => '\t'
    case _ => c
  }

  predicate FourHex(s: string, p: nat) {
    p + 4 <= |s| && IsHex(s[p]) && IsHex(s[p + 1]) && IsHex(s[p + 2]) && IsHex(s[p + 3])
  }

  predicate IsPlain(c: char) {
    ' ' <= c && c != '"' && c != '\\'
  }

  // The decoded character and the position after it; the reader stores one '?' for every \u.
  datatype Decoding = Undecodable | Decoded(text: string, pos: nat)

  function UnitTo(u: Unit, s: string, p: nat): (r: Decoding)
    ensures r.Decoded? ==> p < r.pos <= |s|
  {
    if p >= |s| then Undecodable else
    match u
    case Plain => if IsPlain(s[p]) then Decoded([s[p]], p + 1) else Undecodable
    case Escape =>
      if s[p] == '\\' && p + 1 < |s| && IsEscape(s[p + 1]) then Decoded([Unescape(s[p + 1])], p + 2)
      else Undecodable
    case Unicode =>
      if s[p] == '\\' && p + 1 < |s| && s[p + 1] == 'u' && FourHex(s, p + 2) then Decoded("?", p + 6)
      else Undecodable
  }

  function Prepend(text: string, r: Decoding): Decoding {
    if r.Undecodable? then Undecodable else Decoded(text + r.text, r.pos)
  }

  // The units of a string and its closing quote.
  ghost function UnitsTo(us: Units, s: string, p: nat): Decoding {
    if us.NoUnits? then
      if CharTo(s, p, '"').At? then Decoded("", p + 1) else Undecodable
    else
      var u := UnitTo(us.first, s, p);
      if u.Undecodable? then Undecodable else Prepend(u.text, UnitsTo(us.rest, s, u.pos))
  }

  ghost function StringTo(us: Units, s: string, p: nat): Decoding {
    if CharTo(s, p, '"').At? then UnitsTo(us, s, p + 1) else Undecodable
  }

  // ---- Numbers (section 6); a digit count of 0 means the part is absent ----

  predicate IsSign(c: char) {
    c == '+' || c == '-'
  }

  predicate IsExponentMark(c: char) {
    c == 'e' || c == 'E'
  }

  datatype Number = Number(minus: bool, whole: nat, fraction: nat, signed: bool, exponent: nat)

  ghost function WholeTo(s: string, p: nat, n: nat): Scan {
    if n == 0 || (n > 1 && p < |s| && s[p] == '0') then Nowhere else DigitsTo(s, p, n)
  }

  ghost function FractionTo(s: string, p: nat, n: nat): Scan {
    if n == 0 then At(p) else
    var q :- CharTo(s, p, '.');
    DigitsTo(s, q, n)
  }

  ghost function ExponentTo(s: string, p: nat, signed: bool, n: nat): Scan {
    if n == 0 then At(p)
    else if p >= |s| || !IsExponentMark(s[p]) then Nowhere
    else if !signed then DigitsTo(s, p + 1, n)
    else if p + 1 >= |s| || !IsSign(s[p + 1]) then Nowhere
    else DigitsTo(s, p + 2, n)
  }

  ghost function NumberTo(n: Number, s: string, p: nat): Scan {
    var a :- if n.minus then CharTo(s, p, '-') else At(p);
    var b :- WholeTo(s, a, n.whole);
    var c :- FractionTo(s, b, n.fraction);
    ExponentTo(s, c, n.signed, n.exponent)
  }

  // ---- Values (sections 3 to 5) ----

  datatype Shape = Arrays | Objects

  datatype Value =
    | Literal(word: string)
    | Num(number: Number)
    | Str(units: Units)
    | Empty(shape: Shape, gap: nat)
    | Container(shape: Shape, items: Items)

  // The elements of an array, or the members of an object, with their separators and the closing
  // mark; before and after are the lengths of the whitespace around the value.
  datatype Items =
    | Last(lead: Lead, before: nat, value: Value, after: nat)
    | Items(lead: Lead, before: nat, value: Value, after: nat, rest: Items)

  // A member name with its colon; array elements have none.
  datatype Lead = NoName | Name(before: nat, units: Units, after: nat)

  function Opening(shape: Shape): char {
    if shape.Arrays? then '[' else '{'
  }

  function Closing(shape: Shape): char {
    if shape.Arrays? then ']' else '}'
  }

  ghost predicate IsLiteral(word: string, infinity: bool) {
    word == "true" || word == "false" || word == "null" || (infinity && word == "Infinity")
  }

  function PositionOf(r: Decoding): Scan {
    if r.Undecodable? then Nowhere else At(r.pos)
  }

  ghost function ValueTo(v: Value, s: string, p: nat, infinity: bool): Scan
    decreases v, 0
  {
    match v
    case Literal(word) => if IsLiteral(word, infinity) then WordTo(s, p, word) else Nowhere
    case Num(n) => NumberTo(n, s, p)
    case Str(us) => PositionOf(StringTo(us, s, p))
    case Empty(shape, n) =>
      var q :- CharTo(s, p, Opening(shape));
      var r :- SpacesTo(s, q, n);
      CharTo(s, r, Closing(shape))
    case Container(shape, items) =>
      var q :- CharTo(s, p, Opening(shape));
      ItemsTo(items, shape, s, q, infinity)
  }

  // ws value ws
  ghost function PaddedTo(before: nat, v: Value, after: nat, s: string, p: nat, infinity: bool): Scan
    decreases v, 1
  {
    var q :- SpacesTo(s, p, before);
    var r :- ValueTo(v, s, q, infinity);
    SpacesTo(s, r, after)
  }

  ghost function LeadTo(lead: Lead, shape: Shape, s: string, p: nat): Scan {
    match (lead, shape)
    case (NoName, Arrays) => At(p)
    case (Name(before, units, after), Objects) =>
      var q :- SpacesTo(s, p, before);
      var k := StringTo(units, s, q);
      if k.Undecodable? || |k.text| >= KEY_CAP then Nowhere else
      var r :- SpacesTo(s, k.pos, after);
      CharTo(s, r, ':')
    case _ => Nowhere
  }

  ghost function ItemsTo(items: Items, shape: Shape, s: string, p: nat, infinity: bool): Scan
    decreases items, 0
  {
    var n :- LeadTo(items.lead, shape, s, p);
    var q :- PaddedTo(items.before, items.value, items.after, s, n, infinity);
    if items.Last? then CharTo(s, q, Closing(shape)) else
    var r :- CharTo(s, q, ',');
    ItemsTo(items.rest, shape, s, r, infinity)
  }

  // How many containers enclose the innermost value, counting the value itself.
  ghost function Nesting(v: Value): nat {
    match v
    case Empty(_, _) => 1
    case Container(_, items) => 1 + ItemsNesting(items)
    case _ => 0
  }

  ghost function ItemsNesting(items: Items): nat {
    var here := Nesting(items.value);
    if items.Last? then here else Max(here, ItemsNesting(items.rest))
  }

  ghost function Max(a: nat, b: nat): nat {
    if a < b then b else a
  }

  // JSON-text = ws value ws
  datatype Text = Text(before: nat, value: Value, after: nat)

  ghost predicate Spells(t: Text, s: string, infinity: bool) {
    PaddedTo(t.before, t.value, t.after, s, 0, infinity) == At(|s|) && Nesting(t.value) <= DEPTH_CAP
  }

  ghost predicate IsText(s: string, infinity: bool) {
    exists t :: Spells(t, s, infinity)
  }
}
