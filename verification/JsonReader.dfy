/**
 The bounded JSON reader of src/core/json.c: a cursor over a text, collection iterators over the
 cursor, and the mutually recursive skip functions. Every method is proved against JsonScan, and
 Recognise ties the whole reader to the grammar.
 */
module JsonReader {
  import opened Bits
  import opened JsonGrammar
  import opened JsonScan
  import JsonProof

  function DigitValue(c: char): nat {
    if IsDigit(c) then c as int - '0' as int else 0
  }

  // The number that the digits from p up to q spell.
  ghost function Decimal(s: string, p: nat, q: nat): nat
    requires p <= q <= |s|
    decreases q
  {
    if p == q then 0 else Decimal(s, p, q - 1) * 10 + DigitValue(s[q - 1])
  }

  lemma {:induction false} DecimalGrows(s: string, p: nat, m: nat, q: nat)
    requires p <= m <= q <= |s|
    ensures Decimal(s, p, m) <= Decimal(s, p, q)
    decreases q
  {
    if m == q {
    } else {
      DecimalGrows(s, p, m, q - 1);
    }
  }

  // Every decoded character took at least one character of the encoding, besides the quote.
  lemma {:induction false} DecodedIsShorter(s: string, p: nat)
    requires p <= |s| && StringTail(s, p).Decoded?
    ensures p + |StringTail(s, p).text| < StringTail(s, p).pos
    decreases |s| - p
  {
    if CharTo(s, p, '"').At? {
    } else {
      DecodedIsShorter(s, UnitTo(Announced(s, p), s, p).pos);
    }
  }

  class Json {
    const text: string
    const infinity: bool
    var cursor: nat
    var depth: nat

    ghost predicate Valid()
      reads this
    {
      cursor <= |text|
    }

    constructor (data: string, extension: bool)
      ensures text == data && infinity == extension
      ensures Valid() && cursor == 0 && depth == 0
    {
      text, infinity := data, extension;
      cursor, depth := 0, 0;
    }

    method Space()
      requires Valid()
      modifies this`cursor
      ensures Valid() && cursor == SpaceEnd(text, old(cursor))
    {
      while cursor < |text| && IsSpace(text[cursor])
        invariant Valid() && SpaceEnd(text, cursor) == SpaceEnd(text, old(cursor))
      {
        cursor := cursor + 1;
      }
    }

    method Digits()
      requires Valid()
      modifies this`cursor
      ensures Valid() && cursor == DigitsEnd(text, old(cursor))
    {
      while cursor < |text| && IsDigit(text[cursor])
        invariant Valid() && DigitsEnd(text, cursor) == DigitsEnd(text, old(cursor))
      {
        cursor := cursor + 1;
      }
    }

    // One character of a string body, decoded.
    method NextChar() returns (ok: bool, ch: char)
      requires cursor < |text| && text[cursor] != '"'
      modifies this`cursor
      ensures Valid()
      ensures var u := UnitTo(Announced(text, old(cursor)), text, old(cursor));
              ok == u.Decoded? && (ok ==> cursor == u.pos && u.text == [ch])
    {
      ok, ch := false, text[cursor];
      cursor := cursor + 1;
      if ch < ' ' { return; }
      if ch == '\\' {
        if cursor >= |text| { return; }
        var escaped := text[cursor];
        cursor := cursor + 1;
        if escaped == 'u' {
          var hex := cursor;
          while cursor < hex + 4
            invariant Valid() && hex <= cursor <= hex + 4
            invariant forall k | hex <= k < cursor :: IsHex(text[k])
          {
            if cursor >= |text| || !IsHex(text[cursor]) { return; }
            cursor := cursor + 1;
          }
          ch := '?';
        } else if IsEscape(escaped) {
          ch := Unescape(escaped);
        } else {
          return;
        }
      }
      ok := true;
    }

    // The string at the cursor, decoded into out when there is one.
    method String(out: array?<char>, cap: nat) returns (ok: bool)
      requires Valid() && (out != null ==> cap <= out.Length)
      modifies this`cursor, out
      ensures Valid()
      ensures var r := StringEnd(text, old(cursor));
              && ok == (r.Decoded? && (out == null || |r.text| < cap))
              && (r.Decoded? ==> cursor == r.pos)
              && (ok && out != null ==> out[..|r.text|] == r.text && out[|r.text|] == '\0')
    {
      hide StringTail;
      ok := false;
      Space();
      if cursor >= |text| || text[cursor] != '"' { return; }
      cursor := cursor + 1;
      ok := Body(out, cap);
    }

    // The characters of a string and its closing quote.
    method Body(out: array?<char>, cap: nat) returns (ok: bool)
      requires Valid() && (out != null ==> cap <= out.Length)
      modifies this`cursor, out
      ensures Valid()
      ensures var r := StringTail(text, old(cursor));
              && ok == (r.Decoded? && (out == null || |r.text| < cap))
              && (r.Decoded? ==> cursor == r.pos)
              && (ok && out != null ==> out[..|r.text|] == r.text && out[|r.text|] == '\0')
    {
      hide StringTail, UnitTo, Announced, Prepend;
      ghost var got := "";
      var length := 0;
      PrependNothing(StringTail(text, cursor));
      while cursor < |text| && text[cursor] != '"'
        invariant Valid() && length == |got|
        invariant Prepend(got, StringTail(text, cursor)) == StringTail(text, old(cursor))
        invariant out != null ==> forall i | 0 <= i < length && i + 1 < cap :: out[i] == got[i]
        decreases |text| - cursor
      {
        StringTailStep(text, cursor, got);
        var good, ch := NextChar();
        if !good { return false; }
        if out != null && length + 1 < cap { out[length] := ch; }
        length := length + 1;
        got := got + [ch];
      }
      StringTailStep(text, cursor, got);
      if cursor >= |text| { return false; }
      cursor := cursor + 1;
      if out != null && 0 < cap { out[if length < cap then length else cap - 1] := '\0'; }
      ok := out == null || length < cap;
    }

    method Literal(word: string) returns (ok: bool)
      requires Valid()
      modifies this`cursor
      ensures Valid()
      ensures var r := WordTo(text, SpaceEnd(text, old(cursor)), word);
              ok == r.At? && (ok ==> cursor == r.pos)
    {
      Space();
      ok := cursor + |word| <= |text| && text[cursor..cursor + |word|] == word;
      if ok { cursor := cursor + |word|; }
    }

    // A digit run that must not be empty.
    method Run() returns (ok: bool)
      requires Valid()
      modifies this`cursor
      ensures Valid()
      ensures var r := RunEnd(text, old(cursor)); ok == r.At? && (ok ==> cursor == r.pos)
    {
      ok := cursor < |text| && IsDigit(text[cursor]);
      if ok { Digits(); }
    }

    method Fraction() returns (ok: bool)
      requires Valid()
      modifies this`cursor
      ensures Valid()
      ensures var r := FractionEnd(text, old(cursor)); ok == r.At? && (ok ==> cursor == r.pos)
    {
      ok := true;
      if cursor < |text| && text[cursor] == '.' {
        cursor := cursor + 1;
        ok := Run();
      }
    }

    method Exponent() returns (ok: bool)
      requires Valid()
      modifies this`cursor
      ensures Valid()
      ensures var r := ExponentEnd(text, old(cursor)); ok == r.At? && (ok ==> cursor == r.pos)
    {
      ok := true;
      if cursor < |text| && IsExponentMark(text[cursor]) {
        cursor := cursor + 1;
        if cursor < |text| && IsSign(text[cursor]) { cursor := cursor + 1; }
        ok := Run();
      }
    }

    method Number() returns (ok: bool)
      requires Valid()
      modifies this`cursor
      ensures Valid()
      ensures var r := NumberEnd(text, old(cursor)); ok == r.At? && (ok ==> cursor == r.pos)
    {
      hide RunEnd, SpaceEnd, FractionEnd, ExponentEnd;
      Space();
      if cursor < |text| && text[cursor] == '-' { cursor := cursor + 1; }
      if cursor < |text| && text[cursor] == '0' {
        cursor := cursor + 1;
      } else {
        ok := Run();
        if !ok { return; }
      }
      ok := Fraction();
      if ok { ok := Exponent(); }
    }

    // A value that is not a container.
    method SkipScalar() returns (ok: bool)
      requires Valid() && cursor < |text| && SpaceEnd(text, cursor) == cursor
      modifies this`cursor
      ensures Valid()
      ensures var r := ScalarEnd(text, old(cursor), infinity);
              text[old(cursor)] != '{' && text[old(cursor)] != '[' ==> ok == r.At? && (ok ==> cursor == r.pos)
    {
      hide StringTail, WordTo, NumberEnd;
      match text[cursor] {
        case '"' => ok := String(null, 0);
        case 't' => ok := Literal("true");
        case 'f' => ok := Literal("false");
        case 'n' => ok := Literal("null");
        case c =>
          if c == 'I' && infinity { ok := Literal("Infinity"); } else { ok := Number(); }
      }
    }

    method SkipValue() returns (ok: bool)
      requires Valid()
      modifies this
      ensures Valid()
      ensures var r := ValueEnd(text, old(cursor), old(depth), infinity);
              ok == r.At? && (ok ==> cursor == r.pos && depth == old(depth))
      decreases |text| - cursor, 1
    {
      hide ValueEnd, CollectionEnd, ScalarEnd;
      ok := false;
      ValueStep(text, cursor, depth, infinity);
      Space();
      if cursor >= |text| { return; }
      JsonProof.SpacesFrom(text, old(cursor));
      match text[cursor] {
        case '{' => ok := SkipObject();
        case '[' => ok := SkipArray();
        case _ => ok := SkipScalar();
      }
    }

    // Steps over the opening mark; null when it is not there.
    method IterBegin(shape: Shape) returns (iter: JsonIter?)
      requires Valid()
      modifies this`cursor
      ensures Valid()
      ensures var q := SpaceEnd(text, old(cursor));
              && (iter == null <==> CharTo(text, q, Opening(shape)).Nowhere?)
              && (iter != null ==>
                    && cursor == q + 1 && fresh(iter) && iter.json == this
                    && iter.shape == shape && iter.count == 0 && !iter.complete && !iter.trailing)
    {
      Space();
      if cursor >= |text| || text[cursor] != Opening(shape) { return null; }
      cursor := cursor + 1;
      iter := new JsonIter(this, shape);
    }

    method SkipArray() returns (ok: bool)
      requires Valid() && SpaceEnd(text, cursor) == cursor
      modifies this
      ensures Valid()
      ensures var r := CollectionEnd(text, old(cursor), Arrays, old(depth), infinity);
              ok == r.At? && (ok ==> cursor == r.pos && depth == old(depth))
      decreases |text| - cursor, 0
    {
      hide ItemsEnd, ValueEnd, LeadEnd, NextItem;
      ok := false;
      if depth >= DEPTH_CAP { return; }
      var iter := IterBegin(Arrays);
      if iter == null { return; }
      depth := depth + 1;
      ghost var from := cursor;
      var item := Ready;
      while true
        invariant Valid() && from <= cursor && depth == old(depth) + 1
        invariant !iter.complete && !iter.trailing
        invariant ItemsEnd(text, cursor, iter.count == 0, Arrays, depth, infinity)
               == ItemsEnd(text, from, true, Arrays, depth, infinity)
        decreases |text| - cursor
      {
        ItemsStep(text, cursor, iter.count == 0, Arrays, depth, infinity);
        item := iter.ArrayValue();
        NoLead(text, cursor);
        if item != Ready { break; }
        var skipped := SkipValue();
        if !skipped { return; }
      }
      if item != End || iter.trailing { return; }
      depth := depth - 1;
      ok := true;
    }

    method SkipObject() returns (ok: bool)
      requires Valid() && SpaceEnd(text, cursor) == cursor
      modifies this
      ensures Valid()
      ensures var r := CollectionEnd(text, old(cursor), Objects, old(depth), infinity);
              ok == r.At? && (ok ==> cursor == r.pos && depth == old(depth))
      decreases |text| - cursor, 0
    {
      hide ItemsEnd, ValueEnd, NameEnd, NextItem;
      ok := false;
      if depth >= DEPTH_CAP { return; }
      var iter := IterBegin(Objects);
      if iter == null { return; }
      depth := depth + 1;
      ghost var from := cursor;
      var key := new char[KEY_CAP];
      var item := Ready;
      while true
        invariant Valid() && from <= cursor && depth == old(depth) + 1
        invariant !iter.complete && !iter.trailing
        invariant ItemsEnd(text, cursor, iter.count == 0, Objects, depth, infinity)
               == ItemsEnd(text, from, true, Objects, depth, infinity)
        decreases |text| - cursor
      {
        ItemsStep(text, cursor, iter.count == 0, Objects, depth, infinity);
        item := iter.ObjectMember(key, KEY_CAP);
        if item != Ready { break; }
        var skipped := SkipValue();
        if !skipped { return; }
      }
      if item != End || iter.trailing { return; }
      depth := depth - 1;
      ok := true;
    }

    method Complete() returns (done: bool)
      requires Valid()
      modifies this`cursor
      ensures Valid() && done == (SpaceEnd(text, old(cursor)) == |text| && depth == 0)
    {
      Space();
      done := cursor == |text| && depth == 0;
    }

    // A copy of the decoded string at the cursor, terminated, when its encoding is short enough and
    // there is memory for it. A refusal leaves the cursor where it was.
    method StringDup(cap: nat, memory: bool) returns (value: array?<char>)
      requires Valid()
      modifies this`cursor
      ensures Valid()
      ensures var r := StringEnd(text, old(cursor));
              && (value != null <==> memory && r.Decoded? && 0 < cap && r.pos - SpaceEnd(text, old(cursor)) - 1 <= cap)
              && (value != null ==> fresh(value) && cursor == r.pos && |r.text| < value.Length &&
                                    value[..|r.text|] == r.text && value[|r.text|] == '\0')
              && (value == null ==> cursor == old(cursor))
    {
      hide StringTail;
      value := null;
      if cap == 0 { return; }
      var original := cursor;
      Space();
      var start := cursor;
      JsonProof.SpacesFrom(text, original);
      var probed := String(null, 0);
      var encoded := cursor - start;
      cursor := original;
      if !probed { return; }
      DecodedIsShorter(text, start + 1);
      if encoded < 2 || encoded - 1 > cap || !memory { return; }
      var buffer := new char[encoded];
      var copied := String(buffer, encoded);
      if !copied { assert false; }  // the copy cannot be refused: the buffer holds the encoding
      value := buffer;
    }

    // An unsigned decimal integer, refused exactly when it exceeds 64 bits.
    method U64() returns (ok: bool, value: nat)
      requires Valid()
      modifies this`cursor
      ensures Valid()
      ensures var q := SpaceEnd(text, old(cursor));
              var e := DigitsEnd(text, q);
              && ok == (q < e && Decimal(text, q, e) <= U64_MAX)
              && (ok ==> value == Decimal(text, q, e) && cursor == e)
    {
      ok, value := false, 0;
      Space();
      ghost var q, e := cursor, DigitsEnd(text, cursor);
      if cursor >= |text| || !IsDigit(text[cursor]) { return; }
      while cursor < |text| && IsDigit(text[cursor])
        invariant Valid() && q <= cursor <= e && DigitsEnd(text, cursor) == e
        invariant value == Decimal(text, q, cursor) <= U64_MAX
      {
        var digit := DigitValue(text[cursor]);
        cursor := cursor + 1;
        if value > (U64_MAX - digit) / 10 {
          DecimalGrows(text, q, cursor, e);
          return;
        }
        value := value * 10 + digit;
      }
      ok := true;
    }
  }

  datatype ItemState = Error | End | Ready

  class JsonIter {
    const json: Json
    const shape: Shape
    var count: nat
    var complete: bool
    var trailing: bool

    constructor (json: Json, shape: Shape)
      ensures this.json == json && this.shape == shape
      ensures count == 0 && !complete && !trailing
    {
      this.json, this.shape := json, shape;
      count, complete, trailing := 0, false, false;
    }

    // json_iter_advance, which yvex_json_array_value returns unchanged.
    method ArrayValue() returns (item: ItemState)
      requires json.Valid()
      modifies this, json`cursor
      ensures json.Valid()
      ensures old(complete) ==> item == Error && complete
      ensures !old(complete) ==>
                match NextItem(json.text, old(json.cursor), old(count) == 0, Closing(shape))
                case BadItem => item == Error && !complete
                case Closed(end, dangling) =>
                  item == End && complete && json.cursor == end && trailing == (old(trailing) || dangling)
                case Next(q) =>
                  item == Ready && json.cursor == q && count == old(count) + 1 &&
                  !complete && trailing == old(trailing)
    {
      if complete { return Error; }
      json.Space();
      if json.cursor >= |json.text| { return Error; }
      if json.text[json.cursor] == Closing(shape) {
        json.cursor := json.cursor + 1;
        complete := true;
        return End;
      }
      if count != 0 {
        var separator := json.text[json.cursor];
        json.cursor := json.cursor + 1;
        if separator != ',' { return Error; }
        json.Space();
        if json.cursor >= |json.text| { return Error; }
        if json.text[json.cursor] == Closing(shape) {
          json.cursor := json.cursor + 1;
          complete := true;
          trailing := true;
          return End;
        }
      }
      count := count + 1;
      return Ready;
    }

    method ObjectMember(key: array<char>, cap: nat) returns (item: ItemState)
      requires json.Valid() && cap <= key.Length
      modifies this, json`cursor, key
      ensures json.Valid()
      ensures old(complete) ==> item == Error && complete
      ensures !old(complete) ==>
                match NextItem(json.text, old(json.cursor), old(count) == 0, Closing(shape))
                case BadItem => item == Error
                case Closed(end, dangling) =>
                  item == End && complete && json.cursor == end && trailing == (old(trailing) || dangling)
                case Next(q) =>
                  var n, name := NameEnd(json.text, q, cap), StringEnd(json.text, q);
                  if n.Nowhere? then item == Error
                  else item == Ready && json.cursor == n.pos && count == old(count) + 1 &&
                       !complete && trailing == old(trailing) && key[..|name.text|] == name.text
    {
      item := ArrayValue();
      if item != Ready { return; }
      var named := json.String(key, cap);
      if !named { return Error; }
      json.Space();
      if json.cursor >= |json.text| || json.text[json.cursor] != ':' { return Error; }
      json.cursor := json.cursor + 1;
    }
  }

  lemma PrependNothing(r: Decoding)
    ensures Prepend("", r) == r
  {
    if r.Decoded? { assert "" + r.text == r.text; }
  }

  // One step of a string scan, with the characters already decoded in front.
  lemma StringTailStep(s: string, p: nat, got: string)
    requires p <= |s|
    ensures Prepend(got, StringTail(s, p)) ==
            if CharTo(s, p, '"').At? then Decoded(got, p + 1) else
            var u := UnitTo(Announced(s, p), s, p);
            if u.Undecodable? then Undecodable else Prepend(got + u.text, StringTail(s, u.pos))
  {
    var u := UnitTo(Announced(s, p), s, p);
    if CharTo(s, p, '"').At? {
      assert got + "" == got;
    } else if u.Decoded? && StringTail(s, u.pos).Decoded? {
      assert got + (u.text + StringTail(s, u.pos).text) == got + u.text + StringTail(s, u.pos).text;
    }
  }

  // How a scan of items goes on from what comes next.
  ghost function ItemsAfter(item: Item, s: string, shape: Shape, d: nat, infinity: bool): Scan
    requires item.Next? ==> item.pos <= |s|
  {
    if item.BadItem? then Nowhere
    else if item.Closed? then if item.dangling then Nowhere else At(item.end)
    else
      var n :- LeadEnd(s, item.pos, shape);
      var v :- ValueEnd(s, n, d, infinity);
      ItemsEnd(s, v, false, shape, d, infinity)
  }

  lemma ItemsStep(s: string, p: nat, first: bool, shape: Shape, d: nat, infinity: bool)
    requires p <= |s|
    ensures ItemsEnd(s, p, first, shape, d, infinity)
         == ItemsAfter(NextItem(s, p, first, Closing(shape)), s, shape, d, infinity)
  {
  }

  lemma NoLead(s: string, p: nat)
    requires p <= |s|
    ensures LeadEnd(s, p, Arrays) == At(p)
  {
  }

  // The collection whose opening mark is at p.
  ghost function CollectionEnd(s: string, p: nat, shape: Shape, d: nat, infinity: bool): Scan
    requires p <= |s|
  {
    if d < DEPTH_CAP && CharTo(s, p, Opening(shape)).At? then ItemsEnd(s, p + 1, true, shape, d + 1, infinity)
    else Nowhere
  }

  // What a value is, from the first character after whitespace.
  lemma ValueStep(s: string, p: nat, d: nat, infinity: bool)
    requires p <= |s|
    ensures var q := SpaceEnd(s, p);
            ValueEnd(s, p, d, infinity)
            == if q == |s| then Nowhere
               else if s[q] == '{' then CollectionEnd(s, q, Objects, d, infinity)
               else if s[q] == '[' then CollectionEnd(s, q, Arrays, d, infinity)
               else ScalarAt(s, q, infinity)
  {
    hide ItemsEnd, ScalarEnd;
    JsonProof.SpacesFrom(s, p);
  }

  ghost function ScalarAt(s: string, q: nat, infinity: bool): Scan
    requires q < |s|
  {
    if SpaceEnd(s, q) == q then ScalarEnd(s, q, infinity) else Nowhere
  }

  /** The reader on a whole text: yvex_json_skip_value, then yvex_json_complete. */
  method Recognise(data: string, extension: bool) returns (accepted: bool)
    ensures accepted <==> IsText(data, extension)
  {
    var json := new Json(data, extension);
    accepted := json.SkipValue();
    if accepted { accepted := json.Complete(); }
    JsonProof.AcceptsIffText(data, extension);
  }
}
