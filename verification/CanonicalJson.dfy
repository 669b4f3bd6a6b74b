/**
 Canonical JSON text: objects are written with their keys in sorted order, so that two bodies get the same text
 exactly when they are equal with objects read as maps.
 */
module CanonicalJson {
  import opened Options
  import opened Sorting
  import opened Text

  datatype Field = Field(key: Text, value: Json)

  /** Object fields in the order of insertion; numbers are integers. */
  datatype Json =
    | Null
    | Bool(b: bool)
    | Num(n: int)
    | Str(s: Text)
    | Arr(items: seq<Json>)
    | Obj(fields: seq<Field>)

  function KeyOf(f: Field): Text {
    f.key
  }

  function Keys(fields: seq<Field>): seq<Text> {
    Mapped(KeyOf, fields)
  }

  /** An object has each key once. */
  ghost predicate Valid(v: Json) {
    match v
    case Arr(items) => forall x | x in items :: Valid(x)
    case Obj(fields) => Distinct(Keys(fields)) && forall f | f in fields :: Valid(f.value)
    case _ => true
  }

  /** Equality of JSON values, with objects read as maps from keys to values. */
  ghost predicate Same(a: Json, b: Json) {
    match (a, b)
    case (Arr(xs), Arr(ys)) => |xs| == |ys| && forall i | 0 <= i < |xs| :: Same(xs[i], ys[i])
    case (Obj(fs), Obj(gs)) =>
      && (forall k :: k in Keys(fs) <==> k in Keys(gs))
      && (forall f, g | f in fs && g in gs && f.key == g.key :: Same(f.value, g.value))
    case _ => a == b
  }

  // ----- strings -----

  const QUOTE: CodeUnit := 0x22
  const BACKSLASH: CodeUnit := 0x5C

  predicate IsHighSurrogate(c: CodeUnit) {
    0xD800 <= c < 0xDC00
  }

  predicate IsLowSurrogate(c: CodeUnit) {
    0xDC00 <= c < 0xE000
  }

  function HexDigit(n: nat): CodeUnit
    requires n < 16
  {
    if n < 10 then 0x30 + n else 0x61 + n - 10
  }

  function HexEscape(c: CodeUnit): Text {
    [BACKSLASH, 0x75, HexDigit(c / 4096), HexDigit(c / 256 % 16), HexDigit(c / 16 % 16), HexDigit(c % 16)]
  }

  /** JSON's spelling of one code unit that is not part of a surrogate pair. */
  function EscapeUnit(c: CodeUnit): Text {
    if c == QUOTE || c == BACKSLASH then [BACKSLASH, c]
    else if c == 0x08 then [BACKSLASH, 0x62]
    else if c == 0x09 then [BACKSLASH, 0x74]
    else if c == 0x0A then [BACKSLASH, 0x6E]
    else if c == 0x0C then [BACKSLASH, 0x66]
    else if c == 0x0D then [BACKSLASH, 0x72]
    else if c < 0x20 || IsHighSurrogate(c) || IsLowSurrogate(c) then HexEscape(c)
    else [c]
  }

  function Escape(s: Text): Text {
    if s == [] then []
    else if IsHighSurrogate(s[0]) && |s| > 1 && IsLowSurrogate(s[1]) then [s[0], s[1]] + Escape(s[2..])
    else EscapeUnit(s[0]) + Escape(s[1..])
  }

  function Quoted(s: Text): Text {
    [QUOTE] + Escape(s) + [QUOTE]
  }

  function HexValue(c: CodeUnit): nat {
    if 0x30 <= c <= 0x39 then c - 0x30 else if 0x61 <= c <= 0x66 then c - 0x61 + 10 else 0
  }

  /** What the letter after a backslash stands for. */
  function ShortEscape(c: CodeUnit): CodeUnit {
    if c == 0x62 then 0x08
    else if c == 0x74 then 0x09
    else if c == 0x6E then 0x0A
    else if c == 0x66 then 0x0C
    else if c == 0x72 then 0x0D
    else c
  }

  /** Reads one spelled code unit off the text: the unit and how many places it took. */
  function ReadUnit(t: Text): Option<(CodeUnit, nat)> {
    if t == [] || t[0] == QUOTE then None
    else if t[0] != BACKSLASH then Some((t[0], 1))
    else if |t| >= 2 && t[1] != 0x75 then Some((ShortEscape(t[1]), 2))
    else if |t| >= 6 then
      var c := HexValue(t[2]) * 4096 + HexValue(t[3]) * 256 + HexValue(t[4]) * 16 + HexValue(t[5]);
      Some((c, 6))
    else None
  }

  /** Reads up to the closing quote: the string and what follows it. */
  function Unescape(t: Text): Option<(Text, Text)> {
    if t != [] && t[0] == QUOTE then Some(([], t[1..]))
    else
      match ReadUnit(t)
      case None => None
      case Some((c, places)) =>
        match Unescape(t[places..])
        case None => None
        case Some((s, rest)) => Some(([c] + s, rest))
  }

  lemma HexDigitReadsBack(n: nat)
    requires n < 16
    ensures HexValue(HexDigit(n)) == n
  {
  }

  lemma HexReadsBack(c: CodeUnit)
    ensures HexValue(HexDigit(c / 4096)) * 4096 + HexValue(HexDigit(c / 256 % 16)) * 256
          + HexValue(HexDigit(c / 16 % 16)) * 16 + HexValue(HexDigit(c % 16)) == c
  {
    HexDigitReadsBack(c / 4096);
    HexDigitReadsBack(c / 256 % 16);
    HexDigitReadsBack(c / 16 % 16);
    HexDigitReadsBack(c % 16);
    assert c / 256 == c / 16 / 16 && c / 4096 == c / 256 / 16;
    assert c == c / 16 * 16 + c % 16;
    assert c / 16 == c / 256 * 16 + c / 16 % 16;
    assert c / 256 == c / 4096 * 16 + c / 256 % 16;
  }

  lemma UnitReadsBack(c: CodeUnit, rest: Text)
    ensures ReadUnit(EscapeUnit(c) + rest) == Some((c, |EscapeUnit(c)|))
    ensures (EscapeUnit(c) + rest)[0] != QUOTE
  {
    var t := EscapeUnit(c) + rest;
    assert forall i | 0 <= i < |EscapeUnit(c)| :: t[i] == EscapeUnit(c)[i];
    if EscapeUnit(c) == HexEscape(c) {
      HexReadsBack(c);
    }
  }

  /** Reading one spelled unit, then the rest. */
  lemma UnescapeStep(t: Text, c: CodeUnit, places: nat, s: Text, rest: Text)
    requires t != [] && t[0] != QUOTE && places <= |t|
    requires ReadUnit(t) == Some((c, places)) && Unescape(t[places..]) == Some((s, rest))
    ensures Unescape(t) == Some(([c] + s, rest))
  {
  }

  lemma PairReadsBack(high: CodeUnit, low: CodeUnit, tail: Text, s: Text, rest: Text)
    requires IsHighSurrogate(high) && IsLowSurrogate(low) && Unescape(tail) == Some((s, rest))
    ensures Unescape([high, low] + tail) == Some(([high, low] + s, rest))
  {
    assert ([low] + tail)[1..] == tail;
    UnescapeStep([low] + tail, low, 1, s, rest);
    assert ([high, low] + tail)[1..] == [low] + tail;
    UnescapeStep([high, low] + tail, high, 1, [low] + s, rest);
    assert [high] + ([low] + s) == [high, low] + s;
  }

  lemma UnitThenRestReadsBack(c: CodeUnit, tail: Text, s: Text, rest: Text)
    requires Unescape(tail) == Some((s, rest))
    ensures Unescape(EscapeUnit(c) + tail) == Some(([c] + s, rest))
  {
    var unit := EscapeUnit(c);
    UnitReadsBack(c, tail);
    assert (unit + tail)[|unit|..] == tail;
    UnescapeStep(unit + tail, c, |unit|, s, rest);
  }

  predicate StartsWithPair(s: Text) {
    |s| > 1 && IsHighSurrogate(s[0]) && IsLowSurrogate(s[1])
  }

  lemma EscapeFirst(s: Text, end: Text)
    requires s != []
    ensures Escape(s) + end == if StartsWithPair(s) then [s[0], s[1]] + (Escape(s[2..]) + end)
                               else EscapeUnit(s[0]) + (Escape(s[1..]) + end)
  {
  }

  /** Nothing of a string is lost in its JSON spelling, whatever quotes, backslashes and delimiters it holds. */
  lemma {:induction false} StringReadsBack(s: Text, rest: Text)
    ensures Unescape(Escape(s) + ([QUOTE] + rest)) == Some((s, rest))
    decreases |s|
  {
    var end := [QUOTE] + rest;
    if s == [] {
      assert Escape(s) + end == end && end[1..] == rest;
    } else if StartsWithPair(s) {
      EscapeFirst(s, end);
      StringReadsBack(s[2..], rest);
      PairReadsBack(s[0], s[1], Escape(s[2..]) + end, s[2..], rest);
      assert [s[0], s[1]] + s[2..] == s;
    } else {
      EscapeFirst(s, end);
      StringReadsBack(s[1..], rest);
      UnitThenRestReadsBack(s[0], Escape(s[1..]) + end, s[1..], rest);
      assert [s[0]] + s[1..] == s;
    }
  }

  lemma QuotedReadsBack(a: Text, x: Text, b: Text, y: Text)
    requires Quoted(a) + x == Quoted(b) + y
    ensures a == b && x == y
  {
    assert (Quoted(a) + x)[1..] == Escape(a) + ([QUOTE] + x);
    assert (Quoted(b) + y)[1..] == Escape(b) + ([QUOTE] + y);
    StringReadsBack(a, x);
    StringReadsBack(b, y);
  }

  // ----- values -----

  const LBRACKET: CodeUnit := 0x5B
  const RBRACKET: CodeUnit := 0x5D
  const LBRACE: CodeUnit := 0x7B
  const RBRACE: CodeUnit := 0x7D
  const NULL_TEXT: Text := [0x6E, 0x75, 0x6C, 0x6C]
  const TRUE_TEXT: Text := [0x74, 0x72, 0x75, 0x65]
  const FALSE_TEXT: Text := [0x66, 0x61, 0x6C, 0x73, 0x65]

  predicate FieldLeq(f: Field, g: Field) {
    TextLeq(f.key, g.key)
  }

  function SortedFields(fields: seq<Field>): seq<Field> {
    Sort(FieldLeq, fields)
  }

  lemma SortedFieldsAreFields(fields: seq<Field>)
    ensures forall f :: f in SortedFields(fields) <==> f in fields
  {
    SameElements(SortedFields(fields), fields);
  }

  function Canonicalize(v: Json): Text
    decreases v
  {
    match v
    case Null => NULL_TEXT
    case Bool(b) => if b then TRUE_TEXT else FALSE_TEXT
    case Num(n) => DecimalInt(n)
    case Str(s) => Quoted(s)
    case Arr(items) => [LBRACKET] + CanonicalItems(items) + [RBRACKET]
    case Obj(fields) =>
      SortedFieldsAreFields(fields);
      [LBRACE] + CanonicalFields(v, SortedFields(fields)) + [RBRACE]
  }

  function CanonicalItems(items: seq<Json>): Text
    decreases items
  {
    if items == [] then []
    else if |items| == 1 then Canonicalize(items[0])
    else Canonicalize(items[0]) + [COMMA] + CanonicalItems(items[1..])
  }

  /** `whole` is the object whose fields these are. */
  function CanonicalFields(whole: Json, fields: seq<Field>): Text
    requires forall f | f in fields :: f.value < whole
    decreases whole, |fields|
  {
    if fields == [] then []
    else
      var first := Quoted(fields[0].key) + [COLON] + Canonicalize(fields[0].value);
      if |fields| == 1 then first else first + [COMMA] + CanonicalFields(whole, fields[1..])
  }

  // ----- the same text means the same value -----

  /** What may follow a value: nothing, or a delimiter of the enclosing array or object. */
  predicate Ends(rest: Text) {
    rest == [] || rest[0] == COMMA || rest[0] == RBRACKET || rest[0] == RBRACE
  }

  /** The kind of a value shows in the first code unit of its text. */
  predicate LeadsWith(v: Json, c: CodeUnit) {
    match v
    case Null => c == 0x6E
    case Bool(b) => c == if b then 0x74 else 0x66
    case Num(_) => c == MINUS || IsDigit(c)
    case Str(_) => c == QUOTE
    case Arr(_) => c == LBRACKET
    case Obj(_) => c == LBRACE
  }

  lemma Lead(v: Json)
    ensures Canonicalize(v) != [] && LeadsWith(v, Canonicalize(v)[0])
  {
  }

  /** The text of a list of items after its first item. */
  function ItemsTail(items: seq<Json>): Text {
    if items == [] then [] else [COMMA] + CanonicalItems(items)
  }

  lemma ItemsFirst(items: seq<Json>, end: Text)
    requires items != []
    ensures CanonicalItems(items) + end == Canonicalize(items[0]) + (ItemsTail(items[1..]) + end)
  {
    if |items| == 1 {
      assert items[1..] == [];
    }
  }

  function FieldsTail(whole: Json, fields: seq<Field>): Text
    requires forall f | f in fields :: f.value < whole
  {
    if fields == [] then [] else [COMMA] + CanonicalFields(whole, fields)
  }

  lemma FieldsFirst(whole: Json, fields: seq<Field>, end: Text)
    requires fields != [] && forall f | f in fields :: f.value < whole
    ensures CanonicalFields(whole, fields) + end
         == Quoted(fields[0].key) + ([COLON] + (Canonicalize(fields[0].value) + (FieldsTail(whole, fields[1..]) + end)))
  {
    if |fields| == 1 {
      assert fields[1..] == [];
    }
  }

  /** Values with the same text, whatever follows, are of the same kind. */
  lemma SameKind(a: Json, x: Text, b: Json, y: Text)
    requires Canonicalize(a) + x == Canonicalize(b) + y
    ensures a.Null? == b.Null? && a.Bool? == b.Bool? && a.Num? == b.Num? && a.Str? == b.Str?
    ensures a.Arr? == b.Arr? && a.Obj? == b.Obj?
    ensures a.Bool? ==> a == b
  {
    Lead(a);
    Lead(b);
    assert (Canonicalize(a) + x)[0] == Canonicalize(a)[0];
    assert (Canonicalize(b) + y)[0] == Canonicalize(b)[0];
  }

  lemma ScalarReadsBack(a: Json, x: Text, b: Json, y: Text)
    requires !a.Arr? && !a.Obj? && Ends(x) && Ends(y)
    requires Canonicalize(a) + x == Canonicalize(b) + y
    ensures a == b && x == y
  {
    SameKind(a, x, b, y);
    match a
    case Num(m) => DecimalIntReadsBack(m, x, b.n, y);
    case Str(s) => QuotedReadsBack(s, x, b.s, y);
    case Null => assert (NULL_TEXT + x)[4..] == x && (NULL_TEXT + y)[4..] == y;
    case Bool(_) =>
      var t := Canonicalize(a);
      assert (t + x)[|t|..] == x && (t + y)[|t|..] == y;
    case Arr(_) =>
    case Obj(_) =>
  }

  /** After an element of a list comes either the closing mark or a comma with the rest of the list. */
  lemma TailSplits(p: bool, u: Text, x: Text, q: bool, v: Text, y: Text, close: CodeUnit)
    requires close != COMMA
    requires (if p then [] else [COMMA] + u) + ([close] + x) == (if q then [] else [COMMA] + v) + ([close] + y)
    ensures p == q
    ensures p ==> x == y
    ensures !p ==> u + ([close] + x) == v + ([close] + y)
  {
    var s := (if p then [] else [COMMA] + u) + ([close] + x);
    var t := (if q then [] else [COMMA] + v) + ([close] + y);
    assert s[0] == if p then close else COMMA;
    assert t[0] == if q then close else COMMA;
    assert s[1..] == if p then x else u + ([close] + x);
    assert t[1..] == if q then y else v + ([close] + y);
  }

  lemma {:induction false} ValueReadsBack(a: Json, x: Text, b: Json, y: Text)
    requires Valid(a) && Valid(b) && Ends(x) && Ends(y)
    requires Canonicalize(a) + x == Canonicalize(b) + y
    ensures Same(a, b) && x == y
    decreases a, 0, 1
  {
    SameKind(a, x, b, y);
    match a
    case Arr(items) => ArrayReadsBack(a, x, b, y);
    case Obj(fields) => ObjectReadsBack(a, x, b, y);
    case _ => ScalarReadsBack(a, x, b, y);
  }

  lemma {:induction false} ArrayReadsBack(a: Json, x: Text, b: Json, y: Text)
    requires Valid(a) && Valid(b) && a.Arr? && b.Arr?
    requires Canonicalize(a) + x == Canonicalize(b) + y
    ensures Same(a, b) && x == y
    decreases a, 0, 0
  {
    assert (Canonicalize(a) + x)[1..] == CanonicalItems(a.items) + ([RBRACKET] + x);
    assert (Canonicalize(b) + y)[1..] == CanonicalItems(b.items) + ([RBRACKET] + y);
    if a.items == [] || b.items == [] {
      EmptyItemsReadBack(a.items, x, b.items, y);
    } else {
      ItemsReadBack(a, a.items, x, b.items, y);
    }
  }

  lemma EmptyItemsReadBack(xs: seq<Json>, x: Text, ys: seq<Json>, y: Text)
    requires CanonicalItems(xs) + ([RBRACKET] + x) == CanonicalItems(ys) + ([RBRACKET] + y)
    requires xs == [] || ys == []
    ensures xs == ys && x == y
  {
    ItemsLead(xs, x);
    ItemsLead(ys, y);
    assert ([] + ([RBRACKET] + x))[1..] == x && ([] + ([RBRACKET] + y))[1..] == y;
  }

  lemma {:induction false} ItemsReadBack(whole: Json, xs: seq<Json>, x: Text, ys: seq<Json>, y: Text)
    requires (forall v | v in xs :: Valid(v) && v < whole) && (forall v | v in ys :: Valid(v))
    requires xs != [] && ys != []
    requires CanonicalItems(xs) + ([RBRACKET] + x) == CanonicalItems(ys) + ([RBRACKET] + y)
    ensures |xs| == |ys| && (forall i | 0 <= i < |xs| :: Same(xs[i], ys[i])) && x == y
    decreases whole, 0, 0, |xs|
  {
    ItemsFirst(xs, [RBRACKET] + x);
    ItemsFirst(ys, [RBRACKET] + y);
    assert xs[0] in xs && ys[0] in ys;
    ValueReadsBack(xs[0], ItemsTail(xs[1..]) + ([RBRACKET] + x), ys[0], ItemsTail(ys[1..]) + ([RBRACKET] + y));
    TailSplits(xs[1..] == [], CanonicalItems(xs[1..]), x, ys[1..] == [], CanonicalItems(ys[1..]), y, RBRACKET);
    if xs[1..] != [] {
      ItemsReadBack(whole, xs[1..], x, ys[1..], y);
      assert forall i | 0 < i < |xs| :: xs[i] == xs[1..][i - 1] && ys[i] == ys[1..][i - 1];
    }
  }

  /** An empty list of items is followed by its bracket at once, a non-empty one is not. */
  lemma ItemsLead(xs: seq<Json>, x: Text)
    ensures ((CanonicalItems(xs) + ([RBRACKET] + x))[0] == RBRACKET) <==> xs == []
  {
    if xs != [] {
      Lead(xs[0]);
      ItemsFirst(xs, [RBRACKET] + x);
    }
  }

  lemma InnerText(open: CodeUnit, body: Text, close: CodeUnit, x: Text)
    ensures ([open] + body + [close] + x)[1..] == body + ([close] + x)
  {
  }

  lemma ObjectFieldsAreSmaller(a: Json)
    requires Valid(a) && a.Obj?
    ensures forall f | f in SortedFields(a.fields) :: f.value < a && Valid(f.value)
  {
    SortedFieldsAreFields(a.fields);
  }

  lemma ObjectText(a: Json, x: Text)
    requires a.Obj? && forall f | f in SortedFields(a.fields) :: f.value < a
    ensures (Canonicalize(a) + x)[1..] == CanonicalFields(a, SortedFields(a.fields)) + ([RBRACE] + x)
  {
    InnerText(LBRACE, CanonicalFields(a, SortedFields(a.fields)), RBRACE, x);
  }

  lemma {:induction false} ObjectReadsBack(a: Json, x: Text, b: Json, y: Text)
    requires Valid(a) && Valid(b) && a.Obj? && b.Obj?
    requires Canonicalize(a) + x == Canonicalize(b) + y
    ensures Same(a, b) && x == y
    decreases a, 0, 0
  {
    var fs, gs := SortedFields(a.fields), SortedFields(b.fields);
    ObjectFieldsAreSmaller(a);
    ObjectFieldsAreSmaller(b);
    ObjectText(a, x);
    ObjectText(b, y);
    if fs == [] || gs == [] {
      EmptyFieldsReadBack(a, fs, x, b, gs, y);
    } else {
      FieldsReadBack(a, fs, x, b, gs, y);
    }
    PairwiseSameFields(a.fields, b.fields);
  }

  lemma EmptyFieldsReadBack(a: Json, fs: seq<Field>, x: Text, b: Json, gs: seq<Field>, y: Text)
    requires (forall f | f in fs :: f.value < a) && (forall g | g in gs :: g.value < b)
    requires CanonicalFields(a, fs) + ([RBRACE] + x) == CanonicalFields(b, gs) + ([RBRACE] + y)
    requires fs == [] || gs == []
    ensures fs == gs && x == y
  {
    FieldsLead(a, fs, x);
    FieldsLead(b, gs, y);
    assert ([] + ([RBRACE] + x))[1..] == x && ([] + ([RBRACE] + y))[1..] == y;
  }

  ghost predicate PairwiseSame(fs: seq<Field>, gs: seq<Field>) {
    |fs| == |gs| && forall i | 0 <= i < |fs| :: fs[i].key == gs[i].key && Same(fs[i].value, gs[i].value)
  }

  lemma PairwiseSameFromFirst(fs: seq<Field>, gs: seq<Field>)
    requires fs != [] && gs != [] && fs[0].key == gs[0].key && Same(fs[0].value, gs[0].value)
    requires PairwiseSame(fs[1..], gs[1..])
    ensures PairwiseSame(fs, gs)
  {
    assert forall i | 0 < i < |fs| :: fs[i] == fs[1..][i - 1] && gs[i] == gs[1..][i - 1];
  }

  lemma {:induction false} FieldsReadBack(a: Json, fs: seq<Field>, x: Text, b: Json, gs: seq<Field>, y: Text)
    requires (forall f | f in fs :: f.value < a && Valid(f.value)) && (forall g | g in gs :: g.value < b && Valid(g.value))
    requires fs != [] && gs != []
    requires CanonicalFields(a, fs) + ([RBRACE] + x) == CanonicalFields(b, gs) + ([RBRACE] + y)
    ensures PairwiseSame(fs, gs) && x == y
    decreases a, 0, 0, |fs|
  {
    var restX, restY := FieldsTail(a, fs[1..]) + ([RBRACE] + x), FieldsTail(b, gs[1..]) + ([RBRACE] + y);
    FirstFieldReadsBack(a, fs, x, b, gs, y);
    assert fs[0] in fs && gs[0] in gs;
    ValueReadsBack(fs[0].value, restX, gs[0].value, restY);
    TailSplits(fs[1..] == [], CanonicalFields(a, fs[1..]), x, gs[1..] == [], CanonicalFields(b, gs[1..]), y, RBRACE);
    if fs[1..] != [] {
      FieldsReadBack(a, fs[1..], x, b, gs[1..], y);
    }
    PairwiseSameFromFirst(fs, gs);
  }

  /** The key of a field ends at its closing quote, and the value starts after the colon. */
  lemma FieldReadsBack(f: Field, x: Text, g: Field, y: Text)
    requires Quoted(f.key) + ([COLON] + (Canonicalize(f.value) + x)) == Quoted(g.key) + ([COLON] + (Canonicalize(g.value) + y))
    ensures f.key == g.key && Canonicalize(f.value) + x == Canonicalize(g.value) + y
  {
    var vx, vy := Canonicalize(f.value) + x, Canonicalize(g.value) + y;
    QuotedReadsBack(f.key, [COLON] + vx, g.key, [COLON] + vy);
    assert ([COLON] + vx)[1..] == vx && ([COLON] + vy)[1..] == vy;
  }

  lemma FirstFieldReadsBack(a: Json, fs: seq<Field>, x: Text, b: Json, gs: seq<Field>, y: Text)
    requires (forall f | f in fs :: f.value < a) && (forall g | g in gs :: g.value < b)
    requires fs != [] && gs != []
    requires CanonicalFields(a, fs) + ([RBRACE] + x) == CanonicalFields(b, gs) + ([RBRACE] + y)
    ensures fs[0].key == gs[0].key
    ensures Canonicalize(fs[0].value) + (FieldsTail(a, fs[1..]) + ([RBRACE] + x))
         == Canonicalize(gs[0].value) + (FieldsTail(b, gs[1..]) + ([RBRACE] + y))
  {
    FieldsFirst(a, fs, [RBRACE] + x);
    FieldsFirst(b, gs, [RBRACE] + y);
    FieldReadsBack(fs[0], FieldsTail(a, fs[1..]) + ([RBRACE] + x), gs[0], FieldsTail(b, gs[1..]) + ([RBRACE] + y));
  }

  lemma FieldsLead(whole: Json, fs: seq<Field>, x: Text)
    requires forall f | f in fs :: f.value < whole
    ensures ((CanonicalFields(whole, fs) + ([RBRACE] + x))[0] == RBRACE) <==> fs == []
  {
    if fs != [] {
      FieldsFirst(whole, fs, [RBRACE] + x);
    }
  }

  /** Sorting rearranges the fields, so their keys stay distinct. */
  lemma SortedKeysAreDistinct(fs: seq<Field>)
    requires Distinct(Keys(fs))
    ensures Distinct(Keys(SortedFields(fs)))
    ensures forall k :: k in Keys(SortedFields(fs)) <==> k in Keys(fs)
  {
    MappedRearrangement(KeyOf, SortedFields(fs), fs);
    SameElements(Keys(SortedFields(fs)), Keys(fs));
    DistinctRearranged(Keys(fs), Keys(SortedFields(fs)));
  }

  /** Fields that agree pairwise once sorted are the same map. */
  lemma PairwiseSameFields(fs: seq<Field>, gs: seq<Field>)
    requires Distinct(Keys(fs)) && Distinct(Keys(gs))
    requires PairwiseSame(SortedFields(fs), SortedFields(gs))
    ensures Same(Obj(fs), Obj(gs))
  {
    var s, t := SortedFields(fs), SortedFields(gs);
    SortedKeysAreDistinct(fs);
    SortedKeysAreDistinct(gs);
    assert Keys(s) == Keys(t);
    SortedFieldsAreFields(fs);
    SortedFieldsAreFields(gs);
    forall f, g | f in fs && g in gs && f.key == g.key
      ensures Same(f.value, g.value)
    {
      var i :| 0 <= i < |s| && s[i] == f;
      var j :| 0 <= j < |t| && t[j] == g;
      assert Keys(s)[i] == Keys(s)[j];
    }
  }

  // ----- the same value means the same text -----

  lemma FieldLeqIsTotalPreorder()
    ensures TotalPreorder(FieldLeq)
  {
    TextLeqIsTotalOrder();
  }

  /** The sorted keys of two objects with the same keys are one sequence. */
  lemma SameKeysSortAlike(fs: seq<Field>, gs: seq<Field>)
    requires Distinct(Keys(fs)) && Distinct(Keys(gs)) && forall k :: k in Keys(fs) <==> k in Keys(gs)
    ensures Keys(SortedFields(fs)) == Keys(SortedFields(gs))
  {
    var s, t := SortedFields(fs), SortedFields(gs);
    MappedRearrangement(KeyOf, s, fs);
    MappedRearrangement(KeyOf, t, gs);
    SameDistinctElements(Keys(fs), Keys(gs));
    FieldLeqIsTotalPreorder();
    SortSorts(FieldLeq, fs);
    SortSorts(FieldLeq, gs);
    TextLeqIsTotalOrder();
    assert Sorted(TextLeq, Keys(s)) && Sorted(TextLeq, Keys(t));
    SortedArrangementIsUnique(TextLeq, Keys(s), Keys(t));
  }

  lemma {:induction false} SameValuesHaveSameText(a: Json, b: Json)
    requires Valid(a) && Valid(b) && Same(a, b)
    ensures Canonicalize(a) == Canonicalize(b)
    decreases a
  {
    match a
    case Arr(items) => SameItemsHaveSameText(items, b.items);
    case Obj(fields) =>
      SameKeysSortAlike(fields, b.fields);
      SortedFieldsAreFields(fields);
      SortedFieldsAreFields(b.fields);
      var s, t := SortedFields(fields), SortedFields(b.fields);
      assert |s| == |Keys(s)| && |t| == |Keys(t)|;
      forall i | 0 <= i < |s|
        ensures s[i].key == t[i].key && Same(s[i].value, t[i].value)
      {
        assert Keys(s)[i] == Keys(t)[i];
        assert s[i] in fields && t[i] in b.fields;
      }
      SameFieldsHaveSameText(a, s, b, t);
    case _ =>
  }

  lemma {:induction false} SameItemsHaveSameText(xs: seq<Json>, ys: seq<Json>)
    requires (forall v | v in xs :: Valid(v)) && (forall v | v in ys :: Valid(v))
    requires |xs| == |ys| && forall i | 0 <= i < |xs| :: Same(xs[i], ys[i])
    ensures CanonicalItems(xs) == CanonicalItems(ys)
    decreases xs
  {
    if xs != [] {
      SameValuesHaveSameText(xs[0], ys[0]);
      SameItemsHaveSameText(xs[1..], ys[1..]);
    }
  }

  lemma {:induction false} SameFieldsHaveSameText(a: Json, fs: seq<Field>, b: Json, gs: seq<Field>)
    requires (forall f | f in fs :: f.value < a && Valid(f.value)) && (forall g | g in gs :: g.value < b && Valid(g.value))
    requires PairwiseSame(fs, gs)
    ensures CanonicalFields(a, fs) == CanonicalFields(b, gs)
    decreases a, |fs|
  {
    if fs != [] {
      SameValuesHaveSameText(fs[0].value, gs[0].value);
      SameFieldsHaveSameText(a, fs[1..], b, gs[1..]);
    }
  }

  /** The canonical text is equality of JSON values, no more and no less. */
  lemma CanonicalTextDecidesSameness(a: Json, b: Json)
    requires Valid(a) && Valid(b)
    ensures Canonicalize(a) == Canonicalize(b) <==> Same(a, b)
  {
    if Canonicalize(a) == Canonicalize(b) {
      ValueReadsBack(a, [], b, []);
    } else if Same(a, b) {
      SameValuesHaveSameText(a, b);
    }
  }
}
