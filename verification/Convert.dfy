/** Type-directed conversion of decoded JSON, core/flexible_unmarshal.go, with ToBool of core/utils.go.

    Struct types are named and looked up in an environment, so they may be recursive. Floating-point numbers are
    reals; what matters here is which integers float64 represents exactly. */
module Convert {
  import opened Basics
  import opened Texts
  import opened Values

  datatype Type =
    | TString
    | TBool
    | TNum(kind: Kind)
    | TSlice(elem: Type)
    | TPtr(elem: Type)
    | TStruct(name: string)
    | TOther

  /** A field with its complete json tag. */
  datatype Field = Field(tag: string, typ: Type)

  type StructTypes = map<string, seq<Field>>

  /** Library calls and machine behaviour that the repository does not define: parsing and printing of
      non-integers, %v of composite values, what a float-to-integer conversion out of range yields, and the integer
      that json.Marshal writes for a float without a fraction: the shortest digits that read back as that float. */
  datatype Library = Library(parseFloat: (string, Kind) -> Option<real>, formatFloat: real -> string,
                             sprint: Value -> string, outOfRange: (Value, Kind) -> int,
                             shortest: (Kind, int) -> int)

  // ------------------------------------------------------------ integer kinds

  predicate IsInteger(k: Kind) {
    !k.Float32? && !k.Float64?
  }

  function Lo(k: Kind): int {
    match k
    case Int => -0x8000_0000_0000_0000
    case Int8 => -0x80
    case Int16 => -0x8000
    case Int32 => -0x8000_0000
    case Int64 => -0x8000_0000_0000_0000
    case _ => 0
  }

  function Hi(k: Kind): int {
    match k
    case Int => 0x7FFF_FFFF_FFFF_FFFF
    case Int8 => 0x7F
    case Int16 => 0x7FFF
    case Int32 => 0x7FFF_FFFF
    case Int64 => 0x7FFF_FFFF_FFFF_FFFF
    case Uint8 => 0xFF
    case Uint16 => 0xFFFF
    case Uint32 => 0xFFFF_FFFF
    case _ => 0xFFFF_FFFF_FFFF_FFFF
  }

  predicate Fits(n: int, k: Kind) {
    Lo(k) <= n <= Hi(k)
  }

  /** From here on a number rounds to an infinity of float32: 2^128 - 2^103. */
  const FLOAT32_LIMIT: real := 340282356779733661637539395458142568448.0

  /** A finite number that a floating-point kind can hold, rounded; float64 is not bounded here. */
  predicate InRangeOf(r: real, k: Kind) {
    k.Float32? ==> -FLOAT32_LIMIT < r < FLOAT32_LIMIT
  }

  predicate Unsigned(k: Kind) {
    k.Uint? || k.Uint8? || k.Uint16? || k.Uint32? || k.Uint64?
  }

  // ------------------------------------------------------------ float64 and integers

  const EXACT: int := 0x20_0000_0000_0000   // 2^53

  /** The spacing of float64 numbers around n. */
  function Spacing(n: nat): (p: nat)
    ensures p >= 1
  {
    if n < EXACT then 1 else 2 * Spacing(n / 2)
  }

  /** How often p goes into n, rounded to nearest, ties to even. */
  function Quotient(n: nat, p: nat): nat
    requires p >= 1
  {
    var q, rem := n / p, n % p;
    if 2 * rem > p || (2 * rem == p && q % 2 == 1) then q + 1 else q
  }

  function RoundTo(n: nat, p: nat): nat
    requires p >= 1
  {
    Quotient(n, p) * p
  }

  /** float64(n), which always is an integer. */
  function ToFloat64(n: int): int {
    if n >= 0 then RoundTo(n, Spacing(n)) else 0 - RoundTo(-n, Spacing(-n))
  }

  lemma ExactUpTo(n: int)
    requires -EXACT <= n <= EXACT
    ensures ToFloat64(n) == n
  {
    if n == EXACT || n == -EXACT {
      assert Spacing(EXACT) == 2 * Spacing(EXACT / 2);
      assert EXACT % 2 == 0 && (EXACT / 2) * 2 == EXACT;
    }
  }

  function Pow2(e: nat): (p: nat)
    ensures p >= 1
  {
    if e == 0 then 1 else 2 * Pow2(e - 1)
  }

  /** The spacing is a power of two, and n is between 2^52 and 2^53 spacings (below 2^53 the spacing is 1). */
  lemma {:induction false} SpacingBracket(n: nat) returns (e: nat)
    ensures Spacing(n) == Pow2(e)
    ensures n < EXACT * Pow2(e) && (e == 0 || EXACT / 2 * Pow2(e) <= n)
  {
    if n < EXACT {
      e := 0;
    } else {
      e := SpacingBracket(n / 2);
      if e == 0 {
        assert n / 2 >= EXACT / 2;
      }
      e := e + 1;
    }
  }

  lemma {:induction false} SpacingScaled(q: nat, e: nat)
    requires EXACT / 2 <= q < EXACT
    ensures Spacing(q * Pow2(e)) == Pow2(e)
  {
    if e > 0 {
      SpacingScaled(q, e - 1);
      var h := q * Pow2(e - 1);
      assert q * Pow2(e) == 2 * h;
      assert h >= EXACT / 2 by {
        assert q * Pow2(e - 1) >= q * 1;
      }
    }
  }

  lemma Monotone(a: int, b: int, p: nat)
    ensures a <= b ==> a * p <= b * p
  {
    if a <= b {
      assert (b - a) * p >= 0;
    }
  }

  lemma QuotientUnique(d: int, r: int, q: int, p: nat)
    requires d * p + r == q * p && 0 <= r < p
    ensures d == q && r == 0
  {
    Monotone(d + 1, q, p);
    Monotone(q, d, p);
    Monotone(q + 1, d, p);
    assert (d + 1) * p == d * p + p && (q + 1) * p == q * p + p;
  }

  lemma DivMultiple(q: nat, p: nat)
    requires p >= 1
    ensures (q * p) / p == q && (q * p) % p == 0
  {
    var x := q * p;
    QuotientUnique(x / p, x % p, q, p);
  }

  lemma RoundMultiple(q: nat, p: nat)
    requires p >= 1
    ensures Quotient(q * p, p) == q
  {
    DivMultiple(q, p);
  }

  lemma QuotientBounds(n: nat, p: nat, b: nat)
    requires p >= 1
    ensures n < b * p ==> Quotient(n, p) <= b
    ensures b * p <= n ==> b <= Quotient(n, p)
  {
    var q := n / p;
    assert q * p <= n < (q + 1) * p;
    Monotone(b, q, p);
    Monotone(q + 1, b, p);
  }

  /** A float64 number stays what it is. */
  lemma RoundedStays(n: nat)
    ensures var x := RoundTo(n, Spacing(n)); RoundTo(x, Spacing(x)) == x
  {
    var e := SpacingBracket(n);
    var q := Quotient(n, Pow2(e));
    QuotientBounds(n, Pow2(e), EXACT);
    QuotientBounds(n, Pow2(e), EXACT / 2);
    MultipleStays(q * Pow2(e), q, e);
  }

  /** A number below 2^53 is a multiple of 1, and one that is q spacings for q up to 2^53 stays. */
  lemma MultipleStays(x: nat, q: nat, e: nat)
    requires x == q * Pow2(e) && q <= EXACT && (e == 0 || EXACT / 2 <= q)
    ensures RoundTo(x, Spacing(x)) == x
  {
    if q == EXACT {
      assert EXACT * Pow2(e) == EXACT / 2 * Pow2(e + 1);
      ScaledStays(x, EXACT / 2, e + 1);
    } else if e == 0 {
      RoundMultiple(q, 1);
    } else {
      ScaledStays(x, q, e);
    }
  }

  lemma ScaledStays(x: nat, q: nat, e: nat)
    requires x == q * Pow2(e) && EXACT / 2 <= q < EXACT
    ensures RoundTo(x, Spacing(x)) == x
  {
    SpacingScaled(q, e);
    RoundMultiple(q, Pow2(e));
  }

  lemma ToFloat64Idempotent(n: int)
    ensures ToFloat64(ToFloat64(n)) == ToFloat64(n)
  {
    if n >= 0 {
      RoundedStays(n);
    } else {
      RoundedStays(-n);
    }
  }

  lemma FirstInexact()
    ensures ToFloat64(EXACT + 1) == EXACT
  {
    assert Spacing(EXACT + 1) == 2 * Spacing((EXACT + 1) / 2);
    assert (EXACT + 1) / 2 == EXACT / 2 && (EXACT + 1) % 2 == 1;
    assert (EXACT / 2) % 2 == 0 && (EXACT / 2) * 2 == EXACT;
  }

  /** convertFloatToInteger. */
  function FloatToInteger(r: real, k: Kind, lib: Library): int {
    if Fits(Truncate(r), k) then Truncate(r) else lib.outOfRange(Flt(Float64, r), k)
  }

  /** The detour of an integer through float64 and back. */
  function Detour(n: int, k: Kind, lib: Library): int {
    FloatToInteger(ToFloat64(n) as real, k, lib)
  }

  // ------------------------------------------------------------ numerals

  predicate IsDigit(c: char) {
    '0' <= c <= '9'
  }

  function DigitValue(c: char): nat
    requires IsDigit(c)
  {
    (c - '0') as nat
  }

  /** The value of a non-empty string of digits. */
  function NatValue(s: string): Option<nat> {
    if s == "" then None
    else if !IsDigit(s[|s| - 1]) then None
    else if |s| == 1 then Some(DigitValue(s[0]))
    else
      match NatValue(s[..|s| - 1])
      case None => None
      case Some(v) => Some(10 * v + DigitValue(s[|s| - 1]))
  }

  /** strconv.ParseInt and ParseUint in base 10; None stands for a syntax or range error. */
  function ParseInteger(s: string, k: Kind): Option<int> {
    var negative := s != "" && s[0] == '-';
    var signed := s != "" && (s[0] == '-' || s[0] == '+');
    if signed && Unsigned(k) then None
    else
      match NatValue(if signed then s[1..] else s)
      case None => None
      case Some(v) =>
        var n: int := if negative then 0 - v else v;
        if Fits(n, k) then Some(n) else None
  }

  lemma {:induction false} DigitsParse(n: nat)
    ensures NatValue(Digits(n)) == Some(n)
    ensures IsDigit(Digits(n)[0])
  {
    if n >= 10 {
      DigitsParse(n / 10);
      assert Digits(n)[..|Digits(n)| - 1] == Digits(n / 10);
    }
  }

  lemma DigitsUnsigned(n: nat)
    ensures Digits(n) != "" && Digits(n)[0] != '-' && Digits(n)[0] != '+'
  {
    DigitsParse(n);
  }

  lemma UnsignedRead(m: nat, k: Kind)
    ensures ParseInteger(Digits(m), k) == if Fits(m, k) then Some(m) else None
  {
    DigitsParse(m);
    DigitsUnsigned(m);
  }

  /** A minus sign before digits. */
  lemma MinusRead(s: string, digits: string, m: nat, k: Kind)
    requires s == "-" + digits && NatValue(digits) == Some(m) && m > 0
    ensures ParseInteger(s, k) == if Fits(0 - m, k) then Some(0 - m) else None
  {
    assert s[0] == '-' && s[1..] == digits;
    assert Fits(0 - m, k) ==> !Unsigned(k);
  }

  /** A numeral of an integer is read as that integer if it fits, and not at all otherwise. */
  lemma DecimalParses(n: int, k: Kind)
    requires IsInteger(k)
    ensures ParseInteger(Decimal(n), k) == if Fits(n, k) then Some(n) else None
  {
    if n < 0 {
      DigitsParse(-n);
      MinusRead("-" + Digits(-n), Digits(-n), -n, k);
    } else {
      UnsignedRead(n, k);
    }
  }

  // ------------------------------------------------------------ leaves

  /** What strconv.ParseFloat reads as an infinity or as NaN. */
  predicate NonFiniteText(s: string) {
    Lowered(s) in {"nan", "inf", "+inf", "-inf", "infinity", "+infinity", "-infinity"}
  }

  function ParseNumber(s: string, k: Kind, lib: Library): Value {
    if IsInteger(k) then
      (match ParseInteger(s, k)
       case Some(n) => Num(k, n)
       case None => Num(k, 0))
    else if NonFiniteText(s) then NonFinite(k)
    else
      match lib.parseFloat(s, k)
      case Some(r) => Flt(k, r)
      case None => Flt(k, 0.0)
  }

  function ToBool(v: Value): Option<bool> {
    match v
    case Bool(b) => Some(b)
    case Str(s) =>
      var word := Lowered(TrimSpace(s));
      if word in {"true", "1", "yes", "y", "on"} then Some(true)
      else if word in {"false", "0", "no", "n", "off", ""} then Some(false)
      else None
    case Num(_, n) => Some(n != 0)
    case Flt(_, r) => Some(r != 0.0)
    case NonFinite(_) => Some(true)
    case _ => None
  }

  function ConvertToString(v: Value, lib: Library): string {
    match v
    case Str(s) => s
    case Flt(Float64, r) =>
      if Truncate(r) as real == r && Fits(Truncate(r), Int64) then Decimal(Truncate(r)) else lib.formatFloat(r)
    case Bool(b) => if b then "true" else "false"
    case Null => ""
    case Num(_, n) => Decimal(n)
    case _ => lib.sprint(v)
  }

  // ------------------------------------------------------------ struct fields

  /** The name before the first comma of a tag. */
  function TagName(tag: string): string {
    Split(tag, ',')[0]
  }

  /** The index of the first tagged field of that name, or the number of fields. */
  function FieldIndex(fields: seq<Field>, key: string): (i: nat)
    ensures i <= |fields|
    ensures i < |fields| ==> fields[i].tag != "" && TagName(fields[i].tag) == key
    ensures forall j :: 0 <= j < i ==> fields[j].tag == "" || TagName(fields[j].tag) != key
  {
    if fields == [] || (fields[0].tag != "" && TagName(fields[0].tag) == key) then 0
    else 1 + FieldIndex(fields[1..], key)
  }

  lemma {:induction false} TagNamePrefix(tag: string, i: nat)
    requires i <= |tag| && Free(',', tag[..i]) && (i == |tag| || tag[i] == ',')
    ensures TagName(tag) == tag[..i]
  {
    if i == |tag| {
      assert tag[..i] == tag;
      SplitFree(tag, ',');
    } else {
      assert tag == tag[..i] + [','] + tag[i + 1..];
      SplitHead(tag[..i], tag[i + 1..], ',');
    }
  }

  /** The inner loop: removes options like ",omitempty". */
  method CutOptions(tag: string) returns (name: string)
    ensures name == TagName(tag)
  {
    for j := 0 to |tag|
      invariant Free(',', tag[..j])
    {
      if tag[j] == ',' {
        TagNamePrefix(tag, j);
        return tag[..j];
      }
      assert tag[..j + 1] == tag[..j] + [tag[j]];
    }
    assert tag[..|tag|] == tag;
    TagNamePrefix(tag, |tag|);
    name := tag;
  }

  method FindFieldByJSONTag(fields: seq<Field>, key: string) returns (f: Option<Field>)
    ensures f == if FieldIndex(fields, key) < |fields| then Some(fields[FieldIndex(fields, key)]) else None
  {
    for i := 0 to |fields|
      invariant FieldIndex(fields, key) == i + FieldIndex(fields[i..], key)
    {
      assert fields[i..][1..] == fields[i + 1..];
      var tag := fields[i].tag;
      if tag == "" {
        continue;
      }
      var tagName := CutOptions(tag);
      if tagName == key {
        return Some(fields[i]);
      }
    }
    f := None;
  }

  function FieldsOf(types: StructTypes, name: string): seq<Field> {
    if name in types then types[name] else []
  }

  // ------------------------------------------------------------ the conversion

  /** The element type if arrays are to be converted element by element. */
  function ElementType(t: Type): Option<Type> {
    match t
    case TSlice(e) => Some(e)
    case TPtr(TSlice(e)) => Some(e)
    case _ => None
  }

  function ConvertValue(v: Value, t: Type, types: StructTypes, lib: Library): Value
    decreases v, 0
  {
    if v.Null? then Null
    else if t.TString? then Str(ConvertToString(v, lib))
    else if t.TBool? then (if ToBool(v).Some? then Bool(ToBool(v).value) else v)
    else if t.TNum? && v.Str? then ParseNumber(v.s, t.kind, lib)
    else if t.TNum? && IsInteger(t.kind) && v.Num? then Num(t.kind, Detour(v.n, t.kind, lib))
    else if t.TNum? && IsInteger(t.kind) && v.Flt? then Num(t.kind, FloatToInteger(v.r, t.kind, lib))
    else if t.TNum? && IsInteger(t.kind) && v.NonFinite? then Num(t.kind, lib.outOfRange(v, t.kind))
    else if ElementType(t).Some? && v.Arr? then
      Arr(seq(|v.items|, i requires 0 <= i < |v.items| => ConvertValue(v.items[i], ElementType(t).value, types, lib)))
    else if t.TStruct? && v.Obj? then
      Obj(map k | k in v.fields :: ConvertField(v.fields[k], k, FieldsOf(types, t.name), types, lib))
    else v
  }

  /** One entry of an object: converted if the struct has a field for it, and kept as it is otherwise. */
  function ConvertField(v: Value, key: string, fields: seq<Field>, types: StructTypes, lib: Library): Value
    decreases v, 1
  {
    var i := FieldIndex(fields, key);
    if i < |fields| then ConvertValue(v, fields[i].typ, types, lib) else v
  }

  method ConvertMapToStruct(data: map<string, Value>, name: string, types: StructTypes, lib: Library)
    returns (result: map<string, Value>)
    ensures Obj(result) == ConvertValue(Obj(data), TStruct(name), types, lib)
  {
    result := map[];
    var todo := data.Keys;
    while todo != {}
      invariant todo <= data.Keys && result.Keys == data.Keys - todo
      invariant forall k :: k in result ==> result[k] == ConvertField(data[k], k, FieldsOf(types, name), types, lib)
      decreases todo
    {
      var key :| key in todo;
      var field := FindFieldByJSONTag(FieldsOf(types, name), key);
      if field.Some? {
        result := result[key := ConvertValue(data[key], field.value.typ, types, lib)];
      } else {
        result := result[key := data[key]];
      }
      todo := todo - {key};
    }
    assert result == map k | k in data :: ConvertField(data[k], k, FieldsOf(types, name), types, lib);
  }

  method ConvertSlice(items: seq<Value>, t: Type, types: StructTypes, lib: Library) returns (result: seq<Value>)
    requires ElementType(t).Some?
    ensures Arr(result) == ConvertValue(Arr(items), t, types, lib)
  {
    result := [];
    for i := 0 to |items|
      invariant |result| == i
      invariant forall k :: 0 <= k < i ==> result[k] == ConvertValue(items[k], ElementType(t).value, types, lib)
    {
      result := result + [ConvertValue(items[i], ElementType(t).value, types, lib)];
    }
    assert result == ConvertValue(Arr(items), t, types, lib).items;
  }

  // ------------------------------------------------------------ what is kept

  /** A number of this kind. */
  predicate NumberOf(v: Value, k: Kind) {
    (v.Num? || v.Flt? || v.NonFinite?) && v.kind == k
  }

  /** w is v as type t asks for it. Nulls stay nulls and nothing becomes one; anything becomes text for a text type, and
      a text or a number becomes a number of an integer kind. Unless text is asked for, a list stays a list of the same
      length, converted element by element or else unchanged, and an object an object with the same keys, converted
      field by field or else unchanged. */
  ghost predicate KeepsShape(v: Value, w: Value, t: Type, types: StructTypes)
    decreases v, 0
  {
    && (v.Null? <==> w.Null?)
    && (t.TString? && !v.Null? ==> w.Str?)
    && (t.TNum? && (v.Str? || (IsInteger(t.kind) && (v.Num? || v.Flt? || v.NonFinite?))) ==> NumberOf(w, t.kind))
    && (v.Arr? && !t.TString? ==>
          match ElementType(t)
          case None => w == v
          case Some(e) =>
            w.Arr? && |w.items| == |v.items|
            && forall i :: 0 <= i < |v.items| ==> KeepsShape(v.items[i], w.items[i], e, types))
    && (v.Obj? && !t.TString? ==>
          if t.TStruct? then
            w.Obj? && w.fields.Keys == v.fields.Keys
            && forall k :: k in v.fields ==> FieldKept(v.fields[k], w.fields[k], k, FieldsOf(types, t.name), types)
          else w == v)
  }

  /** An entry that no field is found for is unchanged. */
  ghost predicate FieldKept(v: Value, w: Value, key: string, fields: seq<Field>, types: StructTypes)
    decreases v, 1
  {
    var i := FieldIndex(fields, key);
    if i < |fields| then KeepsShape(v, w, fields[i].typ, types) else w == v
  }

  lemma {:induction false} ConvertKeepsShape(v: Value, t: Type, types: StructTypes, lib: Library)
    ensures KeepsShape(v, ConvertValue(v, t, types, lib), t, types)
    decreases v, 0
  {
    var w := ConvertValue(v, t, types, lib);
    if v.Arr? && ElementType(t).Some? {
      var e := ElementType(t).value;
      forall i | 0 <= i < |v.items| ensures KeepsShape(v.items[i], w.items[i], e, types) {
        ConvertKeepsShape(v.items[i], e, types, lib);
      }
    } else if v.Obj? && t.TStruct? {
      var fields := FieldsOf(types, t.name);
      forall k | k in v.fields ensures FieldKept(v.fields[k], w.fields[k], k, fields, types) {
        assert w.fields[k] == ConvertField(v.fields[k], k, fields, types, lib);
        if FieldIndex(fields, k) < |fields| {
          ConvertKeepsShape(v.fields[k], fields[FieldIndex(fields, k)].typ, types, lib);
        }
      }
    }
  }

  // ------------------------------------------------------------ converting twice

  /** What may be asked of a value that meets an integer kind. Stable: the integer it gives comes through the float64
      detour unchanged. InRange: its float64 neighbour is inside the kind. Exact: as the text of an integer it is one
      that float64 has. Small: as such a text its magnitude is at most 2^53. */
  datatype Check = Stable(lib: Library) | InRange | Exact | Small

  function Parsed(v: Value, k: Kind): Option<int> {
    if v.Str? then ParseInteger(v.s, k) else None
  }

  predicate Passes(c: Check, v: Value, k: Kind) {
    match c
    case Stable(lib) =>
      (match v
       case Str(s) => Parsed(v, k).Some? ==> Detour(Parsed(v, k).value, k, lib) == Parsed(v, k).value
       case Num(_, n) => Detour(Detour(n, k, lib), k, lib) == Detour(n, k, lib)
       case Flt(_, r) => Detour(FloatToInteger(r, k, lib), k, lib) == FloatToInteger(r, k, lib)
       case NonFinite(_) => Detour(lib.outOfRange(v, k), k, lib) == lib.outOfRange(v, k)
       case _ => true)
    case InRange =>
      (match v
       case Str(s) => Parsed(v, k).Some? ==> Fits(ToFloat64(Parsed(v, k).value), k)
       case Num(_, n) => Fits(ToFloat64(n), k)
       case Flt(_, r) => Fits(Truncate(r), k) && ToFloat64(Truncate(r)) == Truncate(r)
       case NonFinite(_) => false
       case _ => true)
    case Exact => Parsed(v, k).Some? ==> ToFloat64(Parsed(v, k).value) == Parsed(v, k).value
    case Small => Parsed(v, k).Some? ==> -EXACT <= Parsed(v, k).value <= EXACT
  }

  /** Every value that meets an integer kind, at any depth, passes. */
  predicate AllPass(c: Check, v: Value, t: Type, types: StructTypes)
    decreases v, 0
  {
    if t.TNum? then IsInteger(t.kind) ==> Passes(c, v, t.kind)
    else if ElementType(t).Some? && v.Arr? then
      forall i :: 0 <= i < |v.items| ==> AllPass(c, v.items[i], ElementType(t).value, types)
    else if t.TStruct? && v.Obj? then
      forall k :: k in v.fields ==> FieldPasses(c, v.fields[k], k, FieldsOf(types, t.name), types)
    else true
  }

  predicate FieldPasses(c: Check, v: Value, key: string, fields: seq<Field>, types: StructTypes)
    decreases v, 1
  {
    var i := FieldIndex(fields, key);
    i < |fields| ==> AllPass(c, v, fields[i].typ, types)
  }

  /** Converting twice is converting once exactly when every integer produced survives the detour. */
  lemma {:induction false} IdempotentIffStable(v: Value, t: Type, types: StructTypes, lib: Library)
    ensures var once := ConvertValue(v, t, types, lib);
            ConvertValue(once, t, types, lib) == once <==> AllPass(Stable(lib), v, t, types)
    decreases v, 2
  {
    var once := ConvertValue(v, t, types, lib);
    if ElementType(t).Some? && v.Arr? {
      IdempotentArray(v, t, types, lib);
    } else if t.TStruct? && v.Obj? {
      IdempotentObject(v, t, types, lib);
    } else if t.TNum? && IsInteger(t.kind) {
      ExactUpTo(0);
    }
  }

  lemma {:induction false} IdempotentArray(v: Value, t: Type, types: StructTypes, lib: Library)
    requires ElementType(t).Some? && v.Arr?
    ensures var once := ConvertValue(v, t, types, lib);
            ConvertValue(once, t, types, lib) == once <==> AllPass(Stable(lib), v, t, types)
    decreases v, 1
  {
    var e := ElementType(t).value;
    var once := ConvertValue(v, t, types, lib);
    var twice := ConvertValue(once, t, types, lib);
    forall i | 0 <= i < |v.items|
      ensures twice.items[i] == once.items[i] <==> AllPass(Stable(lib), v.items[i], e, types)
    {
      IdempotentIffStable(v.items[i], e, types, lib);
    }
  }

  lemma {:induction false} IdempotentObject(v: Value, t: Type, types: StructTypes, lib: Library)
    requires t.TStruct? && v.Obj?
    ensures var once := ConvertValue(v, t, types, lib);
            ConvertValue(once, t, types, lib) == once <==> AllPass(Stable(lib), v, t, types)
    decreases v, 1
  {
    var fields := FieldsOf(types, t.name);
    var once := ConvertValue(v, t, types, lib);
    var twice := ConvertValue(once, t, types, lib);
    assert twice.fields.Keys == once.fields.Keys == v.fields.Keys;
    forall k | k in v.fields
      ensures twice.fields[k] == once.fields[k] <==> FieldPasses(Stable(lib), v.fields[k], k, fields, types)
    {
      assert once.fields[k] == ConvertField(v.fields[k], k, fields, types, lib);
      assert twice.fields[k] == ConvertField(once.fields[k], k, fields, types, lib);
      var i := FieldIndex(fields, k);
      if i < |fields| {
        IdempotentIffStable(v.fields[k], fields[i].typ, types, lib);
      }
    }
  }

  lemma ChecksAgree(v: Value, k: Kind, lib: Library)
    requires IsInteger(k)
    ensures Passes(InRange, v, k) ==> (Passes(Stable(lib), v, k) <==> Passes(Exact, v, k))
    ensures Passes(Small, v, k) ==> Passes(Exact, v, k)
  {
    match v
    case Num(_, n) => NumberChecksAgree(v, k, lib);
    case Flt(_, r) =>
      if Passes(InRange, v, k) {
        DetourInside(Truncate(r), k, lib);
      }
    case Str(s) => TextChecksAgree(v, k, lib);
    case _ =>
  }

  /** The detour of an integer whose neighbour is inside the kind ends at that neighbour. */
  lemma DetourInside(n: int, k: Kind, lib: Library)
    requires Fits(ToFloat64(n), k)
    ensures Detour(n, k, lib) == ToFloat64(n)
  {
    assert Truncate(ToFloat64(n) as real) == ToFloat64(n);
  }

  lemma NumberChecksAgree(v: Value, k: Kind, lib: Library)
    requires IsInteger(k) && v.Num?
    ensures Passes(InRange, v, k) ==> Passes(Stable(lib), v, k)
  {
    if Passes(InRange, v, k) {
      ToFloat64Idempotent(v.n);
      DetourInside(v.n, k, lib);
      DetourInside(ToFloat64(v.n), k, lib);
    }
  }

  lemma TextChecksAgree(v: Value, k: Kind, lib: Library)
    requires IsInteger(k) && v.Str?
    ensures Passes(InRange, v, k) ==> (Passes(Stable(lib), v, k) <==> Passes(Exact, v, k))
    ensures Passes(Small, v, k) ==> Passes(Exact, v, k)
  {
    if Parsed(v, k).Some? {
      if Passes(InRange, v, k) {
        DetourInside(Parsed(v, k).value, k, lib);
      }
      if Passes(Small, v, k) {
        ExactUpTo(Parsed(v, k).value);
      }
    }
  }

  /** The checks agree at every depth if they agree wherever an integer kind is met. */
  lemma {:induction false} AllChecksAgree(v: Value, t: Type, types: StructTypes, lib: Library)
    ensures AllPass(InRange, v, t, types) ==> (AllPass(Stable(lib), v, t, types) <==> AllPass(Exact, v, t, types))
    ensures AllPass(Small, v, t, types) ==> AllPass(Exact, v, t, types)
    decreases v, 1
  {
    if t.TNum? {
      if IsInteger(t.kind) {
        ChecksAgree(v, t.kind, lib);
      }
    } else if ElementType(t).Some? && v.Arr? {
      var e := ElementType(t).value;
      forall i | 0 <= i < |v.items|
        ensures AllPass(InRange, v.items[i], e, types) ==>
                  (AllPass(Stable(lib), v.items[i], e, types) <==> AllPass(Exact, v.items[i], e, types))
        ensures AllPass(Small, v.items[i], e, types) ==> AllPass(Exact, v.items[i], e, types)
      {
        AllChecksAgree(v.items[i], e, types, lib);
      }
    } else if t.TStruct? && v.Obj? {
      FieldChecksAgree(v, t.name, types, lib);
    }
  }

  lemma {:induction false} FieldChecksAgree(v: Value, name: string, types: StructTypes, lib: Library)
    requires v.Obj?
    ensures var t := TStruct(name);
            && (AllPass(InRange, v, t, types) ==> (AllPass(Stable(lib), v, t, types) <==> AllPass(Exact, v, t, types)))
            && (AllPass(Small, v, t, types) ==> AllPass(Exact, v, t, types))
    decreases v, 0
  {
    var fields := FieldsOf(types, name);
    forall k | k in v.fields
      ensures FieldPasses(InRange, v.fields[k], k, fields, types) ==>
                (FieldPasses(Stable(lib), v.fields[k], k, fields, types)
                 <==> FieldPasses(Exact, v.fields[k], k, fields, types))
      ensures FieldPasses(Small, v.fields[k], k, fields, types) ==> FieldPasses(Exact, v.fields[k], k, fields, types)
    {
      var i := FieldIndex(fields, k);
      if i < |fields| {
        AllChecksAgree(v.fields[k], fields[i].typ, types, lib);
      }
    }
  }

  /** For every value and type: if all numbers are in range of the kinds they meet, converting twice is converting
      once if and only if every integer given as text is one that float64 has. */
  lemma IdempotentIffExact(v: Value, t: Type, types: StructTypes, lib: Library)
    requires AllPass(InRange, v, t, types)
    ensures var once := ConvertValue(v, t, types, lib);
            ConvertValue(once, t, types, lib) == once <==> AllPass(Exact, v, t, types)
  {
    IdempotentIffStable(v, t, types, lib);
    AllChecksAgree(v, t, types, lib);
  }

  /** In particular for numbers in range and texts of integers up to 2^53. */
  lemma TwiceIsOnce(v: Value, t: Type, types: StructTypes, lib: Library)
    requires AllPass(InRange, v, t, types) && AllPass(Small, v, t, types)
    ensures var once := ConvertValue(v, t, types, lib);
            ConvertValue(once, t, types, lib) == once
  {
    IdempotentIffExact(v, t, types, lib);
    AllChecksAgree(v, t, types, lib);
  }

  /** Just above it idempotence fails: the string "9007199254740993" gives that integer, and converting again
      gives its even neighbour. */
  lemma NotIdempotentAbove(types: StructTypes, lib: Library)
    ensures var v, t := Str(Decimal(EXACT + 1)), TNum(Int64);
            && ConvertValue(v, t, types, lib) == Num(Int64, EXACT + 1)
            && ConvertValue(Num(Int64, EXACT + 1), t, types, lib) == Num(Int64, EXACT)
  {
    DecimalParses(EXACT + 1, Int64);
    FirstInexact();
  }

  // ------------------------------------------------------------ the way through text

  /** A scalar that is what the target kind can hold exactly. */
  predicate ScalarOf(v: Value, t: Type) {
    (t.TBool? && v.Bool?)
    || (t.TNum? && IsInteger(t.kind) && v.Num? && -EXACT <= v.n <= EXACT && Fits(v.n, t.kind))
    || (t.TNum? && IsInteger(t.kind) && v.Flt? && v.kind.Float64?
        && Truncate(v.r) as real == v.r && Fits(Truncate(v.r), t.kind) && Fits(Truncate(v.r), Int64))
  }

  /** Converting a scalar to text and then to its kind is converting it directly. */
  lemma ThroughText(v: Value, t: Type, types: StructTypes, lib: Library)
    requires ScalarOf(v, t)
    ensures ConvertValue(ConvertValue(v, TString, types, lib), t, types, lib) == ConvertValue(v, t, types, lib)
  {
    if v.Bool? {
      BoolText(v.b);
    } else {
      var n := if v.Num? then v.n else Truncate(v.r);
      NumeralRead(n, t.kind, types, lib);
      if v.Num? {
        ExactDetour(n, t.kind, lib);
      }
    }
  }

  lemma NumeralRead(n: int, k: Kind, types: StructTypes, lib: Library)
    requires IsInteger(k) && Fits(n, k)
    ensures ConvertValue(Str(Decimal(n)), TNum(k), types, lib) == Num(k, n)
  {
    DecimalParses(n, k);
  }

  lemma ExactDetour(n: int, k: Kind, lib: Library)
    requires -EXACT <= n <= EXACT && Fits(n, k)
    ensures Detour(n, k, lib) == n
  {
    ExactUpTo(n);
    assert Truncate(n as real) == n;
  }

  lemma BoolText(b: bool)
    ensures ToBool(Str(if b then "true" else "false")) == Some(b)
  {
    var s := if b then "true" else "false";
    TrimTrimmed(s);
    assert Lowered(s) == s;
  }

  // ------------------------------------------------------------ what the scalar conversions give

  /** A number becomes true exactly if it is not zero. */
  lemma NumbersToBool(k: Kind, n: int, r: real, types: StructTypes, lib: Library)
    ensures ConvertValue(Num(k, n), TBool, types, lib) == Bool(n != 0)
    ensures ConvertValue(Flt(k, r), TBool, types, lib) == Bool(r != 0.0)
    ensures ConvertValue(NonFinite(k), TBool, types, lib) == Bool(true)
  {
  }

  /** w with white space around it, and in any casing. */
  predicate Reads(s: string, w: string) {
    exists i, j :: 0 <= i <= j <= |s| && Blank(s[..i]) && Blank(s[j..]) && AnyCasing(s[i..j], w)
  }

  lemma CasingTrimmed(s: string, w: string)
    requires AnyCasing(s, w) && Trimmed(w)
    ensures Trimmed(s)
  {
  }

  lemma ReadsIff(s: string, w: string)
    requires NoCapitals(w) && Trimmed(w)
    ensures Lowered(TrimSpace(s)) == w <==> Reads(s, w)
  {
    LoweredIff(TrimSpace(s), w);
    var i, j := TrimmedSlice(s);
    assert Lowered(TrimSpace(s)) == w ==> AnyCasing(s[i..j], w);
    if i, j :| 0 <= i <= j <= |s| && Blank(s[..i]) && Blank(s[j..]) && AnyCasing(s[i..j], w) {
      CasingTrimmed(s[i..j], w);
      SliceTrimmed(s, i, j);
    }
  }

  /** One of these words is read. */
  predicate ReadsOne(s: string, words: set<string>) {
    exists w :: w in words && Reads(s, w)
  }

  predicate PlainWords(words: set<string>) {
    forall w :: w in words ==> NoCapitals(w) && Trimmed(w)
  }

  lemma ReadsOneIff(s: string, words: set<string>)
    requires PlainWords(words)
    ensures Lowered(TrimSpace(s)) in words <==> ReadsOne(s, words)
  {
    forall w | w in words ensures Lowered(TrimSpace(s)) == w <==> Reads(s, w) {
      ReadsIff(s, w);
    }
  }

  const YES: set<string> := {"true", "1", "yes", "y", "on"}
  const NO: set<string> := {"false", "0", "no", "n", "off", ""}

  lemma PlainBoolWords()
    ensures PlainWords(YES) && PlainWords(NO)
  {
  }

  /** A text becomes a bool exactly if it reads as one of five words for true or six for false, in any casing and
      with white space around it; every other text stays as it is. */
  lemma TextToBool(s: string, types: StructTypes, lib: Library)
    ensures ConvertValue(Str(s), TBool, types, lib)
         == if ReadsOne(s, YES) then Bool(true) else if ReadsOne(s, NO) then Bool(false) else Str(s)
  {
    PlainBoolWords();
    ReadsOneIff(s, YES);
    ReadsOneIff(s, NO);
    assert ToBool(Str(s)) == if Lowered(TrimSpace(s)) in YES then Some(true)
                             else if Lowered(TrimSpace(s)) in NO then Some(false) else None;
  }

  /** Zero and one become the same bool as text, as a float64 and as an integer of any kind. */
  lemma ZeroAndOne(n: int, k: Kind, types: StructTypes, lib: Library)
    requires n in {0, 1}
    ensures ConvertValue(Str(Decimal(n)), TBool, types, lib) == Bool(n == 1)
    ensures ConvertValue(Flt(Float64, n as real), TBool, types, lib) == Bool(n == 1)
    ensures ConvertValue(Num(k, n), TBool, types, lib) == Bool(n == 1)
  {
    TrimTrimmed(Decimal(n));
    assert Decimal(0) == "0" && Decimal(1) == "1";
    assert Lowered(Decimal(n)) == Decimal(n);
  }

  /** An entry of an object is converted to the type of the first field of its name. */
  lemma EntryConverted(m: map<string, Value>, key: string, name: string, types: StructTypes, lib: Library, i: nat)
    requires key in m && i < |FieldsOf(types, name)|
    requires FieldsOf(types, name)[i].tag != "" && TagName(FieldsOf(types, name)[i].tag) == key
    requires forall j :: 0 <= j < i ==>
               FieldsOf(types, name)[j].tag == "" || TagName(FieldsOf(types, name)[j].tag) != key
    ensures var w := ConvertValue(Obj(m), TStruct(name), types, lib);
            w.Obj? && key in w.fields
            && w.fields[key] == ConvertValue(m[key], FieldsOf(types, name)[i].typ, types, lib)
  {
    var ts := FieldsOf(types, name);
    assert FieldIndex(ts, key) == i;
    assert ConvertValue(Obj(m), TStruct(name), types, lib).fields[key] == ConvertField(m[key], key, ts, types, lib);
  }

  /** As text, a text stays as it is, an integer becomes its numeral, and composite values are left to the library. */
  lemma TextOf(v: Value, types: StructTypes, lib: Library)
    ensures var w := ConvertValue(v, TString, types, lib);
            && (v.Str? ==> w == v)
            && (v.Bool? ==> w == Str(if v.b then "true" else "false"))
            && (v.Num? ==> w == Str(Decimal(v.n)))
            && ((v.Flt? && v.kind.Float32?) || v.NonFinite? || v.Arr? || v.Obj? ==> w == Str(lib.sprint(v)))
  {
  }

  /** A float64 that is an int64 becomes its numeral; any other is printed by the library. */
  lemma TextOfWhole(n: int, types: StructTypes, lib: Library)
    ensures ConvertValue(Flt(Float64, n as real), TString, types, lib)
         == Str(if Fits(n, Int64) then Decimal(n) else lib.formatFloat(n as real))
  {
    assert Truncate(n as real) == n;
  }

  lemma TextOfFraction(r: real, types: StructTypes, lib: Library)
    requires r.Floor as real != r
    ensures ConvertValue(Flt(Float64, r), TString, types, lib) == Str(lib.formatFloat(r))
  {
    assert Truncate(r) as real != r;
  }

  /** A number with a fraction is cut off towards zero. */
  lemma FractionCutOff(kind: Kind, r: real, m: int, k: Kind, types: StructTypes, lib: Library)
    requires IsInteger(k) && Fits(m, k)
    requires if r >= 0.0 then 0.0 <= m as real <= r < m as real + 1.0 else m as real - 1.0 < r <= m as real <= 0.0
    ensures ConvertValue(Flt(kind, r), TNum(k), types, lib) == Num(k, m)
  {
    TruncatesTowardsZero(r);
  }

  /** The ranges of the kinds. */
  lemma Ranges()
    ensures Lo(Int8) == -128 && Hi(Int8) == 127 && Lo(Uint8) == 0 && Hi(Uint8) == 255
    ensures Lo(Int16) == -32768 && Hi(Int16) == 32767 && Lo(Uint16) == 0 && Hi(Uint16) == 65535
    ensures Lo(Int32) == -2147483648 && Hi(Int32) == 2147483647 && Lo(Uint32) == 0 && Hi(Uint32) == 4294967295
    ensures Lo(Int64) == Lo(Int) == -9223372036854775808 && Hi(Int64) == Hi(Int) == 9223372036854775807
    ensures Lo(Uint64) == Lo(Uint) == 0 && Hi(Uint64) == Hi(Uint) == 18446744073709551615
  {
  }

  lemma {:induction false} DigitsOnly(s: string)
    requires NatValue(s).Some?
    ensures forall i :: 0 <= i < |s| ==> '0' <= s[i] <= '9'
  {
    if |s| > 1 {
      DigitsOnly(s[..|s| - 1]);
    }
  }

  lemma NotDigits(s: string, i: nat)
    requires i < |s| && !('0' <= s[i] <= '9')
    ensures NatValue(s).None?
  {
    if NatValue(s).Some? {
      DigitsOnly(s);
    }
  }

  lemma {:induction false} LeadingZero(s: string)
    requires NatValue(s).Some?
    ensures NatValue("0" + s) == NatValue(s)
  {
    var z := "0" + s;
    if |s| == 1 {
      assert z[..1] == "0" && z[1] == s[0];
      assert NatValue("0") == Some(0);
    } else {
      assert z[..|z| - 1] == "0" + s[..|s| - 1] && z[|z| - 1] == s[|s| - 1];
      LeadingZero(s[..|s| - 1]);
    }
  }

  /** Texts that are no integer of the kind become 0: numerals out of its range, and whatever has something other than
      digits behind its first character, or has nothing but a sign. */
  lemma UnreadableIsZero(s: string, k: Kind, types: StructTypes, lib: Library)
    requires IsInteger(k)
    requires s in {"", "-", "+"} || exists i :: 1 <= i < |s| && !('0' <= s[i] <= '9')
    ensures ConvertValue(Str(s), TNum(k), types, lib) == Num(k, 0)
  {
    if i :| 1 <= i < |s| && !('0' <= s[i] <= '9') {
      NotDigits(s, i);
      assert s[1..][i - 1] == s[i];
      NotDigits(s[1..], i - 1);
    }
  }

  lemma OutOfRangeIsZero(n: int, k: Kind, types: StructTypes, lib: Library)
    requires IsInteger(k) && !Fits(n, k)
    ensures ConvertValue(Str(Decimal(n)), TNum(k), types, lib) == Num(k, 0)
  {
    DecimalParses(n, k);
  }

  /** A plus sign is read by signed kinds only. */
  lemma PlusSign(n: nat, k: Kind, types: StructTypes, lib: Library)
    requires IsInteger(k)
    ensures ConvertValue(Str("+" + Digits(n)), TNum(k), types, lib)
         == Num(k, if Lo(k) < 0 && Fits(n, k) then n else 0)
  {
    DigitsParse(n);
    var s := "+" + Digits(n);
    assert s[0] == '+' && s[1..] == Digits(n);
  }

  const NON_FINITE: set<string> := {"nan", "inf", "+inf", "-inf", "infinity", "+infinity", "-infinity"}

  /** For a floating-point kind a text is read by the library, unless it names an infinity or NaN in any casing; what
      cannot be read becomes 0. */
  lemma TextToFloat(s: string, k: Kind, types: StructTypes, lib: Library)
    requires !IsInteger(k)
    ensures ConvertValue(Str(s), TNum(k), types, lib)
         == if exists w :: w in NON_FINITE && AnyCasing(s, w) then NonFinite(k)
            else if lib.parseFloat(s, k).Some? then Flt(k, lib.parseFloat(s, k).value)
            else Flt(k, 0.0)
  {
    forall w | w in NON_FINITE ensures Lowered(s) == w <==> AnyCasing(s, w) {
      LoweredIff(s, w);
    }
  }

  // ------------------------------------------------------------ the nearest float64

  function Abs(n: int): nat {
    if n < 0 then -n else n
  }

  lemma {:induction false} PowersGrow(d: nat, e: nat)
    requires d < e
    ensures 2 * Pow2(d) <= Pow2(e)
  {
    if d + 1 < e {
      PowersGrow(d, e - 1);
    }
  }

  /** Rounding goes to the nearer of the two multiples of p around n. */
  lemma RoundsToNearer(n: nat, p: nat) returns (q: nat)
    requires p >= 1
    ensures q * p <= n < (q + 1) * p
    ensures RoundTo(n, p) in {q * p, (q + 1) * p}
    ensures Abs(RoundTo(n, p) - n) <= n - q * p && Abs(RoundTo(n, p) - n) <= (q + 1) * p - n
  {
    q := n / p;
    assert n == q * p + n % p;
    assert (q + 1) * p == q * p + p;
  }

  /** The spacing is determined by where a number lies. */
  lemma SpacingIs(m: nat, e: nat)
    requires m < EXACT * Pow2(e) && (e == 0 || EXACT / 2 * Pow2(e) <= m)
    ensures Spacing(m) == Pow2(e)
  {
    var d := SpacingBracket(m);
    if d < e {
      PowersGrow(d, e);
    } else if e < d {
      PowersGrow(e, d);
    }
  }

  /** No float64 lies strictly between two neighbouring multiples of the spacing around n. */
  lemma NoneBetween(n: nat, e: nat, q: nat, m: nat)
    requires n < EXACT * Pow2(e) && (e == 0 || EXACT / 2 * Pow2(e) <= n)
    requires q * Pow2(e) <= n < (q + 1) * Pow2(e) && q * Pow2(e) < m < (q + 1) * Pow2(e)
    ensures RoundTo(m, Spacing(m)) != m
  {
    var p := Pow2(e);
    Monotone(EXACT, q, p);
    Monotone(q + 1, EXACT, p);
    if e > 0 {
      Monotone(q + 1, EXACT / 2, p);
    }
    assert q < EXACT && (e > 0 ==> EXACT / 2 <= q);
    if e > 0 {
      Monotone(EXACT / 2, q, p);
    }
    SpacingIs(m, e);
    var k := Quotient(m, p);
    Monotone(k, q, p);
    Monotone(q + 1, k, p);
  }

  lemma NearestNat(n: nat, m: int)
    requires ToFloat64(m) == m
    ensures Abs(ToFloat64(n) - n) <= Abs(m - n)
  {
    var e := SpacingBracket(n);
    var q := RoundsToNearer(n, Pow2(e));
    if q * Pow2(e) < m < (q + 1) * Pow2(e) {
      NoneBetween(n, e, q, m);
    }
  }

  /** Rounding to float64 gives a number that none of float64 is nearer than. */
  lemma NearestFloat(n: int, m: int)
    requires ToFloat64(m) == m
    ensures Abs(ToFloat64(n) - n) <= Abs(m - n)
  {
    if n >= 0 {
      NearestNat(n, m);
    } else {
      NearestNat(-n, -m);
    }
  }

  /** Of two that are equally near it takes the even one: 2^53 + 1 goes down and 2^53 + 3 goes up. */
  lemma TiesToEven()
    ensures ToFloat64(EXACT + 1) == EXACT && ToFloat64(EXACT + 3) == EXACT + 4
  {
    FirstInexact();
    assert Spacing(EXACT + 3) == 2 * Spacing((EXACT + 3) / 2);
    assert (EXACT + 3) / 2 == EXACT / 2 + 1 && (EXACT + 3) % 2 == 1;
    assert (EXACT / 2 + 1) % 2 == 1 && (EXACT / 2 + 2) * 2 == EXACT + 4;
  }
}
