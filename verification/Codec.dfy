/** Encoding a struct into a map (structToMap, core/utils.go) and filling a zero struct from the result (Record.Fill,
    core/serde.go, through core/flexible_unmarshal.go). encoding/json is a library: its part is stated here as the
    functions Encode(true, ...) and Decode. */
module Codec {
  import opened Basics
  import opened Texts
  import opened Convert
  import opened Values

  /** A Go value of one of the types below. */
  datatype Go =
    | GBool(b: bool)
    | GInt(n: int)
    | GFloat(r: real)
    | GStr(s: string)
    | GNilSlice
    | GSlice(items: seq<Go>)
    | GNilPtr
    | GPtr(target: Go)
    | GStruct(fields: seq<Go>)

  // ------------------------------------------------------------ tags

  /** parseJSONTag. */
  function OmitEmpty(tag: string): bool {
    exists i :: 1 <= i < |Split(tag, ',')| && TrimSpace(Split(tag, ',')[i]) == "omitempty"
  }

  method ParseJSONTag(tag: string) returns (name: string, omitEmpty: bool)
    ensures name == TagName(tag) && omitEmpty == OmitEmpty(tag)
  {
    if tag == "" {
      return "", false;
    }
    var parts := Split(tag, ',');
    name, omitEmpty := parts[0], false;
    for i := 1 to |parts|
      invariant !omitEmpty
      invariant forall j :: 1 <= j < i ==> TrimSpace(parts[j]) != "omitempty"
    {
      if TrimSpace(parts[i]) == "omitempty" {
        omitEmpty := true;
        break;
      }
    }
  }

  const OMITEMPTY := "omitempty"

  lemma OptionCounts(name: string, options: seq<string>, i: nat)
    requires Free(',', name) && forall j :: 0 <= j < |options| ==> Free(',', options[j])
    requires i < |options| && TrimSpace(options[i]) == OMITEMPTY
    ensures OmitEmpty(Join([name] + options, ','))
  {
    var parts := [name] + options;
    SplitJoin(parts, ',');
    assert parts[i + 1] == options[i];
  }

  lemma OptionFound(name: string, options: seq<string>) returns (i: nat)
    requires Free(',', name) && forall j :: 0 <= j < |options| ==> Free(',', options[j])
    requires OmitEmpty(Join([name] + options, ','))
    ensures i < |options| && TrimSpace(options[i]) == OMITEMPTY
  {
    var parts := [name] + options;
    SplitJoin(parts, ',');
    var j :| 1 <= j < |parts| && TrimSpace(parts[j]) == "omitempty";
    i := j - 1;
    assert parts[j] == options[i];
  }

  /** The options of a tag after its name: omitempty is set exactly if one of them is this word, white space around it
      aside. */
  lemma OmitEmptyIff(name: string, options: seq<string>)
    requires Free(',', name) && forall i :: 0 <= i < |options| ==> Free(',', options[i])
    ensures OmitEmpty(Join([name] + options, ',')) <==>
            exists i :: 0 <= i < |options| && Padded(options[i], OMITEMPTY)
  {
    if OmitEmpty(Join([name] + options, ',')) {
      var i := OptionFound(name, options);
      PaddedIff(options[i], OMITEMPTY);
    }
    if i :| 0 <= i < |options| && Padded(options[i], OMITEMPTY) {
      PaddedIff(options[i], OMITEMPTY);
      OptionCounts(name, options, i);
    }
  }

  lemma JoinTwo(a: string, b: string)
    ensures Join([a] + [b], ',') == a + "," + b
  {
    assert ([a] + [b])[1..] == [b];
  }

  lemma JoinThree(a: string, b: string, c: string)
    ensures Join([a] + [b, c], ',') == a + "," + (b + "," + c)
  {
    assert ([a] + [b, c])[1..] == [b, c] && [b] + [c] == [b, c];
    JoinTwo(b, c);
  }

  /** For example. */
  lemma OmitEmptySet(name: string)
    requires Free(',', name)
    ensures OmitEmpty(name + ",omitempty")
  {
    TrimTrimmed(OMITEMPTY);
    OptionCounts(name, [OMITEMPTY], 0);
    JoinTwo(name, OMITEMPTY);
    assert name + "," + OMITEMPTY == name + ",omitempty";
  }

  lemma SecondOption(name: string, first: string, second: string)
    requires Free(',', name) && Free(',', first) && Free(',', second) && TrimSpace(second) == OMITEMPTY
    ensures OmitEmpty(name + "," + (first + "," + second))
  {
    OptionCounts(name, [first, second], 1);
    JoinThree(name, first, second);
  }

  lemma PaddedOption()
    ensures TrimSpace(" omitempty") == OMITEMPTY
  {
    TrimSpaceAround(" ", OMITEMPTY, "");
    assert " " + OMITEMPTY + "" == " omitempty";
  }

  lemma OmitEmptySetLater(name: string)
    requires Free(',', name)
    ensures OmitEmpty(name + ",string, omitempty")
  {
    PaddedOption();
    SecondOption(name, "string", " omitempty");
    assert name + "," + ("string" + "," + " omitempty") == name + ",string, omitempty";
  }

  lemma OmitEmptyNotSet(name: string)
    requires Free(',', name)
    ensures !OmitEmpty(name) && !OmitEmpty(name + ",string")
  {
    SplitFree(name, ',');
    JoinTwo(name, "string");
    assert name + "," + "string" == name + ",string";
    TrimTrimmed("string");
    if OmitEmpty(name + ",string") {
      var i := OptionFound(name, ["string"]);
    }
  }

  /** Every field has a name of its own to be encoded under. */
  predicate GoodTags(fields: seq<Field>) {
    && (forall i :: 0 <= i < |fields| ==> fields[i].tag != "" && TagName(fields[i].tag) !in {"", "-"})
    && (forall i, j :: 0 <= i < j < |fields| ==> TagName(fields[i].tag) != TagName(fields[j].tag))
  }

  predicate GoodTypes(types: StructTypes) {
    forall name :: name in types ==> GoodTags(types[name])
  }

  lemma {:induction false} FieldIndexFound(fields: seq<Field>, i: nat)
    requires GoodTags(fields) && i < |fields|
    ensures FieldIndex(fields, TagName(fields[i].tag)) == i
  {
    var j := FieldIndex(fields, TagName(fields[i].tag));
  }

  // ------------------------------------------------------------ typing

  /** Values of a type; []byte is left out because encoding/json treats it as text, and pointers point to something
      other than pointers. */
  ghost predicate HasType(g: Go, t: Type, types: StructTypes)
    decreases g
  {
    match t
    case TString => g.GStr?
    case TBool => g.GBool?
    case TNum(k) =>
      if IsInteger(k) then g.GInt? && Fits(g.n, k) else g.GFloat? && InRangeOf(g.r, k)
    case TSlice(e) =>
      e != TNum(Uint8)
      && (g.GNilSlice? || (g.GSlice? && forall i :: 0 <= i < |g.items| ==> HasType(g.items[i], e, types)))
    case TPtr(e) => !e.TPtr? && (g.GNilPtr? || (g.GPtr? && HasType(g.target, e, types)))
    case TStruct(name) =>
      && name in types && g.GStruct? && |g.fields| == |FieldsOf(types, name)|
      && forall i :: 0 <= i < |g.fields| ==> HasType(g.fields[i], FieldsOf(types, name)[i].typ, types)
    case TOther => false
  }

  predicate IsZero(g: Go) {
    match g
    case GBool(b) => !b
    case GInt(n) => n == 0
    case GFloat(r) => r == 0.0
    case GStr(s) => s == ""
    case GNilSlice => true
    case GSlice(_) => false
    case GNilPtr => true
    case GPtr(_) => false
    case GStruct(fields) => forall i :: 0 <= i < |fields| ==> IsZero(fields[i])
  }

  /** The zero value of every struct type. */
  type Zeros = map<string, Go>

  ghost predicate GoodZeros(zeros: Zeros, types: StructTypes) {
    forall name :: name in types ==> name in zeros && HasType(zeros[name], TStruct(name), types) && IsZero(zeros[name])
  }

  function Zero(t: Type, zeros: Zeros): Go {
    match t
    case TString => GStr("")
    case TBool => GBool(false)
    case TNum(k) => if IsInteger(k) then GInt(0) else GFloat(0.0)
    case TSlice(_) => GNilSlice
    case TPtr(_) => GNilPtr
    case TStruct(name) => if name in zeros then zeros[name] else GStruct([])
    case TOther => GNilPtr
  }

  lemma {:induction false} ZeroUnique(g: Go, h: Go, t: Type, types: StructTypes)
    requires HasType(g, t, types) && HasType(h, t, types) && IsZero(g) && IsZero(h)
    ensures g == h
    decreases g
  {
    if t.TStruct? {
      forall i | 0 <= i < |g.fields| ensures g.fields[i] == h.fields[i] {
        ZeroUnique(g.fields[i], h.fields[i], FieldsOf(types, t.name)[i].typ, types);
      }
      assert g.fields == h.fields;
    }
  }

  lemma ZeroIs(g: Go, t: Type, types: StructTypes, zeros: Zeros)
    requires GoodZeros(zeros, types) && HasType(g, t, types) && IsZero(g)
    ensures g == Zero(t, zeros)
  {
    if t.TStruct? {
      ZeroUnique(g, zeros[t.name], t, types);
    }
  }

  // ------------------------------------------------------------ encoding

  /** Whether a field with omitempty is left out. `raw` is encoding/json, which never leaves a struct out;
      otherwise it is structToMap. */
  predicate Omitted(raw: bool, g: Go) {
    match g
    case GStruct(_) => !raw && IsZero(g)
    case GPtr(x) => !raw && x.GStruct? && IsZero(x)
    case GSlice(items) => items == []
    case _ => IsZero(g)
  }

  /** A field that gets no entry. */
  predicate Skipped(raw: bool, g: Go, f: Field) {
    TagName(f.tag) in {"", "-"} || (OmitEmpty(f.tag) && Omitted(raw, g))
  }

  /** The value as structToMap hands it on. It descends into structs and pointers to structs and leaves everything
      else to encoding/json, which sees the same fields and follows pointers and slices. */
  function Encode(raw: bool, g: Go, t: Type, types: StructTypes): Value
    decreases g, 1, 0
  {
    match g
    case GBool(b) => Bool(b)
    case GInt(n) => Num(if t.TNum? then t.kind else Int, n)
    case GFloat(r) => Flt(if t.TNum? then t.kind else Float64, r)
    case GStr(s) => Str(s)
    case GNilSlice => Null
    case GSlice(items) =>
      var e := if t.TSlice? then t.elem else TOther;
      Arr(seq(|items|, i requires 0 <= i < |items| => Encode(true, items[i], e, types)))
    case GNilPtr => Null
    case GPtr(x) => Encode(raw || !x.GStruct?, x, if t.TPtr? then t.elem else TOther, types)
    case GStruct(fields) => Obj(EncodeFields(raw, fields, if t.TStruct? then FieldsOf(types, t.name) else [], types))
  }

  /** The entries of all fields from left to right. */
  function EncodeFields(raw: bool, fields: seq<Go>, ts: seq<Field>, types: StructTypes): map<string, Value>
    decreases fields, 0, |fields|
  {
    if fields == [] || |fields| > |ts| then map[]
    else
      var n := |fields| - 1;
      var m := EncodeFields(raw, fields[..n], ts, types);
      if Skipped(raw, fields[n], ts[n]) then m
      else m[TagName(ts[n].tag) := Encode(raw, fields[n], ts[n].typ, types)]
  }

  /** What structToMap builds for one struct, field by field, whatever its tags. */
  method StructToMap(fields: seq<Go>, name: string, types: StructTypes) returns (res: map<string, Value>)
    requires |fields| == |FieldsOf(types, name)|
    ensures Obj(res) == Encode(false, GStruct(fields), TStruct(name), types)
  {
    res := map[];
    var ts := FieldsOf(types, name);
    for i := 0 to |fields|
      invariant res == EncodeFields(false, fields[..i], ts, types)
    {
      assert fields[..i + 1][..i] == fields[..i] && fields[..i + 1][i] == fields[i];
      var tagName, omitEmpty := ParseJSONTag(ts[i].tag);
      if tagName == "" || tagName == "-" {
        continue;
      }
      if omitEmpty && Omitted(false, fields[i]) {
        continue;
      }
      res := res[tagName := Encode(false, fields[i], ts[i].typ, types)];
    }
    assert fields[..|fields|] == fields;
  }

  lemma {:induction false} EncodedField(raw: bool, fields: seq<Go>, ts: seq<Field>, types: StructTypes, i: nat)
    requires |fields| <= |ts| && GoodTags(ts) && i < |ts|
    ensures var m, key := EncodeFields(raw, fields, ts, types), TagName(ts[i].tag);
            && (key in m <==> i < |fields| && !Skipped(raw, fields[i], ts[i]))
            && (key in m ==> m[key] == Encode(raw, fields[i], ts[i].typ, types))
    decreases |fields|
  {
    if fields != [] {
      var n := |fields| - 1;
      var before := fields[..n];
      EncodedField(raw, before, ts, types, i);
      NamesDiffer(ts, i, n);
      EncodeLast(raw, fields, ts, types, n, before);
      if i < n {
        assert before[i] == fields[i];
      }
    }
  }

  lemma EncodeLast(raw: bool, fields: seq<Go>, ts: seq<Field>, types: StructTypes, n: nat, before: seq<Go>)
    requires n + 1 == |fields| <= |ts| && before == fields[..n]
    ensures var m, all := EncodeFields(raw, before, ts, types), EncodeFields(raw, fields, ts, types);
            if Skipped(raw, fields[n], ts[n]) then all == m
            else all == m[TagName(ts[n].tag) := Encode(raw, fields[n], ts[n].typ, types)]
  {
  }

  lemma NamesDiffer(ts: seq<Field>, i: nat, j: nat)
    requires GoodTags(ts) && i < |ts| && j < |ts|
    ensures TagName(ts[i].tag) == TagName(ts[j].tag) <==> i == j
  {
  }

  /** Every entry is that of some field. */
  lemma {:induction false} EntryOfField(raw: bool, fields: seq<Go>, ts: seq<Field>, types: StructTypes, key: string)
    returns (i: nat)
    requires |fields| <= |ts| && key in EncodeFields(raw, fields, ts, types)
    ensures i < |fields| && TagName(ts[i].tag) == key
    ensures EncodeFields(raw, fields, ts, types)[key] == Encode(raw, fields[i], ts[i].typ, types)
    decreases |fields|
  {
    var n := |fields| - 1;
    EncodeLast(raw, fields, ts, types, n, fields[..n]);
    if !Skipped(raw, fields[n], ts[n]) && key == TagName(ts[n].tag) {
      i := n;
    } else {
      i := EntryOfField(raw, fields[..n], ts, types, key);
    }
  }

  /** What omitempty leaves out: the zero value, an empty slice and a pointer to the zero struct; encoding/json keeps
      structs and such pointers. */
  predicate LeftEmpty(raw: bool, x: Go, t: Type, zeros: Zeros) {
    || x == GSlice([])
    || (x == Zero(t, zeros) && !(raw && t.TStruct?))
    || (!raw && t.TPtr? && t.elem.TStruct? && x == GPtr(Zero(t.elem, zeros)))
  }

  lemma OmittedIff(raw: bool, x: Go, t: Type, types: StructTypes, zeros: Zeros)
    requires GoodZeros(zeros, types) && HasType(x, t, types)
    ensures Omitted(raw, x) <==> LeftEmpty(raw, x, t, zeros)
  {
    if IsZero(x) {
      ZeroIs(x, t, types, zeros);
    }
    if x.GPtr? && IsZero(x.target) {
      ZeroIs(x.target, t.elem, types, zeros);
    }
  }

  /** With distinct names a field has no entry exactly if its tag has omitempty and it holds what that leaves out. */
  lemma EntryIff(raw: bool, fields: seq<Go>, name: string, types: StructTypes, zeros: Zeros, i: nat)
    requires GoodTypes(types) && GoodZeros(zeros, types) && HasType(GStruct(fields), TStruct(name), types)
    requires i < |fields|
    ensures var f := FieldsOf(types, name)[i];
            TagName(f.tag) in Encode(raw, GStruct(fields), TStruct(name), types).fields <==>
            !(OmitEmpty(f.tag) && LeftEmpty(raw, fields[i], f.typ, zeros))
  {
    var ts := FieldsOf(types, name);
    EncodedField(raw, fields, ts, types, i);
    OmittedIff(raw, fields[i], ts[i].typ, types, zeros);
  }

  // ------------------------------------------------------------ through JSON text and back

  /** json.Marshal refuses a value with an infinity or NaN in it. */
  predicate Finite(v: Value) {
    match v
    case NonFinite(_) => false
    case Arr(items) => forall i :: 0 <= i < |items| ==> Finite(items[i])
    case Obj(fields) => forall k :: k in fields ==> Finite(fields[k])
    case _ => true
  }

  datatype Hop = Index(i: nat) | Key(key: string)

  /** What stands at the end of a way into a value. */
  function At(v: Value, way: seq<Hop>): Option<Value>
    decreases |way|
  {
    if way == [] then Some(v)
    else
      match (v, way[0])
      case (Arr(items), Index(i)) => if i < |items| then At(items[i], way[1..]) else None
      case (Obj(fields), Key(k)) => if k in fields then At(fields[k], way[1..]) else None
      case _ => None
  }

  ghost predicate HoldsNonFinite(v: Value) {
    exists way :: At(v, way).Some? && At(v, way).value.NonFinite?
  }

  lemma {:induction false} NonFiniteAt(v: Value, way: seq<Hop>)
    requires At(v, way).Some? && At(v, way).value.NonFinite?
    ensures !Finite(v)
    decreases |way|
  {
    if way != [] {
      match way[0]
      case Index(i) => NonFiniteAt(v.items[i], way[1..]);
      case Key(k) => NonFiniteAt(v.fields[k], way[1..]);
    }
  }

  lemma {:induction false} WayToNonFinite(v: Value) returns (way: seq<Hop>)
    requires !Finite(v)
    ensures At(v, way).Some? && At(v, way).value.NonFinite?
    decreases v
  {
    match v
    case NonFinite(_) => way := [];
    case Arr(items) =>
      var i :| 0 <= i < |items| && !Finite(items[i]);
      var rest := WayToNonFinite(items[i]);
      way := [Index(i)] + rest;
      assert way[1..] == rest;
    case Obj(fields) =>
      var k :| k in fields && !Finite(fields[k]);
      var rest := WayToNonFinite(fields[k]);
      way := [Key(k)] + rest;
      assert way[1..] == rest;
    case _ => assert false;
  }

  /** A value can be marshalled exactly if no infinity and no NaN stands anywhere in it. */
  lemma FiniteIff(v: Value)
    ensures Finite(v) <==> !HoldsNonFinite(v)
  {
    if !Finite(v) {
      var way := WayToNonFinite(v);
    }
    if way :| At(v, way).Some? && At(v, way).value.NonFinite? {
      NonFiniteAt(v, way);
    }
  }

  /** Marshalled and unmarshalled into a map: every number is a float64 then. */
  function Reparsed(v: Value): Value {
    match v
    case Num(_, n) => Flt(Float64, ToFloat64(n) as real)
    case Flt(_, r) => Flt(Float64, r)
    case Arr(items) => Arr(seq(|items|, i requires 0 <= i < |items| => Reparsed(items[i])))
    case Obj(fields) => Obj(map k | k in fields :: Reparsed(fields[k]))
    case _ => v
  }

  lemma {:induction false} EncodeFinite(raw: bool, g: Go, t: Type, types: StructTypes)
    requires HasType(g, t, types)
    ensures Finite(Encode(raw, g, t, types))
    decreases g
  {
    match g
    case GSlice(items) =>
      forall i | 0 <= i < |items| ensures Finite(Encode(true, items[i], t.elem, types)) {
        EncodeFinite(true, items[i], t.elem, types);
      }
    case GPtr(x) => EncodeFinite(raw || !x.GStruct?, x, t.elem, types);
    case GStruct(fields) =>
      var ts := FieldsOf(types, t.name);
      var m := EncodeFields(raw, fields, ts, types);
      forall k | k in m ensures Finite(m[k]) {
        var i := EntryOfField(raw, fields, ts, types, k);
        EncodeFinite(raw, fields[i], ts[i].typ, types);
      }
    case _ =>
  }

  // ------------------------------------------------------------ decoding into a zero value

  /** encoding/json takes the field of exactly this name, or else the first whose name differs in case only; the number
      of fields stands for none. */
  function Reached(ts: seq<Field>, key: string): (i: nat)
    ensures i <= |ts|
  {
    if FieldIndex(ts, key) < |ts| then FieldIndex(ts, key) else FoldedIndex(ts, key)
  }

  function FoldedIndex(ts: seq<Field>, key: string): (i: nat)
    ensures i <= |ts|
  {
    if ts == [] || (ts[0].tag != "" && Lowered(TagName(ts[0].tag)) == Lowered(key)) then 0
    else 1 + FoldedIndex(ts[1..], key)
  }

  /** encoding/json's Unmarshal into a zero value of type t; None stands for its type errors. */
  function Decode(w: Value, t: Type, types: StructTypes, zeros: Zeros, lib: Library): Option<Go>
    decreases w, 1, t
  {
    if w.Null? then Some(Zero(t, zeros))
    else
      match t
      case TString => if w.Str? then Some(GStr(w.s)) else None
      case TBool => if w.Bool? then Some(GBool(w.b)) else None
      case TNum(k) => DecodeNumber(w, k, lib)
      case TSlice(e) =>
        if !w.Arr? || exists i :: 0 <= i < |w.items| && Decode(w.items[i], e, types, zeros, lib).None? then None
        else
          Some(GSlice(seq(|w.items|, i requires 0 <= i < |w.items| =>
            Decode(w.items[i], e, types, zeros, lib).value)))
      case TPtr(e) =>
        (match Decode(w, e, types, zeros, lib)
         case None => None
         case Some(x) => Some(GPtr(x)))
      case TStruct(name) =>
        var ts := FieldsOf(types, name);
        if !w.Obj? || exists k :: k in w.fields && DecodeKey(w, k, ts, types, zeros, lib).None? then None
        else Some(GStruct(seq(|ts|, i requires 0 <= i < |ts| => DecodeField(w, ts, i, types, zeros, lib))))
      case TOther => None
  }

  /** An integer kind reads the integer that is written for the number. */
  function DecodeNumber(w: Value, k: Kind, lib: Library): Option<Go> {
    if !IsInteger(k) then
      if w.Flt? && InRangeOf(w.r, k) then Some(GFloat(w.r))
      else if w.Num? && InRangeOf(ToFloat64(w.n) as real, k) then Some(GFloat(ToFloat64(w.n) as real))
      else None
    else if w.Num? && Fits(w.n, k) then Some(GInt(w.n))
    else if w.Flt? && Truncate(w.r) as real == w.r && Fits(lib.shortest(w.kind, Truncate(w.r)), k) then
      Some(GInt(lib.shortest(w.kind, Truncate(w.r))))
    else None
  }

  /** One key of an object; a key that reaches no field is ignored. */
  function DecodeKey(
      w: Value, key: string, ts: seq<Field>, types: StructTypes, zeros: Zeros, lib: Library): Option<Go>
    requires w.Obj? && key in w.fields
    decreases w, 0, 0
  {
    var i := Reached(ts, key);
    if i < |ts| then Decode(w.fields[key], ts[i].typ, types, zeros, lib) else Some(GNilPtr)
  }

  /** The spellings under which field i appears. */
  function Spellings(w: Value, ts: seq<Field>, i: nat): set<string>
    requires w.Obj?
  {
    set k | k in w.fields && Reached(ts, k) == i
  }

  lemma OnlyMember<T>(s: set<T>, x: T, y: T)
    requires |s| == 1 && x in s && y in s
    ensures x == y
  {
    assert |s - {x}| == 0;
    assert y !in s - {x};
  }

  /** The key that field i is filled from: its own name, or else its only other spelling. */
  function KeyFor(w: Value, ts: seq<Field>, i: nat): (key: Option<string>)
    requires w.Obj? && i < |ts|
    ensures key.Some? ==> key.value in w.fields
  {
    var s := Spellings(w, ts, i);
    if TagName(ts[i].tag) in w.fields then Some(TagName(ts[i].tag))
    else if |s| == 1 then
      assert forall x, y | x in s && y in s :: x == y by {
        forall x, y | x in s && y in s ensures x == y {
          OnlyMember(s, x, y);
        }
      }
      assert exists x :: x in s by {
        assert s != {};
      }
      var k :| k in s;
      Some(k)
    else None
  }

  /** A field that no key reaches stays at zero. */
  function DecodeField(w: Value, ts: seq<Field>, i: nat, types: StructTypes, zeros: Zeros, lib: Library): Go
    requires w.Obj? && i < |ts|
    decreases w, 0, 1
  {
    match KeyFor(w, ts, i)
    case None => Zero(ts[i].typ, zeros)
    case Some(key) =>
      (match DecodeKey(w, key, ts, types, zeros, lib)
       case None => Zero(ts[i].typ, zeros)
       case Some(g) => g)
  }

  /** Record.Fill into a zero struct. */
  function Filled(record: map<string, Value>, name: string, types: StructTypes, zeros: Zeros, lib: Library): Option<Go>
  {
    if !Finite(Obj(record)) then None
    else Decode(ConvertValue(Reparsed(Obj(record)), TStruct(name), types, lib), TStruct(name), types, zeros, lib)
  }

  method Fill(record: map<string, Value>, name: string, types: StructTypes, zeros: Zeros, lib: Library)
    returns (g: Option<Go>)
    ensures g == Filled(record, name, types, zeros, lib)
  {
    if !Finite(Obj(record)) {
      return None;
    }
    var data := Reparsed(Obj(record));
    var converted := ConvertMapToStruct(data.fields, name, types, lib);
    g := Decode(Obj(converted), TStruct(name), types, zeros, lib);
  }

  // ------------------------------------------------------------ the round trip

  /** What a field that is left out comes back as. */
  function Dropped(g: Go): Go {
    match g
    case GSlice(_) => GNilSlice
    case GPtr(_) => GNilPtr
    case _ => g
  }

  /** The normal form: slices and pointers that are left out come back nil, and so does a pointer to a nil slice. */
  function Normal(raw: bool, g: Go, t: Type, types: StructTypes): Go
    decreases g
  {
    match g
    case GSlice(items) =>
      var e := if t.TSlice? then t.elem else TOther;
      GSlice(seq(|items|, i requires 0 <= i < |items| => Normal(true, items[i], e, types)))
    case GPtr(x) =>
      if x.GNilSlice? then GNilPtr else GPtr(Normal(raw || !x.GStruct?, x, if t.TPtr? then t.elem else TOther, types))
    case GStruct(fields) =>
      var ts := if t.TStruct? then FieldsOf(types, t.name) else [];
      GStruct(seq(|fields|, i requires 0 <= i < |fields| =>
        if i < |ts| && OmitEmpty(ts[i].tag) && Omitted(raw, fields[i]) then Dropped(fields[i])
        else Normal(raw, fields[i], if i < |ts| then ts[i].typ else TOther, types)))
    case _ => g
  }

  /** A float-to-integer conversion out of range yields some value of the kind; a text that is read as a float32 gives
      a number within its range; and the integer written for a float64 reads back as it, and is exact up to 2^53. */
  ghost predicate GoodLibrary(lib: Library) {
    && (forall v, k :: IsInteger(k) ==> Fits(lib.outOfRange(v, k), k))
    && (forall s, k :: lib.parseFloat(s, k).Some? ==> InRangeOf(lib.parseFloat(s, k).value, k))
    && (forall n :: ToFloat64(n) == n ==> ToFloat64(lib.shortest(Float64, n)) == n)
    && (forall n :: -EXACT <= n <= EXACT ==> lib.shortest(Float64, n) == n)
  }

  /** The integer that arrives for n: its float64 neighbour if it is converted, and otherwise what is written for
      that. */
  function Arriving(conv: bool, n: int, lib: Library): int {
    if conv then ToFloat64(n) else lib.shortest(Float64, ToFloat64(n))
  }

  /** Every integer arrives as it is. Nothing is converted behind a pointer to anything but a slice. */
  predicate IntsArrive(conv: bool, g: Go, t: Type, types: StructTypes, lib: Library)
    decreases g
  {
    match g
    case GInt(n) => Arriving(conv, n, lib) == n
    case GSlice(items) => t.TSlice? ==> forall i :: 0 <= i < |items| ==> IntsArrive(conv, items[i], t.elem, types, lib)
    case GPtr(x) => t.TPtr? ==> IntsArrive(conv && t.elem.TSlice?, x, t.elem, types, lib)
    case GStruct(fields) =>
      t.TStruct? ==> forall i :: 0 <= i < |fields| && i < |FieldsOf(types, t.name)| ==>
                       IntsArrive(conv, fields[i], FieldsOf(types, t.name)[i].typ, types, lib)
    case _ => true
  }

  /** The float64 neighbour of every integer that is converted is inside its kind; only integers next to the end of a
      64-bit kind fail. */
  predicate NeighboursFit(conv: bool, g: Go, t: Type, types: StructTypes)
    decreases g
  {
    match g
    case GInt(n) => conv && t.TNum? ==> Fits(ToFloat64(n), t.kind)
    case GSlice(items) => t.TSlice? ==> forall i :: 0 <= i < |items| ==> NeighboursFit(conv, items[i], t.elem, types)
    case GPtr(x) => t.TPtr? ==> NeighboursFit(conv && t.elem.TSlice?, x, t.elem, types)
    case GStruct(fields) =>
      t.TStruct? ==> forall i :: 0 <= i < |fields| && i < |FieldsOf(types, t.name)| ==>
                       NeighboursFit(conv, fields[i], FieldsOf(types, t.name)[i].typ, types)
    case _ => true
  }

  /** A value on its way: converted or not. */
  function Delivered(conv: bool, v: Value, t: Type, types: StructTypes, lib: Library): Value {
    if conv then ConvertValue(v, t, types, lib) else v
  }

  /** An encoded value as it is on its way. */
  function Sent(raw: bool, conv: bool, g: Go, t: Type, types: StructTypes, lib: Library): Value {
    Delivered(conv, Reparsed(Encode(raw, g, t, types)), t, types, lib)
  }

  /** The value as it went in comes back, up to the normal form. */
  predicate ComesBack(raw: bool, conv: bool, g: Go, t: Type, types: StructTypes, zeros: Zeros, lib: Library) {
    Decode(Sent(raw, conv, g, t, types, lib), t, types, zeros, lib) == Some(Normal(raw, g, t, types))
  }

  lemma {:induction false} ZeroArrives(conv: bool, g: Go, t: Type, types: StructTypes, lib: Library)
    requires IsZero(g) && GoodLibrary(lib)
    ensures IntsArrive(conv, g, t, types, lib)
    decreases g
  {
    match g
    case GInt(n) => ExactUpTo(n);
    case GStruct(fields) =>
      if t.TStruct? {
        var ts := FieldsOf(types, t.name);
        forall i | 0 <= i < |fields| && i < |ts| ensures IntsArrive(conv, fields[i], ts[i].typ, types, lib) {
          ZeroArrives(conv, fields[i], ts[i].typ, types, lib);
        }
      }
    case _ =>
  }

  lemma DroppedIsZero(raw: bool, conv: bool, g: Go, t: Type, types: StructTypes, zeros: Zeros, lib: Library)
    requires GoodZeros(zeros, types) && HasType(g, t, types) && Omitted(raw, g) && GoodLibrary(lib)
    ensures Dropped(g) == Zero(t, zeros) && IntsArrive(conv, g, t, types, lib)
  {
    if g.GPtr? {
      ZeroArrives(conv && t.elem.TSlice?, g.target, t.elem, types, lib);
    } else if !g.GSlice? {
      ZeroIs(g, t, types, zeros);
      ZeroArrives(conv, g, t, types, lib);
    }
  }

  lemma IntegerArrives(conv: bool, n: int, k: Kind, types: StructTypes, zeros: Zeros, lib: Library)
    requires IsInteger(k) && (conv ==> Fits(ToFloat64(n), k))
    ensures Decode(Delivered(conv, Flt(Float64, ToFloat64(n) as real), TNum(k), types, lib), TNum(k), types, zeros, lib)
         == var m := Arriving(conv, n, lib); if Fits(m, k) then Some(GInt(m)) else None
  {
    assert Truncate(ToFloat64(n) as real) == ToFloat64(n);
  }

  /** The value as it went in comes back, up to the normal form, if and only if its integers arrive as they are. */
  lemma {:induction false} RoundTrip(
      raw: bool, conv: bool, g: Go, t: Type, types: StructTypes, zeros: Zeros, lib: Library)
    requires GoodTypes(types) && GoodZeros(zeros, types) && HasType(g, t, types)
    requires NeighboursFit(conv, g, t, types) && GoodLibrary(lib)
    ensures ComesBack(raw, conv, g, t, types, zeros, lib) <==> IntsArrive(conv, g, t, types, lib)
    decreases g, 1
  {
    match t
    case TString =>
    case TBool =>
    case TNum(k) => if IsInteger(k) { IntegerArrives(conv, g.n, k, types, zeros, lib); }
    case TSlice(e) => if g.GSlice? { RoundTripSlice(raw, conv, g, t, types, zeros, lib); }
    case TPtr(e) => if g.GPtr? { RoundTripPointer(raw, conv, g, t, types, zeros, lib); }
    case TStruct(name) => RoundTripStruct(raw, conv, g, name, types, zeros, lib);
    case TOther =>
  }

  lemma {:induction false} RoundTripSlice(
      raw: bool, conv: bool, g: Go, t: Type, types: StructTypes, zeros: Zeros, lib: Library)
    requires GoodTypes(types) && GoodZeros(zeros, types) && HasType(g, t, types)
    requires NeighboursFit(conv, g, t, types) && GoodLibrary(lib)
    requires t.TSlice? && g.GSlice?
    ensures ComesBack(raw, conv, g, t, types, zeros, lib) <==> IntsArrive(conv, g, t, types, lib)
    decreases g, 0
  {
    var w := Sent(raw, conv, g, t, types, lib);
    var n := Normal(raw, g, t, types);
    forall i | 0 <= i < |g.items|
      ensures Decode(w.items[i], t.elem, types, zeros, lib) == Some(n.items[i]) <==>
              IntsArrive(conv, g.items[i], t.elem, types, lib)
    {
      RoundTrip(true, conv, g.items[i], t.elem, types, zeros, lib);
    }
    if IntsArrive(conv, g, t, types, lib) {
      assert Decode(w, t, types, zeros, lib).value.items == n.items;
    }
  }

  /** A pointer travels as what it points to, converted only if that is a slice. */
  lemma PointerSent(raw: bool, conv: bool, g: Go, t: Type, types: StructTypes, lib: Library)
    requires HasType(g, t, types) && t.TPtr? && g.GPtr?
    ensures Sent(raw, conv, g, t, types, lib)
         == Sent(raw || !g.target.GStruct?, conv && t.elem.TSlice?, g.target, t.elem, types, lib)
  {
    PointerConverted(Reparsed(Encode(raw, g, t, types)), t.elem, types, lib);
  }

  lemma PointerConverted(v: Value, e: Type, types: StructTypes, lib: Library)
    ensures ConvertValue(v, TPtr(e), types, lib) == if e.TSlice? then ConvertValue(v, e, types, lib) else v
  {
  }

  lemma NullSent(raw: bool, conv: bool, g: Go, t: Type, types: StructTypes, lib: Library)
    requires HasType(g, t, types) && !t.TPtr?
    ensures Sent(raw, conv, g, t, types, lib).Null? <==> g.GNilSlice?
  {
  }

  lemma DecodePointer(w: Value, e: Type, types: StructTypes, zeros: Zeros, lib: Library)
    ensures Decode(w, TPtr(e), types, zeros, lib)
         == if w.Null? then Some(GNilPtr)
            else match Decode(w, e, types, zeros, lib) case None => None case Some(x) => Some(GPtr(x))
  {
  }

  lemma {:induction false} RoundTripPointer(
      raw: bool, conv: bool, g: Go, t: Type, types: StructTypes, zeros: Zeros, lib: Library)
    requires GoodTypes(types) && GoodZeros(zeros, types) && HasType(g, t, types)
    requires NeighboursFit(conv, g, t, types) && GoodLibrary(lib)
    requires t.TPtr? && g.GPtr?
    ensures ComesBack(raw, conv, g, t, types, zeros, lib) <==> IntsArrive(conv, g, t, types, lib)
    decreases g, 0
  {
    var x, e := g.target, t.elem;
    PointerSent(raw, conv, g, t, types, lib);
    NullSent(raw || !x.GStruct?, conv && e.TSlice?, x, e, types, lib);
    DecodePointer(Sent(raw, conv, g, t, types, lib), e, types, zeros, lib);
    RoundTrip(raw || !x.GStruct?, conv && e.TSlice?, x, e, types, zeros, lib);
  }

  lemma FieldConverted(m: map<string, Value>, name: string, types: StructTypes, lib: Library, i: nat)
    requires GoodTags(FieldsOf(types, name)) && i < |FieldsOf(types, name)|
    ensures var w := ConvertValue(Obj(m), TStruct(name), types, lib);
            var f := FieldsOf(types, name)[i];
            && w.Obj? && w.fields.Keys == m.Keys
            && (TagName(f.tag) in m ==> w.fields[TagName(f.tag)] == ConvertValue(m[TagName(f.tag)], f.typ, types, lib))
  {
    var ts := FieldsOf(types, name);
    var key := TagName(ts[i].tag);
    FieldIndexFound(ts, i);
    if key in m {
      assert ConvertValue(Obj(m), TStruct(name), types, lib).fields[key] == ConvertField(m[key], key, ts, types, lib);
    }
  }

  /** What arrives for field i of a struct. */
  lemma FieldSent(raw: bool, conv: bool, g: Go, name: string, types: StructTypes, lib: Library, i: nat)
    requires GoodTypes(types) && HasType(g, TStruct(name), types) && i < |g.fields|
    ensures var w := Sent(raw, conv, g, TStruct(name), types, lib);
            var f, x := FieldsOf(types, name)[i], g.fields[i];
            && w.Obj? && w.fields.Keys == EncodeFields(raw, g.fields, FieldsOf(types, name), types).Keys
            && (TagName(f.tag) in w.fields <==> !Skipped(raw, x, f))
            && (TagName(f.tag) in w.fields ==> w.fields[TagName(f.tag)] == Sent(raw, conv, x, f.typ, types, lib))
  {
    var ts := FieldsOf(types, name);
    EncodedField(raw, g.fields, ts, types, i);
    var m := EncodeFields(raw, g.fields, ts, types);
    var sent := map k | k in m :: Reparsed(m[k]);
    assert Reparsed(Obj(m)) == Obj(sent) && sent.Keys == m.Keys;
    if conv {
      FieldConverted(sent, name, types, lib, i);
    }
  }

  lemma NameReaches(ts: seq<Field>, i: nat)
    requires GoodTags(ts) && i < |ts|
    ensures Reached(ts, TagName(ts[i].tag)) == i
  {
    FieldIndexFound(ts, i);
  }

  /** Every key is the name of a field, so each field is filled from its own name or not at all. */
  lemma KeyOfField(raw: bool, conv: bool, g: Go, name: string, types: StructTypes, lib: Library, i: nat)
    requires GoodTypes(types) && HasType(g, TStruct(name), types) && i < |g.fields|
    ensures var w, ts := Sent(raw, conv, g, TStruct(name), types, lib), FieldsOf(types, name);
            && w.Obj?
            && KeyFor(w, ts, i) == if Skipped(raw, g.fields[i], ts[i]) then None else Some(TagName(ts[i].tag))
  {
    var ts := FieldsOf(types, name);
    var w := Sent(raw, conv, g, TStruct(name), types, lib);
    FieldSent(raw, conv, g, name, types, lib, i);
    if Skipped(raw, g.fields[i], ts[i]) {
      forall k | k in w.fields ensures Reached(ts, k) != i {
        var j := EntryOfField(raw, g.fields, ts, types, k);
        NameReaches(ts, j);
      }
      assert Spellings(w, ts, i) == {};
    }
  }

  /** The field comes back in normal form if and only if its integers are exact. */
  ghost predicate FieldBack(
      raw: bool, conv: bool, g: Go, name: string, types: StructTypes, zeros: Zeros, lib: Library, i: nat)
    requires HasType(g, TStruct(name), types) && i < |g.fields|
  {
    var ts, n := FieldsOf(types, name), Normal(raw, g, TStruct(name), types);
    var w, f := Sent(raw, conv, g, TStruct(name), types, lib), ts[i];
    && w.Obj?
    && (Skipped(raw, g.fields[i], f) ==>
          IntsArrive(conv, g.fields[i], f.typ, types, lib) && DecodeField(w, ts, i, types, zeros, lib) == n.fields[i])
    && (!Skipped(raw, g.fields[i], f) ==>
          && TagName(f.tag) in w.fields
          && (DecodeKey(w, TagName(f.tag), ts, types, zeros, lib) == Some(n.fields[i]) <==>
              IntsArrive(conv, g.fields[i], f.typ, types, lib))
          && DecodeField(w, ts, i, types, zeros, lib)
             == (match DecodeKey(w, TagName(f.tag), ts, types, zeros, lib)
                 case None => Zero(f.typ, zeros)
                 case Some(x) => x))
  }

  lemma {:induction false} RoundTripField(
      raw: bool, conv: bool, g: Go, name: string, types: StructTypes, zeros: Zeros, lib: Library, i: nat)
    requires GoodTypes(types) && GoodZeros(zeros, types) && HasType(g, TStruct(name), types)
    requires NeighboursFit(conv, g, TStruct(name), types) && GoodLibrary(lib) && i < |g.fields|
    ensures FieldBack(raw, conv, g, name, types, zeros, lib, i)
    decreases g, 0, 0
  {
    var ts := FieldsOf(types, name);
    FieldSent(raw, conv, g, name, types, lib, i);
    KeyOfField(raw, conv, g, name, types, lib, i);
    NameReaches(ts, i);
    if Skipped(raw, g.fields[i], ts[i]) {
      DroppedIsZero(raw, conv, g.fields[i], ts[i].typ, types, zeros, lib);
    } else {
      RoundTrip(raw, conv, g.fields[i], ts[i].typ, types, zeros, lib);
    }
  }

  lemma {:induction false} RoundTripStruct(
      raw: bool, conv: bool, g: Go, name: string, types: StructTypes, zeros: Zeros, lib: Library)
    requires GoodTypes(types) && GoodZeros(zeros, types) && HasType(g, TStruct(name), types)
    requires NeighboursFit(conv, g, TStruct(name), types) && GoodLibrary(lib)
    ensures ComesBack(raw, conv, g, TStruct(name), types, zeros, lib) <==>
            IntsArrive(conv, g, TStruct(name), types, lib)
    decreases g, 0, 1
  {
    var ts := FieldsOf(types, name);
    forall i | 0 <= i < |g.fields| ensures FieldBack(raw, conv, g, name, types, zeros, lib, i) {
      RoundTripField(raw, conv, g, name, types, zeros, lib, i);
    }
    StructBack(raw, conv, g, name, types, zeros, lib);
  }

  lemma StructBack(raw: bool, conv: bool, g: Go, name: string, types: StructTypes, zeros: Zeros, lib: Library)
    requires GoodTypes(types) && HasType(g, TStruct(name), types)
    requires forall i :: 0 <= i < |g.fields| ==> FieldBack(raw, conv, g, name, types, zeros, lib, i)
    ensures ComesBack(raw, conv, g, TStruct(name), types, zeros, lib) <==>
            IntsArrive(conv, g, TStruct(name), types, lib)
  {
    var ts := FieldsOf(types, name);
    var w, n := Sent(raw, conv, g, TStruct(name), types, lib), Normal(raw, g, TStruct(name), types);
    var got := Decode(w, TStruct(name), types, zeros, lib);
    if IntsArrive(conv, g, TStruct(name), types, lib) {
      forall k | k in w.fields ensures DecodeKey(w, k, ts, types, zeros, lib).Some? {
        var i := KeyIsName(raw, conv, g, name, types, lib, k);
        assert FieldBack(raw, conv, g, name, types, zeros, lib, i);
      }
      forall i | 0 <= i < |g.fields| ensures DecodeField(w, ts, i, types, zeros, lib) == n.fields[i] {
        assert FieldBack(raw, conv, g, name, types, zeros, lib, i);
      }
      assert got.value.fields == n.fields;
    } else {
      var i :| 0 <= i < |g.fields| && !IntsArrive(conv, g.fields[i], ts[i].typ, types, lib);
      assert FieldBack(raw, conv, g, name, types, zeros, lib, i);
      if got.Some? {
        assert got.value.fields[i] == DecodeField(w, ts, i, types, zeros, lib);
      }
    }
  }

  lemma KeyIsName(raw: bool, conv: bool, g: Go, name: string, types: StructTypes, lib: Library, k: string)
    returns (i: nat)
    requires GoodTypes(types) && HasType(g, TStruct(name), types)
    requires var w := Sent(raw, conv, g, TStruct(name), types, lib); w.Obj? && k in w.fields
    ensures i < |g.fields|
    ensures var f := FieldsOf(types, name)[i]; k == TagName(f.tag) && !Skipped(raw, g.fields[i], f)
  {
    var ts := FieldsOf(types, name);
    if g.fields == [] {
      assert EncodeFields(raw, g.fields, ts, types) == map[];
    } else {
      FieldSent(raw, conv, g, name, types, lib, 0);
    }
    i := EntryOfField(raw, g.fields, ts, types, k);
    FieldSent(raw, conv, g, name, types, lib, i);
  }

  /** Encoding a struct and filling a zero struct from the result gives the normal form of the struct, if and only if
      all its integers arrive as they are. */
  lemma FillInvertsStructToMap(fields: seq<Go>, name: string, types: StructTypes, zeros: Zeros, lib: Library,
                               record: map<string, Value>)
    requires GoodTypes(types) && GoodZeros(zeros, types) && HasType(GStruct(fields), TStruct(name), types)
    requires NeighboursFit(true, GStruct(fields), TStruct(name), types) && GoodLibrary(lib)
    requires Obj(record) == Encode(false, GStruct(fields), TStruct(name), types)
    ensures Filled(record, name, types, zeros, lib) == Some(Normal(false, GStruct(fields), TStruct(name), types)) <==>
            IntsArrive(true, GStruct(fields), TStruct(name), types, lib)
  {
    EncodeFinite(false, GStruct(fields), TStruct(name), types);
    RoundTrip(false, true, GStruct(fields), TStruct(name), types, zeros, lib);
  }

  /** Every integer is of magnitude at most 2^53. */
  predicate SmallInts(g: Go) {
    match g
    case GInt(n) => -EXACT <= n <= EXACT
    case GSlice(items) => forall i :: 0 <= i < |items| ==> SmallInts(items[i])
    case GPtr(x) => SmallInts(x)
    case GStruct(fields) => forall i :: 0 <= i < |fields| ==> SmallInts(fields[i])
    case _ => true
  }

  lemma {:induction false} SmallIntsArrive(conv: bool, g: Go, t: Type, types: StructTypes, lib: Library)
    requires SmallInts(g) && HasType(g, t, types) && GoodLibrary(lib)
    ensures IntsArrive(conv, g, t, types, lib) && NeighboursFit(conv, g, t, types)
    decreases g
  {
    match g
    case GInt(n) => ExactUpTo(n);
    case GSlice(items) =>
      forall i | 0 <= i < |items|
        ensures IntsArrive(conv, items[i], t.elem, types, lib) && NeighboursFit(conv, items[i], t.elem, types)
      {
        SmallIntsArrive(conv, items[i], t.elem, types, lib);
      }
    case GPtr(x) => SmallIntsArrive(conv && t.elem.TSlice?, x, t.elem, types, lib);
    case GStruct(fields) =>
      var ts := FieldsOf(types, t.name);
      forall i | 0 <= i < |fields|
        ensures IntsArrive(conv, fields[i], ts[i].typ, types, lib) && NeighboursFit(conv, fields[i], ts[i].typ, types)
      {
        SmallIntsArrive(conv, fields[i], ts[i].typ, types, lib);
      }
    case _ =>
  }

  /** Whatever has integers up to 2^53 comes back. */
  lemma SmallComesBack(raw: bool, conv: bool, g: Go, t: Type, types: StructTypes, zeros: Zeros, lib: Library)
    requires GoodTypes(types) && GoodZeros(zeros, types) && HasType(g, t, types) && GoodLibrary(lib) && SmallInts(g)
    ensures ComesBack(raw, conv, g, t, types, zeros, lib)
  {
    SmallIntsArrive(conv, g, t, types, lib);
    RoundTrip(raw, conv, g, t, types, zeros, lib);
  }

  /** 2^60, which float64 has, is written as 1152921504606847000: it comes back as a field of its own, but not from
      behind a pointer. */
  lemma BehindAPointer(types: StructTypes, zeros: Zeros, lib: Library)
    requires GoodTypes(types) && GoodZeros(zeros, types) && GoodLibrary(lib)
    requires lib.shortest(Float64, 0x1000_0000_0000_0000) == 1152921504606847000
    ensures var n := GInt(0x1000_0000_0000_0000);
            && ComesBack(false, true, n, TNum(Int64), types, zeros, lib)
            && !ComesBack(false, true, GPtr(n), TPtr(TNum(Int64)), types, zeros, lib)
  {
    var n := 0x1000_0000_0000_0000;
    PowerIsExact();
    RoundTrip(false, true, GInt(n), TNum(Int64), types, zeros, lib);
    RoundTrip(false, true, GPtr(GInt(n)), TPtr(TNum(Int64)), types, zeros, lib);
  }

  lemma PowerIsExact()
    ensures ToFloat64(0x1000_0000_0000_0000) == 0x1000_0000_0000_0000
  {
    assert Pow2(8) == 256 by {
      assert Pow2(4) == 16;
    }
    ScaledStays(0x1000_0000_0000_0000, EXACT / 2, 8);
  }

  // ------------------------------------------------------------ the normal form

  /** No field with omitempty holds an empty non-nil slice or (where structToMap looks) a pointer to a zero struct,
      and no pointer points to a nil slice. */
  ghost predicate InNormalForm(raw: bool, g: Go, t: Type, types: StructTypes)
    decreases g
  {
    match g
    case GSlice(items) =>
      forall i :: 0 <= i < |items| ==> InNormalForm(true, items[i], if t.TSlice? then t.elem else TOther, types)
    case GPtr(x) =>
      !x.GNilSlice? && InNormalForm(raw || !x.GStruct?, x, if t.TPtr? then t.elem else TOther, types)
    case GStruct(fields) =>
      var ts := if t.TStruct? then FieldsOf(types, t.name) else [];
      forall i :: 0 <= i < |fields| ==>
        if i < |ts| && OmitEmpty(ts[i].tag) && Omitted(raw, fields[i]) then !fields[i].GSlice? && !fields[i].GPtr?
        else InNormalForm(raw, fields[i], if i < |ts| then ts[i].typ else TOther, types)
    case _ => true
  }

  /** The struct that comes back is the one that went in exactly when that one was in normal form. */
  lemma {:induction false} SameIffInNormalForm(raw: bool, g: Go, t: Type, types: StructTypes)
    ensures Normal(raw, g, t, types) == g <==> InNormalForm(raw, g, t, types)
    decreases g
  {
    var n := Normal(raw, g, t, types);
    match g
    case GSlice(items) =>
      var e := if t.TSlice? then t.elem else TOther;
      forall i | 0 <= i < |items| ensures n.items[i] == items[i] <==> InNormalForm(true, items[i], e, types) {
        SameIffInNormalForm(true, items[i], e, types);
      }
    case GPtr(x) => SameIffInNormalForm(raw || !x.GStruct?, x, if t.TPtr? then t.elem else TOther, types);
    case GStruct(fields) => SameFields(raw, g, t, types);
    case _ =>
  }

  lemma {:induction false} SameFields(raw: bool, g: Go, t: Type, types: StructTypes)
    requires g.GStruct?
    ensures Normal(raw, g, t, types) == g <==> InNormalForm(raw, g, t, types)
    decreases g, 0
  {
    var ts := if t.TStruct? then FieldsOf(types, t.name) else [];
    var n := Normal(raw, g, t, types);
    forall i | 0 <= i < |g.fields|
      ensures n.fields[i] == g.fields[i] <==>
              if i < |ts| && OmitEmpty(ts[i].tag) && Omitted(raw, g.fields[i])
              then !g.fields[i].GSlice? && !g.fields[i].GPtr?
              else InNormalForm(raw, g.fields[i], if i < |ts| then ts[i].typ else TOther, types)
    {
      SameIffInNormalForm(raw, g.fields[i], if i < |ts| then ts[i].typ else TOther, types);
    }
    assert n == g <==> n.fields == g.fields;
  }

  // ------------------------------------------------------------ when filling succeeds

  /** What a caller can check beforehand: null fits everything, any value becomes text, text becomes any number (an
      infinity or NaN excepted) and a bool if it reads as one, every number becomes any numeric kind (float32 within its
      range), and lists and objects must meet lists and structs. Nothing is converted behind a pointer to anything but
      a slice, nor under a key that differs from the field's name in case. */
  predicate Accepts(conv: bool, v: Value, t: Type, types: StructTypes, lib: Library)
    decreases v, 1, t
  {
    v.Null? ||
    match t
    case TString => conv || v.Str?
    case TBool => v.Bool? || (conv && ToBool(v).Some?)
    case TNum(k) => AcceptsNumber(conv, v, k, lib)
    case TSlice(e) => v.Arr? && forall i :: 0 <= i < |v.items| ==> Accepts(conv, v.items[i], e, types, lib)
    case TPtr(e) => Accepts(conv && e.TSlice?, v, e, types, lib)
    case TStruct(name) =>
      v.Obj? && forall k :: k in v.fields ==> AcceptsKey(conv, v, k, FieldsOf(types, name), types, lib)
    case TOther => false
  }

  predicate AcceptsNumber(conv: bool, v: Value, k: Kind, lib: Library) {
    match v
    case Str(s) => conv && (IsInteger(k) || !NonFiniteText(s))
    case Num(_, n) => if IsInteger(k) then conv || Fits(n, k) else InRangeOf(ToFloat64(n) as real, k)
    case Flt(_, r) =>
      if !IsInteger(k) then InRangeOf(r, k)
      else conv || (Truncate(r) as real == r && Fits(lib.shortest(v.kind, Truncate(r)), k))
    case NonFinite(_) => conv && IsInteger(k)
    case _ => false
  }

  predicate AcceptsKey(conv: bool, v: Value, key: string, ts: seq<Field>, types: StructTypes, lib: Library)
    requires v.Obj? && key in v.fields
    decreases v, 0, 0
  {
    var i := Reached(ts, key);
    i < |ts| ==> Accepts(conv && FieldIndex(ts, key) < |ts|, v.fields[key], ts[i].typ, types, lib)
  }

  /** Decoding what is delivered succeeds. */
  predicate Decodes(conv: bool, v: Value, t: Type, types: StructTypes, zeros: Zeros, lib: Library) {
    Decode(Delivered(conv, v, t, types, lib), t, types, zeros, lib).Some?
  }

  /** Converting and decoding succeed exactly on the values that are accepted, for every value and type. */
  lemma {:induction false} DecodesIffAccepted(
      conv: bool, v: Value, t: Type, types: StructTypes, zeros: Zeros, lib: Library)
    requires GoodLibrary(lib)
    ensures Decodes(conv, v, t, types, zeros, lib) <==> Accepts(conv, v, t, types, lib)
    decreases v, t, 1
  {
    if !v.Null? {
      match t
      case TString =>
      case TBool =>
      case TNum(k) => NumberDecodes(conv, v, k, types, zeros, lib);
      case TSlice(e) => if v.Arr? { SliceDecodes(conv, v, e, types, zeros, lib); }
      case TPtr(e) =>
        PointerConverted(v, e, types, lib);
        DecodesIffAccepted(conv && e.TSlice?, v, e, types, zeros, lib);
      case TStruct(name) => if v.Obj? { StructDecodes(conv, v, name, types, zeros, lib); }
      case TOther =>
    }
  }

  /** The range of float32: 3.4e38 is in it, 1e39 is not. */
  lemma Float32Range(types: StructTypes, lib: Library)
    ensures Accepts(true, Flt(Float64, 340000000000000000000000000000000000000.0), TNum(Float32), types, lib)
    ensures !Accepts(true, Flt(Float64, 1000000000000000000000000000000000000000.0), TNum(Float32), types, lib)
    ensures !Accepts(true, Flt(Float64, -1000000000000000000000000000000000000000.0), TNum(Float32), types, lib)
  {
  }

  lemma NumberDecodes(conv: bool, v: Value, k: Kind, types: StructTypes, zeros: Zeros, lib: Library)
    requires GoodLibrary(lib) && !v.Null?
    ensures Decodes(conv, v, TNum(k), types, zeros, lib) <==> AcceptsNumber(conv, v, k, lib)
  {
  }

  lemma {:induction false} SliceDecodes(
      conv: bool, v: Value, e: Type, types: StructTypes, zeros: Zeros, lib: Library)
    requires GoodLibrary(lib) && v.Arr?
    ensures Decodes(conv, v, TSlice(e), types, zeros, lib) <==> Accepts(conv, v, TSlice(e), types, lib)
    decreases v, e, 2
  {
    var w := Delivered(conv, v, TSlice(e), types, lib);
    forall i | 0 <= i < |v.items|
      ensures Decode(w.items[i], e, types, zeros, lib).Some? <==> Accepts(conv, v.items[i], e, types, lib)
    {
      DecodesIffAccepted(conv, v.items[i], e, types, zeros, lib);
    }
  }

  /** What is delivered under a key: converted if it is the name of a field. */
  lemma KeyDelivered(conv: bool, v: Value, name: string, types: StructTypes, lib: Library, key: string)
    requires v.Obj? && key in v.fields
    ensures var w, ts := Delivered(conv, v, TStruct(name), types, lib), FieldsOf(types, name);
            var i := FieldIndex(ts, key);
            && w.Obj? && w.fields.Keys == v.fields.Keys
            && w.fields[key]
               == if i < |ts| then Delivered(conv, v.fields[key], ts[i].typ, types, lib) else v.fields[key]
  {
    if conv {
      var ts := FieldsOf(types, name);
      assert ConvertValue(v, TStruct(name), types, lib).fields[key] == ConvertField(v.fields[key], key, ts, types, lib);
    }
  }

  lemma {:induction false} StructDecodes(
      conv: bool, v: Value, name: string, types: StructTypes, zeros: Zeros, lib: Library)
    requires GoodLibrary(lib) && v.Obj?
    ensures Decodes(conv, v, TStruct(name), types, zeros, lib) <==> Accepts(conv, v, TStruct(name), types, lib)
    decreases v, TStruct(name), 0
  {
    var ts := FieldsOf(types, name);
    var w := Delivered(conv, v, TStruct(name), types, lib);
    assert w.Obj? && w.fields.Keys == v.fields.Keys;
    forall k | k in v.fields
      ensures DecodeKey(w, k, ts, types, zeros, lib).Some? <==> AcceptsKey(conv, v, k, ts, types, lib)
    {
      KeyDelivered(conv, v, name, types, lib, k);
      var i := Reached(ts, k);
      if i < |ts| {
        DecodesIffAccepted(conv && FieldIndex(ts, k) < |ts|, v.fields[k], ts[i].typ, types, zeros, lib);
      }
    }
  }

  /** The least int64 is accepted for a field of its own, but not behind a pointer, where the digits written for it
      denote a smaller integer. */
  lemma LeastBehindAPointer(types: StructTypes, lib: Library)
    requires lib.shortest(Float64, Lo(Int64)) == -9223372036854776000
    ensures Accepts(true, Flt(Float64, Lo(Int64) as real), TNum(Int64), types, lib)
    ensures !Accepts(true, Flt(Float64, Lo(Int64) as real), TPtr(TNum(Int64)), types, lib)
  {
    assert Truncate(Lo(Int64) as real) == Lo(Int64);
  }

  /** Filling a struct succeeds if and only if the record can be marshalled and is accepted, its numbers as float64. */
  lemma FilledIffAccepted(record: map<string, Value>, name: string, types: StructTypes, zeros: Zeros, lib: Library)
    requires GoodLibrary(lib)
    ensures Filled(record, name, types, zeros, lib).Some? <==>
            Finite(Obj(record)) && Accepts(true, Reparsed(Obj(record)), TStruct(name), types, lib)
  {
    DecodesIffAccepted(true, Reparsed(Obj(record)), TStruct(name), types, zeros, lib);
  }

  /** The struct with one text field called name. */
  const NAMED: seq<Field> := [Field("name", TString)]

  lemma NamedIndices(key: string)
    ensures FieldIndex(NAMED, key) == if key == "name" then 0 else 1
    ensures Reached(NAMED, key) == if Lowered(key) == "name" then 0 else 1
  {
    assert NAMED[1..] == [];
    SplitFree("name", ',');
    assert Lowered("name") == "name";
  }

  /** The one key of an object decides whether it is accepted. */
  lemma OneKeyAccepted(v: Value, key: string, types: StructTypes, lib: Library)
    requires "T" in types && types["T"] == NAMED && v.Obj? && v.fields.Keys == {key} && v.fields[key].Flt?
    ensures Accepts(true, v, TStruct("T"), types, lib) <==> !(Lowered(key) == "name" && key != "name")
  {
    NumberUnderKey(v, key, types, lib);
    assert FieldsOf(types, "T") == NAMED && key in v.fields;
    assert forall k :: k in v.fields ==> k == key;
    assert Accepts(true, v, TStruct("T"), types, lib) <==> AcceptsKey(true, v, key, NAMED, types, lib);
  }

  lemma NumberUnderKey(v: Value, key: string, types: StructTypes, lib: Library)
    requires v.Obj? && key in v.fields && v.fields[key].Flt?
    ensures AcceptsKey(true, v, key, NAMED, types, lib) <==> !(Lowered(key) == "name" && key != "name")
  {
    NamedIndices(key);
    assert NAMED[0].typ == TString;
    assert Accepts(false, v.fields[key], TString, types, lib) == false;
    assert Accepts(true, v.fields[key], TString, types, lib) == true;
  }

  /** A record of one number. */
  function OneNumber(key: string): Record {
    map[key := Num(Int, 5)]
  }

  lemma OneNumberSent(key: string)
    ensures Finite(Obj(OneNumber(key)))
    ensures var v := Reparsed(Obj(OneNumber(key))); v.Obj? && v.fields.Keys == {key} && v.fields[key].Flt?
  {
    var record := OneNumber(key);
    assert Finite(record[key]);
    assert forall k :: k in record ==> k == key;
  }

  /** A number for that field is refused exactly under another spelling of its name: there it stays a number. */
  lemma OtherSpellingRefused(key: string, types: StructTypes, zeros: Zeros, lib: Library)
    requires GoodLibrary(lib) && "T" in types && types["T"] == NAMED
    ensures Filled(OneNumber(key), "T", types, zeros, lib).None? <==> Lowered(key) == "name" && key != "name"
  {
    FilledIffAccepted(OneNumber(key), "T", types, zeros, lib);
    OneNumberSent(key);
    OneKeyAccepted(Reparsed(Obj(OneNumber(key))), key, types, lib);
  }
}
