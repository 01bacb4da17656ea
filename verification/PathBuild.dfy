/** The two ways of putting an id into a path template: codegen/apibuilder/pathparams.go decides, core/utils.go
    builds, and core/http_utils.go trims the slashes off what they build. */
module PathBuild {
  import opened Basics
  import Convert
  import opened Texts
  import Values

  const SLASH := '/'

  // ------------------------------------------------------------ placeholders

  /** The position of the first '}', or the length. */
  function Close(s: string): (n: nat)
    ensures n <= |s| && (n < |s| ==> s[n] == '}')
    ensures forall i :: 0 <= i < n ==> s[i] != '}'
  {
    if s == "" || s[0] == '}' then 0 else 1 + Close(s[1..])
  }

  /** Length of the match of {[^}]+} at the front of s, 0 if there is none. */
  function MatchLength(s: string): (m: nat)
    ensures m <= |s| && (m > 0 ==> m >= 3)
  {
    if s == "" || s[0] != '{' then 0
    else
      var c := Close(s[1..]);
      if 0 < c < |s| - 1 then c + 2 else 0
  }

  /** The names in the placeholders, from left to right (FindAllStringSubmatch). */
  function Names(s: string): (names: seq<string>)
    ensures forall i :: 0 <= i < |names| ==> names[i] != "" && '}' !in names[i]
    decreases |s|
  {
    if s == "" then []
    else
      var m := MatchLength(s);
      if m > 0 then [s[1..m - 1]] + Names(s[m..]) else Names(s[1..])
  }

  /** Every placeholder replaced by the next value, or by nothing once they have run out. */
  function ReplaceAll(s: string, values: seq<string>): string
    decreases |s|
  {
    if s == "" then ""
    else
      var m := MatchLength(s);
      if m == 0 then [s[0]] + ReplaceAll(s[1..], values)
      else if values == [] then ReplaceAll(s[m..], [])
      else values[0] + ReplaceAll(s[m..], values[1..])
  }

  // ------------------------------------------------------------ ids as text

  datatype Id = Whole(n: int) | Float(r: real) | Other(text: string)

  function ToInt(id: Id): Option<int> {
    match id
    case Whole(n) => Some(n)
    case Float(r) => Some(Truncate(r))
    case Other(_) => None
  }

  /** fmt's %v of an id that is not a number. */
  function Verbatim(id: Id): string {
    match id
    case Other(text) => text
    case _ => ""
  }

  function FormatPathParamValue(id: Id): string {
    if ToInt(id).Some? then Decimal(ToInt(id).value) else Verbatim(id)
  }

  function InterpolatePathTemplate(template: string, ids: seq<Id>): string {
    ReplaceAll(template, seq(|ids|, i requires 0 <= i < |ids| => FormatPathParamValue(ids[i])))
  }

  method BuildResourcePathWithID(resourcePath: string, id: Id, segments: seq<string>) returns (path: string)
    ensures path == resourcePath + [SLASH] + FormatPathParamValue(id) + Tail(segments, SLASH)
  {
    if ToInt(id).Some? {
      path := resourcePath + "/" + Decimal(ToInt(id).value);
    } else {
      path := resourcePath + "/" + Verbatim(id);
    }
    for i := 0 to |segments|
      invariant path + Tail(segments[i..], SLASH)
             == resourcePath + [SLASH] + FormatPathParamValue(id) + Tail(segments, SLASH)
    {
      assert segments[i..][1..] == segments[i + 1..];
      path := path + "/" + segments[i];
    }
    assert segments[|segments|..] == [];
  }

  // ------------------------------------------------------------ the decision

  datatype PathBuildInfo = PathBuildInfo(byId: bool, resourcePath: string, segments: seq<string>, names: seq<string>)

  function FirstIndex(parts: seq<string>, x: string): (i: nat)
    ensures i <= |parts| && (i < |parts| ==> parts[i] == x) && forall j :: 0 <= j < i ==> parts[j] != x
  {
    if parts == [] || parts[0] == x then 0 else 1 + FirstIndex(parts[1..], x)
  }

  method AnalyzePathBuild(path: string) returns (info: PathBuildInfo)
    ensures info.names == Names(path)
    ensures info.byId <==> |Names(path)| == 1 && 0 < Placeholder(path) < |Parts(path)|
    ensures info.byId ==> info.resourcePath == Join(Parts(path)[..Placeholder(path)], SLASH)
                          && info.segments == Parts(path)[Placeholder(path) + 1..]
  {
    var names := Names(path);
    info := PathBuildInfo(false, "", [], names);
    if |names| != 1 {
      return;
    }
    var parts := Split(Trim(path, SLASH), SLASH);
    var placeholder := "{" + names[0] + "}";
    var paramIndex := -1;
    for i := 0 to |parts|
      invariant paramIndex == -1
      invariant forall j :: 0 <= j < i ==> parts[j] != placeholder
    {
      if parts[i] == placeholder {
        paramIndex := i;
        break;
      }
    }
    assert paramIndex >= 0 ==> paramIndex == FirstIndex(parts, placeholder);
    if paramIndex <= 0 {
      return;
    }
    info := info.(byId := true, resourcePath := Join(parts[..paramIndex], SLASH));
    if paramIndex < |parts| - 1 {
      info := info.(segments := parts[paramIndex + 1..]);
    }
  }

  function Parts(path: string): seq<string> {
    Split(Trim(path, SLASH), SLASH)
  }

  /** Which part the one placeholder is. */
  function Placeholder(path: string): nat
    requires |Names(path)| == 1
  {
    FirstIndex(Parts(path), "{" + Names(path)[0] + "}")
  }

  // ------------------------------------------------------------ agreement

  lemma {:induction false} CloseOf(n: string, rest: string)
    requires '}' !in n
    ensures Close(n + "}" + rest) == |n|
  {
    if n != "" {
      assert n[0] in n;
      assert (n + "}" + rest)[1..] == n[1..] + "}" + rest;
      CloseOf(n[1..], rest);
    }
  }

  lemma MatchOf(n: string, rest: string)
    requires n != "" && '}' !in n
    ensures var s := "{" + n + "}" + rest;
            MatchLength(s) == |n| + 2 && s[1..|n| + 1] == n && s[|n| + 2..] == rest
  {
    var s := "{" + n + "}" + rest;
    assert s[1..] == n + "}" + rest;
    CloseOf(n, rest);
  }

  lemma {:induction false} NoNamesNoChange(s: string, values: seq<string>)
    requires Names(s) == []
    ensures ReplaceAll(s, values) == s
    decreases |s|
  {
    if s != "" {
      NoNamesNoChange(s[1..], values);
    }
  }

  /** A placeholder further on is found, or swallowed by an earlier one: some name is found in any case. */
  lemma {:induction false} SomeName(left: string, n: string, right: string)
    requires n != "" && '}' !in n
    ensures Names(left + ("{" + n + "}" + right)) != []
    decreases |left|
  {
    var s := left + ("{" + n + "}" + right);
    if left == "" {
      assert s == "{" + n + "}" + right;
      MatchOf(n, right);
    } else if MatchLength(s) == 0 {
      assert s[1..] == left[1..] + ("{" + n + "}" + right);
      SomeName(left[1..], n, right);
    }
  }

  /** The first closing brace of s lies in `left` or is the one of the placeholder. */
  lemma {:induction false} CloseAcross(left: string, n: string, right: string)
    requires '}' !in n
    ensures var c := Close(left + ("{" + n + "}" + right)); c < |left| || c == |left| + |n| + 1
    decreases |left|
  {
    var s := left + ("{" + n + "}" + right);
    if left == "" {
      assert s == "{" + n + "}" + right;
      assert s[1..] == n + "}" + right;
      CloseOf(n, right);
    } else {
      assert s[1..] == left[1..] + ("{" + n + "}" + right);
      CloseAcross(left[1..], n, right);
    }
  }

  lemma ReplaceHere(n: string, right: string, v: string)
    requires n != "" && '}' !in n
    requires Names("{" + n + "}" + right) == [n]
    ensures ReplaceAll("{" + n + "}" + right, [v]) == v + right
  {
    MatchOf(n, right);
    assert Names("{" + n + "}" + right) == [n] + Names(right);
    assert Names(right) == [];
    NoNamesNoChange(right, []);
    assert [v][1..] == [];
  }

  /** With only one name n in it, s has no match that starts before the text {n}. */
  lemma NoEarlierMatch(left: string, n: string, right: string)
    requires n != "" && '}' !in n && left != ""
    requires Names(left + ("{" + n + "}" + right)) == [n]
    ensures MatchLength(left + ("{" + n + "}" + right)) == 0
  {
    var p := "{" + n + "}" + right;
    var s := left + p;
    var m := MatchLength(s);
    if m > 0 {
      OnlyMatch(s, n);
      MatchInside(left, n, right);
      assert s[m..] == left[m..] + p;
      SomeName(left[m..], n, right);
    }
  }

  lemma OnlyMatch(s: string, n: string)
    requires MatchLength(s) > 0 && Names(s) == [n]
    ensures MatchLength(s) == |n| + 2 && Names(s[MatchLength(s)..]) == []
  {
    var m := MatchLength(s);
    var first, rest := s[1..m - 1], Names(s[m..]);
    assert Names(s) == [first] + rest;
    assert |[first] + rest| == 1;
    assert first == ([first] + rest)[0] == n;
  }

  /** A match of that length that starts before the text {n} ends before it. */
  lemma MatchInside(left: string, n: string, right: string)
    requires n != "" && '}' !in n && left != ""
    requires MatchLength(left + ("{" + n + "}" + right)) == |n| + 2
    ensures |n| + 2 <= |left|
  {
    var p := "{" + n + "}" + right;
    assert (left + p)[1..] == left[1..] + p;
    CloseAcross(left[1..], n, right);
  }

  lemma SkipOne(left: string, p: string, values: seq<string>)
    requires left != "" && MatchLength(left + p) == 0
    ensures Names(left + p) == Names(left[1..] + p)
    ensures ReplaceAll(left + p, values) == [left[0]] + ReplaceAll(left[1..] + p, values)
  {
    assert (left + p)[1..] == left[1..] + p;
  }

  lemma Shift(left: string, v: string, right: string)
    requires left != ""
    ensures [left[0]] + (left[1..] + v + right) == left + v + right
  {
  }

  /** If n is the only name, replacing replaces exactly the text {n}, wherever it stands. */
  lemma {:induction false} ReplaceOnly(left: string, n: string, right: string, v: string)
    requires n != "" && '}' !in n
    requires Names(left + ("{" + n + "}" + right)) == [n]
    ensures ReplaceAll(left + ("{" + n + "}" + right), [v]) == left + v + right
    decreases |left|
  {
    var p := "{" + n + "}" + right;
    if left == "" {
      assert left + p == p && left + v + right == v + right;
      ReplaceHere(n, right, v);
    } else {
      NoEarlierMatch(left, n, right);
      SkipOne(left, p, [v]);
      ReplaceOnly(left[1..], n, right, v);
      Shift(left, v, right);
    }
  }

  // ------------------------------------------------------------ templates with any number of placeholders

  /** Literals with placeholders between them. */
  function Template(lits: seq<string>, names: seq<string>): string
    requires |lits| == |names| + 1
  {
    if names == [] then lits[0] else lits[0] + ("{" + names[0] + "}" + Template(lits[1..], names[1..]))
  }

  /** The same with values, or nothing once they have run out. */
  function FilledIn(lits: seq<string>, values: seq<string>): string
    requires lits != []
  {
    if |lits| == 1 then lits[0]
    else if values == [] then lits[0] + FilledIn(lits[1..], [])
    else lits[0] + (values[0] + FilledIn(lits[1..], values[1..]))
  }

  lemma {:induction false} LiteralRuns(l: string, s: string, values: seq<string>)
    requires '{' !in l
    ensures ReplaceAll(l + s, values) == l + ReplaceAll(s, values) && Names(l + s) == Names(s)
  {
    if l == "" {
      assert l + s == s;
    } else {
      assert l[0] in l;
      assert (l + s)[1..] == l[1..] + s;
      LiteralRuns(l[1..], s, values);
    }
  }

  /** Values are put in for placeholders in order, and ExtractPathParams gives the names in order. */
  lemma {:induction false} ReplaceTemplate(lits: seq<string>, names: seq<string>, values: seq<string>)
    requires |lits| == |names| + 1 && forall i :: 0 <= i < |lits| ==> '{' !in lits[i]
    requires forall i :: 0 <= i < |names| ==> names[i] != "" && '}' !in names[i]
    ensures ReplaceAll(Template(lits, names), values) == FilledIn(lits, values)
    ensures Names(Template(lits, names)) == names
    decreases |names|
  {
    if names == [] {
      assert lits[0] + "" == lits[0];
      LiteralRuns(lits[0], "", values);
    } else {
      var rest := Template(lits[1..], names[1..]);
      var p := "{" + names[0] + "}" + rest;
      LiteralRuns(lits[0], p, values);
      MatchOf(names[0], rest);
      assert Names(p) == [names[0]] + Names(rest);
      ReplaceTemplate(lits[1..], names[1..], if values == [] then [] else values[1..]);
    }
  }

  /** Empty braces and braces that are not closed are left alone. */
  lemma EmptyBracesStay(s: string, values: seq<string>)
    ensures ReplaceAll("{}" + s, values) == "{}" + ReplaceAll(s, values)
  {
    var t := "{}" + s;
    assert t[1..] == "}" + s && ("}" + s)[1..] == s;
    assert ReplaceAll("}" + s, values) == ['}'] + ReplaceAll(s, values);
  }

  lemma {:induction false} UnclosedStays(s: string, values: seq<string>)
    requires '}' !in s
    ensures ReplaceAll(s, values) == s
  {
    if s != "" {
      assert forall i :: 0 <= i < |s[1..]| ==> s[1..][i] == s[i + 1] && s[1..][i] in s;
      UnclosedStays(s[1..], values);
    }
  }

  /** An id that is a number is written as the numeral that reads back as it, without its fraction; any other is
      written as it is. */
  lemma IdTexts(id: Id)
    ensures match id
            case Other(text) => FormatPathParamValue(id) == text
            case Whole(n) =>
              Convert.Fits(n, Values.Int64) ==>
                Convert.ParseInteger(FormatPathParamValue(id), Values.Int64) == Some(n)
            case Float(r) =>
              Convert.Fits(Truncate(r), Values.Int64) ==>
                Convert.ParseInteger(FormatPathParamValue(id), Values.Int64) == Some(Truncate(r))
  {
    match id
    case Other(_) =>
    case Whole(n) => if Convert.Fits(n, Values.Int64) { Convert.DecimalParses(n, Values.Int64); }
    case Float(r) => if Convert.Fits(Truncate(r), Values.Int64) { Convert.DecimalParses(Truncate(r), Values.Int64); }
  }

  // ------------------------------------------------------------ both builders

  lemma TailAround(parts: seq<string>, i: nat)
    requires 0 < i < |parts|
    ensures Tail(parts[1..], SLASH) == Tail(parts[1..i], SLASH) + Tail(parts[i..], SLASH)
  {
    assert parts[1..] == parts[1..i] + parts[i..];
    TailConcat(parts[1..i], parts[i..], SLASH);
  }

  lemma JoinAround(parts: seq<string>, i: nat)
    requires 0 < i < |parts|
    ensures Join(parts, SLASH) == Join(parts[..i], SLASH) + [SLASH] + (parts[i] + Tail(parts[i + 1..], SLASH))
  {
    JoinIsTail(parts, SLASH);
    JoinIsTail(parts[..i], SLASH);
    assert parts[..i][1..] == parts[1..i];
    TailAround(parts, i);
    assert parts[i..][1..] == parts[i + 1..] && parts[i..][0] == parts[i];
    Regroup(parts[0], Tail(parts[1..i], SLASH), parts[i], Tail(parts[i + 1..], SLASH));
  }

  lemma Regroup(a: string, b: string, x: string, rest: string)
    ensures a + (b + ([SLASH] + x + rest)) == (a + b) + [SLASH] + (x + rest)
  {
  }

  /** The path around its placeholder part. */
  lemma PathAround(path: string) returns (a: string, b: string)
    requires |Names(path)| == 1 && 0 < Placeholder(path) < |Parts(path)|
    ensures All(a, SLASH) && All(b, SLASH)
    ensures path == a + (Join(Parts(path)[..Placeholder(path)], SLASH) + [SLASH])
                    + ("{" + Names(path)[0] + "}" + (Tail(Parts(path)[Placeholder(path) + 1..], SLASH) + b))
  {
    a, b := TrimSplits(path, SLASH);
    JoinSplit(Trim(path, SLASH), SLASH);
    JoinAround(Parts(path), Placeholder(path));
    var i, parts := Placeholder(path), Parts(path);
    Surround(a, Join(parts[..i], SLASH), parts[i], Tail(parts[i + 1..], SLASH), b);
  }

  lemma Surround(a: string, left: string, part: string, right: string, b: string)
    ensures a + (left + [SLASH] + (part + right)) + b == a + (left + [SLASH]) + (part + (right + b))
  {
  }

  /** What BuildResourcePathWithID makes of the decision. */
  function Built(path: string, id: Id): string
    requires |Names(path)| == 1 && 0 < Placeholder(path) < |Parts(path)|
  {
    Join(Parts(path)[..Placeholder(path)], SLASH) + [SLASH] + FormatPathParamValue(id)
    + Tail(Parts(path)[Placeholder(path) + 1..], SLASH)
  }

  /** Whenever the single-id builder is chosen, it builds the path that interpolation would, up to the slashes
      at both ends, for every template and every id. */
  lemma BuildersAgree(path: string, id: Id)
    requires |Names(path)| == 1 && 0 < Placeholder(path) < |Parts(path)|
    ensures Trim(Built(path, id), SLASH) == Trim(InterpolatePathTemplate(path, [id]), SLASH)
  {
    var v := FormatPathParamValue(id);
    var a, b := PathAround(path);
    var left := Join(Parts(path)[..Placeholder(path)], SLASH) + [SLASH];
    var right := Tail(Parts(path)[Placeholder(path) + 1..], SLASH);
    assert seq(|[id]|, j requires 0 <= j < |[id]| => FormatPathParamValue([id][j])) == [v];
    Interpolated(path, a, left, Names(path)[0], right, b, v);
    TrimAround(a, left + v + right, b, SLASH);
  }

  lemma Interpolated(path: string, a: string, left: string, n: string, right: string, b: string, v: string)
    requires Names(path) == [n] && path == a + left + ("{" + n + "}" + (right + b))
    ensures ReplaceAll(path, [v]) == a + (left + v + right) + b
  {
    assert n == Names(path)[0];
    ReplaceOnly(a + left, n, right + b, v);
    assert (a + left) + v + (right + b) == a + (left + v + right) + b;
  }
}
