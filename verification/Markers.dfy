/** The key=value scanner of codegen/markers/parse.go. */
module Markers {
  import opened Basics
  import opened Texts

  /** strconv.Unquote, applied to texts that start and end with a double quote. */
  type Unquoter = string -> Option<string>

  datatype Parsed = Pairs(pairs: map<string, string>) | MissingEquals | InvalidQuoted

  // ------------------------------------------------------------ specification over the rest of the input

  function DropBlanks(s: string): (r: string)
    ensures |r| <= |s|
    ensures r != "" ==> r[0] != ' '
  {
    if s != "" && s[0] == ' ' then DropBlanks(s[1..]) else s
  }

  /** The position of the first '=', or the length if there is none. */
  function KeyLength(s: string): (n: nat)
    ensures n <= |s|
  {
    if s == "" || s[0] == '=' then 0 else 1 + KeyLength(s[1..])
  }

  /** How far the value reaches: to the first comma outside quotes and braces. `prev` is the character before s. */
  function ValueLength(s: string, prev: char, braces: int, inQuotes: bool): (n: nat)
    ensures n <= |s|
  {
    if s == "" then 0
    else if s[0] == '"' && prev != '\\' then 1 + ValueLength(s[1..], s[0], braces, !inQuotes)
    else if inQuotes then 1 + ValueLength(s[1..], s[0], braces, inQuotes)
    else if s[0] == '{' then 1 + ValueLength(s[1..], s[0], braces + 1, inQuotes)
    else if s[0] == '}' then 1 + ValueLength(s[1..], s[0], braces - 1, inQuotes)
    else if s[0] == ',' && braces == 0 then 0
    else 1 + ValueLength(s[1..], s[0], braces, inQuotes)
  }

  function Unquoted(value: string, unquote: Unquoter): Option<string> {
    if |value| >= 2 && value[0] == '"' && value[|value| - 1] == '"' then unquote(value) else Some(value)
  }

  /** One pair read off the front of s, which starts with no blank: its key and value, and what remains. */
  datatype Step = Item(key: string, value: string, rest: string) | NoEquals | BadQuotes

  function AfterComma(s: string): string {
    if s != "" && s[0] == ',' then s[1..] else s
  }

  /** From the texts of key and value and what follows them: trim, and take the quotes off. */
  function Assemble(key: string, text: string, rest: string, unquote: Unquoter): Step {
    match Unquoted(TrimSpace(text), unquote)
    case None => BadQuotes
    case Some(value) => Item(TrimSpace(key), value, AfterComma(rest))
  }

  /** The three texts before, between and after the '=' at k and the end of the value. */
  datatype Texts3 = Texts3(key: string, text: string, rest: string)

  function Cut(s: string): (c: Texts3)
    requires KeyLength(s) < |s|
    ensures |c.rest| < |s|
  {
    var k := KeyLength(s);
    var tail := s[k + 1..];
    var n := ValueLength(tail, '=', 0, false);
    Texts3(s[..k], tail[..n], tail[n..])
  }

  function ReadPair(s: string, unquote: Unquoter): (r: Step)
    ensures r.Item? ==> |r.rest| < |s|
  {
    if KeyLength(s) == |s| then NoEquals
    else Assemble(Cut(s).key, Cut(s).text, Cut(s).rest, unquote)
  }

  function Parse(s: string, sofar: map<string, string>, unquote: Unquoter): Parsed
    decreases |s|
  {
    var s1 := DropBlanks(s);
    if s1 == "" then Pairs(sofar)
    else
      match ReadPair(s1, unquote)
      case NoEquals => MissingEquals
      case BadQuotes => InvalidQuoted
      case Item(key, value, rest) => Parse(rest, sofar[key := value], unquote)
  }

  // ------------------------------------------------------------ the scanner

  /** Works on every input: it never reads outside the text and always ends. */
  method ParseKeyValuePairs(args: string, unquote: Unquoter) returns (p: Parsed)
    ensures p == Parse(args, map[], unquote)
  {
    var result: map<string, string> := map[];
    var i := 0;
    assert args[0..] == args;
    while i < |args|
      invariant 0 <= i <= |args|
      invariant Parse(args, map[], unquote) == Parse(args[i..], result, unquote)
      decreases |args| - i
    {
      i := SkipBlanks(args, i);
      if i >= |args| {
        break;
      }
      var step, next := ScanPair(args, i, unquote);
      match step {
        case NoEquals => return MissingEquals;
        case BadQuotes => return InvalidQuoted;
        case Item(key, value, _) => result := result[key := value];
      }
      i := next;
    }
    assert args[i..] == "";
    p := Pairs(result);
  }

  method SkipBlanks(args: string, start: nat) returns (i: nat)
    requires start <= |args|
    ensures start <= i <= |args| && args[i..] == DropBlanks(args[start..])
  {
    i := start;
    while i < |args| && args[i] == ' '
      invariant start <= i <= |args|
      invariant DropBlanks(args[start..]) == DropBlanks(args[i..])
    {
      assert args[i..][1..] == args[i + 1..];
      i := i + 1;
    }
  }

  /** A cut at given positions. */
  lemma CutMade(s: string, k: nat, tail: string, n: nat)
    requires k == KeyLength(s) < |s| && tail == s[k + 1..] && n == ValueLength(tail, '=', 0, false)
    ensures Cut(s) == Texts3(s[..k], tail[..n], tail[n..])
  {
  }

  lemma SliceTwice(args: string, i: nat, m: nat)
    requires i <= m <= |args|
    ensures args[i..][m - i..] == args[m..] && args[i..][..m - i] == args[i..m]
  {
  }

  /** The cut in terms of positions in the whole text. */
  lemma CutAt(args: string, keyStart: nat, eq: nat, end: nat)
    requires keyStart <= eq < end <= |args|
    requires KeyLength(args[keyStart..]) == eq - keyStart
    requires end == eq + 1 + ValueLength(args[eq + 1..], '=', 0, false)
    ensures Cut(args[keyStart..]) == Texts3(args[keyStart..eq], args[eq + 1..end], args[end..])
  {
    SliceTwice(args, keyStart, eq);
    SliceTwice(args, keyStart, eq + 1);
    CutTail(args, eq + 1, end);
    CutMade(args[keyStart..], eq - keyStart, args[eq + 1..], end - eq - 1);
  }

  lemma CutTail(args: string, valueStart: nat, end: nat)
    requires valueStart <= end <= |args|
    ensures args[valueStart..][..end - valueStart] == args[valueStart..end]
    ensures args[valueStart..][end - valueStart..] == args[end..]
  {
    SliceTwice(args, valueStart, end);
  }

  lemma ReadPairAt(args: string, keyStart: nat, eq: nat, end: nat, unquote: Unquoter)
    requires keyStart <= eq < end <= |args|
    requires KeyLength(args[keyStart..]) == eq - keyStart
    requires end == eq + 1 + ValueLength(args[eq + 1..], '=', 0, false)
    ensures ReadPair(args[keyStart..], unquote)
         == Assemble(args[keyStart..eq], args[eq + 1..end], args[end..], unquote)
  {
    CutAt(args, keyStart, eq, end);
  }

  method ScanKey(args: string, keyStart: nat) returns (i: nat)
    requires keyStart <= |args|
    ensures i == keyStart + KeyLength(args[keyStart..])
    ensures i < |args| ==> args[i] == '='
  {
    i := keyStart;
    while i < |args| && args[i] != '='
      invariant keyStart <= i <= |args|
      invariant KeyLength(args[keyStart..]) == i - keyStart + KeyLength(args[i..])
    {
      assert args[i..][1..] == args[i + 1..];
      i := i + 1;
    }
  }

  method SkipComma(args: string, end: nat) returns (i: nat)
    requires end <= |args|
    ensures end <= i <= |args| && args[i..] == AfterComma(args[end..])
  {
    i := end;
    if i < |args| && args[i] == ',' {
      SliceTwice(args, i, i + 1);
      i := i + 1;
    }
  }

  /** The body of the outer loop, from the start of a key to the start of the next pair. */
  method ScanPair(args: string, keyStart: nat, unquote: Unquoter) returns (step: Step, i: nat)
    requires keyStart < |args|
    ensures step == ReadPair(args[keyStart..], unquote)
    ensures step.Item? ==> keyStart < i <= |args| && step.rest == args[i..]
  {
    var eq := ScanKey(args, keyStart);
    if eq >= |args| {
      return NoEquals, eq;
    }
    i := ScanValue(args, eq + 1);
    ReadPairAt(args, keyStart, eq, i, unquote);
    step := Assemble(args[keyStart..eq], args[eq + 1..i], args[i..], unquote);
    i := SkipComma(args, i);
  }

  /** The inner loop over one value, which starts just after its '='. */
  method ScanValue(args: string, valueStart: nat) returns (i: nat)
    requires 0 < valueStart <= |args| && args[valueStart - 1] == '='
    ensures valueStart <= i <= |args|
    ensures i == valueStart + ValueLength(args[valueStart..], '=', 0, false)
  {
    i := valueStart;
    var braceCount, inQuotes := 0, false;
    while i < |args|
      invariant valueStart <= i <= |args|
      invariant valueStart + ValueLength(args[valueStart..], '=', 0, false)
             == i + ValueLength(args[i..], args[i - 1], braceCount, inQuotes)
    {
      var ch := args[i];
      assert args[i..][1..] == args[i + 1..];
      if ch == '"' && (i == 0 || args[i - 1] != '\\') {
        inQuotes := !inQuotes;
      } else if !inQuotes {
        if ch == '{' {
          braceCount := braceCount + 1;
        } else if ch == '}' {
          braceCount := braceCount - 1;
        } else if ch == ',' && braceCount == 0 {
          break;
        }
      }
      i := i + 1;
    }
  }

  // ------------------------------------------------------------ a printer and its inverse

  /** A value as it is written: as it stands, or between quotes. */
  datatype Value = Bare(text: string) | Quoted(body: string)

  datatype Pair = Pair(key: string, value: Value)

  function Show(v: Value): string {
    match v
    case Bare(text) => text
    case Quoted(body) => "\"" + body + "\""
  }

  /** What a value stands for; None if the quoted text is malformed. */
  function Meaning(v: Value, unquote: Unquoter): Option<string> {
    match v
    case Bare(text) => Some(text)
    case Quoted(_) => unquote(Show(v))
  }

  function Print(pairs: seq<Pair>): string
    decreases |pairs|, 0
  {
    if pairs == [] then "" else pairs[0].key + "=" + Show(pairs[0].value) + PrintMore(pairs[1..])
  }

  function PrintMore(pairs: seq<Pair>): string
    decreases |pairs|, 1
  {
    if pairs == [] then "" else "," + Print(pairs)
  }

  function MapOf(pairs: seq<Pair>, sofar: map<string, string>, unquote: Unquoter): map<string, string>
    requires forall i :: 0 <= i < |pairs| ==> Meaning(pairs[i].value, unquote).Some?
  {
    if pairs == [] then sofar
    else MapOf(pairs[1..], sofar[pairs[0].key := Meaning(pairs[0].value, unquote).value], unquote)
  }

  /** Braces come back to depth 0 at the end, and no comma stands at depth 0. */
  predicate Balanced(s: string, depth: int) {
    if s == "" then depth == 0
    else if s[0] == '{' then Balanced(s[1..], depth + 1)
    else if s[0] == '}' then Balanced(s[1..], depth - 1)
    else !(s[0] == ',' && depth == 0) && Balanced(s[1..], depth)
  }

  /** Every quote has a backslash before it; `prev` is the character before s. */
  predicate EscapedQuotes(s: string, prev: char) {
    s == "" || ((s[0] == '"' ==> prev == '\\') && EscapedQuotes(s[1..], s[0]))
  }

  predicate EndsInBackslash(s: string) {
    s != "" && s[|s| - 1] == '\\'
  }

  predicate Writable(v: Value) {
    match v
    case Bare(text) => Trimmed(text) && '"' !in text && Balanced(text, 0)
    case Quoted(body) => EscapedQuotes(body, '"')
  }

  predicate Printable(p: Pair, unquote: Unquoter) {
    '=' !in p.key && Trimmed(p.key) && Writable(p.value) && Meaning(p.value, unquote).Some?
  }

  /** The scanner takes the closing quote of v for an escaped one. */
  predicate Misleading(v: Value) {
    v.Quoted? && EndsInBackslash(v.body)
  }

  /** All pairs can be written, and none but the last misleads the scanner. */
  predicate AllPrintable(pairs: seq<Pair>, unquote: Unquoter) {
    && (forall i :: 0 <= i < |pairs| ==> Printable(pairs[i], unquote))
    && (forall i :: 0 <= i < |pairs| - 1 ==> !Misleading(pairs[i].value))
  }

  predicate PlainBody(body: string) {
    '"' !in body && '\\' !in body && '\n' !in body
  }

  /** What strconv.Unquote does with a text that needs no unescaping. */
  ghost predicate Plain(unquote: Unquoter) {
    forall body: string :: PlainBody(body) ==> unquote("\"" + body + "\"") == Some(body)
  }

  lemma {:induction false} PlainIsEscaped(body: string, prev: char)
    requires PlainBody(body)
    ensures EscapedQuotes(body, prev)
  {
    if body != "" {
      assert body[0] in body;
      PlainIsEscaped(body[1..], body[0]);
    }
  }

  /** A quoted value without quotes, backslashes and newlines can always be written, stands for itself and does not
      mislead. */
  lemma PlainValue(body: string, unquote: Unquoter)
    requires PlainBody(body) && Plain(unquote)
    ensures Writable(Quoted(body)) && Meaning(Quoted(body), unquote) == Some(body) && !Misleading(Quoted(body))
  {
    PlainIsEscaped(body, '"');
    if body != "" {
      assert body[|body| - 1] in body;
    }
  }

  lemma {:induction false} KeyStops(k: string, rest: string)
    requires '=' !in k
    ensures KeyLength(k + "=" + rest) == |k|
  {
    if k != "" {
      assert k[0] in k;
      assert (k + "=" + rest)[1..] == k[1..] + "=" + rest;
      KeyStops(k[1..], rest);
    }
  }

  predicate AtEndOfPair(rest: string) {
    rest == "" || rest[0] == ','
  }

  lemma {:induction false} BareStops(t: string, rest: string, prev: char, depth: int)
    requires '"' !in t && Balanced(t, depth) && AtEndOfPair(rest)
    ensures ValueLength(t + rest, prev, depth, false) == |t|
  {
    if t == "" {
      assert t + rest == rest;
    } else {
      assert t[0] in t;
      assert (t + rest)[1..] == t[1..] + rest;
      BareStops(t[1..], rest, t[0], if t[0] == '{' then depth + 1 else if t[0] == '}' then depth - 1 else depth);
    }
  }

  /** Inside quotes the value ends at the closing quote exactly if nothing follows or no backslash stands before it. */
  lemma {:induction false} BodyStopsIff(body: string, rest: string, prev: char)
    requires EscapedQuotes(body, prev) && AtEndOfPair(rest)
    ensures ValueLength(body + "\"" + rest, prev, 0, true) == |body| + 1 <==>
            rest == "" || (if body == "" then prev else body[|body| - 1]) != '\\'
  {
    var s := body + "\"" + rest;
    if body == "" {
      assert s[1..] == rest;
    } else {
      assert s[1..] == body[1..] + "\"" + rest;
      BodyStopsIff(body[1..], rest, body[0]);
    }
  }

  /** The scanner finds the end of a written value exactly if nothing follows or the value does not mislead it. */
  lemma ValueStopsIff(v: Value, rest: string)
    requires Writable(v) && AtEndOfPair(rest)
    ensures ValueLength(Show(v) + rest, '=', 0, false) == |Show(v)| <==> rest == "" || !Misleading(v)
  {
    match v
    case Bare(text) => BareStops(text, rest, '=', 0);
    case Quoted(body) =>
      BodyStopsIff(body, rest, '"');
      var s := Show(v) + rest;
      assert s[0] == '"' && s[1..] == body + "\"" + rest;
  }

  lemma ValueMeans(v: Value, unquote: Unquoter)
    requires Writable(v)
    ensures Unquoted(TrimSpace(Show(v)), unquote) == Meaning(v, unquote)
  {
    TrimTrimmed(Show(v));
    if v.Bare? && v.text != "" {
      assert v.text[0] in v.text;
    }
  }

  /** A written pair is cut into its parts exactly under that condition. */
  lemma CutBackIff(key: string, v: Value, rest: string)
    requires '=' !in key && Writable(v) && AtEndOfPair(rest)
    ensures KeyLength(key + "=" + (Show(v) + rest)) == |key|
    ensures Cut(key + "=" + (Show(v) + rest)) == Texts3(key, Show(v), rest) <==> rest == "" || !Misleading(v)
  {
    var tail := Show(v) + rest;
    var s := key + "=" + tail;
    KeyStops(key, tail);
    ValueStopsIff(v, rest);
    assert s[..|key|] == key && s[|key| + 1..] == tail;
    var n := ValueLength(tail, '=', 0, false);
    CutMade(s, |key|, tail, n);
    if n == |Show(v)| {
      assert tail[..n] == Show(v) && tail[n..] == rest;
    } else {
      assert |tail[..n]| == n;
    }
  }

  /** Such a pair is then read back, or found malformed if its quoted text is. */
  lemma ReadBack(key: string, v: Value, rest: string, unquote: Unquoter)
    requires '=' !in key && Trimmed(key) && Writable(v) && AtEndOfPair(rest) && (rest == "" || !Misleading(v))
    ensures ReadPair(key + "=" + (Show(v) + rest), unquote)
         == match Meaning(v, unquote) case None => BadQuotes case Some(m) => Item(key, m, AfterComma(rest))
  {
    CutBackIff(key, v, rest);
    TrimTrimmed(key);
    ValueMeans(v, unquote);
  }

  /** One printed pair is read back, whatever follows it. */
  lemma ParsePair(p: Pair, rest: string, sofar: map<string, string>, unquote: Unquoter)
    requires Printable(p, unquote) && AtEndOfPair(rest) && (rest == "" || !Misleading(p.value))
    ensures Parse(p.key + "=" + Show(p.value) + rest, sofar, unquote)
         == Parse(AfterComma(rest), sofar[p.key := Meaning(p.value, unquote).value], unquote)
  {
    var s := p.key + "=" + Show(p.value) + rest;
    assert s == p.key + "=" + (Show(p.value) + rest);
    assert s[0] != ' ';
    ReadBack(p.key, p.value, rest, unquote);
  }

  /** The scanner inverts the printer: the pairs come back as the map they stand for, with the last value of a
      repeated key. */
  lemma {:induction false} ParsePrint(pairs: seq<Pair>, sofar: map<string, string>, unquote: Unquoter)
    requires AllPrintable(pairs, unquote)
    ensures Parse(Print(pairs), sofar, unquote) == Pairs(MapOf(pairs, sofar, unquote))
    decreases |pairs|
  {
    if pairs != [] {
      var p, more := pairs[0], PrintMore(pairs[1..]);
      assert AfterComma(more) == Print(pairs[1..]);
      ParsePair(p, more, sofar, unquote);
      ParsePrint(pairs[1..], sofar[p.key := Meaning(p.value, unquote).value], unquote);
    }
  }

  // ------------------------------------------------------------ white space and malformed input

  lemma {:induction false} BlankRuns(a: string, s: string, prev: char)
    requires Blank(a) && prev != '\\'
    ensures ValueLength(a + s, prev, 0, false) == |a| + ValueLength(s, '=', 0, false)
  {
    if a == "" {
      assert a + s == s;
    } else {
      assert (a + s)[1..] == a[1..] + s;
      BlankRuns(a[1..], s, a[0]);
    }
  }

  /** After the closing quote the scanner is outside again. */
  lemma {:induction false} BodyThen(body: string, tail: string, prev: char)
    requires EscapedQuotes(body, prev) && (if body == "" then prev else body[|body| - 1]) != '\\'
    ensures ValueLength(body + "\"" + tail, prev, 0, true) == |body| + 1 + ValueLength(tail, '"', 0, false)
  {
    var s := body + "\"" + tail;
    if body == "" {
      assert s[1..] == tail;
    } else {
      assert s[1..] == body[1..] + "\"" + tail;
      BodyThen(body[1..], tail, body[0]);
    }
  }

  lemma {:induction false} BalancedBlank(t: string, b: string, depth: int)
    requires Balanced(t, depth) && Blank(b)
    ensures Balanced(t + b, depth)
  {
    if t != "" {
      assert (t + b)[1..] == t[1..] + b;
      BalancedBlank(t[1..], b, if t[0] == '{' then depth + 1 else if t[0] == '}' then depth - 1 else depth);
    } else if b != "" {
      assert t + b == b;
      assert "" + b[1..] == b[1..];
      BalancedBlank("", b[1..], depth);
    } else {
      assert t + b == "";
    }
  }

  lemma PaddedBare(text: string, d: string, rest: string)
    requires Writable(Bare(text)) && Blank(d) && AtEndOfPair(rest)
    ensures ValueLength(text + d + rest, '=', 0, false) == |text + d|
  {
    BalancedBlank(text, d, 0);
    assert '"' !in d;
    BareStops(text + d, rest, '=', 0);
  }

  lemma PaddedQuoted(body: string, d: string, rest: string)
    requires EscapedQuotes(body, '"') && !EndsInBackslash(body) && Blank(d) && AtEndOfPair(rest)
    ensures ValueLength(Show(Quoted(body)) + (d + rest), '=', 0, false) == |body| + 2 + |d|
  {
    QuoteOpens(body, d + rest);
    BodyThen(body, d + rest, '"');
    BlankRuns(d, rest, '"');
    NothingLeft(rest);
  }

  lemma QuoteOpens(body: string, x: string)
    ensures ValueLength(Show(Quoted(body)) + x, '=', 0, false) == 1 + ValueLength(body + "\"" + x, '"', 0, true)
  {
    var s := Show(Quoted(body)) + x;
    assert s[0] == '"' && s[1..] == body + "\"" + x;
  }

  lemma NothingLeft(rest: string)
    requires AtEndOfPair(rest)
    ensures ValueLength(rest, '=', 0, false) == 0
  {
  }

  lemma PaddedTail(v: Value, d: string, rest: string)
    requires Blank(d) && Writable(v) && AtEndOfPair(rest) && (d + rest == "" || !Misleading(v))
    ensures ValueLength(Show(v) + (d + rest), '=', 0, false) == |Show(v)| + |d|
  {
    match v
    case Bare(text) =>
      PaddedBare(text, d, rest);
      assert text + (d + rest) == text + d + rest;
    case Quoted(body) =>
      if EndsInBackslash(body) {
        ValueStopsIff(v, "");
        assert Show(v) + "" == Show(v) + (d + rest);
      } else {
        PaddedQuoted(body, d, rest);
      }
  }

  /** White space before and after a written value belongs to its text. */
  lemma PaddedStops(c: string, v: Value, d: string, rest: string)
    requires Blank(c) && Blank(d) && Writable(v) && AtEndOfPair(rest) && (d + rest == "" || !Misleading(v))
    ensures ValueLength(c + Show(v) + d + rest, '=', 0, false) == |c + Show(v) + d|
  {
    var shown := Show(v);
    PaddedTail(v, d, rest);
    BlankRuns(c, shown + (d + rest), '=');
    Regroup(c, shown, d, rest);
  }

  lemma Regroup(a: string, b: string, c: string, d: string)
    ensures a + b + c + d == a + (b + (c + d))
  {
  }

  lemma CutInto(key: string, text: string, rest: string)
    requires '=' !in key && ValueLength(text + rest, '=', 0, false) == |text|
    ensures KeyLength(key + "=" + (text + rest)) == |key|
    ensures Cut(key + "=" + (text + rest)) == Texts3(key, text, rest)
  {
    var tail := text + rest;
    var s := key + "=" + tail;
    KeyStops(key, tail);
    assert s[..|key|] == key && s[|key| + 1..] == tail;
    CutMade(s, |key|, tail, |text|);
    assert tail[..|text|] == text && tail[|text|..] == rest;
  }

  /** White space around key and value does not matter. */
  lemma ReadPadded(a: string, key: string, b: string, c: string, v: Value, d: string, rest: string, unquote: Unquoter)
    requires Blank(a) && Blank(b) && Blank(c) && Blank(d)
    requires '=' !in key && Trimmed(key) && Writable(v) && AtEndOfPair(rest) && (d + rest == "" || !Misleading(v))
    ensures ReadPair(a + key + b + "=" + (c + Show(v) + d + rest), unquote)
         == match Meaning(v, unquote) case None => BadQuotes case Some(m) => Item(key, m, AfterComma(rest))
  {
    PaddedStops(c, v, d, rest);
    CutInto(a + key + b, c + Show(v) + d, rest);
    TrimSpaceAround(a, key, b);
    TrimTrimmed(Show(v));
    TrimSpaceAround(c, Show(v), d);
    ValueMeans(v, unquote);
  }

  lemma {:induction false} DropBlanksPad(a: string, s: string) returns (a': string)
    requires Blank(a) && s != "" && s[0] != ' '
    ensures Blank(a') && DropBlanks(a + s) == a' + s
  {
    if a == "" || a[0] != ' ' {
      a' := a;
    } else {
      assert (a + s)[1..] == a[1..] + s;
      a' := DropBlanksPad(a[1..], s);
    }
  }

  /** A written pair with white space around its key and its value is parsed like the bare pair, and a malformed
      quoted text makes the whole input invalid. */
  lemma ParsePadded(a: string, key: string, b: string, c: string, v: Value, d: string, rest: string,
                    sofar: map<string, string>, unquote: Unquoter)
    requires Blank(a) && Blank(b) && Blank(c) && Blank(d) && key != ""
    requires '=' !in key && Trimmed(key) && Writable(v) && AtEndOfPair(rest) && (d + rest == "" || !Misleading(v))
    ensures Parse(a + key + b + "=" + (c + Show(v) + d + rest), sofar, unquote)
         == match Meaning(v, unquote)
            case None => InvalidQuoted
            case Some(m) => Parse(AfterComma(rest), sofar[key := m], unquote)
  {
    var tail := c + Show(v) + d + rest;
    var a' := DropFront(a, key, b, tail);
    ReadPadded(a', key, b, c, v, d, rest, unquote);
    ParseStep(a + key + b + "=" + tail, a' + key + b + "=" + tail, sofar, unquote);
  }

  lemma DropFront(a: string, key: string, b: string, tail: string) returns (a': string)
    requires Blank(a) && key != "" && Trimmed(key)
    ensures Blank(a') && DropBlanks(a + key + b + "=" + tail) == a' + key + b + "=" + tail
  {
    var s := key + b + "=" + tail;
    assert s[0] == key[0];
    a' := DropBlanksPad(a, s);
    assert a + key + b + "=" + tail == a + s;
    assert a' + key + b + "=" + tail == a' + s;
  }

  lemma ParseStep(s: string, front: string, sofar: map<string, string>, unquote: Unquoter)
    requires DropBlanks(s) == front && front != ""
    ensures Parse(s, sofar, unquote)
         == match ReadPair(front, unquote)
            case NoEquals => MissingEquals
            case BadQuotes => InvalidQuoted
            case Item(key, value, rest) => Parse(rest, sofar[key := value], unquote)
  {
  }

  lemma {:induction false} OnlyBlanks(s: string)
    ensures DropBlanks(s) == "" <==> forall i :: 0 <= i < |s| ==> s[i] == ' '
  {
    if s != "" && s[0] == ' ' {
      OnlyBlanks(s[1..]);
      assert s == [' '] + s[1..];
    }
  }

  lemma {:induction false} NoEqualsLength(s: string)
    requires '=' !in s
    ensures KeyLength(s) == |s|
  {
    if s != "" {
      assert s[0] in s;
      NoEqualsLength(s[1..]);
    }
  }

  lemma {:induction false} DropBlanksSubset(s: string, c: char)
    requires c !in s
    ensures c !in DropBlanks(s)
  {
    if s != "" && s[0] == ' ' {
      DropBlanksSubset(s[1..], c);
    }
  }

  /** An input without '=' is an error, unless it is blank. */
  lemma MissingEqualsFound(s: string, sofar: map<string, string>, unquote: Unquoter)
    requires '=' !in s
    ensures Parse(s, sofar, unquote) == if forall i :: 0 <= i < |s| ==> s[i] == ' ' then Pairs(sofar) else MissingEquals
  {
    OnlyBlanks(s);
    DropBlanksSubset(s, '=');
    NoEqualsLength(DropBlanks(s));
  }

  lemma {:induction false} MapOfDistinct(pairs: seq<Pair>, sofar: map<string, string>, unquote: Unquoter, i: nat)
    requires forall j :: 0 <= j < |pairs| ==> Meaning(pairs[j].value, unquote).Some?
    requires i < |pairs| && forall j, k :: 0 <= j < k < |pairs| ==> pairs[j].key != pairs[k].key
    ensures pairs[i].key in MapOf(pairs, sofar, unquote)
    ensures Some(MapOf(pairs, sofar, unquote)[pairs[i].key]) == Meaning(pairs[i].value, unquote)
    decreases |pairs|
  {
    var next := sofar[pairs[0].key := Meaning(pairs[0].value, unquote).value];
    if i > 0 {
      MapOfDistinct(pairs[1..], next, unquote, i - 1);
    } else {
      MapOfKeeps(pairs[1..], next, unquote, pairs[0].key);
    }
  }

  lemma {:induction false} MapOfKeeps(pairs: seq<Pair>, sofar: map<string, string>, unquote: Unquoter, key: string)
    requires forall j :: 0 <= j < |pairs| ==> Meaning(pairs[j].value, unquote).Some?
    requires key in sofar && forall j :: 0 <= j < |pairs| ==> pairs[j].key != key
    ensures key in MapOf(pairs, sofar, unquote) && MapOf(pairs, sofar, unquote)[key] == sofar[key]
    decreases |pairs|
  {
    if pairs != [] {
      MapOfKeeps(pairs[1..], sofar[pairs[0].key := Meaning(pairs[0].value, unquote).value], unquote, key);
    }
  }

  /** With distinct keys every pair is found in the result. */
  lemma EveryPairReadBack(pairs: seq<Pair>, unquote: Unquoter, i: nat)
    requires AllPrintable(pairs, unquote)
    requires i < |pairs| && forall j, k :: 0 <= j < k < |pairs| ==> pairs[j].key != pairs[k].key
    ensures Parse(Print(pairs), map[], unquote).Pairs?
    ensures var m := Parse(Print(pairs), map[], unquote).pairs;
            pairs[i].key in m && Some(m[pairs[i].key]) == Meaning(pairs[i].value, unquote)
  {
    ParsePrint(pairs, map[], unquote);
    MapOfDistinct(pairs, map[], unquote, i);
  }

  lemma {:induction false} OpenQuoteSwallows(s: string, prev: char)
    requires '"' !in s
    ensures ValueLength(s, prev, 0, true) == |s|
  {
    if s != "" {
      assert s[0] in s;
      OpenQuoteSwallows(s[1..], s[0]);
    }
  }

  /** The scanner takes a quote after any backslash for an escaped one: a quoted value that ends in an escaped
      backslash does not end at its closing quote but runs to the end of a quote-free input. */
  lemma EscapedBackslashSwallows(body: string, rest: string)
    requires PlainBody(body) && '"' !in rest
    ensures var v := "\"" + body + "\\\\\"";
            ValueLength(v + rest, '=', 0, false) == |v + rest|
  {
    var v := "\"" + body + "\\\\\"";
    var s := v + rest;
    assert s[0] == '"' && s[1..] == body + ("\\\\\"" + rest);
    BackslashTail(body, rest, '"');
  }

  lemma {:induction false} BackslashTail(body: string, rest: string, prev: char)
    requires PlainBody(body) && '"' !in rest
    ensures ValueLength(body + ("\\\\\"" + rest), prev, 0, true) == |body| + 3 + |rest|
  {
    var s := body + ("\\\\\"" + rest);
    if body == "" {
      assert s[1..][1..][1..] == rest && s[1..][0] == '\\' && s[1..][1..][0] == '"';
      OpenQuoteSwallows(rest, '"');
      assert ValueLength(s[1..][1..], '\\', 0, true) == 1 + |rest|;
      assert ValueLength(s[1..], '\\', 0, true) == 2 + |rest|;
    } else {
      assert body[0] in body;
      assert s[1..] == body[1..] + ("\\\\\"" + rest);
      BackslashTail(body[1..], rest, body[0]);
    }
  }

  /** A quoted text that ends in an escaped backslash. */
  function Backslashed(body: string): string {
    "\"" + body + "\\\\\""
  }

  /** With a quote-free text behind it such a value is read as one with all of that text. */
  lemma MisreadPair(key: string, body: string, rest: string, unquote: Unquoter)
    requires '=' !in key && Trimmed(key) && PlainBody(body)
    requires rest != "" && '"' !in rest && !IsSpace(rest[|rest| - 1])
    ensures ReadPair(key + "=" + (Backslashed(body) + rest), unquote) == Item(key, Backslashed(body) + rest, "")
  {
    var text := Backslashed(body) + rest;
    EscapedBackslashSwallows(body, rest);
    MisreadText(text, rest, unquote);
    MisreadCut(key, text);
    TrimTrimmed(key);
  }

  lemma MisreadCut(key: string, text: string)
    requires '=' !in key && ValueLength(text, '=', 0, false) == |text|
    ensures KeyLength(key + "=" + text) == |key| && Cut(key + "=" + text) == Texts3(key, text, "")
  {
    var s := key + "=" + text;
    KeyStops(key, text);
    assert s[..|key|] == key && s[|key| + 1..] == text;
    CutMade(s, |key|, text, |text|);
    assert text[..|text|] == text && text[|text|..] == "";
  }

  lemma MisreadText(text: string, rest: string, unquote: Unquoter)
    requires |rest| < |text| && text[0] == '"' && text[|text| - |rest|..] == rest
    requires rest != "" && '"' !in rest && !IsSpace(rest[|rest| - 1])
    ensures Unquoted(TrimSpace(text), unquote) == Some(text)
  {
    assert rest[|rest| - 1] == text[|text| - 1] && rest[|rest| - 1] in rest;
    TrimTrimmed(text);
  }

  /** So the pairs behind it are lost. */
  lemma MisreadParse(key: string, body: string, rest: string, unquote: Unquoter)
    requires key != "" && '=' !in key && Trimmed(key) && PlainBody(body)
    requires rest != "" && '"' !in rest && !IsSpace(rest[|rest| - 1])
    ensures Parse(key + "=" + (Backslashed(body) + rest), map[], unquote)
         == Pairs(map[key := Backslashed(body) + rest])
  {
    MisreadPair(key, body, rest, unquote);
    ParseOne(key + "=" + (Backslashed(body) + rest), key, Backslashed(body) + rest, unquote);
  }

  lemma ParseOne(s: string, key: string, value: string, unquote: Unquoter)
    requires s != "" && s[0] != ' ' && ReadPair(s, unquote) == Item(key, value, "")
    ensures Parse(s, map[], unquote) == Pairs(map[key := value])
  {
    assert Parse("", map[key := value], unquote) == Pairs(map[key := value]);
  }

  lemma BackslashedWritable()
    ensures Writable(Quoted("\\\\")) && Show(Quoted("\\\\")) == Backslashed("")
  {
    var body := "\\\\";
    assert body[0] == '\\' && body[1..][0] == '\\' && body[1..][1..] == "";
  }

  /** A wrong result: in a="\\",b=1 the value of a takes in the pair behind it, whatever strconv.Unquote makes of
      quoted texts. */
  lemma SwallowedPair(unquote: Unquoter)
    ensures Parse("a" + "=" + (Show(Quoted("\\\\")) + ",b=1"), map[], unquote)
         == Pairs(map["a" := Show(Quoted("\\\\")) + ",b=1"])
  {
    var rest := ",b=1";
    assert rest[|rest| - 1] == '1';
    BackslashedWritable();
    MisreadParse("a", "", rest, unquote);
  }
}
