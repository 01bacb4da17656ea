/** The few operations of Go's strings package that the models share. A char stands for a Unicode code point. */
module Texts {
  predicate Free(c: char, s: string) {
    c !in s
  }

  function Join(parts: seq<string>, sep: char): string {
    if |parts| == 0 then ""
    else if |parts| == 1 then parts[0]
    else parts[0] + [sep] + Join(parts[1..], sep)
  }

  /** strings.Split for a one-character separator. */
  function Split(s: string, sep: char): (parts: seq<string>)
    ensures |parts| >= 1
    ensures forall i :: 0 <= i < |parts| ==> Free(sep, parts[i])
  {
    if s == "" then [""]
    else
      var rest := Split(s[1..], sep);
      if s[0] == sep then [""] + rest
      else [[s[0]] + rest[0]] + rest[1..]
  }

  lemma {:induction false} JoinSplit(s: string, sep: char)
    ensures Join(Split(s, sep), sep) == s
  {
    if s != "" {
      JoinSplit(s[1..], sep);
      var rest := Split(s[1..], sep);
      if s[0] == sep {
        assert ([""] + rest)[1..] == rest;
      } else if |rest| > 1 {
        assert ([[s[0]] + rest[0]] + rest[1..])[1..] == rest[1..];
      }
    }
  }

  lemma {:induction false} SplitFree(s: string, sep: char)
    requires Free(sep, s)
    ensures Split(s, sep) == [s]
  {
    if s != "" {
      assert s[0] in s;
      SplitFree(s[1..], sep);
      assert s == [s[0]] + s[1..];
    }
  }

  /** The first piece ends at the first separator. */
  lemma {:induction false} SplitHead(a: string, rest: string, sep: char)
    requires Free(sep, a)
    ensures Split(a + [sep] + rest, sep) == [a] + Split(rest, sep)
  {
    var s := a + [sep] + rest;
    if a == "" {
      assert s[1..] == rest;
    } else {
      assert a[0] in a && s[0] == a[0];
      assert s[1..] == a[1..] + [sep] + rest;
      SplitHead(a[1..], rest, sep);
      assert a == [a[0]] + a[1..];
    }
  }

  lemma {:induction false} SplitJoin(parts: seq<string>, sep: char)
    requires |parts| >= 1
    requires forall i :: 0 <= i < |parts| ==> Free(sep, parts[i])
    ensures Split(Join(parts, sep), sep) == parts
  {
    if |parts| == 1 {
      SplitFree(parts[0], sep);
    } else {
      SplitJoin(parts[1..], sep);
      SplitHead(parts[0], Join(parts[1..], sep), sep);
    }
  }

  /** The pieces of two texts with a separator between them. */
  lemma {:induction false} SplitConcat(a: string, rest: string, sep: char)
    ensures Split(a + [sep] + rest, sep) == Split(a, sep) + Split(rest, sep)
  {
    if a == "" {
      assert (a + [sep] + rest)[1..] == rest;
    } else {
      assert (a + [sep] + rest)[1..] == a[1..] + [sep] + rest;
      SplitConcat(a[1..], rest, sep);
    }
  }

  // ------------------------------------------------------------ trimming

  function TrimLeft(s: string, c: char): string {
    if s != "" && s[0] == c then TrimLeft(s[1..], c) else s
  }

  function TrimRight(s: string, c: char): string {
    if s != "" && s[|s| - 1] == c then TrimRight(s[..|s| - 1], c) else s
  }

  /** strings.Trim for a one-character cutset. */
  function Trim(s: string, c: char): string {
    TrimRight(TrimLeft(s, c), c)
  }

  predicate All(s: string, c: char) {
    forall i :: 0 <= i < |s| ==> s[i] == c
  }

  lemma {:induction false} TrimLeftAll(a: string, s: string, c: char)
    requires All(a, c)
    ensures TrimLeft(a + s, c) == TrimLeft(s, c)
  {
    if a == "" {
      assert a + s == s;
    } else {
      assert (a + s)[1..] == a[1..] + s;
      TrimLeftAll(a[1..], s, c);
    }
  }

  lemma {:induction false} TrimRightAll(s: string, b: string, c: char)
    requires All(b, c)
    ensures TrimRight(s + b, c) == TrimRight(s, c)
  {
    if b == "" {
      assert s + b == s;
    } else {
      assert (s + b)[..|s + b| - 1] == s + b[..|b| - 1];
      TrimRightAll(s, b[..|b| - 1], c);
    }
  }

  /** TrimLeft removes exactly the leading run of c. */
  lemma {:induction false} TrimLeftSplits(s: string, c: char) returns (a: string)
    ensures All(a, c) && s == a + TrimLeft(s, c)
    ensures TrimLeft(s, c) != "" ==> TrimLeft(s, c)[0] != c
  {
    if s != "" && s[0] == c {
      a := TrimLeftSplits(s[1..], c);
      a := [c] + a;
      assert s == [s[0]] + s[1..];
    } else {
      a := "";
    }
  }

  lemma {:induction false} TrimRightSplits(s: string, c: char) returns (b: string)
    ensures All(b, c) && s == TrimRight(s, c) + b
    ensures TrimRight(s, c) != "" ==> TrimRight(s, c)[|TrimRight(s, c)| - 1] != c
  {
    if s != "" && s[|s| - 1] == c {
      b := TrimRightSplits(s[..|s| - 1], c);
      b := b + [c];
      assert s == s[..|s| - 1] + [c];
    } else {
      b := "";
    }
  }

  /** Trimming cuts a run of c off both ends, and what is left neither starts nor ends with c. */
  lemma TrimSplits(s: string, c: char) returns (a: string, b: string)
    ensures All(a, c) && All(b, c) && s == a + Trim(s, c) + b
    ensures Trim(s, c) != "" ==> Trim(s, c)[0] != c && Trim(s, c)[|Trim(s, c)| - 1] != c
  {
    a := TrimLeftSplits(s, c);
    b := TrimRightSplits(TrimLeft(s, c), c);
    assert s == a + (Trim(s, c) + b);
  }

  /** Runs of c around a text make no difference to its trimming. */
  lemma TrimAround(a: string, s: string, b: string, c: char)
    requires All(a, c) && All(b, c)
    ensures Trim(a + s + b, c) == Trim(s, c)
  {
    assert a + s + b == a + (s + b);
    TrimLeftAll(a, s + b, c);
    var x := TrimLeftSplits(s, c);
    if TrimLeft(s, c) == "" {
      assert s + b == (x + b) + "";
      TrimLeftAll(x + b, "", c);
    } else {
      assert s + b == x + (TrimLeft(s, c) + b);
      TrimLeftAll(x, TrimLeft(s, c) + b, c);
      assert TrimLeft(TrimLeft(s, c) + b, c) == TrimLeft(s, c) + b;
      TrimRightAll(TrimLeft(s, c), b, c);
    }
  }

  lemma TrimIdempotent(s: string, c: char)
    ensures Trim(Trim(s, c), c) == Trim(s, c)
  {
    var a, b := TrimSplits(s, c);
    TrimAround(a, Trim(s, c), b, c);
  }

  // ------------------------------------------------------------ white space

  /** unicode.IsSpace. */
  predicate IsSpace(c: char) {
    c == ' ' || '\t' <= c <= '\r'
    || c in {'\U{85}', '\U{A0}', '\U{1680}', '\U{2028}', '\U{2029}', '\U{202F}', '\U{205F}', '\U{3000}'}
    || '\U{2000}' <= c <= '\U{200A}'
  }

  function TrimSpaceLeft(s: string): string {
    if s != "" && IsSpace(s[0]) then TrimSpaceLeft(s[1..]) else s
  }

  function TrimSpaceRight(s: string): string {
    if s != "" && IsSpace(s[|s| - 1]) then TrimSpaceRight(s[..|s| - 1]) else s
  }

  function TrimSpace(s: string): string {
    TrimSpaceRight(TrimSpaceLeft(s))
  }

  predicate Trimmed(s: string) {
    s == "" || (!IsSpace(s[0]) && !IsSpace(s[|s| - 1]))
  }

  lemma TrimTrimmed(s: string)
    requires Trimmed(s)
    ensures TrimSpace(s) == s
  {
  }

  predicate Blank(s: string) {
    forall i :: 0 <= i < |s| ==> IsSpace(s[i])
  }

  /** In ASCII white space is the blank, the tabs, the line ends and the form feed. */
  lemma AsciiSpaces(c: char)
    requires c as int < 0x80
    ensures IsSpace(c) <==> c as int in {9, 10, 11, 12, 13, 32}
  {
  }

  lemma {:induction false} TrimSpaceLeftSplits(s: string) returns (a: string)
    ensures Blank(a) && s == a + TrimSpaceLeft(s)
    ensures TrimSpaceLeft(s) != "" ==> !IsSpace(TrimSpaceLeft(s)[0])
  {
    if s != "" && IsSpace(s[0]) {
      a := TrimSpaceLeftSplits(s[1..]);
      a := [s[0]] + a;
      assert s == [s[0]] + s[1..];
    } else {
      a := "";
    }
  }

  lemma {:induction false} TrimSpaceRightSplits(s: string) returns (b: string)
    ensures Blank(b) && s == TrimSpaceRight(s) + b
    ensures TrimSpaceRight(s) != "" ==> !IsSpace(TrimSpaceRight(s)[|TrimSpaceRight(s)| - 1])
  {
    if s != "" && IsSpace(s[|s| - 1]) {
      b := TrimSpaceRightSplits(s[..|s| - 1]);
      b := b + [s[|s| - 1]];
      assert s == s[..|s| - 1] + [s[|s| - 1]];
    } else {
      b := "";
    }
  }

  /** Trimming cuts white space off both ends, and what is left has none there. */
  lemma TrimSpaceSplits(s: string) returns (a: string, b: string)
    ensures Blank(a) && Blank(b) && s == a + TrimSpace(s) + b && Trimmed(TrimSpace(s))
  {
    a := TrimSpaceLeftSplits(s);
    b := TrimSpaceRightSplits(TrimSpaceLeft(s));
    assert s == a + (TrimSpace(s) + b);
  }

  lemma {:induction false} TrimSpaceLeftBlank(a: string, s: string)
    requires Blank(a)
    ensures TrimSpaceLeft(a + s) == TrimSpaceLeft(s)
  {
    if a == "" {
      assert a + s == s;
    } else {
      assert (a + s)[1..] == a[1..] + s;
      TrimSpaceLeftBlank(a[1..], s);
    }
  }

  lemma {:induction false} TrimSpaceRightBlank(s: string, b: string)
    requires Blank(b)
    ensures TrimSpaceRight(s + b) == TrimSpaceRight(s)
  {
    if b == "" {
      assert s + b == s;
    } else {
      assert (s + b)[..|s + b| - 1] == s + b[..|b| - 1];
      TrimSpaceRightBlank(s, b[..|b| - 1]);
    }
  }

  /** White space around a trimmed text is all that trimming takes off. */
  lemma TrimSpaceAround(a: string, s: string, b: string)
    requires Blank(a) && Blank(b) && Trimmed(s)
    ensures TrimSpace(a + s + b) == s
  {
    assert a + s + b == a + (s + b);
    TrimSpaceLeftBlank(a, s + b);
    if s == "" {
      assert s + b == b && b + "" == b;
      TrimSpaceLeftBlank(b, "");
    } else {
      TrimSpaceRightBlank(s, b);
    }
  }

  /** s is w with white space around it. */
  predicate Padded(s: string, w: string) {
    exists i, j :: 0 <= i <= j <= |s| && Blank(s[..i]) && Blank(s[j..]) && s[i..j] == w
  }

  lemma TrimmedSlice(s: string) returns (i: nat, j: nat)
    ensures i <= j <= |s| && Blank(s[..i]) && Blank(s[j..]) && s[i..j] == TrimSpace(s) && Trimmed(s[i..j])
  {
    var a, b := TrimSpaceSplits(s);
    i, j := |a|, |a| + |TrimSpace(s)|;
    assert s[..i] == a && s[j..] == b && s[i..j] == TrimSpace(s);
  }

  lemma SliceTrimmed(s: string, i: nat, j: nat)
    requires i <= j <= |s| && Blank(s[..i]) && Blank(s[j..]) && Trimmed(s[i..j])
    ensures TrimSpace(s) == s[i..j]
  {
    assert s == s[..i] + s[i..j] + s[j..];
    TrimSpaceAround(s[..i], s[i..j], s[j..]);
  }

  lemma PaddedIff(s: string, w: string)
    requires Trimmed(w)
    ensures TrimSpace(s) == w <==> Padded(s, w)
  {
    var i, j := TrimmedSlice(s);
    assert TrimSpace(s) == w ==> s[i..j] == w;
    if i, j :| 0 <= i <= j <= |s| && Blank(s[..i]) && Blank(s[j..]) && s[i..j] == w {
      SliceTrimmed(s, i, j);
    }
  }

  // ------------------------------------------------------------ letter case

  /** strings.ToLower for ASCII. */
  function Lowered(s: string): (r: string)
    ensures |r| == |s|
  {
    seq(|s|, i requires 0 <= i < |s| => if 'A' <= s[i] <= 'Z' then s[i] + ('a' - 'A') else s[i])
  }

  predicate NoCapitals(w: string) {
    forall i :: 0 <= i < |w| ==> !('A' <= w[i] <= 'Z')
  }

  /** s is w, each letter of which may be a capital. */
  predicate AnyCasing(s: string, w: string) {
    |s| == |w|
    && forall i :: 0 <= i < |s| ==> s[i] == w[i] || ('a' <= w[i] <= 'z' && s[i] as int + 32 == w[i] as int)
  }

  lemma LoweredIff(s: string, w: string)
    requires NoCapitals(w)
    ensures Lowered(s) == w <==> AnyCasing(s, w)
  {
    if Lowered(s) == w {
      forall i | 0 <= i < |s| ensures s[i] == w[i] || ('a' <= w[i] <= 'z' && s[i] as int + 32 == w[i] as int) {
        assert Lowered(s)[i] == w[i];
      }
    }
  }

  // ------------------------------------------------------------ decimal numerals

  function Digit(d: nat): char
    requires d < 10
  {
    '0' + d as char
  }

  function Digits(n: nat): (s: string)
    ensures |s| > 0
  {
    if n < 10 then [Digit(n)] else Digits(n / 10) + [Digit(n % 10)]
  }

  /** The usual decimal numeral of an integer. */
  function Decimal(n: int): string {
    if n < 0 then "-" + Digits(-n) else Digits(n)
  }

  /** Every part with a separator before it. */
  function Tail(parts: seq<string>, sep: char): string {
    if parts == [] then "" else [sep] + parts[0] + Tail(parts[1..], sep)
  }

  lemma {:induction false} JoinIsTail(parts: seq<string>, sep: char)
    requires parts != []
    ensures Join(parts, sep) == parts[0] + Tail(parts[1..], sep)
  {
    if |parts| > 1 {
      JoinIsTail(parts[1..], sep);
    }
  }

  lemma {:induction false} TailConcat(a: seq<string>, b: seq<string>, sep: char)
    ensures Tail(a + b, sep) == Tail(a, sep) + Tail(b, sep)
  {
    if a == [] {
      assert a + b == b;
    } else {
      assert (a + b)[1..] == a[1..] + b;
      TailConcat(a[1..], b, sep);
    }
  }
}
