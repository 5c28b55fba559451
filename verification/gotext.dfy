/** The Go standard-library text operations the worker relies on (package strings,
    path/filepath, strconv), stated on ASCII strings, together with the Option and
    Result wrappers the rest of the model uses for Go's (value, error) returns. */
module GoText {

  datatype Option<+T> = None | Some(value: T)

  datatype Result<+T, +E> = Ok(value: T) | Err(error: E)

  // ---------------------------------------------------------------- whitespace

  /** unicode.IsSpace on ASCII: the characters strings.TrimSpace removes. */
  predicate IsSpace(c: char) {
    c == ' ' || c == '\t' || c == '\n' || c == '\r' || c == '\U{000B}' || c == '\U{000C}'
  }

  /** The `\s` class of Go's regexp package (no vertical tab). */
  predicate IsRegexSpace(c: char) {
    c == ' ' || c == '\t' || c == '\n' || c == '\r' || c == '\U{000C}'
  }

  function TrimLeftSpace(s: string): (r: string)
    ensures |r| <= |s| && r == s[|s| - |r|..]
    ensures r == [] || !IsSpace(r[0])
    ensures forall i :: 0 <= i < |s| - |r| ==> IsSpace(s[i])
  {
    if s != [] && IsSpace(s[0]) then
      var r := TrimLeftSpace(s[1..]);
      assert s[1..][|s| - 1 - |r|..] == s[|s| - |r|..];
      assert forall i :: 1 <= i < |s| - |r| ==> s[i] == s[1..][i - 1];
      r
    else s
  }

  function TrimRightSpace(s: string): (r: string)
    ensures |r| <= |s| && r == s[..|r|]
    ensures r == [] || !IsSpace(r[|r| - 1])
    ensures forall i :: |r| <= i < |s| ==> IsSpace(s[i])
  {
    if s != [] && IsSpace(s[|s| - 1]) then TrimRightSpace(s[..|s| - 1]) else s
  }

  /** strings.TrimSpace: the text between the leading and the trailing whitespace. */
  function TrimSpace(s: string): (r: string)
    ensures r == [] <==> forall i :: 0 <= i < |s| ==> IsSpace(s[i])
    ensures r != [] ==> !IsSpace(r[0]) && !IsSpace(r[|r| - 1])
  {
    TrimRightSpace(TrimLeftSpace(s))
  }

  /** The trimmed text is a piece of the original. */
  lemma TrimSpaceWithin(s: string)
    ensures Contains(s, TrimSpace(s))
  {
    var l := TrimLeftSpace(s);
    var r := TrimRightSpace(l);
    assert OccursAt(s, r, |s| - |l|) by {
      assert s[|s| - |l|..][..|r|] == r;
    }
  }

  /** Text with no whitespace at either end is its own trimmed form. */
  lemma TrimSpaceNoop(s: string)
    requires s == [] || (!IsSpace(s[0]) && !IsSpace(s[|s| - 1]))
    ensures TrimSpace(s) == s
  {
    assert TrimLeftSpace(s) == s;
  }

  // ---------------------------------------------------------------- case

  function LowerChar(c: char): char {
    if 'A' <= c <= 'Z' then (c as int + 32) as char else c
  }

  /** strings.ToLower on ASCII. */
  function ToLower(s: string): (r: string)
    ensures |r| == |s|
    ensures forall i :: 0 <= i < |s| ==> r[i] == LowerChar(s[i])
  {
    seq(|s|, i requires 0 <= i < |s| => LowerChar(s[i]))
  }

  /** Lowering twice is lowering once. */
  lemma ToLowerIdempotent(s: string)
    ensures ToLower(ToLower(s)) == ToLower(s)
  {
    var l := ToLower(s);
    forall i | 0 <= i < |s| ensures ToLower(l)[i] == l[i] {
      assert LowerChar(LowerChar(s[i])) == LowerChar(s[i]);
    }
  }

  /** Lowering works character by character, so it distributes over concatenation. */
  lemma ToLowerAppend(a: string, b: string)
    ensures ToLower(a + b) == ToLower(a) + ToLower(b)
  {
    assert forall i :: 0 <= i < |a| + |b| ==> (a + b)[i] == if i < |a| then a[i] else b[i - |a|];
  }

  // ---------------------------------------------------------------- searching

  predicate OccursAt(s: string, sub: string, i: int) {
    0 <= i && i + |sub| <= |s| && s[i..i + |sub|] == sub
  }

  /** A one-character pattern occurs exactly where that character stands. */
  lemma OccursAtChar(s: string, c: char, i: int)
    ensures OccursAt(s, [c], i) <==> 0 <= i < |s| && s[i] == c
  {
    if 0 <= i < |s| {
      assert s[i..i + 1] == [s[i]];
    }
  }

  /** sub, placed right after a, occurs in a + b + c when it is a prefix of b. */
  lemma OccursAfterPrefix(a: string, b: string, c: string, sub: string)
    requires HasPrefix(b, sub)
    ensures OccursAt(a + b + c, sub, |a|)
  {
    assert (a + b + c)[|a|..|a| + |sub|] == b[..|sub|];
  }

  /** strings.Contains */
  predicate Contains(s: string, sub: string) {
    exists i | 0 <= i <= |s| - |sub| :: OccursAt(s, sub, i)
  }

  /** Containment is transitive. */
  lemma ContainsTrans(a: string, b: string, c: string)
    requires Contains(a, b) && Contains(b, c)
    ensures Contains(a, c)
  {
    var i :| 0 <= i <= |a| - |b| && OccursAt(a, b, i);
    var j :| 0 <= j <= |b| - |c| && OccursAt(b, c, j);
    assert a[i..i + |b|] == b && b[j..j + |c|] == c;
    assert a[i + j..i + j + |c|] == c by {
      forall k | 0 <= k < |c| ensures a[i + j + k] == c[k] {
        assert c[k] == b[j + k] == a[i..i + |b|][j + k];
      }
    }
    assert OccursAt(a, c, i + j);
  }

  /** A prefix is contained. */
  lemma ContainsPrefix(s: string, p: string)
    requires HasPrefix(s, p)
    ensures Contains(s, p)
  {
    assert OccursAt(s, p, 0);
  }

  /** Every character of a contained string is a character of the containing one. */
  lemma ContainedChar(s: string, sub: string, c: char)
    requires Contains(s, sub) && c in sub
    ensures c in s
  {
    var i :| 0 <= i <= |s| - |sub| && OccursAt(s, sub, i);
    var k :| 0 <= k < |sub| && sub[k] == c;
    assert s[i + k] == s[i..i + |sub|][k];
  }

  /** The characters of a contained string all occur in the containing one. */
  lemma ContainedChars(s: string, sub: string)
    requires Contains(s, sub)
    ensures forall c :: c in sub ==> c in s
  {
    forall c | c in sub ensures c in s {
      ContainedChar(s, sub, c);
    }
  }

  /** What the string does not contain, its tail does not contain either. */
  lemma NotContainsTail(s: string, sub: string)
    requires s != [] && !Contains(s, sub)
    ensures !Contains(s[1..], sub)
  {
    forall j | 0 <= j <= |s[1..]| - |sub| ensures !OccursAt(s[1..], sub, j) {
      assert !OccursAt(s, sub, j + 1);
      assert s[1..][j..j + |sub|] == s[j + 1..j + 1 + |sub|];
    }
  }

  predicate HasPrefix(s: string, p: string) {
    |p| <= |s| && s[..|p|] == p
  }

  predicate HasSuffix(s: string, p: string) {
    |p| <= |s| && s[|s| - |p|..] == p
  }

  function TrimPrefix(s: string, p: string): string {
    if HasPrefix(s, p) then s[|p|..] else s
  }

  function TrimSuffix(s: string, p: string): string {
    if HasSuffix(s, p) then s[..|s| - |p|] else s
  }

  /** strings.ContainsAny */
  predicate ContainsAny(s: string, chars: string) {
    exists i | 0 <= i < |s| :: s[i] in chars
  }

  function IndexFrom(s: string, sub: string, k: nat): (r: int)
    decreases |s| - k
    ensures r == -1 || (k <= r && OccursAt(s, sub, r))
    ensures forall j :: k <= j && (r == -1 || j < r) ==> !OccursAt(s, sub, j)
  {
    if k + |sub| > |s| then -1
    else if s[k..k + |sub|] == sub then k
    else IndexFrom(s, sub, k + 1)
  }

  /** strings.Index: the first occurrence of sub, or -1. */
  function Index(s: string, sub: string): (r: int)
    ensures r == -1 <==> !Contains(s, sub)
    ensures r >= 0 ==> OccursAt(s, sub, r) && forall j :: 0 <= j < r ==> !OccursAt(s, sub, j)
  {
    IndexFrom(s, sub, 0)
  }

  function LastIndexBelow(s: string, sub: string, n: nat): (r: int)
    ensures r == -1 || (r < n && OccursAt(s, sub, r))
    ensures forall j :: r < j < n ==> !OccursAt(s, sub, j)
  {
    if n == 0 then -1
    else if OccursAt(s, sub, n - 1) then n - 1
    else LastIndexBelow(s, sub, n - 1)
  }

  /** strings.LastIndex: the last occurrence of sub, or -1. */
  function LastIndex(s: string, sub: string): (r: int)
    ensures r == -1 <==> !Contains(s, sub)
    ensures r >= 0 ==> OccursAt(s, sub, r) && forall j :: r < j ==> !OccursAt(s, sub, j)
  {
    LastIndexBelow(s, sub, |s| + 1)
  }

  // ---------------------------------------------------------------- paths

  function ExtBelow(path: string, n: nat): (r: string)
    requires n <= |path|
    ensures r == [] || (r[0] == '.' && HasSuffix(path[..n], r))
    ensures forall i :: 1 <= i < |r| ==> r[i] != '.' && r[i] != '/'
    ensures r == [] ==> forall i :: 0 <= i < n && (forall j :: i < j < n ==> path[j] != '/') ==> path[i] != '.'
  {
    if n == 0 then []
    else if path[n - 1] == '/' then []
    else if path[n - 1] == '.' then path[n - 1..n]
    else
      var r := ExtBelow(path, n - 1);
      if r == [] then []
      else
        var k := n - 1 - |r|;
        assert path[..n - 1][k..] == path[k..n - 1] == r;
        assert path[k..n] == r + [path[n - 1]];
        assert path[..n][k..] == path[k..n];
        path[k..n]
  }

  /** filepath.Ext on a Unix path: the suffix of the last path element that starts at
      its final '.', or "" when that element has no '.'. */
  function Ext(path: string): (r: string)
    ensures r != [] ==> r[0] == '.' && HasSuffix(path, r)
    ensures forall i :: 1 <= i < |r| ==> r[i] != '.' && r[i] != '/'
    ensures r == [] ==> forall i :: 0 <= i < |path| && (forall j :: i < j < |path| ==> path[j] != '/') ==> path[i] != '.'
  {
    assert path[..|path|] == path;
    ExtBelow(path, |path|)
  }

  // ---------------------------------------------------------------- building

  /** strings.Repeat("*", n) */
  function Stars(n: nat): (r: string)
    ensures |r| == n && forall i :: 0 <= i < n ==> r[i] == '*'
  {
    seq(n, _ => '*')
  }

  /** strings.Join(parts, " ") */
  function JoinSpace(parts: seq<string>): string {
    if |parts| == 0 then ""
    else if |parts| == 1 then parts[0]
    else parts[0] + " " + JoinSpace(parts[1..])
  }

  /** Joining two non-empty lists: the two joins with one space between them. */
  lemma {:induction false} JoinSpaceAppend(a: seq<string>, b: seq<string>)
    requires a != [] && b != []
    ensures JoinSpace(a + b) == JoinSpace(a) + " " + JoinSpace(b)
  {
    if |a| == 1 {
      assert (a + b)[1..] == b;
    } else {
      assert (a + b)[1..] == a[1..] + b;
      JoinSpaceAppend(a[1..], b);
    }
  }

  /** strings.Split(s, " "): never empty; "" splits into [""]. */
  function SplitSpace(s: string): (r: seq<string>)
    decreases |s|
    ensures |r| >= 1
  {
    var i := Index(s, " ");
    if i == -1 then [s] else [s[..i]] + SplitSpace(s[i + 1..])
  }

  /** Splitting a join recovers the parts when no part contains a space. */
  lemma {:induction false} SplitJoinSpace(parts: seq<string>)
    requires |parts| >= 1
    requires forall k :: 0 <= k < |parts| ==> ' ' !in parts[k]
    ensures SplitSpace(JoinSpace(parts)) == parts
  {
    if |parts| == 1 {
      var s := parts[0];
      forall j | 0 <= j <= |s| - 1 ensures !OccursAt(s, " ", j) {
        assert s[j..j + 1][0] == s[j] != ' ';
      }
    } else {
      var p := parts[0];
      var rest := JoinSpace(parts[1..]);
      var s := p + " " + rest;
      assert OccursAt(s, " ", |p|) by { assert s[|p|..|p| + 1] == " "; }
      forall j | 0 <= j < |p| ensures !OccursAt(s, " ", j) {
        assert s[j..j + 1][0] == s[j] == p[j] != ' ';
      }
      assert Index(s, " ") == |p|;
      assert s[..|p|] == p;
      assert s[|p| + 1..] == rest;
      SplitJoinSpace(parts[1..]);
    }
  }

  // ---------------------------------------------------------------- decimal numbers

  predicate IsDigit(c: char) { '0' <= c <= '9' }

  predicate AllDigits(s: string) { forall i :: 0 <= i < |s| ==> IsDigit(s[i]) }

  function DigitChar(d: int): (c: char)
    requires 0 <= d < 10
    ensures IsDigit(c) && c as int - '0' as int == d
  {
    ('0' as int + d) as char
  }

  /** strconv.Itoa on a non-negative value: decimal digits, no leading zero. */
  function NatToDecimal(n: nat): (r: string)
    decreases n
    ensures r != [] && AllDigits(r)
    ensures |r| > 1 ==> r[0] != '0'
  {
    if n < 10 then [DigitChar(n)] else NatToDecimal(n / 10) + [DigitChar(n % 10)]
  }

  /** strconv.Itoa */
  function Itoa(n: int): string {
    if n < 0 then "-" + NatToDecimal(-n) else NatToDecimal(n)
  }

  /** The value of a string of decimal digits. */
  function DecimalValue(s: string): nat
    requires AllDigits(s)
  {
    if s == [] then 0 else DecimalValue(s[..|s| - 1]) * 10 + (s[|s| - 1] as int - '0' as int)
  }

  const MaxInt64: int := 0x7FFF_FFFF_FFFF_FFFF
  const MinInt64: int := -0x8000_0000_0000_0000

  /** strconv.Atoi on a 64-bit platform: an optional sign, at least one decimal digit and
      nothing else, with a value that fits in 64 bits; None for a syntax or range error. */
  function Atoi(s: string): Option<int> {
    var digits := if s != [] && (s[0] == '+' || s[0] == '-') then s[1..] else s;
    if digits == [] || !AllDigits(digits) then None
    else
      var v: int := if s[0] == '-' then -(DecimalValue(digits) as int) else DecimalValue(digits);
      if MinInt64 <= v <= MaxInt64 then Some(v) else None
  }

  lemma {:induction false} DecimalValueOfNat(n: nat)
    ensures DecimalValue(NatToDecimal(n)) == n
  {
    if n >= 10 {
      var s := NatToDecimal(n);
      assert s[..|s| - 1] == NatToDecimal(n / 10);
      DecimalValueOfNat(n / 10);
    }
  }

  /** Atoi undoes Itoa on every 64-bit value. */
  lemma AtoiItoa(n: int)
    requires MinInt64 <= n <= MaxInt64
    ensures Atoi(Itoa(n)) == Some(n)
  {
    if n < 0 {
      DecimalValueOfNat(-n);
      assert Itoa(n)[1..] == NatToDecimal(-n);
    } else {
      DecimalValueOfNat(n);
    }
  }

  // ---------------------------------------------------------------- quoting

  predicate IsControl(c: char) { c < ' ' || c == '\U{007F}' }

  function HexDigit(d: int): (c: char)
    requires 0 <= d < 16
    ensures !IsControl(c)
  {
    "0123456789abcdef"[d]
  }

  /** How strconv.Quote writes one ASCII character between its double quotes. */
  function EscapeChar(c: char): (r: string)
    ensures forall i :: 0 <= i < |r| ==> !IsControl(r[i])
    ensures ' ' in r ==> c == ' '
  {
    if c == '\U{0007}' then "\\a"
    else if c == '\U{0008}' then "\\b"
    else if c == '\U{000C}' then "\\f"
    else if c == '\n' then "\\n"
    else if c == '\r' then "\\r"
    else if c == '\t' then "\\t"
    else if c == '\U{000B}' then "\\v"
    else if c == '"' then "\\\""
    else if c == '\\' then "\\\\"
    else if IsControl(c) then ['\\', 'x', HexDigit(c as int / 16), HexDigit(c as int % 16)]
    else [c]
  }

  function Escape(s: string): (r: string)
    ensures forall i :: 0 <= i < |r| ==> !IsControl(r[i])
    ensures ' ' in r ==> ' ' in s
  {
    if s == [] then [] else EscapeChar(s[0]) + Escape(s[1..])
  }

  /** strconv.Quote on ASCII text: a double-quoted Go literal with no raw control character. */
  function Quote(s: string): (r: string)
    ensures |r| >= 2 && r[0] == '"' && r[|r| - 1] == '"'
    ensures forall i :: 0 <= i < |r| ==> !IsControl(r[i])
    ensures ' ' in r ==> ' ' in s
  {
    "\"" + Escape(s) + "\""
  }
}
