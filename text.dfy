/**
 * The parts of Go's `strings`, `strconv` and `bufio` that the configuration
 * codec relies on, over strings of Unicode code points.
 */
module Text {
  import opened Wrappers

  /** unicode.IsSpace: the Latin-1 spaces and the White_Space property. */
  predicate IsSpace(c: char) {
    var n := c as int;
    (9 <= n <= 13) || n == 32 || n == 0x85 || n == 0xA0 || n == 0x1680 ||
    (0x2000 <= n <= 0x200A) || n == 0x2028 || n == 0x2029 || n == 0x202F ||
    n == 0x205F || n == 0x3000
  }

  /** No leading and no trailing space: what TrimSpace leaves alone. */
  predicate Trimmed(s: string) {
    s == [] || (!IsSpace(s[0]) && !IsSpace(s[|s| - 1]))
  }

  predicate AllSpace(s: string) {
    forall i :: 0 <= i < |s| ==> IsSpace(s[i])
  }

  lemma AllSpaceAppend(a: string, b: string)
    requires AllSpace(a) && AllSpace(b)
    ensures AllSpace(a + b)
  {
  }

  function TrimLeft(s: string): (r: string)
    ensures |r| <= |s| && r == s[|s| - |r|..]
    ensures AllSpace(s[..|s| - |r|])
    ensures r == [] || !IsSpace(r[0])
    decreases |s|
  {
    if s != [] && IsSpace(s[0]) then
      var r := TrimLeft(s[1..]);
      assert s[|s| - |r|..] == s[1..][|s| - 1 - |r|..];
      assert s[..|s| - |r|] == [s[0]] + s[1..][..|s| - 1 - |r|];
      AllSpaceAppend([s[0]], s[1..][..|s| - 1 - |r|]);
      r
    else s
  }

  function TrimRight(s: string): (r: string)
    ensures |r| <= |s| && r == s[..|r|]
    ensures AllSpace(s[|r|..])
    ensures r == [] || !IsSpace(r[|r| - 1])
    decreases |s|
  {
    if s != [] && IsSpace(s[|s| - 1]) then
      var r := TrimRight(s[..|s| - 1]);
      assert s[..|r|] == s[..|s| - 1][..|r|];
      assert s[|r|..] == s[..|s| - 1][|r|..] + [s[|s| - 1]];
      AllSpaceAppend(s[..|s| - 1][|r|..], [s[|s| - 1]]);
      r
    else s
  }

  /** strings.TrimSpace */
  function TrimSpace(s: string): (r: string)
    ensures Trimmed(r)
    ensures |r| <= |s|
  {
    TrimRight(TrimLeft(s))
  }

  lemma {:induction false} TrimLeftSpaces(sp: string, s: string)
    requires AllSpace(sp)
    requires s == [] || !IsSpace(s[0])
    ensures TrimLeft(sp + s) == s
    decreases |sp|
  {
    if sp != [] {
      assert (sp + s)[1..] == sp[1..] + s;
      TrimLeftSpaces(sp[1..], s);
    } else {
      assert sp + s == s;
    }
  }

  lemma {:induction false} TrimRightSpaces(s: string, sp: string)
    requires AllSpace(sp)
    requires s == [] || !IsSpace(s[|s| - 1])
    ensures TrimRight(s + sp) == s
    decreases |sp|
  {
    if sp != [] {
      assert (s + sp)[..|s + sp| - 1] == s + sp[..|sp| - 1];
      TrimRightSpaces(s, sp[..|sp| - 1]);
    } else {
      assert s + sp == s;
    }
  }

  /** Trimming removes exactly the surrounding spaces of a trimmed core. */
  lemma TrimSpaceAround(left: string, s: string, right: string)
    requires AllSpace(left) && AllSpace(right) && Trimmed(s)
    ensures TrimSpace(left + s + right) == s
  {
    if s == [] {
      assert left + s + right == left + right;
      assert AllSpace(left + right);
      TrimLeftSpaces(left + right, []);
      assert left + right + [] == left + right;
      TrimRightSpaces([], []);
    } else {
      assert left + s + right == left + (s + right);
      TrimLeftSpaces(left, s + right);
      TrimRightSpaces(s, right);
    }
  }

  lemma TrimSpaceTrimmed(s: string)
    requires Trimmed(s)
    ensures TrimSpace(s) == s
  {
    TrimSpaceAround([], s, []);
    assert [] + s + [] == s;
  }

  /** strings.HasPrefix */
  predicate HasPrefix(s: string, p: string) {
    p <= s
  }

  /** strings.HasSuffix */
  predicate HasSuffix(s: string, p: string) {
    |p| <= |s| && s[|s| - |p|..] == p
  }

  /** strings.TrimPrefix */
  function TrimPrefix(s: string, p: string): (r: string)
    ensures HasPrefix(s, p) ==> s == p + r
    ensures !HasPrefix(s, p) ==> r == s
  {
    if HasPrefix(s, p) then s[|p|..] else s
  }

  /** strings.TrimSuffix */
  function TrimSuffix(s: string, p: string): (r: string)
    ensures HasSuffix(s, p) ==> s == r + p
    ensures !HasSuffix(s, p) ==> r == s
  {
    if HasSuffix(s, p) then s[..|s| - |p|] else s
  }

  /** strings.IndexByte: the first position of `c`. */
  function IndexOf(s: string, c: char): (r: Option<nat>)
    ensures r.None? ==> c !in s
    ensures r.Some? ==> r.value < |s| && s[r.value] == c && c !in s[..r.value]
  {
    if s == [] then None
    else if s[0] == c then Some(0)
    else match IndexOf(s[1..], c)
      case None => None
      case Some(i) => assert s[..i + 1] == [s[0]] + s[1..][..i]; Some(i + 1)
  }

  lemma IndexOfFirst(a: string, c: char, b: string)
    requires c !in a
    ensures IndexOf(a + [c] + b, c) == Some(|a|)
  {
    var s := a + [c] + b;
    assert s[|a|] == c;
    assert s[..|a|] == a;
    assert forall k :: 0 <= k < |a| ==> s[k] == a[k];
  }

  /** strings.SplitN(s, sep, 2) for a one-character separator. */
  function SplitN2(s: string, sep: char): (r: seq<string>)
    ensures 1 <= |r| <= 2
    ensures |r| == 1 <==> sep !in s
    ensures |r| == 1 ==> r[0] == s
    ensures |r| == 2 ==> s == r[0] + [sep] + r[1] && sep !in r[0]
  {
    match IndexOf(s, sep)
    case None => [s]
    case Some(i) =>
      assert s == s[..i] + [sep] + s[i + 1..];
      [s[..i], s[i + 1..]]
  }

  /** strings.Join */
  function Join(xs: seq<string>, sep: string): string
  {
    if |xs| == 0 then ""
    else if |xs| == 1 then xs[0]
    else xs[0] + sep + Join(xs[1..], sep)
  }

  lemma JoinCons(x: string, xs: seq<string>, sep: string)
    requires |xs| >= 1
    ensures Join([x] + xs, sep) == x + sep + Join(xs, sep)
  {
    assert ([x] + xs)[1..] == xs;
  }

  /** strings.Split for a one-character separator; Join puts the pieces back. */
  function Split(s: string, sep: char): (r: seq<string>)
    ensures |r| >= 1
    ensures forall k :: 0 <= k < |r| ==> sep !in r[k]
    ensures Join(r, [sep]) == s
    decreases |s|
  {
    match IndexOf(s, sep)
    case None => [s]
    case Some(i) =>
      var rest := Split(s[i + 1..], sep);
      JoinCons(s[..i], rest, [sep]);
      assert s == s[..i] + [sep] + s[i + 1..];
      [s[..i]] + rest
  }

  /** Splitting a join of separator-free pieces gives the pieces back. */
  lemma {:induction false} SplitJoin(xs: seq<string>, sep: char)
    requires |xs| >= 1
    requires forall k :: 0 <= k < |xs| ==> sep !in xs[k]
    ensures Split(Join(xs, [sep]), sep) == xs
    decreases |xs|
  {
    if |xs| > 1 {
      var tail := Join(xs[1..], [sep]);
      assert Join(xs, [sep]) == xs[0] + [sep] + tail;
      IndexOfFirst(xs[0], sep, tail);
      var s := xs[0] + [sep] + tail;
      assert s[..|xs[0]|] == xs[0];
      assert s[|xs[0]| + 1..] == tail;
      SplitJoin(xs[1..], sep);
      assert [xs[0]] + xs[1..] == xs;
    }
  }

  /** Joins of strings without the separator stay free of it once the separator is absent. */
  lemma {:induction false} JoinNoChar(xs: seq<string>, sep: string, c: char)
    requires c !in sep
    requires forall k :: 0 <= k < |xs| ==> c !in xs[k]
    ensures c !in Join(xs, sep)
    decreases |xs|
  {
    if |xs| > 1 {
      JoinNoChar(xs[1..], sep, c);
    }
  }

  /** unicode.ToLower restricted to ASCII letters. */
  function ToLowerChar(c: char): char {
    if 'A' <= c <= 'Z' then (c as int + 32) as char else c
  }

  /** strings.ToLower, with ASCII case mapping only. */
  function ToLower(s: string): (r: string)
    ensures |r| == |s|
    ensures forall i :: 0 <= i < |s| ==> r[i] == ToLowerChar(s[i])
  {
    if s == [] then [] else [ToLowerChar(s[0])] + ToLower(s[1..])
  }

  // ---------------------------------------------------------------------
  // Decimal numbers (strconv)

  predicate IsDigit(c: char) { '0' <= c <= '9' }

  predicate AllDigits(s: string) {
    forall i :: 0 <= i < |s| ==> IsDigit(s[i])
  }

  function DigitChar(d: nat): (c: char)
    requires d < 10
    ensures IsDigit(c)
  {
    ('0' as int + d) as char
  }

  function DigitValue(c: char): (d: nat)
    requires IsDigit(c)
    ensures d < 10
  {
    c as int - '0' as int
  }

  /** The number a string of digits denotes, read from its last digit. */
  function Value(s: string): nat
    requires AllDigits(s)
  {
    if s == [] then 0 else 10 * Value(s[..|s| - 1]) + DigitValue(s[|s| - 1])
  }

  /** Reading one more digit at the end. */
  lemma ValueSnoc(t: string, c: char)
    requires AllDigits(t) && IsDigit(c)
    ensures AllDigits(t + [c]) && Value(t + [c]) == 10 * Value(t) + DigitValue(c)
  {
    assert (t + [c])[..|t|] == t;
  }

  /** A leading run of digits denotes no more than the whole. */
  lemma {:induction false} ValuePrefix(t: string, u: string)
    ensures AllDigits(t + u) ==> AllDigits(t) && Value(t) <= Value(t + u)
    decreases |u|
  {
    if !AllDigits(t + u) {
      return;
    }
    assert forall i :: 0 <= i < |t| ==> (t + u)[i] == t[i];
    if u == [] {
      assert t + u == t;
    } else {
      var u' := u[..|u| - 1];
      assert (t + u)[..|t + u| - 1] == t + u';
      ValuePrefix(t, u');
    }
  }

  /** strconv.FormatUint(n, 10) */
  function FormatNat(n: nat): (r: string)
    ensures |r| >= 1 && AllDigits(r)
    ensures Value(r) == n
    decreases n
  {
    if n < 10 then
      assert [DigitChar(n)][..0] == [];
      [DigitChar(n)]
    else
      var r := FormatNat(n / 10) + [DigitChar(n % 10)];
      assert r[..|r| - 1] == FormatNat(n / 10);
      r
  }

  /** strconv.Itoa / strconv.FormatInt(n, 10) */
  function FormatInt(n: int): (r: string)
    ensures |r| >= 1 && r[0] != '+'
    ensures n >= 0 ==> AllDigits(r)
  {
    if n < 0 then "-" + FormatNat(-n) else FormatNat(n)
  }

  /**
   * The digit loop of strconv.ParseUint in base 10: `done` holds the digits
   * read so far and `acc` their value; a non-digit is a syntax error and
   * exceeding `max` a range error, whichever comes first from the left.
   */
  function ParseDigits(s0: string, ghost done: string, s: string, acc: nat, max: nat): (r: Result<nat>)
    requires AllDigits(done) && acc == Value(done) && acc <= max
    ensures r.Ok? ==> AllDigits(done + s) && r.value == Value(done + s) && r.value <= max
    ensures AllDigits(done + s) && Value(done + s) <= max ==> r.Ok?
    ensures r.Err? ==> r.error == NumSyntax(s0) || r.error == NumRange(s0)
    decreases |s|
  {
    if s == [] then
      assert done + s == done;
      Ok(acc)
    else if !IsDigit(s[0]) then
      assert (done + s)[|done|] == s[0];
      Err(NumSyntax(s0))
    else
      ValueSnoc(done, s[0]);
      assert (done + [s[0]]) + s[1..] == done + s;
      var n := acc * 10 + DigitValue(s[0]);
      if n > max then
        ValuePrefix(done + [s[0]], s[1..]);
        Err(NumRange(s0))
      else ParseDigits(s0, done + [s[0]], s[1..], n, max)
  }

  /** Over digits alone, the digit loop can only fail by exceeding the bound. */
  lemma {:induction false} ParseDigitsRange(s0: string, done: string, s: string, acc: nat, max: nat)
    requires AllDigits(done) && acc == Value(done) && acc <= max
    ensures AllDigits(s) && ParseDigits(s0, done, s, acc, max).Err? ==> ParseDigits(s0, done, s, acc, max).error == NumRange(s0)
    decreases |s|
  {
    if AllDigits(s) && s != [] && acc * 10 + DigitValue(s[0]) <= max {
      ValueSnoc(done, s[0]);
      assert AllDigits(s[1..]) by {
        assert forall i :: 0 <= i < |s[1..]| ==> s[1..][i] == s[i + 1];
      }
      ParseDigitsRange(s0, done + [s[0]], s[1..], acc * 10 + DigitValue(s[0]), max);
    }
  }

  /** strconv.ParseUint(s, 10, bits) where max == 2^bits - 1. */
  function ParseUint(s: string, max: nat): (r: Result<nat>)
    ensures r.Ok? <==> s != [] && AllDigits(s) && Value(s) <= max
    ensures r.Ok? ==> r.value == Value(s)
    ensures r.Err? ==> r.error == NumSyntax(s) || r.error == NumRange(s)
    ensures r.Err? && s != [] && AllDigits(s) ==> r.error == NumRange(s)
  {
    if s == [] then Err(NumSyntax(s))
    else
      assert [] + s == s;
      ParseDigitsRange(s, [], s, 0, max);
      ParseDigits(s, [], s, 0, max)
  }

  const MaxUint16: nat := 0xFFFF
  const MaxUint64: nat := 0xFFFF_FFFF_FFFF_FFFF
  const MinInt64: int := -0x8000_0000_0000_0000
  const MaxInt64: int := 0x7FFF_FFFF_FFFF_FFFF

  /**
   * strconv.ParseInt(s, 10, 64), which is also what strconv.Atoi does on a
   * 64-bit platform: an optional sign, then the digits read by ParseUint,
   * then a range check against the signed bounds.
   */
  /** The text strconv.ParseInt accepts in base 10: an optional sign, then at least one digit. */
  predicate SignedDigits(s: string) {
    if s != [] && (s[0] == '+' || s[0] == '-') then s[1..] != [] && AllDigits(s[1..])
    else s != [] && AllDigits(s)
  }

  /** The signed number such a text denotes. */
  function SignedValue(s: string): int
    requires SignedDigits(s)
  {
    if s[0] == '-' then 0 - Value(s[1..])
    else if s[0] == '+' then Value(s[1..])
    else Value(s)
  }

  function ParseInt64(s: string): (r: Result<int>)
    ensures r.Ok? <==> SignedDigits(s) && MinInt64 <= SignedValue(s) <= MaxInt64
    ensures r.Ok? ==> r.value == SignedValue(s)
    ensures r.Err? ==> r.error == NumSyntax(s) || r.error == NumRange(s)
    ensures r.Err? && SignedDigits(s) ==> r.error == NumRange(s)
  {
    if s == [] then Err(NumSyntax(s))
    else
      var neg := s[0] == '-';
      var digits := if s[0] == '+' || s[0] == '-' then s[1..] else s;
      match ParseUint(digits, MaxUint64)
      case Err(e) => if e.NumRange? then Err(NumRange(s)) else Err(NumSyntax(s))
      case Ok(un) =>
        if !neg && un >= 0x8000_0000_0000_0000 then Err(NumRange(s))
        else if neg && un > 0x8000_0000_0000_0000 then Err(NumRange(s))
        else
          var v: int := if neg then 0 - (un as int) else un as int;
          Ok(v)
  }

  /** Formatting and then parsing an in-range integer gives it back. */
  lemma ParseFormatInt64(n: int)
    requires MinInt64 <= n <= MaxInt64
    ensures ParseInt64(FormatInt(n)) == Ok(n)
  {
    var s := FormatInt(n);
    if n < 0 {
      assert s[1..] == FormatNat(-n);
    } else {
      assert s[0] != '-';
    }
  }

  lemma ParseFormatUint16(n: nat)
    requires n <= MaxUint16
    ensures ParseUint(FormatNat(n), MaxUint16) == Ok(n)
  {
  }

  // ---------------------------------------------------------------------
  // Lines (bufio.ScanLines)

  /** ScanLines drops one carriage return at the end of each line. */
  function DropCR(s: string): string {
    if s != [] && s[|s| - 1] == '\r' then s[..|s| - 1] else s
  }

  /**
   * The lines a bufio.Scanner with ScanLines produces: the text split at
   * each '\n', a final unterminated line kept, no empty line after a final
   * '\n', and a trailing '\r' dropped from every line.
   */
  function ScanLines(s: string): (r: seq<string>)
    ensures forall k :: 0 <= k < |r| ==> '\n' !in r[k]
    ensures s == [] <==> r == []
    decreases |s|
  {
    if s == [] then []
    else match IndexOf(s, '\n')
      case None => [DropCR(s)]
      case Some(i) => [DropCR(s[..i])] + ScanLines(s[i + 1..])
  }

  /** Each line followed by its '\n' terminator. */
  function Terminated(lines: seq<string>): string {
    if lines == [] then "" else lines[0] + "\n" + Terminated(lines[1..])
  }

  predicate CleanLine(l: string) {
    '\n' !in l && (l == [] || l[|l| - 1] != '\r')
  }

  /** Scanning a text of terminated lines gives those lines back. */
  lemma {:induction false} ScanTerminated(lines: seq<string>)
    requires forall k :: 0 <= k < |lines| ==> CleanLine(lines[k])
    ensures ScanLines(Terminated(lines)) == lines
    decreases |lines|
  {
    if lines != [] {
      var rest := Terminated(lines[1..]);
      assert Terminated(lines) == lines[0] + ['\n'] + rest;
      IndexOfFirst(lines[0], '\n', rest);
      var s := lines[0] + ['\n'] + rest;
      assert s[..|lines[0]|] == lines[0];
      assert s[|lines[0]| + 1..] == rest;
      ScanTerminated(lines[1..]);
      assert [lines[0]] + lines[1..] == lines;
    }
  }

  lemma {:induction false} TerminatedAppend(a: seq<string>, b: seq<string>)
    ensures Terminated(a + b) == Terminated(a) + Terminated(b)
    decreases |a|
  {
    if a == [] {
      assert a + b == b;
    } else {
      assert (a + b)[1..] == a[1..] + b;
      TerminatedAppend(a[1..], b);
    }
  }
}
