/**
 * The pieces of Go's `strings` and `strconv` packages that the handlers and
 * repositories depend on: Split, Join, TrimSpace, HasPrefix, HasSuffix,
 * Contains, Index, Replace (first occurrence), ToLower, Atoi and Itoa.
 * Strings are sequences of Unicode scalar values.
 */
module GoText {
  import opened Wrappers

  const MinInt64: int := -0x8000_0000_0000_0000
  const MaxInt64: int := 0x7FFF_FFFF_FFFF_FFFF

  // ---------------------------------------------------------------- digits

  predicate IsDigit(c: char) { '0' <= c <= '9' }

  predicate AllDigits(s: string) { forall i :: 0 <= i < |s| ==> IsDigit(s[i]) }

  function DigitChar(d: nat): (c: char)
    requires d < 10
    ensures IsDigit(c) && c as int - '0' as int == d
  {
    ('0' as int + d) as char
  }

  /** The value of a run of decimal digits, most significant first. */
  function DecimalValue(s: string): nat
    requires AllDigits(s)
  {
    if s == [] then 0 else DecimalValue(s[..|s| - 1]) * 10 + (s[|s| - 1] as int - '0' as int)
  }

  /** The decimal digits of n, without leading zeros. */
  function Digits(n: nat): (s: string)
    ensures |s| > 0 && AllDigits(s) && DecimalValue(s) == n
    ensures s[0] == '0' ==> n == 0
    decreases n
  {
    if n < 10 then [DigitChar(n)]
    else
      var prefix := Digits(n / 10);
      var s := prefix + [DigitChar(n % 10)];
      assert s[..|s| - 1] == prefix;
      s
  }

  /** strconv.Itoa and fmt's %d verb. */
  function Itoa(n: int): string {
    if n < 0 then "-" + Digits(-n) else Digits(n)
  }

  /** The shape strconv.Atoi accepts: an optional sign followed by at least one digit. */
  predicate IntSyntax(s: string) {
    && |s| > 0
    && (AllDigits(s) || ((s[0] == '-' || s[0] == '+') && |s| > 1 && AllDigits(s[1..])))
  }

  function SignedValue(s: string): int
    requires IntSyntax(s)
  {
    if AllDigits(s) then DecimalValue(s)
    else if s[0] == '-' then -(DecimalValue(s[1..]) as int)
    else DecimalValue(s[1..])
  }

  /** strconv.Atoi: None for a syntax error and for a value outside the 64-bit range. */
  function Atoi(s: string): Option<int> {
    if IntSyntax(s) && MinInt64 <= SignedValue(s) <= MaxInt64 then Some(SignedValue(s)) else None
  }

  /** Formatting an integer and parsing it back gives the integer. */
  lemma AtoiItoa(n: int)
    requires MinInt64 <= n <= MaxInt64
    ensures Atoi(Itoa(n)) == Some(n)
  {
    if n < 0 {
      var d := Digits(-n);
      assert Itoa(n)[1..] == d;
      assert !IsDigit(Itoa(n)[0]);
    }
  }

  /** A formatted integer never contains a character other than digits and a leading minus. */
  lemma ItoaChars(n: int, c: char)
    requires c in Itoa(n)
    ensures IsDigit(c) || c == '-'
  {
    var s := Itoa(n);
    var i :| 0 <= i < |s| && s[i] == c;
    if n < 0 && i > 0 {
      assert s[i] == Digits(-n)[i - 1];
    }
  }

  // ---------------------------------------------------------------- prefixes and searching

  predicate HasPrefix(s: string, p: string) { |p| <= |s| && s[..|p|] == p }

  predicate HasSuffix(s: string, p: string) { |p| <= |s| && s[|s| - |p|..] == p }

  lemma PrefixOfAppend(a: string, b: string)
    ensures HasPrefix(a + b, a)
  {
    assert (a + b)[..|a|] == a;
  }

  lemma PrefixOfPrefix(s: string, p: string, q: string)
    requires HasPrefix(s, p) && HasPrefix(p, q)
    ensures HasPrefix(s, q)
  {
    assert s[..|q|] == s[..|p|][..|q|];
  }

  predicate OccursAt(s: string, sub: string, i: int) {
    0 <= i && i + |sub| <= |s| && s[i..i + |sub|] == sub
  }

  /** The first occurrence of sub in s at or after position from. */
  function IndexFrom(s: string, sub: string, from: nat): (r: Option<nat>)
    ensures r.Some? ==> from <= r.value && OccursAt(s, sub, r.value)
    ensures r.Some? ==> forall j :: from <= j < r.value ==> !OccursAt(s, sub, j)
    ensures r.None? ==> forall j :: from <= j ==> !OccursAt(s, sub, j)
    decreases |s| - from
  {
    if from + |sub| > |s| then None
    else if s[from..from + |sub|] == sub then Some(from)
    else IndexFrom(s, sub, from + 1)
  }

  /** strings.Index: the first position at which sub occurs in s. */
  function Index(s: string, sub: string): Option<nat> {
    IndexFrom(s, sub, 0)
  }

  /** strings.Contains. */
  predicate Contains(s: string, sub: string) {
    Index(s, sub).Some?
  }

  lemma ContainsIff(s: string, sub: string)
    ensures Contains(s, sub) <==> exists i :: OccursAt(s, sub, i)
  {
    if !Contains(s, sub) {
      forall i ensures !OccursAt(s, sub, i) {
        if i >= 0 { assert !OccursAt(s, sub, i); }
      }
    }
  }

  /** strings.Replace(s, pattern, replacement, 1): replace the first occurrence only. */
  function ReplaceFirst(s: string, pattern: string, replacement: string): (r: string)
    ensures pattern != [] && !Contains(s, pattern) ==> r == s
    ensures pattern != [] && Contains(s, pattern) ==>
      var i := Index(s, pattern).value;
      && r == s[..i] + replacement + s[i + |pattern|..]
      && forall j :: 0 <= j < i ==> !OccursAt(s, pattern, j)
    ensures pattern == [] ==> r == replacement + s
  {
    if pattern == [] then replacement + s
    else
      match Index(s, pattern)
      case None => s
      case Some(i) => s[..i] + replacement + s[i + |pattern|..]
  }

  /** Text that agrees with s on its first n characters has p at an early position exactly where s has it. */
  lemma OccursInPrefix(s: string, t: string, p: string, j: int, n: int)
    requires 0 <= n <= |s| && n <= |t| && s[..n] == t[..n]
    requires 0 <= j && j + |p| <= n
    ensures OccursAt(s, p, j) <==> OccursAt(t, p, j)
  {
    assert s[j..j + |p|] == s[..n][j..j + |p|];
    assert t[j..j + |p|] == t[..n][j..j + |p|];
  }

  /** An occurrence with none before it is the one Index finds. */
  lemma IndexAt(s: string, sub: string, i: int)
    requires OccursAt(s, sub, i) && forall j :: 0 <= j < i ==> !OccursAt(s, sub, j)
    ensures Index(s, sub) == Some(i)
  {
    ContainsIff(s, sub);
    var k := Index(s, sub).value;
    assert !(k < i) && !(i < k);
  }

  /** Putting q, which starts with p, in place of the p at i keeps the text up to the end of that p. */
  lemma SpliceStartingWith(s: string, p: string, q: string, i: int)
    requires OccursAt(s, p, i) && HasPrefix(q, p)
    ensures var t := s[..i] + q + s[i + |p|..];
      && OccursAt(t, q, i) && t[..i] == s[..i] && t[..i + |p|] == s[..i + |p|] && t[i + |q|..] == s[i + |p|..]
  {
    var a, b := s[..i], s[i + |p|..];
    var t := a + q + b;
    assert t[i..i + |q|] == q;
    assert t[..i] == a;
    assert t[i + |q|..] == b;
    assert t[..i + |p|] == a + q[..|p|];
    assert s[..i + |p|] == a + s[i..i + |p|];
  }

  /** Putting p back in place of the q at i restores s. */
  lemma SpliceBack(s: string, t: string, p: string, q: string, i: int)
    requires 0 <= i && i + |q| <= |t| && OccursAt(s, p, i)
    requires t[..i] == s[..i] && t[i + |q|..] == s[i + |p|..]
    ensures t[..i] + p + t[i + |q|..] == s
  {
    assert s == s[..i] + s[i..i + |p|] + s[i + |p|..];
  }

  /** Text that agrees with s up to n has no q, which starts with p, where s has no p. */
  lemma NoEarlierOccurrence(s: string, t: string, p: string, q: string, j: int, n: int)
    requires 0 <= n <= |s| && n <= |t| && s[..n] == t[..n]
    requires 0 <= j && j + |p| <= n && !OccursAt(s, p, j) && HasPrefix(q, p)
    ensures !OccursAt(t, q, j)
  {
    if OccursAt(t, q, j) {
      assert t[j..j + |p|] == q[..|p|] by {
        assert t[j..j + |q|][..|p|] == t[j..j + |p|];
      }
      OccursInPrefix(s, t, p, j, n);
    }
  }

  /** Replacing the first p by q, where q starts with p, is undone by replacing the first q by p. */
  lemma ReplaceFirstUndone(s: string, p: string, q: string)
    requires p != [] && Contains(s, p) && HasPrefix(q, p)
    ensures ReplaceFirst(ReplaceFirst(s, p, q), q, p) == s
  {
    var i := Index(s, p).value;
    var t := ReplaceFirst(s, p, q);
    SpliceStartingWith(s, p, q, i);
    forall j | 0 <= j < i ensures !OccursAt(t, q, j) {
      NoEarlierOccurrence(s, t, p, q, j, i + |p|);
    }
    IndexAt(t, q, i);
    SpliceBack(s, t, p, q, i);
  }

  // ---------------------------------------------------------------- splitting and joining

  function IndexOfChar(s: string, c: char): (i: nat)
    requires c in s
    ensures i < |s| && s[i] == c && c !in s[..i]
  {
    if s[0] == c then 0
    else
      assert c in s[1..] by {
        var k :| 0 <= k < |s| && s[k] == c;
        assert s[1..][k - 1] == c;
      }
      var j := IndexOfChar(s[1..], c);
      assert s[..j + 1] == [s[0]] + s[1..][..j];
      j + 1
  }

  /** strings.Join. */
  function Join(parts: seq<string>, sep: string): string {
    if parts == [] then ""
    else if |parts| == 1 then parts[0]
    else parts[0] + sep + Join(parts[1..], sep)
  }

  /**
   * strings.Split with a one-character separator: the pieces between
   * separators, never fewer than one (the empty string gives [""]).
   */
  function Split(s: string, sep: char): (parts: seq<string>)
    ensures |parts| >= 1
    ensures forall i :: 0 <= i < |parts| ==> sep !in parts[i]
    ensures Join(parts, [sep]) == s
    decreases |s|
  {
    if sep !in s then [s]
    else
      var i := IndexOfChar(s, sep);
      var rest := Split(s[i + 1..], sep);
      var parts := [s[..i]] + rest;
      assert parts[1..] == rest;
      assert s == s[..i] + [sep] + s[i + 1..];
      parts
  }

  /** Splitting text that holds no separator gives that text alone. */
  lemma SplitNoSeparator(s: string, sep: char)
    requires sep !in s
    ensures Split(s, sep) == [s]
  {
  }

  /** Splitting at a first separator gives the text before it, then the pieces of the rest. */
  lemma SplitFirst(a: string, rest: string, sep: char)
    requires sep !in a
    ensures Split(a + [sep] + rest, sep) == [a] + Split(rest, sep)
  {
    var s := a + [sep] + rest;
    assert s[|a|] == sep;
    var i := IndexOfChar(s, sep);
    assert forall j :: 0 <= j < |a| ==> s[j] == a[j];
    assert i == |a|;
    assert s[..i] == a && s[i + 1..] == rest;
  }

  /** A formatted integer holds no separator other than its sign. */
  lemma ItoaHasNo(n: int, c: char)
    requires !IsDigit(c) && c != '-'
    ensures c !in Itoa(n)
  {
    if c in Itoa(n) {
      ItoaChars(n, c);
    }
  }

  // ---------------------------------------------------------------- white space and case

  /** unicode.IsSpace. */
  predicate IsSpace(c: char) {
    var n := c as int;
    || n == 0x20 || 0x09 <= n <= 0x0D || n == 0x85 || n == 0xA0 || n == 0x1680
    || 0x2000 <= n <= 0x200A || n == 0x2028 || n == 0x2029 || n == 0x202F
    || n == 0x205F || n == 0x3000
  }

  function TrimLeftSpace(s: string): (r: string)
    ensures |r| <= |s| && r == s[|s| - |r|..]
    ensures r == [] || !IsSpace(r[0])
    ensures forall i :: 0 <= i < |s| - |r| ==> IsSpace(s[i])
  {
    if s != [] && IsSpace(s[0]) then TrimLeftSpace(s[1..]) else s
  }

  function TrimRightSpace(s: string): (r: string)
    ensures |r| <= |s| && r == s[..|r|]
    ensures r == [] || !IsSpace(r[|r| - 1])
    ensures forall i :: |r| <= i < |s| ==> IsSpace(s[i])
  {
    if s != [] && IsSpace(s[|s| - 1]) then TrimRightSpace(s[..|s| - 1]) else s
  }

  /** strings.TrimSpace. */
  function TrimSpace(s: string): string {
    TrimRightSpace(TrimLeftSpace(s))
  }

  /** Text that neither starts nor ends with white space is left as it is. */
  lemma TrimSpaceUnchanged(s: string)
    requires s == [] || (!IsSpace(s[0]) && !IsSpace(s[|s| - 1]))
    ensures TrimSpace(s) == s
  {
  }

  function LowerChar(c: char): char {
    if 'A' <= c <= 'Z' then (c as int + 32) as char else c
  }

  /** strings.ToLower, restricted to the ASCII letters. */
  function ToLower(s: string): (r: string)
    ensures |r| == |s|
    ensures forall i :: 0 <= i < |s| ==> r[i] == LowerChar(s[i])
  {
    if s == [] then [] else [LowerChar(s[0])] + ToLower(s[1..])
  }
}
