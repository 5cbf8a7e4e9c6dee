/** The functions of Go's strings and strconv packages that the modelled code calls. */
module GoStrings {

  predicate HasPrefix(s: string, p: string) {
    p <= s
  }

  predicate HasSuffix(s: string, p: string) {
    |p| <= |s| && s[|s| - |p|..] == p
  }

  function TrimPrefix(s: string, p: string): string {
    if p <= s then s[|p|..] else s
  }

  function TrimSuffix(s: string, p: string): string {
    if HasSuffix(s, p) then s[..|s| - |p|] else s
  }

  /** unicode.IsSpace. */
  predicate IsSpace(c: char) {
    || '\t' <= c <= '\r' || c == ' ' || c == '\U{85}' || c == '\U{A0}' || c == '\U{1680}'
    || '\U{2000}' <= c <= '\U{200A}' || c == '\U{2028}' || c == '\U{2029}' || c == '\U{202F}' || c == '\U{205F}'
    || c == '\U{3000}'
  }

  function TrimLeftSpace(s: string): string {
    if s != "" && IsSpace(s[0]) then TrimLeftSpace(s[1..]) else s
  }

  function TrimRightSpace(s: string): string {
    if s != "" && IsSpace(s[|s| - 1]) then TrimRightSpace(s[..|s| - 1]) else s
  }

  function TrimSpace(s: string): string {
    TrimRightSpace(TrimLeftSpace(s))
  }

  function TrimLeft(s: string, c: char): string {
    if s != "" && s[0] == c then TrimLeft(s[1..], c) else s
  }

  function TrimRight(s: string, c: char): string {
    if s != "" && s[|s| - 1] == c then TrimRight(s[..|s| - 1], c) else s
  }

  function Trim(s: string, c: char): string {
    TrimRight(TrimLeft(s, c), c)
  }

  /** The text before the first c, or all of it. */
  function Before(s: string, c: char): string {
    if s == "" || s[0] == c then "" else [s[0]] + Before(s[1..], c)
  }

  lemma {:induction false} BeforeIsPrefix(s: string, c: char)
    ensures Before(s, c) <= s && c !in Before(s, c)
    ensures c !in s ==> Before(s, c) == s
    ensures c in s ==> |Before(s, c)| < |s| && s[|Before(s, c)|] == c
    decreases |s|
  {
    if s != "" && s[0] != c {
      assert s == [s[0]] + s[1..];
      BeforeIsPrefix(s[1..], c);
    }
  }

  lemma {:induction false} BeforeConcat(a: string, c: char, b: string)
    requires c !in a
    ensures Before(a + [c] + b, c) == a
    decreases |a|
  {
    var s := a + [c] + b;
    if a != "" {
      assert s[1..] == a[1..] + [c] + b;
      BeforeConcat(a[1..], c, b);
    }
  }

  function Split(s: string, c: char): (parts: seq<string>)
    ensures parts != []
    decreases |s|
  {
    BeforeIsPrefix(s, c);
    var head := Before(s, c);
    if head == s then [s] else [head] + Split(s[|head| + 1..], c)
  }

  function Join(parts: seq<string>, c: char): string {
    if parts == [] then ""
    else if |parts| == 1 then parts[0]
    else parts[0] + [c] + Join(parts[1..], c)
  }

  lemma {:induction false} SplitJoin(parts: seq<string>, c: char)
    requires parts != [] && forall p :: p in parts ==> c !in p
    ensures Split(Join(parts, c), c) == parts
    decreases |parts|
  {
    assert parts[0] in parts;
    if |parts| == 1 {
      BeforeIsPrefix(parts[0], c);
    } else {
      var rest := Join(parts[1..], c);
      BeforeConcat(parts[0], c, rest);
      var s := parts[0] + [c] + rest;
      assert s[|parts[0]| + 1..] == rest;
      assert forall p :: p in parts[1..] ==> p in parts;
      SplitJoin(parts[1..], c);
    }
  }

  lemma JoinThree(a: string, b: string, d: string, c: char)
    ensures Join([a, b, d], c) == a + [c] + b + [c] + d
  {
    assert [a, b, d][1..] == [b, d] && [b, d][1..] == [d];
    assert Join([b, d], c) == b + [c] + d;
    assert Join([a, b, d], c) == a + [c] + (b + [c] + d);
  }

  function ReplaceAll(s: string, a: char, b: char): string {
    seq(|s|, i requires 0 <= i < |s| => if s[i] == a then b else s[i])
  }

  lemma ReplaceConcat(s: string, t: string, a: char, b: char)
    ensures ReplaceAll(s + t, a, b) == ReplaceAll(s, a, b) + ReplaceAll(t, a, b)
  {
  }

  lemma {:induction false} ReplaceJoin(parts: seq<string>, a: char, b: char)
    requires forall p :: p in parts ==> a !in p
    ensures ReplaceAll(Join(parts, a), a, b) == Join(parts, b)
    decreases |parts|
  {
    if parts != [] {
      assert parts[0] in parts;
      assert ReplaceAll(parts[0], a, b) == parts[0];
      if |parts| > 1 {
        assert forall p :: p in parts[1..] ==> p in parts;
        ReplaceJoin(parts[1..], a, b);
        ReplaceConcat(parts[0] + [a], Join(parts[1..], a), a, b);
        ReplaceConcat(parts[0], [a], a, b);
      }
    }
  }

  // --- strconv.Atoi ---------------------------------------------------------------

  const MAX_UINT64 := 0xFFFF_FFFF_FFFF_FFFF
  const MAX_INT64 := 0x7FFF_FFFF_FFFF_FFFF

  datatype Digits = Value(n: nat) | SyntaxError | RangeError

  predicate IsDigit(c: char) {
    '0' <= c <= '9'
  }

  /** Reads decimal digits after n; the first bad character or the first overflow ends it. */
  function ParseDigits(s: string, n: nat): Digits {
    if s == "" then Value(n)
    else if !IsDigit(s[0]) then SyntaxError
    else
      var m := 10 * n + (s[0] as int - '0' as int);
      if m > MAX_UINT64 then RangeError else ParseDigits(s[1..], m)
  }

  function Clamp(n: int): int {
    if n > MAX_INT64 then MAX_INT64 else if n < -MAX_INT64 - 1 then -MAX_INT64 - 1 else n
  }

  /** The value Atoi returns when its error is ignored: 0 for bad syntax, the nearest bound for overflow. */
  function Atoi(s: string): int {
    var negative := s != "" && s[0] == '-';
    var digits := if s != "" && (s[0] == '-' || s[0] == '+') then s[1..] else s;
    if digits == "" then 0
    else match ParseDigits(digits, 0)
      case SyntaxError => 0
      case RangeError => if negative then -MAX_INT64 - 1 else MAX_INT64
      case Value(n) => Clamp(if negative then 0 - n else n)
  }

  /** strconv.Itoa for a natural number. */
  function Itoa(n: nat): (s: string)
    ensures s != "" && forall c :: c in s ==> IsDigit(c)
  {
    if n < 10 then [(n + '0' as int) as char] else Itoa(n / 10) + [(n % 10 + '0' as int) as char]
  }

  lemma {:induction false} ParseAppend(s: string, c: char, n: nat)
    requires IsDigit(c) && ParseDigits(s, n).Value?
    requires 10 * ParseDigits(s, n).n + (c as int - '0' as int) <= MAX_UINT64
    ensures ParseDigits(s + [c], n) == Value(10 * ParseDigits(s, n).n + (c as int - '0' as int))
    decreases |s|
  {
    if s == "" {
      assert s + [c] == [c];
      assert [c][1..] == "";
    } else {
      assert (s + [c])[1..] == s[1..] + [c];
      ParseAppend(s[1..], c, 10 * n + (s[0] as int - '0' as int));
    }
  }

  lemma {:induction false} ParseItoa(n: nat)
    requires n <= MAX_UINT64
    ensures ParseDigits(Itoa(n), 0) == Value(n)
  {
    if n < 10 {
      assert Itoa(n)[1..] == "";
    } else {
      ParseItoa(n / 10);
      ParseAppend(Itoa(n / 10), (n % 10 + '0' as int) as char, 0);
    }
  }

  lemma AtoiItoa(n: nat)
    requires n <= MAX_INT64
    ensures Atoi(Itoa(n)) == n
  {
    ParseItoa(n);
    assert IsDigit(Itoa(n)[0]);
  }
}
