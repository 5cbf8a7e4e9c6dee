/** The registry's own version comparison. */
module Versions {
  import opened GoStrings

  datatype Version = Version(major: int, minor: int, patch: int)

  /** Drops blanks, one leading 'v' and everything from the first '-', then reads up to three dotted numbers. */
  function Clean(v: string): Version {
    var s := Before(TrimPrefix(TrimSpace(v), "v"), '-');
    var parts := Split(s, '.');
    Version(Atoi(parts[0]),
            if |parts| > 1 then Atoi(parts[1]) else 0,
            if |parts| > 2 then Atoi(parts[2]) else 0)
  }

  function CompareVersionStrings(v1: string, v2: string): int {
    var a, b := Clean(v1), Clean(v2);
    if a.major != b.major then (if a.major > b.major then 1 else -1)
    else if a.minor != b.minor then (if a.minor > b.minor then 1 else -1)
    else if a.patch != b.patch then (if a.patch > b.patch then 1 else -1)
    else 0
  }

  /** The comparison is a total preorder: antisymmetric in sign, transitive, and 0 only between equals. */
  lemma ComparisonIsTotalPreorder(a: string, b: string, c: string)
    ensures CompareVersionStrings(a, b) == -CompareVersionStrings(b, a)
    ensures CompareVersionStrings(a, b) <= 0 && CompareVersionStrings(b, c) <= 0 ==> CompareVersionStrings(a, c) <= 0
    ensures CompareVersionStrings(a, b) <= 0 && CompareVersionStrings(b, c) < 0 ==> CompareVersionStrings(a, c) < 0
    ensures CompareVersionStrings(a, b) == 0 <==> Clean(a) == Clean(b)
  {
    hide Clean;
  }

  /** A semantic version as published: an optional 'v', three numbers, an optional pre-release suffix. */
  function Print(v: bool, major: nat, minor: nat, patch: nat, suffix: string): string {
    (if v then "v" else "") + Itoa(major) + "." + Itoa(minor) + "." + Itoa(patch) + suffix
  }

  lemma {:induction false} NoBlankEnds(s: string)
    requires s != "" && !IsSpace(s[0]) && !IsSpace(s[|s| - 1])
    ensures TrimSpace(s) == s
  {
  }

  /** Published versions are read back number by number; prefix and pre-release suffix do not matter. */
  lemma {:induction false} CleanReadsPrinted(v: bool, major: nat, minor: nat, patch: nat, suffix: string)
    requires major <= MAX_INT64 && minor <= MAX_INT64 && patch <= MAX_INT64
    requires suffix == "" || (suffix[0] == '-' && !IsSpace(suffix[|suffix| - 1]))
    ensures Clean(Print(v, major, minor, patch, suffix)) == Version(major, minor, patch)
  {
    hide Itoa, Atoi, Split, Before, TrimSpace;
    var a, b, c := Itoa(major), Itoa(minor), Itoa(patch);
    var numbers := a + "." + b + "." + c;
    var text := Print(v, major, minor, patch, suffix);
    assert text == (if v then "v" else "") + numbers + suffix;
    assert a[0] in a && c[|c| - 1] in c && IsDigit(a[0]) && IsDigit(c[|c| - 1]);
    assert numbers[0] == a[0] && numbers[|numbers| - 1] == c[|c| - 1];
    NoBlankEnds(text);
    assert TrimPrefix(text, "v") == numbers + suffix;
    assert '-' !in numbers && '.' !in a && '.' !in b && '.' !in c;
    if suffix == "" {
      assert numbers + suffix == numbers;
      BeforeIsPrefix(numbers, '-');
    } else {
      assert numbers + suffix == numbers + ['-'] + suffix[1..];
      BeforeConcat(numbers, '-', suffix[1..]);
    }
    var parts := [a, b, c];
    JoinThree(a, b, c, '.');
    SplitJoin(parts, '.');
    AtoiItoa(major);
    AtoiItoa(minor);
    AtoiItoa(patch);
  }

  /** Numbers that are left out read as zero. */
  lemma ShortVersions(major: nat, minor: nat)
    requires major <= MAX_INT64 && minor <= MAX_INT64
    ensures Clean(Itoa(major)) == Version(major, 0, 0)
    ensures Clean(Itoa(major) + "." + Itoa(minor)) == Version(major, minor, 0)
  {
    hide Itoa, Atoi, Split, Before, TrimSpace;
    var a, b := Itoa(major), Itoa(minor);
    assert a[0] in a && a[|a| - 1] in a && b[|b| - 1] in b;
    PlainNumbers(a);
    assert (a + "." + b)[|a + "." + b| - 1] == b[|b| - 1] && (a + "." + b)[0] == a[0];
    PlainNumbers(a + "." + b);
    SplitJoin([a], '.');
    assert [a, b][1..] == [b] && Join([a, b], '.') == a + ['.'] + b;
    SplitJoin([a, b], '.');
    AtoiItoa(major);
    AtoiItoa(minor);
  }

  lemma PlainNumbers(s: string)
    requires s != "" && IsDigit(s[0]) && IsDigit(s[|s| - 1]) && '-' !in s
    ensures Before(TrimPrefix(TrimSpace(s), "v"), '-') == s
  {
    NoBlankEnds(s);
    BeforeIsPrefix(s, '-');
  }

  /** So published versions compare number by number, as semantic versions do. */
  lemma ComparesAsSemVer(v: bool, a: Version, suffix: string, w: bool, b: Version, suffix': string)
    requires 0 <= a.major <= MAX_INT64 && 0 <= a.minor <= MAX_INT64 && 0 <= a.patch <= MAX_INT64
    requires 0 <= b.major <= MAX_INT64 && 0 <= b.minor <= MAX_INT64 && 0 <= b.patch <= MAX_INT64
    requires suffix == "" || (suffix[0] == '-' && !IsSpace(suffix[|suffix| - 1]))
    requires suffix' == "" || (suffix'[0] == '-' && !IsSpace(suffix'[|suffix'| - 1]))
    ensures var order := CompareVersionStrings(Print(v, a.major, a.minor, a.patch, suffix),
                                               Print(w, b.major, b.minor, b.patch, suffix'));
            order > 0 <==> a.major > b.major
                           || (a.major == b.major && (a.minor > b.minor || (a.minor == b.minor && a.patch > b.patch)))
  {
    hide Clean, Print;
    CleanReadsPrinted(v, a.major, a.minor, a.patch, suffix);
    CleanReadsPrinted(w, b.major, b.minor, b.patch, suffix');
  }
}
