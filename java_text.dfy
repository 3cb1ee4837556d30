/** The pieces of `java.lang.String`, `Integer` and `Character` that the
    chat server relies on, written out on `seq<char>` and `int`. */
module JavaText {

  import opened SortedSeqs

  // ---------------------------------------------------------------------
  // String.compareTo: lexicographic by character code, a proper prefix
  // sorting first.
  // ---------------------------------------------------------------------

  /** `a.compareTo(b)`: the difference of the first pair of differing
      characters, or else the difference of the lengths. */
  function JavaCompare(a: string, b: string): int
  {
    if |a| == 0 || |b| == 0 then |a| - |b|
    else if a[0] != b[0] then a[0] as int - b[0] as int
    else JavaCompare(a[1..], b[1..])
  }

  /** The natural order of Java strings (`a.compareTo(b) < 0`). */
  predicate StrLess(a: string, b: string)
  {
    JavaCompare(a, b) < 0
  }

  /** `Integer.compare(x, y)`. */
  function IntegerCompare(x: int, y: int): (r: int)
    ensures -1 <= r <= 1
    ensures r < 0 <==> x < y
    ensures r == 0 <==> x == y
  {
    if x < y then -1 else if x == y then 0 else 1
  }

  lemma {:induction false} CompareZeroIffEqual(a: string, b: string)
    ensures JavaCompare(a, b) == 0 <==> a == b
  {
    if |a| == 0 || |b| == 0 {
    } else if a[0] != b[0] {
    } else {
      CompareZeroIffEqual(a[1..], b[1..]);
      assert a == [a[0]] + a[1..];
      assert b == [b[0]] + b[1..];
    }
  }

  lemma {:induction false} CompareAntisymmetric(a: string, b: string)
    ensures JavaCompare(a, b) == -JavaCompare(b, a)
  {
    if |a| == 0 || |b| == 0 {
    } else if a[0] != b[0] {
    } else {
      CompareAntisymmetric(a[1..], b[1..]);
    }
  }

  lemma {:induction false} StrLessTransitive(a: string, b: string, c: string)
    requires StrLess(a, b) && StrLess(b, c)
    ensures StrLess(a, c)
  {
    if |a| == 0 || |b| == 0 || |c| == 0 {
    } else if a[0] == b[0] && b[0] == c[0] {
      StrLessTransitive(a[1..], b[1..], c[1..]);
    }
  }

  /** The order a `TreeSet<String>` iterates in: ascending under
      `compareTo`. */
  function SortedStrings(S: set<string>): (r: seq<string>)
    ensures Sorted(StrLess, r) && Elems(r) == S && |r| == |S|
  {
    StrLessIsStrictOrder(S);
    FromSet(StrLess, S)
  }

  /** String.compareTo is a strict total order on any set of strings. */
  lemma StrLessTotal(a: string, b: string)
    ensures a == b || StrLess(a, b) || StrLess(b, a)
    ensures !StrLess(a, a)
  {
    CompareZeroIffEqual(a, b);
    CompareAntisymmetric(a, b);
    CompareZeroIffEqual(a, a);
  }

  /** So a `TreeSet<String>` lists its elements in a unique ascending order. */
  lemma StrLessIsStrictOrder(S: set<string>)
    ensures StrictOrderOn(StrLess, S)
  {
    forall x, y, z | x in S && y in S && z in S && StrLess(x, y) && StrLess(y, z)
      ensures StrLess(x, z)
    {
      StrLessTransitive(x, y, z);
    }
    forall x, y | x in S && y in S
      ensures x == y || StrLess(x, y) || StrLess(y, x)
      ensures !StrLess(x, x)
    {
      StrLessTotal(x, y);
    }
  }

  // ---------------------------------------------------------------------
  // String.trim: strip every leading and trailing character <= ' '.
  // ---------------------------------------------------------------------

  function TrimStart(s: string): string
  {
    if |s| > 0 && s[0] <= ' ' then TrimStart(s[1..]) else s
  }

  function TrimEnd(s: string): string
  {
    if |s| > 0 && s[|s| - 1] <= ' ' then TrimEnd(s[..|s| - 1]) else s
  }

  function Trim(s: string): string
  {
    TrimEnd(TrimStart(s))
  }

  // ---------------------------------------------------------------------
  // Integer.toString on non-negative values, as used by "User" + n and
  // the "%d" of an error code.
  // ---------------------------------------------------------------------

  function DigitChar(d: nat): (c: char)
    requires d < 10
    ensures '0' <= c <= '9'
  {
    (d + '0' as int) as char
  }

  /** The number a string of decimal digits spells, most significant
      digit first. */
  function DecimalValue(s: string): int
  {
    if s == [] then 0 else DecimalValue(s[..|s| - 1]) * 10 + (s[|s| - 1] as int - '0' as int)
  }

  /** `Integer.toString(n)`: the decimal digits of n, without leading
      zeros. */
  function NatToString(n: nat): (s: string)
    ensures |s| >= 1
    ensures forall i :: 0 <= i < |s| ==> '0' <= s[i] <= '9'
    ensures |s| == 1 <==> n < 10
    ensures DecimalValue(s) == n
    ensures |s| > 1 ==> s[0] != '0'
  {
    if n < 10 then [DigitChar(n)]
    else
      var prefix := NatToString(n / 10);
      assert (prefix + [DigitChar(n % 10)])[..|prefix|] == prefix;
      prefix + [DigitChar(n % 10)]
  }

  lemma {:induction false} NatToStringInjective(a: nat, b: nat)
    requires NatToString(a) == NatToString(b)
    ensures a == b
  {
    if a < 10 || b < 10 {
      assert NatToString(a)[0] == NatToString(b)[0];
    } else {
      var sa, sb := NatToString(a), NatToString(b);
      assert sa[|sa| - 1] == sb[|sb| - 1];
      assert sa[..|sa| - 1] == NatToString(a / 10);
      assert sb[..|sb| - 1] == NatToString(b / 10);
      NatToStringInjective(a / 10, b / 10);
    }
  }

  // ---------------------------------------------------------------------
  // 32-bit two's-complement wrap-around of Java's `int`.
  // ---------------------------------------------------------------------

  const TwoTo31: int := 0x8000_0000
  const TwoTo32: int := 0x1_0000_0000

  /** The Java `int` that the mathematical integer x wraps to. */
  function Int32(x: int): (r: int)
    ensures -TwoTo31 <= r < TwoTo31
    ensures (-TwoTo31 <= x < TwoTo31) ==> r == x
  {
    (x + TwoTo31) % TwoTo32 - TwoTo31
  }

  /** Wrapping after every addition is the same as wrapping once. */
  lemma Int32OfSum(a: int, b: int)
    ensures Int32(Int32(a) + b) == Int32(a + b)
  {
    var q := (a + TwoTo31) / TwoTo32;
    assert Int32(a) == a - q * TwoTo32;
    ShiftMod(a + b + TwoTo31, q);
  }

  lemma ShiftMod(x: int, q: int)
    ensures (x - q * TwoTo32) % TwoTo32 == x % TwoTo32
  {
    var r := x % TwoTo32;
    var d := x / TwoTo32;
    assert x == d * TwoTo32 + r;
    assert x - q * TwoTo32 == (d - q) * TwoTo32 + r;
  }

  // ---------------------------------------------------------------------
  // Character.isLetterOrDigit, restricted to ASCII.
  // ---------------------------------------------------------------------

  predicate IsLetterOrDigit(c: char)
  {
    ('a' <= c <= 'z') || ('A' <= c <= 'Z') || ('0' <= c <= '9')
  }
}
