/** String helpers standing in for PHP's `str_repeat`, `implode` and `sprintf("%d")`. */
module Text {

  /** The indentation unit of the failure renderer (four spaces). */
  const Tab: string := "    "

  /** `str_repeat(s, n)`. */
  function Repeat(s: string, n: nat): (r: string)
    decreases n
  {
    if n == 0 then "" else s + Repeat(s, n - 1)
  }

  /** `implode(sep, parts)`: the parts with `sep` between consecutive ones. */
  function Join(sep: string, parts: seq<string>): (r: string)
    decreases |parts|
  {
    if |parts| == 0 then ""
    else if |parts| == 1 then parts[0]
    else parts[0] + sep + Join(sep, parts[1..])
  }

  /** Every part preceded by `sep`, concatenated: an independent reading of `sep + implode(sep, parts)`. */
  function Prefixed(sep: string, parts: seq<string>): (r: string)
    decreases |parts|
  {
    if parts == [] then "" else sep + parts[0] + Prefixed(sep, parts[1..])
  }

  /** For a non-empty list, `sep + implode(sep, parts)` is the concatenation of `sep + part` over the parts. */
  lemma {:induction false} JoinIsPrefixed(sep: string, parts: seq<string>)
    requires parts != []
    ensures sep + Join(sep, parts) == Prefixed(sep, parts)
    decreases |parts|
  {
    if |parts| == 1 {
      assert parts[1..] == [];
    } else {
      JoinIsPrefixed(sep, parts[1..]);
      calc {
        sep + Join(sep, parts);
        sep + (parts[0] + sep + Join(sep, parts[1..]));
        sep + parts[0] + (sep + Join(sep, parts[1..]));
        sep + parts[0] + Prefixed(sep, parts[1..]);
      }
    }
  }

  function DigitChar(d: nat): char
    requires d < 10
  {
    ('0' as int + d) as char
  }

  /** The decimal digits of `n`, without leading zeros. */
  function NatToString(n: nat): (r: string)
    decreases n
  {
    if n < 10 then [DigitChar(n)] else NatToString(n / 10) + [DigitChar(n % 10)]
  }

  /** The number a string of decimal digits denotes: an independent reading of `NatToString`. */
  function DigitsValue(s: string): (v: nat)
    requires forall k :: 0 <= k < |s| ==> '0' <= s[k] <= '9'
    decreases |s|
  {
    if s == [] then 0 else 10 * DigitsValue(s[..|s| - 1]) + (s[|s| - 1] as int - '0' as int)
  }

  /** The decimal rendering is all digits, starts with a non-zero digit unless it is "0", and reads back. */
  lemma {:induction false} NatToStringRoundTrip(n: nat)
    ensures NatToString(n) != []
    ensures forall k :: 0 <= k < |NatToString(n)| ==> '0' <= NatToString(n)[k] <= '9'
    ensures NatToString(n)[0] == '0' <==> n == 0
    ensures DigitsValue(NatToString(n)) == n
    decreases n
  {
    if n >= 10 {
      NatToStringRoundTrip(n / 10);
      var s := NatToString(n);
      assert s[..|s| - 1] == NatToString(n / 10);
    }
  }

  /** `sprintf("%d", i)`: a minus sign for negative numbers, then the decimal digits. */
  function IntToString(i: int): (r: string)
  {
    if i < 0 then "-" + NatToString(-i) else NatToString(i)
  }

  /** A non-empty run of decimal digits. */
  predicate IsDigits(s: string)
  {
    |s| >= 1 && forall k :: 0 <= k < |s| ==> '0' <= s[k] <= '9'
  }

  /** `%d` text: digits, or a minus sign followed by digits. */
  predicate IsIntText(s: string)
  {
    IsDigits(s) || (|s| >= 2 && s[0] == '-' && IsDigits(s[1..]))
  }

  /** The integer a `%d` text denotes: an independent reading of `IntToString`. */
  function IntTextValue(s: string): int
    requires IsIntText(s)
  {
    if s[0] == '-' then -(DigitsValue(s[1..]) as int) else DigitsValue(s)
  }

  /** The signed rendering starts with a minus sign exactly for negative numbers and reads back. */
  lemma IntToStringRoundTrip(i: int)
    ensures IsIntText(IntToString(i))
    ensures IntToString(i)[0] == '-' <==> i < 0
    ensures IntTextValue(IntToString(i)) == i
  {
    if i < 0 {
      NatToStringRoundTrip(-i);
      assert IntToString(i)[1..] == NatToString(-i);
    } else {
      NatToStringRoundTrip(i);
    }
  }

  /** The characters PCRE's `\s` matches outside UTF mode: space, tab, LF, VT, FF, CR. */
  predicate IsSpace(c: char)
  {
    c == ' ' || c == '\t' || c == '\n' || c == '\U{0B}' || c == '\U{0C}' || c == '\r'
  }

  predicate AllSpace(s: string)
  {
    forall i :: 0 <= i < |s| ==> IsSpace(s[i])
  }

  /** `s` without its leading whitespace. */
  function TrimStart(s: string): (r: string)
    decreases |s|
  {
    if s != [] && IsSpace(s[0]) then TrimStart(s[1..]) else s
  }

  /** `TrimStart` removes exactly a whitespace prefix, and nothing that starts the rest. */
  lemma {:induction false} TrimStartSplits(s: string)
    ensures |TrimStart(s)| <= |s|
    ensures s == s[..|s| - |TrimStart(s)|] + TrimStart(s)
    ensures AllSpace(s[..|s| - |TrimStart(s)|])
    ensures TrimStart(s) == [] || !IsSpace(TrimStart(s)[0])
    decreases |s|
  {
    if s != [] && IsSpace(s[0]) {
      TrimStartSplits(s[1..]);
      var k := |s| - |TrimStart(s)|;
      assert s[1..][..k - 1] == s[1..k];
      assert s[..k] == [s[0]] + s[1..k];
    }
  }

  /** Before a non-space, a whitespace prefix is exactly what `TrimStart` removes. */
  lemma {:induction false} TrimStartSkipsSpaces(a: string, rest: string)
    requires AllSpace(a)
    requires rest == [] || !IsSpace(rest[0])
    ensures TrimStart(a + rest) == rest
    decreases |a|
  {
    if a == [] {
      assert a + rest == rest;
    } else {
      assert (a + rest)[1..] == a[1..] + rest;
      TrimStartSkipsSpaces(a[1..], rest);
    }
  }
}
