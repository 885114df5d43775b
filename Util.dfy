/** Small value-level helpers shared by the playback, menu and player models:
    an Option type for C's NULL returns, opaque handles for function and
    context pointers, the ASCII case folding that
    `strcasecmp` performs, prefix and suffix tests, and the `%d` decimal
    formatting that `snprintf` performs. */
module Util {

  datatype Option<+T> = None | Some(value: T)

  /** Identity of a C function pointer or of a context pointer. */
  type Handle = nat

  /** `tolower` in the C locale: only 'A'..'Z' change. */
  function Lower(c: char): (d: char)
    ensures 'A' <= c <= 'Z' ==> d as int == c as int + 32
    ensures !('A' <= c <= 'Z') ==> d == c
    ensures !('A' <= d <= 'Z')
  {
    if 'A' <= c <= 'Z' then (c as int + 32) as char else c
  }

  /** The string with every character folded by `tolower`. */
  function Folded(s: string): (t: string)
    ensures |t| == |s| && forall i :: 0 <= i < |s| ==> t[i] == Lower(s[i])
  {
    seq(|s|, i requires 0 <= i < |s| => Lower(s[i]))
  }

  /** `strcasecmp(a, b) == 0`: the strings are equal once both are folded
      to lower case. */
  predicate EqualsIgnoreCase(a: string, b: string)
    ensures EqualsIgnoreCase(a, b) <==> Folded(a) == Folded(b)
  {
    var r := |a| == |b| && forall i :: 0 <= i < |a| ==> Lower(a[i]) == Lower(b[i]);
    assert r <== Folded(a) == Folded(b) by {
      if Folded(a) == Folded(b) {
        forall i | 0 <= i < |a|
          ensures Lower(a[i]) == Lower(b[i])
        {
          assert Folded(a)[i] == Folded(b)[i];
        }
      }
    }
    r
  }

  /** `strncmp(prefix, s, |prefix|) == 0`: a string shorter than the prefix
      differs at its terminating NUL. */
  predicate StartsWith(s: string, prefix: string)
    ensures StartsWith(s, prefix) <==> |prefix| <= |s| && forall i :: 0 <= i < |prefix| ==> s[i] == prefix[i]
  {
    var r := |prefix| <= |s| && s[..|prefix|] == prefix;
    assert r <== |prefix| <= |s| && (forall i :: 0 <= i < |prefix| ==> s[i] == prefix[i]) by {
      if |prefix| <= |s| && forall i :: 0 <= i < |prefix| ==> s[i] == prefix[i] {
        assert s[..|prefix|] == prefix;
      }
    }
    r
  }

  /** `strcasecmp(suffix, s + strlen(s) - |suffix|) == 0`: folded to lower
      case, the name ends with the folded suffix. The C expression points
      before the string when it is shorter than the suffix; such a name is
      taken not to match. */
  predicate EndsWithIgnoreCase(s: string, suffix: string)
    ensures EndsWithIgnoreCase(s, suffix) <==> |suffix| <= |s| && Folded(s)[|s| - |suffix|..] == Folded(suffix)
  {
    var r := |suffix| <= |s| && EqualsIgnoreCase(s[|s| - |suffix|..], suffix);
    assert |suffix| <= |s| ==> Folded(s)[|s| - |suffix|..] == Folded(s[|s| - |suffix|..]);
    r
  }

  predicate IsDigit(c: char)
  {
    '0' <= c <= '9'
  }

  function DigitChar(d: nat): (c: char)
    requires d < 10
    ensures IsDigit(c) && c as int - '0' as int == d
  {
    ('0' as int + d) as char
  }

  /** `%d` of a non-negative number: canonical decimal, no leading zero. */
  function FormatNat(n: nat): (s: string)
    decreases n
    ensures 1 <= |s|
    ensures forall i :: 0 <= i < |s| ==> IsDigit(s[i])
    ensures s[0] == '0' <==> n == 0
    ensures n < 10 <==> |s| == 1
  {
    if n < 10 then [DigitChar(n)] else FormatNat(n / 10) + [DigitChar(n % 10)]
  }

  /** `%d` of any int, with a leading minus sign for negative values: a sign
      exactly for a negative number, digits everywhere else, and a leading
      zero only for 0 itself. */
  function FormatInt(i: int): (s: string)
    ensures 1 <= |s| && (s[0] == '-' <==> i < 0)
    ensures forall k :: (if i < 0 then 1 else 0) <= k < |s| ==> IsDigit(s[k])
    ensures s[0] == '0' <==> i == 0
  {
    if i < 0 then "-" + FormatNat(-i) else FormatNat(i)
  }

  /** Reads an optional minus sign and decimal digits back as an int. */
  function ParseInt(s: string): int
    requires 1 <= |s|
    requires forall k :: (if s[0] == '-' then 1 else 0) <= k < |s| ==> IsDigit(s[k])
  {
    if s[0] == '-' then -(ParseDigits(s[1..]) as int) else ParseDigits(s)
  }

  /** Reads a string of decimal digits back as a number (the inverse of FormatNat). */
  function ParseDigits(s: string): nat
    requires forall i :: 0 <= i < |s| ==> IsDigit(s[i])
  {
    if s == [] then 0
    else
      assert IsDigit(s[|s| - 1]);
      ParseDigits(s[..|s| - 1]) * 10 + (s[|s| - 1] as int - '0' as int)
  }

  /** FormatNat loses nothing: parsing its output gives the number back. */
  lemma {:induction false} ParseFormatNat(n: nat)
    ensures ParseDigits(FormatNat(n)) == n
    decreases n
  {
    var s := FormatNat(n);
    if n >= 10 {
      ParseFormatNat(n / 10);
      assert s[..|s| - 1] == FormatNat(n / 10);
      assert s[|s| - 1] == DigitChar(n % 10);
    }
  }

  /** Two numbers are printed alike only when they are equal. */
  lemma FormatNatInjective(m: nat, n: nat)
    requires FormatNat(m) == FormatNat(n)
    ensures m == n
  {
    ParseFormatNat(m);
    ParseFormatNat(n);
  }

  /** FormatInt loses nothing either: parsing its output, sign included,
      gives the number back. */
  lemma ParseFormatInt(i: int)
    ensures ParseInt(FormatInt(i)) == i
  {
    if i < 0 {
      ParseFormatNat(-i);
      assert FormatInt(i)[1..] == FormatNat(-i);
    } else {
      ParseFormatNat(i);
    }
  }

  /** What `snprintf(buffer, size, ...)` leaves in the buffer: the formatted
      text cut to `size - 1` bytes. */
  function Bounded(s: string, size: nat): (r: string)
    requires size >= 1
    ensures r <= s && |r| <= size - 1
    ensures r == s <==> |s| < size
    ensures |r| < |s| ==> |r| == size - 1
  {
    if |s| < size then s else s[..size - 1]
  }

  /** How many bytes `readBytesUntil(terminator, buffer, length)` stores when
      it reads `data` from position `pos`: it stops at the terminator, after
      `length` bytes or at the end of the data. */
  function ReadCount(data: seq<char>, pos: nat, terminator: char, length: nat): (k: nat)
    requires pos <= |data|
    decreases length
    ensures k <= length && pos + k <= |data|
  {
    if length == 0 || pos == |data| || data[pos] == terminator then 0
    else 1 + ReadCount(data, pos + 1, terminator, length - 1)
  }

  /** Arduino `Stream::readBytesUntil(terminator, buffer, length)` on the
      bytes `data` read from position `pos`: returns the stored bytes and the
      next read position. The terminator is consumed but not stored; it is
      not consumed when the limit or the end of the data stops the read. */
  function ReadBytesUntil(data: seq<char>, pos: nat, terminator: char, length: nat): (r: (seq<char>, nat))
    requires pos <= |data|
    ensures |r.0| <= length && pos + |r.0| <= r.1 <= |data|
    ensures pos < |data| && length >= 1 ==> pos < r.1
  {
    var k := ReadCount(data, pos, terminator, length);
    (data[pos..pos + k], if k < length && pos + k < |data| then pos + k + 1 else pos + k)
  }

  /** The stored bytes hold no terminator, and the read stops short of its
      limit and of the end only at a terminator. */
  lemma {:induction false} ReadCountStops(data: seq<char>, pos: nat, terminator: char, length: nat)
    requires pos <= |data|
    decreases length
    ensures var k := ReadCount(data, pos, terminator, length);
            && terminator !in data[pos..pos + k]
            && (k < length && pos + k < |data| ==> data[pos + k] == terminator)
  {
    if length > 0 && pos < |data| && data[pos] != terminator {
      ReadCountStops(data, pos + 1, terminator, length - 1);
      var k := ReadCount(data, pos + 1, terminator, length - 1);
      assert data[pos..pos + 1 + k] == [data[pos]] + data[pos + 1..pos + 1 + k];
    }
  }

  /** What a read delivers: the bytes stored are the input from `pos` on and
      hold no terminator; one more byte is consumed exactly when the read
      stopped short of its limit and of the end, and that byte is the
      terminator. */
  lemma ReadBytesUntilFacts(data: seq<char>, pos: nat, terminator: char, length: nat)
    requires pos <= |data|
    ensures var (got, next) := ReadBytesUntil(data, pos, terminator, length);
            && got == data[pos..pos + |got|] && terminator !in got
            && (next == pos + |got| || next == pos + |got| + 1)
            && (next == pos + |got| + 1 <==> |got| < length && pos + |got| < |data|)
            && (next == pos + |got| + 1 ==> data[pos + |got|] == terminator)
  {
    ReadCountStops(data, pos, terminator, length);
  }

  /** A read stops at the first terminator within its limit and consumes it. */
  lemma ReadBytesUntilStopsAt(data: seq<char>, pos: nat, terminator: char, length: nat, k: nat)
    requires pos + k < |data| && k < length
    requires terminator !in data[pos..pos + k] && data[pos + k] == terminator
    ensures ReadBytesUntil(data, pos, terminator, length) == (data[pos..pos + k], pos + k + 1)
  {
    ReadBytesUntilFacts(data, pos, terminator, length);
  }

  /** Regrouping a concatenation; stated once so that callers need not ask
      the solver for sequence extensionality. */
  lemma Associative<T>(a: seq<T>, b: seq<T>, c: seq<T>)
    ensures a + b + c == a + (b + c)
  {
  }

  /** The remainder that wraps an index one step outside [0, n) back in. */
  lemma WrapMod(x: int, n: int)
    requires 0 < n && -1 <= x <= n
    ensures x % n == if x < 0 then x + n else if x == n then 0 else x
  {
    if x < 0 {
      assert x == (-1) * n + (x + n);
    } else if x == n {
      assert x == 1 * n + 0;
    } else {
      assert x == 0 * n + x;
    }
  }
}
