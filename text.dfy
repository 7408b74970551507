/** Strings as sequences of characters: prefix tests, slash trimming, splitting and the
    lexicographic order that both platforms use to break version ties. */
module Text {
  import opened Json

  predicate StartsWith(s: string, prefix: string) {
    |prefix| <= |s| && s[..|prefix|] == prefix
  }

  predicate EndsWith(s: string, suffix: string) {
    |suffix| <= |s| && s[|s| - |suffix|..] == suffix
  }

  /** True iff `part` occurs somewhere inside `s`. */
  predicate Contains(s: string, part: string)
    decreases |s|
  {
    StartsWith(s, part) || (|s| > 0 && Contains(s[1..], part))
  }

  /** Removes exactly one leading '/', if there is one (Kotlin's
      `if (p.startsWith("/")) p.substring(1) else p`). */
  function StripOneSlash(s: string): (r: string)
    ensures |s| > 0 && s[0] == '/' ==> r == s[1..]
    ensures (|s| == 0 || s[0] != '/') ==> r == s
  {
    if |s| > 0 && s[0] == '/' then s[1..] else s
  }

  /** Removes every leading '/' (Kotlin's `trimStart('/')`). */
  function TrimLeadingSlashes(s: string): string {
    if |s| > 0 && s[0] == '/' then TrimLeadingSlashes(s[1..]) else s
  }

  /** What `TrimLeadingSlashes` removes is a run of slashes, and what it keeps is the rest. */
  lemma {:induction false} TrimLeadingSlashesFacts(s: string)
    ensures var r := TrimLeadingSlashes(s);
            && (|r| == 0 || r[0] != '/')
            && |r| <= |s| && r == s[|s| - |r|..]
            && forall i :: 0 <= i < |s| - |r| ==> s[i] == '/'
  {
    if |s| > 0 && s[0] == '/' {
      TrimLeadingSlashesFacts(s[1..]);
      var r := TrimLeadingSlashes(s);
      assert s[1..][|s| - 1 - |r|..] == s[|s| - |r|..];
      forall i | 0 <= i < |s| - |r| ensures s[i] == '/' {
        if i > 0 { assert s[1..][i - 1] == s[i]; }
      }
    }
  }

  /** Splits at every '/' and keeps empty pieces, as Kotlin's `split('/')` does:
      "" gives [""] and "a//b" gives ["a", "", "b"]. */
  function SplitKeepEmpty(s: string): (r: seq<string>)
    ensures |r| >= 1
    ensures forall i :: 0 <= i < |r| ==> '/' !in r[i]
    decreases |s|
  {
    if |s| == 0 then [""]
    else if s[0] == '/' then [""] + SplitKeepEmpty(s[1..])
    else
      var rest := SplitKeepEmpty(s[1..]);
      [[s[0]] + rest[0]] + rest[1..]
  }

  /** Joins pieces with '/' between them; the inverse of SplitKeepEmpty. */
  function JoinSlash(pieces: seq<string>): string
    requires |pieces| >= 1
  {
    if |pieces| == 1 then pieces[0] else pieces[0] + "/" + JoinSlash(pieces[1..])
  }

  /** Splits at '/' and drops empty pieces, as Swift's `split(separator: "/")` does:
      "a//b/" gives ["a", "b"] and "" gives []. */
  function SplitOmitEmpty(s: string): (r: seq<string>)
    ensures forall i :: 0 <= i < |r| ==> |r[i]| > 0 && '/' !in r[i]
  {
    OmitEmpty(SplitKeepEmpty(s))
  }

  function OmitEmpty(pieces: seq<string>): (r: seq<string>)
    requires forall i :: 0 <= i < |pieces| ==> '/' !in pieces[i]
    ensures forall i :: 0 <= i < |r| ==> |r[i]| > 0 && '/' !in r[i]
    ensures |r| <= |pieces|
  {
    if |pieces| == 0 then []
    else if |pieces[0]| == 0 then OmitEmpty(pieces[1..])
    else [pieces[0]] + OmitEmpty(pieces[1..])
  }

  /** Lexicographic order on strings (character by character, a proper prefix first). */
  predicate StrLess(a: string, b: string)
    decreases |a|
  {
    if |a| == 0 then |b| > 0
    else if |b| == 0 then false
    else if a[0] != b[0] then a[0] < b[0]
    else StrLess(a[1..], b[1..])
  }

  /** Three-way comparison whose sign is that of Kotlin's `String.compareTo`. */
  function StrCompare(a: string, b: string): (r: int)
    ensures r < 0 <==> StrLess(a, b)
    ensures r == 0 <==> a == b
    ensures r > 0 <==> StrLess(b, a)
    ensures -1 <= r <= 1
    decreases |a|
  {
    if |a| == 0 && |b| == 0 then 0
    else if |a| == 0 then -1
    else if |b| == 0 then 1
    else if a[0] < b[0] then -1
    else if b[0] < a[0] then 1
    else
      var c := StrCompare(a[1..], b[1..]);
      assert a == [a[0]] + a[1..] && b == [b[0]] + b[1..];
      c
  }

  lemma {:induction false} StrLessIrreflexive(a: string)
    ensures !StrLess(a, a)
    decreases |a|
  {
    if |a| > 0 { StrLessIrreflexive(a[1..]); }
  }

  lemma {:induction false} StrLessTransitive(a: string, b: string, c: string)
    requires StrLess(a, b) && StrLess(b, c)
    ensures StrLess(a, c)
    decreases |a|
  {
    if |a| > 0 && |b| > 0 && |c| > 0 && a[0] == b[0] && b[0] == c[0] {
      StrLessTransitive(a[1..], b[1..], c[1..]);
    }
  }

  lemma {:induction false} StrLessTotal(a: string, b: string)
    requires a != b
    ensures StrLess(a, b) || StrLess(b, a)
    decreases |a|
  {
    if |a| > 0 && |b| > 0 && a[0] == b[0] {
      assert a == [a[0]] + a[1..] && b == [b[0]] + b[1..];
      StrLessTotal(a[1..], b[1..]);
    }
  }

  lemma {:induction false} StrLessAsymmetric(a: string, b: string)
    requires StrLess(a, b)
    ensures !StrLess(b, a)
    decreases |a|
  {
    if |a| > 0 && |b| > 0 && a[0] == b[0] {
      StrLessAsymmetric(a[1..], b[1..]);
    }
  }

  /** Splitting and joining at '/' are inverse: no piece is lost or merged. */
  lemma {:induction false} SplitJoin(s: string)
    ensures JoinSlash(SplitKeepEmpty(s)) == s
    decreases |s|
  {
    if |s| > 0 {
      SplitJoin(s[1..]);
      var rest := SplitKeepEmpty(s[1..]);
      if s[0] == '/' {
        assert s == "" + "/" + s[1..];
      } else if |rest| == 1 {
        assert s == [s[0]] + s[1..];
      } else {
        assert JoinSlash(rest) == rest[0] + "/" + JoinSlash(rest[1..]);
        assert s == [s[0]] + s[1..];
      }
    }
  }

  /** A string without '/' is a single piece. */
  lemma {:induction false} SplitPlain(s: string)
    requires '/' !in s
    ensures SplitKeepEmpty(s) == [s]
  {
    if |s| > 0 {
      assert '/' !in s[1..] by { forall i | 0 <= i < |s[1..]| ensures s[1..][i] != '/' { assert s[1..][i] == s[i + 1]; } }
      SplitPlain(s[1..]);
      assert s == [s[0]] + s[1..];
    }
  }

  /** Splitting at the first '/' peels off the piece before it. */
  lemma {:induction false} SplitAtSlash(a: string, b: string)
    requires '/' !in a
    ensures SplitKeepEmpty(a + "/" + b) == [a] + SplitKeepEmpty(b)
  {
    var s := a + "/" + b;
    if |a| == 0 {
      assert s == "/" + b && s[1..] == b;
    } else {
      assert '/' !in a[1..] by { forall i | 0 <= i < |a[1..]| ensures a[1..][i] != '/' { assert a[1..][i] == a[i + 1]; } }
      SplitAtSlash(a[1..], b);
      assert s[1..] == a[1..] + "/" + b;
      assert s[0] == a[0];
      assert a == [a[0]] + a[1..];
    }
  }

  // ---------------------------------------------------------------------------
  // Decimal integers.

  predicate IsDigit(c: char) {
    '0' <= c <= '9'
  }

  function DigitValue(c: char): nat
    requires IsDigit(c)
  {
    (c as int - '0' as int) as nat
  }

  function DigitChar(d: nat): (c: char)
    requires d < 10
    ensures IsDigit(c) && DigitValue(c) == d
  {
    ('0' as int + d) as char
  }

  /** The value of a non-empty run of decimal digits, read left to right. */
  function ParseDigits(s: string): (r: Option<nat>)
    ensures r.Some? <==> |s| > 0 && forall i :: 0 <= i < |s| ==> IsDigit(s[i])
    decreases |s|
  {
    if |s| == 0 || !IsDigit(s[|s| - 1]) then None
    else if |s| == 1 then Some(DigitValue(s[0]))
    else match ParseDigits(s[..|s| - 1])
      case None => None
      case Some(x) => Some(10 * x + DigitValue(s[|s| - 1]))
  }

  const Int64Min: int := -0x8000_0000_0000_0000
  const Int64Max: int := 0x7fff_ffff_ffff_ffff

  /** Swift's `Int(String)` on a 64-bit platform: an optional '+' or '-' followed by at least
      one decimal digit and nothing else, within range; anything else is nil. */
  function ParseInt(s: string): (r: Option<int>)
    ensures r.Some? ==> Int64Min <= r.value <= Int64Max
    ensures |s| > 0 && s[0] == '-' && r.Some? ==> r.value <= 0
    ensures (|s| == 0 || (s[0] != '-' && s[0] != '+')) ==>
              (r.Some? <==> ParseDigits(s).Some? && ParseDigits(s).value <= Int64Max) &&
              (r.Some? ==> r.value == ParseDigits(s).value)
    ensures |s| > 0 && s[0] == '+' ==>
              (r.Some? <==> ParseDigits(s[1..]).Some? && ParseDigits(s[1..]).value <= Int64Max) &&
              (r.Some? ==> r.value == ParseDigits(s[1..]).value)
    ensures |s| > 0 && s[0] == '-' ==>
              (r.Some? <==> ParseDigits(s[1..]).Some? && 0 - (ParseDigits(s[1..]).value as int) >= Int64Min) &&
              (r.Some? ==> r.value == 0 - (ParseDigits(s[1..]).value as int))
  {
    var neg := |s| > 0 && s[0] == '-';
    var digits := if |s| > 0 && (s[0] == '-' || s[0] == '+') then s[1..] else s;
    match ParseDigits(digits)
    case None => None
    case Some(n) =>
      var v: int := if neg then 0 - (n as int) else n as int;
      if Int64Min <= v <= Int64Max then Some(v) else None
  }

  /** Swift's `String(n)` for a non-negative integer: its shortest decimal spelling. */
  function DecimalString(n: nat): (s: string)
    ensures |s| > 0 && forall i :: 0 <= i < |s| ==> IsDigit(s[i])
  {
    if n < 10 then [DigitChar(n)] else DecimalString(n / 10) + [DigitChar(n % 10)]
  }

  /** Printing and parsing decimal numbers are inverse. */
  lemma {:induction false} ParseDecimalString(n: nat)
    ensures ParseDigits(DecimalString(n)) == Some(n)
  {
    if n >= 10 {
      ParseDecimalString(n / 10);
      var s := DecimalString(n);
      assert s[..|s| - 1] == DecimalString(n / 10);
    }
  }

  lemma ParseIntDecimalString(n: nat)
    requires n <= Int64Max
    ensures ParseInt(DecimalString(n)) == Some(n)
  {
    ParseDecimalString(n);
  }
}
