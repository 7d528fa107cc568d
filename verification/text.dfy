/**
 * The string operations of JavaScript that the pages rely on: `trim`,
 * `String(n)` for integers, `parseInt(s, 10)`, `padStart(2, '0')`,
 * `includes`, `toLowerCase` (ASCII letters only) and `join`.
 */
module Text {
  import opened Optional

  /** JavaScript's white space and line terminators, as `trim` and `parseInt` skip them. */
  predicate IsWhitespace(c: char) {
    || c == '\t' || c == '\n' || c == '\U{000B}' || c == '\U{000C}' || c == '\r' || c == ' '
    || c == '\U{00A0}' || c == '\U{1680}' || ('\U{2000}' <= c <= '\U{200A}')
    || c == '\U{2028}' || c == '\U{2029}' || c == '\U{202F}' || c == '\U{205F}'
    || c == '\U{3000}' || c == '\U{FEFF}'
  }

  /** `!s.trim()`: the string holds nothing but white space. */
  predicate IsBlank(s: string) {
    forall i :: 0 <= i < |s| ==> IsWhitespace(s[i])
  }

  /** Index of the first character that is not white space (|s| when there is none). */
  function TextStart(s: string): (i: nat)
    ensures i <= |s|
    ensures forall k :: 0 <= k < i ==> IsWhitespace(s[k])
    ensures i < |s| ==> !IsWhitespace(s[i])
  {
    if s == [] || !IsWhitespace(s[0]) then 0 else 1 + TextStart(s[1..])
  }

  /** Index just past the last character that is not white space (0 when there is none). */
  function TextEnd(s: string): (j: nat)
    ensures j <= |s|
    ensures forall k :: j <= k < |s| ==> IsWhitespace(s[k])
    ensures 0 < j ==> !IsWhitespace(s[j - 1])
  {
    if s == [] || !IsWhitespace(s[|s| - 1]) then |s| else TextEnd(s[..|s| - 1])
  }

  /** `s.trim()`: the string without its leading and trailing white space. */
  function Trim(s: string): (r: string)
    ensures |r| <= |s|
    ensures r == [] <==> IsBlank(s)
    ensures r != [] ==> !IsWhitespace(r[0]) && !IsWhitespace(r[|r| - 1])
    ensures !IsBlank(s) ==> TextStart(s) < TextEnd(s) && r == s[TextStart(s)..TextEnd(s)]
  {
    var i, j := TextStart(s), TextEnd(s);
    if j <= i then
      assert forall k :: 0 <= k < |s| ==> IsWhitespace(s[k]) by {
        forall k | 0 <= k < |s| ensures IsWhitespace(s[k]) {
          assert k < i || j <= k;
        }
      }
      []
    else s[i..j]
  }

  /** Every character that is not white space lies inside the trimmed part. */
  lemma TrimKeeps(s: string, p: nat)
    requires p < |s| && !IsWhitespace(s[p])
    ensures TextStart(s) <= p < TextEnd(s)
    ensures Trim(s) == s[TextStart(s)..TextEnd(s)]
  {
  }

  /** Trimming twice changes nothing more than trimming once. */
  lemma TrimIdempotent(s: string)
    ensures Trim(Trim(s)) == Trim(s)
  {
    var t := Trim(s);
    if t != [] {
      assert TextStart(t) == 0;
      assert TextEnd(t) == |t|;
    }
  }

  /** A string that starts and ends with a visible character is its own trim. */
  lemma TrimOfTrimmed(s: string)
    requires s != [] && !IsWhitespace(s[0]) && !IsWhitespace(s[|s| - 1])
    ensures Trim(s) == s
  {
    assert TextStart(s) == 0;
    assert TextEnd(s) == |s|;
  }

  /** Appending white space does not change the trim of a string that starts visibly. */
  lemma TrimDropsTrailing(s: string, w: string)
    requires s != [] && !IsWhitespace(s[0]) && !IsWhitespace(s[|s| - 1])
    requires IsBlank(w)
    ensures Trim(s + w) == s
  {
    var sw := s + w;
    TrimKeeps(sw, 0);
    TrimKeeps(sw, |s| - 1);
    assert forall k :: |s| <= k < |sw| ==> sw[k] == w[k - |s|];
    assert TextEnd(sw) == |s|;
    assert sw[..|s|] == s;
  }

  /** A concatenation is blank exactly when both parts are. */
  lemma BlankAppend(a: string, b: string)
    ensures IsBlank(a + b) <==> IsBlank(a) && IsBlank(b)
  {
    if IsBlank(a + b) {
      assert forall k :: 0 <= k < |a| ==> a[k] == (a + b)[k];
      assert forall k :: 0 <= k < |b| ==> b[k] == (a + b)[|a| + k];
    }
  }

  /** A string that holds a visible character at p is not blank. */
  lemma VisibleAt(s: string, p: nat)
    requires p < |s| && !IsWhitespace(s[p])
    ensures !IsBlank(s)
  {
  }

  /** A suffix does not move where the text of a non-blank string starts. */
  lemma StartOfExtended(h: string, rest: string)
    requires !IsBlank(h)
    ensures TextStart(h + rest) == TextStart(h) < |h|
  {
    var s, i := h + rest, TextStart(h);
    assert s[i] == h[i];
    assert forall k :: 0 <= k < |h| ==> s[k] == h[k];
  }

  /** A blank suffix does not move where the text of a non-blank string ends. */
  lemma EndOfBlankExtended(h: string, rest: string)
    requires !IsBlank(h) && IsBlank(rest)
    ensures TextEnd(h + rest) == TextEnd(h) > 0
  {
    var s, j := h + rest, TextEnd(h);
    var p :| 0 <= p < |h| && !IsWhitespace(h[p]);
    TrimKeeps(h, p);
    assert s[j - 1] == h[j - 1];
    assert forall k :: |h| <= k < |s| ==> s[k] == rest[k - |h|];
    assert forall k :: 0 <= k < |h| ==> s[k] == h[k];
  }

  /**
   * Appending to a string that is not blank leaves its trim unchanged
   * exactly when what is appended is blank.
   */
  lemma TrimExtend(h: string, rest: string)
    requires !IsBlank(h)
    ensures Trim(h + rest) == Trim(h) <==> IsBlank(rest)
  {
    if IsBlank(rest) {
      TrimBlankExtension(h, rest);
    } else {
      TrimVisibleExtension(h, rest);
    }
  }

  /** Appending white space to a string that is not blank leaves its trim alone. */
  lemma TrimBlankExtension(h: string, rest: string)
    requires !IsBlank(h) && IsBlank(rest)
    ensures Trim(h + rest) == Trim(h)
  {
    var s := h + rest;
    StartOfExtended(h, rest);
    EndOfBlankExtended(h, rest);
    var i := TextStart(h);
    TrimKeeps(h, i);
    TrimKeeps(s, i);
    assert s[i..TextEnd(h)] == h[i..TextEnd(h)];
  }

  /** Appending a visible character to a string that is not blank lengthens its trim. */
  lemma TrimVisibleExtension(h: string, rest: string)
    requires !IsBlank(h) && !IsBlank(rest)
    ensures |Trim(h + rest)| > |Trim(h)|
  {
    var s := h + rest;
    StartOfExtended(h, rest);
    var i := TextStart(h);
    TrimKeeps(h, i);
    TrimKeeps(s, i);
    var p :| 0 <= p < |rest| && !IsWhitespace(rest[p]);
    assert s[|h| + p] == rest[p];
    TrimKeeps(s, |h| + p);
  }

  /** Nothing but white space from index n on. */
  predicate BlankAfter(s: string, n: nat) {
    forall k :: n <= k < |s| ==> IsWhitespace(s[k])
  }

  /** Concatenation is associative. */
  lemma AppendAssoc<T>(x: seq<T>, y: seq<T>, z: seq<T>)
    ensures x + (y + z) == x + y + z
  {
  }

  /** A prefix of a prefix is a prefix. */
  lemma PrefixOfPrefix(a: string, b: string, c: string)
    requires a <= b && b <= c
    ensures a <= c
  {
    assert forall k :: 0 <= k < |a| ==> a[k] == b[k] == c[k];
  }

  /** Appending keeps what was there and adds white space exactly when what is appended is blank. */
  lemma AppendBlankAfter(t: string, n: nat, x: string)
    requires n <= |t|
    ensures t <= t + x
    ensures BlankAfter(t + x, n) <==> BlankAfter(t, n) && IsBlank(x)
  {
    assert forall k :: 0 <= k < |t| ==> (t + x)[k] == t[k];
    assert forall k :: 0 <= k < |x| ==> (t + x)[|t| + k] == x[k];
  }

  /**
   * A string that extends one that is not blank has the same trim exactly
   * when everything past the shorter one is white space.
   */
  lemma TrimOfExtension(h: string, s: string)
    requires !IsBlank(h) && h <= s
    ensures Trim(s) == Trim(h) <==> BlankAfter(s, |h|)
  {
    var rest := s[|h|..];
    assert s == h + rest;
    TrimExtend(h, rest);
    assert forall k :: |h| <= k < |s| ==> s[k] == rest[k - |h|];
  }

  // ---------------------------------------------------------------- digits

  predicate IsDigit(c: char) { '0' <= c <= '9' }

  function DigitChar(d: nat): (c: char)
    requires d < 10
    ensures IsDigit(c)
  {
    ['0', '1', '2', '3', '4', '5', '6', '7', '8', '9'][d]
  }

  function DigitValue(c: char): (d: nat)
    requires IsDigit(c)
    ensures d < 10
  {
    (c as int - '0' as int) as nat
  }

  lemma DigitCharValue(d: nat)
    requires d < 10
    ensures DigitValue(DigitChar(d)) == d
  {
  }

  predicate AllDigits(s: string) {
    forall i :: 0 <= i < |s| ==> IsDigit(s[i])
  }

  /** The decimal digits of a natural number, most significant first, without leading zeros. */
  function NatToDigits(n: nat): (s: string)
    ensures s != [] && AllDigits(s)
    ensures |s| == 1 <==> n < 10
    ensures 1 < |s| ==> s[0] != '0'
  {
    if n < 10 then [DigitChar(n)] else NatToDigits(n / 10) + [DigitChar(n % 10)]
  }

  /** The number a string of decimal digits denotes. */
  function DigitsValue(s: string): (n: nat)
    requires AllDigits(s)
  {
    if s == [] then 0 else 10 * DigitsValue(s[..|s| - 1]) + DigitValue(s[|s| - 1])
  }

  /** Reading back the digits of n gives n. */
  lemma {:induction false} DigitsRoundTrip(n: nat)
    ensures DigitsValue(NatToDigits(n)) == n
  {
    var s := NatToDigits(n);
    if n < 10 {
      DigitCharValue(n);
      assert s[..0] == [];
    } else {
      DigitsRoundTrip(n / 10);
      DigitCharValue(n % 10);
      assert s[..|s| - 1] == NatToDigits(n / 10);
    }
  }

  /** `String(n)` for an integer n. */
  function IntToString(n: int): (s: string)
    ensures s != []
    ensures n >= 0 ==> AllDigits(s)
    ensures n < 0 ==> s[0] == '-' && AllDigits(s[1..])
  {
    if n < 0 then "-" + NatToDigits(-n) else NatToDigits(n)
  }

  /** Length of the longest prefix of s made of decimal digits. */
  function DigitRun(s: string): (n: nat)
    ensures n <= |s|
    ensures AllDigits(s[..n])
    ensures n < |s| ==> !IsDigit(s[n])
  {
    if s == [] || !IsDigit(s[0]) then 0
    else
      var n := 1 + DigitRun(s[1..]);
      assert s[..n] == [s[0]] + s[1..][..n - 1];
      n
  }

  /** A string made only of digits is one digit run. */
  lemma {:induction false} DigitRunAll(u: string)
    requires AllDigits(u)
    ensures DigitRun(u) == |u|
  {
    if u != [] {
      DigitRunAll(u[1..]);
    }
  }

  /** The value of the leading run of digits, or None when u does not start with a digit. */
  function ParseDigits(u: string): (r: Option<nat>)
    ensures r.None? <==> u == [] || !IsDigit(u[0])
  {
    var n := DigitRun(u);
    if n == 0 then None else Some(DigitsValue(u[..n]))
  }

  /**
   * `parseInt(s, 10)`: skip leading white space, read an optional sign and
   * then as many decimal digits as there are; without any digit the result
   * is NaN, here None.
   */
  function ParseInt(s: string): Option<int> {
    ParseSigned(s[TextStart(s)..])
  }

  /** The sign and digits part of `parseInt`, after the leading white space. */
  function ParseSigned(t: string): Option<int> {
    if t != [] && t[0] == '-' then
      match ParseDigits(t[1..])
      case Some(v) => Some(-(v as int))
      case None => None
    else if t != [] && t[0] == '+' then
      match ParseDigits(t[1..])
      case Some(v) => Some(v)
      case None => None
    else
      match ParseDigits(t)
      case Some(v) => Some(v)
      case None => None
  }

  /** The digits of m read back as m. */
  lemma ParseDigitsOf(m: nat)
    ensures ParseDigits(NatToDigits(m)) == Some(m)
  {
    var u := NatToDigits(m);
    DigitRunAll(u);
    assert u[..|u|] == u;
    DigitsRoundTrip(m);
  }

  /** `parseInt` reads back what `String` wrote. */
  lemma ParseIntOfString(n: int)
    ensures ParseInt(IntToString(n)) == Some(n)
  {
    var s := IntToString(n);
    assert !IsWhitespace(s[0]);
    assert s[TextStart(s)..] == s;
    ParseSignedOfString(n);
  }

  lemma ParseSignedOfString(n: int)
    ensures ParseSigned(IntToString(n)) == Some(n)
  {
    var s := IntToString(n);
    if n < 0 {
      assert s[1..] == NatToDigits(-n);
      ParseDigitsOf(-n);
    } else {
      ParseDigitsOf(n);
    }
  }

  /** Distinct integers are written differently. */
  lemma IntToStringInjective(a: int, b: int)
    requires IntToString(a) == IntToString(b)
    ensures a == b
  {
    ParseIntOfString(a);
    ParseIntOfString(b);
  }

  /** `s.padStart(2, '0')`. */
  function PadStart2(s: string): (r: string)
    ensures |r| == if |s| >= 2 then |s| else 2
    ensures r[|r| - |s|..] == s
    ensures forall i :: 0 <= i < |r| - |s| ==> r[i] == '0'
  {
    if |s| >= 2 then s else seq(2 - |s|, _ => '0') + s
  }

  /** Numbers below 100 are written with one digit below 10 and with two from 10 on. */
  lemma ShortDigits(n: nat)
    requires n < 100
    ensures |NatToDigits(n)| == if n < 10 then 1 else 2
  {
    if n >= 10 {
      assert n / 10 < 10;
    }
  }

  /** Numbers from 1000 to 9999 are written with four digits. */
  lemma FourDigits(n: nat)
    requires 1000 <= n <= 9999
    ensures |NatToDigits(n)| == 4
  {
    assert 100 <= n / 10 <= 999;
    assert 10 <= n / 10 / 10 <= 99;
    ShortDigits(n / 10 / 10);
  }

  /** `parseInt` reads back a number below 100 written by `String` and padded to two digits. */
  lemma ParseIntOfPadded(v: nat)
    requires v < 100
    ensures ParseInt(PadStart2(IntToString(v))) == Some(v)
  {
    ShortDigits(v);
    if v >= 10 {
      ParseIntOfString(v);
    } else {
      var s := PadStart2(IntToString(v));
      assert s == ['0', DigitChar(v)];
      assert TextStart(s) == 0;
      assert s[0..] == s;
      DigitRunAll(s);
      assert s[..2] == s;
      assert s[..1] == ['0'];
      assert DigitsValue(['0']) == 0 by { assert ['0'][..0] == []; }
      DigitCharValue(v);
    }
  }

  // ------------------------------------------------------------ searching

  /** `s.includes(t)`: t occurs in s at some position. */
  predicate Contains(s: string, t: string)
    decreases |s|
  {
    t <= s || (s != [] && Contains(s[1..], t))
  }

  /** A piece of a concatenation is contained in it. */
  lemma {:induction false} ContainsPiece(a: string, t: string, b: string)
    ensures Contains(a + t + b, t)
  {
    if a == [] {
      assert a + t + b == t + b;
    } else {
      ContainsPiece(a[1..], t, b);
      assert (a + t + b)[1..] == a[1..] + t + b;
    }
  }

  /** What a string contains, anything it begins with contains too. */
  lemma {:induction false} ContainsExtended(a: string, t: string, b: string)
    requires Contains(a, t)
    ensures Contains(a + b, t)
    decreases |a|
  {
    if t <= a {
      assert (a + b)[..|t|] == a[..|t|];
    } else {
      ContainsExtended(a[1..], t, b);
      assert (a + b)[1..] == a[1..] + b;
    }
  }

  /** What a string contains, anything it ends with contains too. */
  lemma {:induction false} ContainsPrepended(p: string, s: string, t: string)
    requires Contains(s, t)
    ensures Contains(p + s, t)
  {
    if p == [] {
      assert p + s == s;
    } else {
      ContainsPrepended(p[1..], s, t);
      assert (p + s)[1..] == p[1..] + s;
    }
  }

  /** `c.toLowerCase()` for the ASCII letters; every other character is kept. */
  function LowerChar(c: char): (r: char)
    ensures 'A' <= c <= 'Z' ==> r as int == c as int + 32
    ensures !('A' <= c <= 'Z') ==> r == c
  {
    if 'A' <= c <= 'Z' then (c as int + 32) as char else c
  }

  function ToLower(s: string): (r: string)
    ensures |r| == |s|
    ensures forall i :: 0 <= i < |s| ==> r[i] == LowerChar(s[i])
  {
    seq(|s|, i requires 0 <= i < |s| => LowerChar(s[i]))
  }

  /** Lower-casing is idempotent. */
  lemma ToLowerIdempotent(s: string)
    ensures ToLower(ToLower(s)) == ToLower(s)
  {
  }

  /** `parts.join(sep)`. */
  function Join(parts: seq<string>, sep: string): (r: string)
    ensures parts == [] ==> r == []
    ensures |parts| == 1 ==> r == parts[0]
  {
    if parts == [] then []
    else if |parts| == 1 then parts[0]
    else Join(parts[..|parts| - 1], sep) + sep + parts[|parts| - 1]
  }

  /** Every part of a join is contained in it. */
  lemma {:induction false} JoinHasPart(parts: seq<string>, sep: string, k: nat)
    requires k < |parts|
    ensures Contains(Join(parts, sep), parts[k])
  {
    var last := |parts| - 1;
    if k == last {
      if |parts| == 1 {
        ContainsPiece([], parts[k], []);
        assert [] + parts[k] + [] == parts[k];
      } else {
        ContainsPiece(Join(parts[..last], sep) + sep, parts[k], []);
        assert Join(parts[..last], sep) + sep + parts[k] + [] == Join(parts, sep);
      }
    } else {
      JoinHasPart(parts[..last], sep, k);
      ContainsExtended(Join(parts[..last], sep), parts[k], sep + parts[last]);
      assert Join(parts[..last], sep) + (sep + parts[last]) == Join(parts, sep);
    }
  }
}
