/** The JavaScript string primitives the application relies on, over `seq<char>`:
    decimal rendering of integers (`String(n)`, `n.toString()`), `parseInt(s, 10)`,
    `String.prototype.split` on one character, `trim`, and ASCII case mapping. */
module Text {
  import opened Opt

  // ---------------------------------------------------------------------------
  // Characters
  // ---------------------------------------------------------------------------

  predicate IsDigit(c: char) {
    '0' <= c <= '9'
  }

  function DigitValue(c: char): (d: nat)
    requires IsDigit(c)
    ensures d < 10
  {
    (c as int) - ('0' as int)
  }

  function DigitChar(d: nat): (c: char)
    requires d < 10
    ensures IsDigit(c) && DigitValue(c) == d
  {
    (('0' as int) + d) as char
  }

  /** The white space and line terminators JavaScript's `trim` and `parseInt`
      skip (the ASCII ones plus NBSP, BOM and the two Unicode line separators). */
  predicate IsSpace(c: char) {
    c == ' ' || c == '\t' || c == '\n' || c == '\r' || c == '\U{B}' || c == '\U{C}'
    || c == '\U{A0}' || c == '\U{FEFF}' || c == '\U{2028}' || c == '\U{2029}'
  }

  predicate IsAsciiUpper(c: char) {
    'A' <= c <= 'Z'
  }

  predicate IsAsciiLower(c: char) {
    'a' <= c <= 'z'
  }

  function UpperChar(c: char): (u: char)
    ensures !IsAsciiLower(u)
    ensures IsAsciiLower(c) ==> IsAsciiUpper(u) && (u as int) == (c as int) - 32
    ensures !IsAsciiLower(c) ==> u == c
  {
    if IsAsciiLower(c) then ((c as int) - 32) as char else c
  }

  function LowerChar(c: char): (l: char)
    ensures !IsAsciiUpper(l)
    ensures IsAsciiUpper(c) ==> IsAsciiLower(l) && (l as int) == (c as int) + 32
    ensures !IsAsciiUpper(c) ==> l == c
  {
    if IsAsciiUpper(c) then ((c as int) + 32) as char else c
  }

  /** `s.toUpperCase()`, restricted to the ASCII letters. */
  function ToUpper(s: string): (u: string)
    ensures |u| == |s|
    ensures forall i :: 0 <= i < |s| ==> u[i] == UpperChar(s[i])
  {
    if |s| == 0 then [] else [UpperChar(s[0])] + ToUpper(s[1..])
  }

  /** `s.toLowerCase()`, restricted to the ASCII letters. */
  function ToLower(s: string): (l: string)
    ensures |l| == |s|
    ensures forall i :: 0 <= i < |s| ==> l[i] == LowerChar(s[i])
  {
    if |s| == 0 then [] else [LowerChar(s[0])] + ToLower(s[1..])
  }

  predicate IsLowerCased(s: string) {
    forall i :: 0 <= i < |s| ==> !IsAsciiUpper(s[i])
  }

  // ---------------------------------------------------------------------------
  // Decimal rendering: String(n)
  // ---------------------------------------------------------------------------

  predicate AllDigits(s: string) {
    forall i :: 0 <= i < |s| ==> IsDigit(s[i])
  }

  /** The value of a string of decimal digits, most significant first. */
  function DigitsValue(s: string): nat
    requires AllDigits(s)
  {
    if |s| == 0 then 0 else DigitsValue(s[..|s| - 1]) * 10 + DigitValue(s[|s| - 1])
  }

  /** The shortest decimal rendering of a natural number. */
  function NatToString(n: nat): (s: string)
    ensures 1 <= |s|
    ensures AllDigits(s)
    ensures |s| > 1 ==> s[0] != '0'
    decreases n
  {
    if n < 10 then [DigitChar(n)] else NatToString(n / 10) + [DigitChar(n % 10)]
  }

  /** `s` is the canonical numeral of `n`: at least one digit, no leading zero
      unless the numeral is "0", and the digits' value is `n`. */
  predicate IsNumeral(s: string, n: nat) {
    1 <= |s| && AllDigits(s) && (|s| > 1 ==> s[0] != '0') && DigitsValue(s) == n
  }

  /** `s` is the canonical decimal spelling of the integer `n`: a minus sign
      exactly when `n` is negative, followed by the canonical numeral of `|n|`. */
  predicate IsDecimalOf(s: string, n: int) {
    if n < 0 then 2 <= |s| && s[0] == '-' && IsNumeral(s[1..], -n) else IsNumeral(s, n)
  }

  /** `String(n)` for an integer `n`: a minus sign for negatives, then the digits. */
  function IntToString(n: int): (s: string)
    ensures IsDecimalOf(s, n)
  {
    if n < 0 then
      var d := NatToString(-n);
      NatToStringValue(-n);
      assert ("-" + d)[1..] == d;
      "-" + d
    else
      NatToStringValue(n);
      NatToString(n)
  }

  lemma {:induction false} NatToStringValue(n: nat)
    ensures DigitsValue(NatToString(n)) == n
    decreases n
  {
    var s := NatToString(n);
    if n >= 10 {
      NatToStringValue(n / 10);
      assert s[..|s| - 1] == NatToString(n / 10);
    }
  }

  /** A numeral that does not start with '0' denotes a positive number. */
  lemma {:induction false} LeadingDigitPositive(s: string)
    requires 1 <= |s| && AllDigits(s) && s[0] != '0'
    ensures DigitsValue(s) >= 1
    decreases |s|
  {
    if |s| > 1 {
      assert s[..|s| - 1][0] == s[0];
      LeadingDigitPositive(s[..|s| - 1]);
    }
  }

  /** The canonical numeral of `n` is unique: it is the one `String(n)` renders. */
  lemma {:induction false} NumeralIsRendering(s: string, n: nat)
    requires IsNumeral(s, n)
    ensures s == NatToString(n)
    decreases |s|
  {
    if |s| > 1 {
      var p := s[..|s| - 1];
      assert p[0] == s[0];
      LeadingDigitPositive(p);
      assert n / 10 == DigitsValue(p) && n % 10 == DigitValue(s[|s| - 1]);
      NumeralIsRendering(p, n / 10);
      assert DigitChar(n % 10) == s[|s| - 1];
      assert s == p + [s[|s| - 1]];
    } else {
      assert DigitChar(n) == s[0];
    }
  }

  /** The canonical decimal spelling of an integer is unique. */
  lemma DecimalIsRendering(s: string, n: int)
    requires IsDecimalOf(s, n)
    ensures s == IntToString(n)
  {
    if n < 0 {
      NumeralIsRendering(s[1..], -n);
      assert s == "-" + s[1..];
    } else {
      NumeralIsRendering(s, n);
    }
  }

  /** Numbers below 100 render in at most two characters; below 1000 in three. */
  lemma {:induction false} NatToStringShort(n: nat)
    ensures n < 10 ==> |NatToString(n)| == 1
    ensures n < 100 ==> |NatToString(n)| <= 2
    ensures n < 1000 ==> |NatToString(n)| <= 3
  {
    if n >= 10 {
      NatToStringShort(n / 10);
    }
  }

  // ---------------------------------------------------------------------------
  // parseInt(s, 10)
  // ---------------------------------------------------------------------------

  /** The number of leading characters of `s` satisfying white space. */
  function SpacePrefix(s: string): (k: nat)
    ensures k <= |s|
    ensures forall i :: 0 <= i < k ==> IsSpace(s[i])
    ensures k < |s| ==> !IsSpace(s[k])
  {
    if |s| == 0 || !IsSpace(s[0]) then 0 else 1 + SpacePrefix(s[1..])
  }

  /** The number of leading decimal digits of `s`. */
  function DigitPrefix(s: string): (k: nat)
    ensures k <= |s|
    ensures AllDigits(s[..k])
    ensures k < |s| ==> !IsDigit(s[k])
  {
    if |s| == 0 || !IsDigit(s[0]) then 0
    else
      var k := 1 + DigitPrefix(s[1..]);
      assert s[..k] == [s[0]] + s[1..][..k - 1];
      k
  }

  /** The unsigned part of `parseInt`: the longest run of leading digits, or
      nothing when there is none (JavaScript's NaN). */
  function ParseDigits(s: string): (r: Option<nat>)
    ensures r.None? <==> (|s| == 0 || !IsDigit(s[0]))
  {
    var k := DigitPrefix(s);
    if k == 0 then None else Some(DigitsValue(s[..k]))
  }

  /** `parseInt(s, 10)`: leading white space is skipped, one optional sign is
      read, then the longest run of decimal digits; the rest of the text is
      ignored. No digits gives NaN, here `None`. */
  function ParseInt(s: string): (r: Option<int>)
    ensures r.None? <==> (var t := s[SpacePrefix(s)..];
                         var u := if |t| > 0 && (t[0] == '-' || t[0] == '+') then t[1..] else t;
                         |u| == 0 || !IsDigit(u[0]))
  {
    var t := s[SpacePrefix(s)..];
    if |t| > 0 && t[0] == '-' then
      match ParseDigits(t[1..])
      case None => None
      case Some(v) => var n: int := v; Some(-n)
    else if |t| > 0 && t[0] == '+' then
      match ParseDigits(t[1..])
      case None => None
      case Some(v) => Some(v)
    else
      match ParseDigits(t)
      case None => None
      case Some(v) => Some(v)
  }

  lemma DigitPrefixAll(s: string)
    requires AllDigits(s)
    ensures DigitPrefix(s) == |s|
  {
    if |s| > 0 {
      DigitPrefixAll(s[1..]);
    }
  }

  /** The digits of a rendered natural number read back as that number. */
  lemma ParseDigitsOfNumeral(d: string, m: nat)
    requires IsNumeral(d, m)
    ensures ParseDigits(d) == Some(m)
  {
    DigitPrefixAll(d);
    assert d[..|d|] == d;
  }

  /** `parseInt` reads a canonical decimal spelling back as its number. */
  lemma ParseIntOfDecimal(s: string, n: int)
    requires IsDecimalOf(s, n)
    ensures ParseInt(s) == Some(n)
  {
    assert !IsSpace(s[0]);
    assert SpacePrefix(s) == 0;
    assert s[0..] == s;
    if n < 0 {
      ParseDigitsOfNumeral(s[1..], -n);
    } else {
      ParseDigitsOfNumeral(s, n);
    }
  }

  /** `parseInt` reads back exactly the number `String` rendered. */
  lemma ParseIntRoundTrip(n: int)
    ensures ParseInt(IntToString(n)) == Some(n)
  {
    ParseIntOfDecimal(IntToString(n), n);
  }

  // ---------------------------------------------------------------------------
  // String.prototype.split on a one-character separator
  // ---------------------------------------------------------------------------

  /** The index of the first `c` in `s`, or -1: `s.indexOf(c)`. */
  function IndexOf(s: string, c: char): (i: int)
    ensures -1 <= i < |s|
    ensures i >= 0 ==> s[i] == c && c !in s[..i]
    ensures i == -1 <==> c !in s
  {
    if |s| == 0 then -1
    else if s[0] == c then 0
    else
      var j := IndexOf(s[1..], c);
      if j < 0 then -1
      else
        assert s[..j + 1] == [s[0]] + s[1..][..j];
        j + 1
  }

  /** `s.split(sep)`: the maximal separator-free pieces between occurrences of
      `sep`; always at least one piece, possibly empty ones. */
  function Split(s: string, sep: char): (parts: seq<string>)
    ensures |parts| >= 1
    ensures forall k :: 0 <= k < |parts| ==> sep !in parts[k]
    decreases |s|
  {
    var i := IndexOf(s, sep);
    if i < 0 then [s] else [s[..i]] + Split(s[i + 1..], sep)
  }

  /** `parts.join(sep)`. */
  function Join(parts: seq<string>, sep: char): string
    requires |parts| >= 1
  {
    if |parts| == 1 then parts[0] else parts[0] + [sep] + Join(parts[1..], sep)
  }

  /** Joining the pieces of a split gives back the original text. */
  lemma {:induction false} JoinSplit(s: string, sep: char)
    ensures Join(Split(s, sep), sep) == s
    decreases |s|
  {
    var i := IndexOf(s, sep);
    if i >= 0 {
      var rest := s[i + 1..];
      var tail := Split(rest, sep);
      assert Split(s, sep) == [s[..i]] + tail;
      JoinCons(s[..i], tail, sep);
      JoinSplit(rest, sep);
      assert Join(Split(s, sep), sep) == s[..i] + [sep] + rest;
      Reassemble(s, i);
    }
  }

  lemma Reassemble(s: string, i: nat)
    requires i < |s|
    ensures s == s[..i] + [s[i]] + s[i + 1..]
  {
  }

  lemma JoinCons(head: string, tail: seq<string>, sep: char)
    requires |tail| >= 1
    ensures Join([head] + tail, sep) == head + [sep] + Join(tail, sep)
  {
    assert ([head] + tail)[1..] == tail;
  }

  /** Splitting a join of separator-free pieces gives back the pieces. */
  lemma {:induction false} SplitJoin(parts: seq<string>, sep: char)
    requires |parts| >= 1
    requires forall k :: 0 <= k < |parts| ==> sep !in parts[k]
    ensures Split(Join(parts, sep), sep) == parts
  {
    var s := Join(parts, sep);
    if |parts| == 1 {
      assert IndexOf(s, sep) == -1;
    } else {
      var rest := Join(parts[1..], sep);
      assert s == parts[0] + [sep] + rest;
      IndexOfAfterFree(parts[0], sep, rest);
      assert s[..|parts[0]|] == parts[0];
      assert s[|parts[0]| + 1..] == rest;
      SplitJoin(parts[1..], sep);
    }
  }

  lemma IndexOfAfterFree(a: string, sep: char, b: string)
    requires sep !in a
    ensures IndexOf(a + [sep] + b, sep) == |a|
  {
    var s := a + [sep] + b;
    assert s[|a|] == sep;
    assert s[..|a|] == a;
  }

  /** The second piece of a split, for text that starts with `prefix` followed by
      the separator, where `prefix` itself holds no separator: the run of
      separator-free characters right after it. */
  lemma SecondPiece(s: string, prefix: string, sep: char)
    requires sep !in prefix
    requires |prefix| < |s| && s[..|prefix|] == prefix && s[|prefix|] == sep
    ensures |Split(s, sep)| >= 2
    ensures Split(s, sep)[0] == prefix
    ensures Split(s, sep)[1] == Split(s[|prefix| + 1..], sep)[0]
  {
    assert s == prefix + [sep] + s[|prefix| + 1..];
    IndexOfAfterFree(prefix, sep, s[|prefix| + 1..]);
  }

  /** The first piece of a split is the text up to the first separator. */
  lemma FirstPiece(s: string, sep: char)
    ensures var i := IndexOf(s, sep);
            Split(s, sep)[0] == (if i < 0 then s else s[..i])
  {
  }

  // ---------------------------------------------------------------------------
  // String.prototype.trim
  // ---------------------------------------------------------------------------

  /** The number of trailing white-space characters of `s`. */
  function SpaceSuffix(s: string): (k: nat)
    ensures k <= |s|
    ensures forall i :: |s| - k <= i < |s| ==> IsSpace(s[i])
    ensures k < |s| ==> !IsSpace(s[|s| - k - 1])
  {
    if |s| == 0 || !IsSpace(s[|s| - 1]) then 0 else 1 + SpaceSuffix(s[..|s| - 1])
  }

  predicate IsTrimmed(s: string) {
    |s| == 0 || (!IsSpace(s[0]) && !IsSpace(s[|s| - 1]))
  }

  /** `s.trim()`: the text with leading and trailing white space removed. */
  function Trim(s: string): (t: string)
    ensures IsTrimmed(t)
    ensures exists i, j :: 0 <= i <= j <= |s| && t == s[i..j]
                          && (forall k :: 0 <= k < i ==> IsSpace(s[k]))
                          && (forall k :: j <= k < |s| ==> IsSpace(s[k]))
    ensures forall i :: 0 <= i < |s| && !IsSpace(s[i]) ==> |t| > 0
  {
    var t := s[SpacePrefix(s)..];
    var r := t[..|t| - SpaceSuffix(t)];
    var i := SpacePrefix(s);
    assert r == s[i..i + |r|];
    assert forall k :: i + |r| <= k < |s| ==> IsSpace(s[k]) by {
      forall k | i + |r| <= k < |s| ensures IsSpace(s[k]) {
        assert s[k] == t[k - i];
      }
    }
    forall i | 0 <= i < |s| && !IsSpace(s[i]) ensures |r| > 0 {
      assert i >= SpacePrefix(s);
      assert t[i - SpacePrefix(s)] == s[i];
    }
    r
  }

  /** Trimming keeps exactly the trimmed middle `s[a..b]` of a text whose
      borders are white space. */
  lemma TrimKeepsMiddle(s: string, a: nat, b: nat)
    requires a <= b <= |s|
    requires forall k :: 0 <= k < a ==> IsSpace(s[k])
    requires forall k :: b <= k < |s| ==> IsSpace(s[k])
    requires IsTrimmed(s[a..b])
    ensures Trim(s) == s[a..b]
  {
    var r := Trim(s);
    var i, j :| 0 <= i <= j <= |s| && r == s[i..j]
                && (forall k :: 0 <= k < i ==> IsSpace(s[k]))
                && (forall k :: j <= k < |s| ==> IsSpace(s[k]));
    if a < b {
      assert s[a..b][0] == s[a] && s[a..b][b - a - 1] == s[b - 1];
      assert !IsSpace(s[a]) && !IsSpace(s[b - 1]);
      assert i <= a && b <= j;
      assert r[0] == s[i] && r[|r| - 1] == s[j - 1];
      assert !IsSpace(s[i]) && !IsSpace(s[j - 1]);
      assert i == a && j == b;
    } else {
      assert forall k :: 0 <= k < |s| ==> IsSpace(s[k]);
    }
  }

  /** Trimming removes exactly the white-space padding around a trimmed text. */
  lemma TrimOfPadded(pre: string, t: string, post: string)
    requires forall k :: 0 <= k < |pre| ==> IsSpace(pre[k])
    requires forall k :: 0 <= k < |post| ==> IsSpace(post[k])
    requires IsTrimmed(t)
    ensures Trim(pre + t + post) == t
  {
    var s := pre + t + post;
    var a, b := |pre|, |pre| + |t|;
    assert s[a..b] == t;
    assert forall k :: 0 <= k < a ==> s[k] == pre[k];
    assert forall k :: b <= k < |s| ==> s[k] == post[k - b];
    TrimKeepsMiddle(s, a, b);
  }

  lemma TrimIdempotent(s: string)
    ensures Trim(Trim(s)) == Trim(s)
  {
    var t := Trim(s);
    if |t| > 0 {
      assert SpacePrefix(t) == 0;
      assert t[0..] == t;
      assert SpaceSuffix(t) == 0;
      assert t[..|t|] == t;
    }
  }

  lemma LowerIdempotent(s: string)
    ensures ToLower(ToLower(s)) == ToLower(s)
    ensures IsLowerCased(ToLower(s))
  {
  }

  /** Trimming `l` cuts white space of `s` when the two texts have white space
      at the same positions. */
  lemma TrimBordersCarry(s: string, l: string)
    requires |s| == |l|
    requires forall k :: 0 <= k < |s| ==> (IsSpace(l[k]) <==> IsSpace(s[k]))
    ensures exists i, j :: 0 <= i <= j <= |s| && Trim(l) == l[i..j]
                          && (forall k :: 0 <= k < i ==> IsSpace(s[k]))
                          && (forall k :: j <= k < |s| ==> IsSpace(s[k]))
  {
    var i, j :| 0 <= i <= j <= |l| && Trim(l) == l[i..j]
                && (forall k :: 0 <= k < i ==> IsSpace(l[k]))
                && (forall k :: j <= k < |l| ==> IsSpace(l[k]));
    assert forall k :: 0 <= k < i ==> IsSpace(s[k]);
    assert forall k :: j <= k < |s| ==> IsSpace(s[k]);
  }

  lemma TrimKeepsLowerCased(l: string)
    requires IsLowerCased(l)
    ensures IsLowerCased(Trim(l))
  {
    var i, j :| 0 <= i <= j <= |l| && Trim(l) == l[i..j];
    assert forall k :: 0 <= k < j - i ==> l[i..j][k] == l[i + k];
  }

  lemma LowerAppend(a: string, b: string)
    ensures ToLower(a + b) == ToLower(a) + ToLower(b)
  {
    assert forall i :: 0 <= i < |a| + |b| ==> (a + b)[i] == if i < |a| then a[i] else b[i - |a|];
  }

  lemma LowerKeepsTrimmed(s: string)
    requires IsTrimmed(s)
    ensures IsTrimmed(ToLower(s))
  {
    LowerKeepsSpace(s);
  }

  /** Lower-casing never moves white space, so it commutes with trimming. */
  lemma {:induction false} LowerKeepsSpace(s: string)
    ensures forall i :: 0 <= i < |s| ==> (IsSpace(ToLower(s)[i]) <==> IsSpace(s[i]))
  {
  }
}
