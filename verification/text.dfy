/** The .NET string primitives the tool relies on: `char.IsWhiteSpace`, `Trim`,
    `string.IsNullOrWhiteSpace`, `string.Join`, decimal rendering of integers and `int.TryParse`. */
module Text {
  import opened Prelude

  /** `char.IsWhiteSpace`: the Unicode space, line and paragraph separators plus the C0 controls
      U+0009..U+000D and U+0085. */
  predicate IsWhiteSpace(c: char) {
    || ('\U{0009}' <= c <= '\U{000D}')
    || c == ' ' || c == '\U{0085}' || c == '\U{00A0}' || c == '\U{1680}'
    || ('\U{2000}' <= c <= '\U{200A}')
    || c == '\U{2028}' || c == '\U{2029}' || c == '\U{202F}' || c == '\U{205F}' || c == '\U{3000}'
  }

  /** The white space `int.TryParse` skips around a number (NumberStyles.Integer): only
      U+0009..U+000D and the ASCII space. */
  predicate IsNumberWhite(c: char) {
    c == ' ' || ('\U{0009}' <= c <= '\U{000D}')
  }

  /** Every character is white space; this is `string.IsNullOrWhiteSpace` on a non-null string. */
  predicate IsBlank(s: string) {
    forall i :: 0 <= i < |s| ==> IsWhiteSpace(s[i])
  }

  /** `string.IsNullOrWhiteSpace`, where `None` stands for a null reference. */
  predicate IsNullOrWhiteSpace(s: Option<string>) {
    s.None? || IsBlank(s.value)
  }

  /** The index of the first character at or after `i` that `white` rejects (or `|s|`). */
  function SkipStart(s: string, white: char -> bool, i: nat): (r: nat)
    requires i <= |s|
    ensures i <= r <= |s|
    ensures forall k :: i <= k < r ==> white(s[k])
    ensures r < |s| ==> !white(s[r])
    decreases |s| - i
  {
    if i < |s| && white(s[i]) then SkipStart(s, white, i + 1) else i
  }

  /** The end of `s[..j]` once the trailing characters `white` accepts are dropped, never below `lo`. */
  function SkipEnd(s: string, white: char -> bool, lo: nat, j: nat): (r: nat)
    requires lo <= j <= |s|
    ensures lo <= r <= j
    ensures forall k :: r <= k < j ==> white(s[k])
    ensures r > lo ==> !white(s[r - 1])
    decreases j
  {
    if j > lo && white(s[j - 1]) then SkipEnd(s, white, lo, j - 1) else j
  }

  /** Both ends trimmed: the slice between the first and the last character `white` rejects. */
  function TrimBy(s: string, white: char -> bool): (r: string)
    ensures |r| <= |s|
    ensures |r| > 0 ==> !white(r[0]) && !white(r[|r| - 1])
    ensures |r| == 0 <==> forall k :: 0 <= k < |s| ==> white(s[k])
    ensures |s| > 0 && !white(s[0]) && !white(s[|s| - 1]) ==> r == s
  {
    var lo := SkipStart(s, white, 0);
    var hi := SkipEnd(s, white, lo, |s|);
    s[lo..hi]
  }

  /** `string.Trim()`. */
  function Trim(s: string): (r: string)
    ensures |r| <= |s|
    ensures |r| > 0 ==> !IsWhiteSpace(r[0]) && !IsWhiteSpace(r[|r| - 1])
    ensures IsBlank(s) <==> r == ""
  {
    TrimBy(s, IsWhiteSpace)
  }

  /** Trimming a second time changes nothing. */
  lemma TrimIdempotent(s: string)
    ensures Trim(Trim(s)) == Trim(s)
  {
  }

  /** `string.Join(sep, parts)`. */
  function Join(sep: string, parts: seq<string>): (r: string)
    ensures |parts| == 0 ==> r == ""
    ensures |parts| == 1 ==> r == parts[0]
  {
    if |parts| == 0 then ""
    else if |parts| == 1 then parts[0]
    else parts[0] + sep + Join(sep, parts[1..])
  }

  /** One step of `Join`: the first part, the separator, then the rest joined. */
  lemma JoinCons(sep: string, parts: seq<string>)
    requires |parts| > 1
    ensures Join(sep, parts) == parts[0] + sep + Join(sep, parts[1..])
  {
  }

  /** The index of the first `c` in `s`. */
  function IndexOf(s: string, c: char): (r: nat)
    requires c in s
    ensures r < |s| && s[r] == c && c !in s[..r]
  {
    if s[0] == c then 0 else 1 + IndexOf(s[1..], c)
  }

  /** `s.Split(c)`: the pieces between the occurrences of `c`; there is always at least one. */
  function Split(s: string, c: char): (r: seq<string>)
    ensures |r| >= 1
    decreases |s|
  {
    if c in s then
      var i := IndexOf(s, c);
      [s[..i]] + Split(s[i + 1..], c)
    else [s]
  }

  /** The first separator in `p + [c] + rest` is the one right after `p`, when `p` has none. */
  lemma IndexOfAfterPrefix(p: string, c: char, rest: string)
    requires c !in p
    ensures c in p + [c] + rest && IndexOf(p + [c] + rest, c) == |p|
  {
    var s := p + [c] + rest;
    assert s[|p|] == c;
    assert s[..|p|] == p;
    var i := IndexOf(s, c);
    assert forall k :: 0 <= k < |p| ==> s[k] == p[k];
  }

  /** Splitting `p + [c] + rest`, when `p` has no `c`, yields `p` and then the pieces of `rest`. */
  lemma SplitAtFirst(p: string, c: char, rest: string)
    requires c !in p
    ensures Split(p + [c] + rest, c) == [p] + Split(rest, c)
  {
    var s := p + [c] + rest;
    IndexOfAfterPrefix(p, c, rest);
    assert s[..|p|] == p;
    assert s[|p| + 1..] == rest;
  }

  /** Joining pieces that do not contain the separator character and splitting the result on it
      gives the pieces back. */
  lemma {:induction false} SplitJoin(parts: seq<string>, c: char)
    requires |parts| >= 1
    requires forall i :: 0 <= i < |parts| ==> c !in parts[i]
    ensures Split(Join([c], parts), c) == parts
  {
    if |parts| > 1 {
      var rest := Join([c], parts[1..]);
      JoinCons([c], parts);
      IndexOfAfterPrefix(parts[0], c, rest);
      SplitJoin(parts[1..], c);
      SplitAtFirst(parts[0], c, rest);
      assert parts == [parts[0]] + parts[1..];
    }
  }

  predicate IsDigit(c: char) {
    '0' <= c <= '9'
  }

  predicate AllDigits(s: string) {
    forall i :: 0 <= i < |s| ==> IsDigit(s[i])
  }

  function DigitChar(d: nat): (c: char)
    requires d < 10
    ensures IsDigit(c) && c as int - '0' as int == d
  {
    (d + '0' as int) as char
  }

  /** Decimal rendering of a natural number without leading zeros (`long.ToString()`). */
  function NatToString(n: nat): (r: string)
    ensures |r| > 0 && AllDigits(r)
    ensures r[0] == '0' ==> n == 0
    decreases n
  {
    if n < 10 then [DigitChar(n)] else NatToString(n / 10) + [DigitChar(n % 10)]
  }

  /** `long.ToString()` in the invariant culture. */
  function IntToString(i: int): (r: string)
    ensures |r| > 0
    ensures i < 0 <==> r[0] == '-'
  {
    if i < 0 then "-" + NatToString(-i) else NatToString(i)
  }

  /** The value of a string of decimal digits, most significant first. */
  function DigitsValue(s: string): nat
    requires AllDigits(s)
  {
    if |s| == 0 then 0 else DigitsValue(s[..|s| - 1]) * 10 + (s[|s| - 1] as int - '0' as int)
  }

  lemma {:induction false} DigitsValueOfNatToString(n: nat)
    ensures DigitsValue(NatToString(n)) == n
    decreases n
  {
    if n >= 10 {
      var s := NatToString(n);
      assert s[..|s| - 1] == NatToString(n / 10);
      DigitsValueOfNatToString(n / 10);
    }
  }

  /** A non-empty run of decimal digits and nothing else. */
  function ParseNat(s: string): (r: Option<nat>)
    ensures r.Some? <==> |s| > 0 && AllDigits(s)
  {
    if |s| > 0 && AllDigits(s) then Some(DigitsValue(s)) else None
  }

  /** Rendering a natural number and reading it back gives the number again. */
  lemma ParseNatRoundTrip(n: nat)
    ensures ParseNat(NatToString(n)) == Some(n)
  {
    DigitsValueOfNatToString(n);
  }

  /** `int.TryParse` with NumberStyles.Integer in the invariant culture: optional surrounding
      number white space, an optional sign, at least one digit, and a value that fits an `int`.
      A null string does not parse. */
  function TryParseInt(text: Option<string>): (r: Option<int>)
    ensures r.Some? ==> Int32Min <= r.value <= Int32Max
    ensures text.None? ==> r.None?
  {
    match text
    case None => None
    case Some(s) =>
      var t := TrimBy(s, IsNumberWhite);
      var negative := |t| > 0 && t[0] == '-';
      var digits := if |t| > 0 && (t[0] == '-' || t[0] == '+') then t[1..] else t;
      match ParseNat(digits)
      case None => None
      case Some(n) =>
        var v: int := if negative then -(n as int) else n;
        if Int32Min <= v <= Int32Max then Some(v) else None
  }

  /** The decimal rendering of any `int`-sized natural number parses back to it. */
  lemma TryParseIntOfNatToString(n: nat)
    requires n <= Int32Max
    ensures TryParseInt(Some(NatToString(n))) == Some(n)
  {
    var s := NatToString(n);
    ParseNatRoundTrip(n);
    assert !IsNumberWhite(s[0]) && !IsNumberWhite(s[|s| - 1]);
  }
}
