/** The pieces of Python's string handling that the short-date parser relies
    on: `str.strip()`, `str.split(sep)` for a one-character separator, and
    `int(text)` in base 10. */
module Text {
  import opened Results

  /** `str.isspace()` for one character: the ASCII whitespace characters,
      the four information separators and the Unicode space characters. */
  predicate IsSpace(c: char) {
    || c == ' ' || ('\t' <= c <= '\r') || ('\U{1C}' <= c <= '\U{1F}')
    || c == '\U{85}' || c == '\U{A0}' || c == '\U{1680}'
    || ('\U{2000}' <= c <= '\U{200A}') || c == '\U{2028}' || c == '\U{2029}'
    || c == '\U{202F}' || c == '\U{205F}' || c == '\U{3000}'
  }

  /** s without its leading whitespace. */
  function TrimLeft(s: string): string {
    if s != [] && IsSpace(s[0]) then TrimLeft(s[1..]) else s
  }

  /** s without its trailing whitespace. */
  function TrimRight(s: string): string {
    if s != [] && IsSpace(s[|s| - 1]) then TrimRight(s[..|s| - 1]) else s
  }

  /** `s.strip()`. */
  function Strip(s: string): string {
    TrimRight(TrimLeft(s))
  }

  /** TrimLeft cuts off a prefix of whitespace and stops at the first other character. */
  lemma {:induction false} TrimLeftMeaning(s: string)
    ensures |TrimLeft(s)| <= |s| && TrimLeft(s) == s[|s| - |TrimLeft(s)|..]
    ensures forall i | 0 <= i < |s| - |TrimLeft(s)| :: IsSpace(s[i])
    ensures TrimLeft(s) != [] ==> !IsSpace(TrimLeft(s)[0])
    decreases |s|
  {
    if s != [] && IsSpace(s[0]) {
      TrimLeftMeaning(s[1..]);
      assert forall i | 1 <= i < |s| - |TrimLeft(s)| :: s[i] == s[1..][i - 1];
    }
  }

  /** TrimRight cuts off a suffix of whitespace and stops at the last other character. */
  lemma {:induction false} TrimRightMeaning(s: string)
    ensures |TrimRight(s)| <= |s| && TrimRight(s) == s[..|TrimRight(s)|]
    ensures forall i | |TrimRight(s)| <= i < |s| :: IsSpace(s[i])
    ensures TrimRight(s) != [] ==> !IsSpace(TrimRight(s)[|TrimRight(s)| - 1])
    decreases |s|
  {
    if s != [] && IsSpace(s[|s| - 1]) {
      TrimRightMeaning(s[..|s| - 1]);
      assert forall i | |TrimRight(s)| <= i < |s| - 1 :: s[i] == s[..|s| - 1][i];
    }
  }

  /** Strip removes exactly the whitespace at both ends of s: what remains is
      a slice of s, everything cut off is whitespace, and the slice neither
      starts nor ends with whitespace. */
  lemma StripMeaning(s: string)
    ensures exists i, j | 0 <= i <= j <= |s| ::
      && Strip(s) == s[i..j]
      && (forall k | 0 <= k < i :: IsSpace(s[k]))
      && (forall k | j <= k < |s| :: IsSpace(s[k]))
    ensures Strip(s) != [] ==> !IsSpace(Strip(s)[0]) && !IsSpace(Strip(s)[|Strip(s)| - 1])
  {
    var t := TrimLeft(s);
    TrimLeftMeaning(s);
    TrimRightMeaning(t);
    var i := |s| - |t|;
    var j := i + |Strip(s)|;
    assert Strip(s) == s[i..j];
    assert forall k | j <= k < |s| :: s[k] == t[k - i];
  }

  /** Text without whitespace at its ends is left as it is. */
  lemma StripUnchanged(s: string)
    requires s != [] ==> !IsSpace(s[0]) && !IsSpace(s[|s| - 1])
    ensures Strip(s) == s
  {
  }

  /** The position of the first occurrence of c in s. */
  function IndexOf(s: string, c: char): (i: nat)
    requires c in s
    ensures i < |s| && s[i] == c && c !in s[..i]
  {
    if s[0] == c then 0 else 1 + IndexOf(s[1..], c)
  }

  /** `sep.join(parts)`. */
  function Join(parts: seq<string>, sep: char): string {
    if parts == [] then ""
    else if |parts| == 1 then parts[0]
    else parts[0] + [sep] + Join(parts[1..], sep)
  }

  /** `s.split(sep)`: the pieces between the occurrences of sep, at least one. */
  function Split(s: string, sep: char): (r: seq<string>)
    ensures |r| >= 1
    ensures forall i | 0 <= i < |r| :: sep !in r[i]
    decreases |s|
  {
    if sep !in s then [s]
    else
      var i := IndexOf(s, sep);
      [s[..i]] + Split(s[i + 1..], sep)
  }

  /** Joining the pieces with the separator gives back the text. */
  lemma {:induction false} JoinSplit(s: string, sep: char)
    ensures Join(Split(s, sep), sep) == s
    decreases |s|
  {
    if sep in s {
      var i := IndexOf(s, sep);
      var rest := Split(s[i + 1..], sep);
      JoinSplit(s[i + 1..], sep);
      assert s == s[..i] + [sep] + s[i + 1..];
      assert ([s[..i]] + rest)[1..] == rest;
    }
  }

  /** No piece contains the separator. */
  predicate Separated(parts: seq<string>, sep: char) {
    forall i | 0 <= i < |parts| :: sep !in parts[i]
  }

  lemma SeparatedAppend(a: seq<string>, b: seq<string>, sep: char)
    requires Separated(a, sep) && Separated(b, sep)
    ensures Separated(a + b, sep)
  {
    forall i | 0 <= i < |a + b| ensures sep !in (a + b)[i] {
      if i >= |a| {
        assert (a + b)[i] == b[i - |a|];
      }
    }
  }

  /** Split undoes Join: pieces that do not contain the separator come back
      unchanged, so Split is the only such decomposition of its input. */
  lemma {:induction false} SplitJoin(parts: seq<string>, sep: char)
    requires |parts| >= 1 && Separated(parts, sep)
    ensures Split(Join(parts, sep), sep) == parts
    decreases |parts|
  {
    if |parts| > 1 {
      var rest := parts[1..];
      var s := Join(parts, sep);
      assert s == parts[0] + [sep] + Join(rest, sep);
      assert sep in s by {
        assert s[|parts[0]|] == sep;
      }
      IndexOfGlued(parts[0], Join(rest, sep), sep);
      var i := IndexOf(s, sep);
      assert s[..i] == parts[0];
      assert s[i + 1..] == Join(rest, sep);
      SplitJoin(rest, sep);
    } else {
      assert Join(parts, sep) == parts[0];
    }
  }

  /** The first separator in a + [sep] + b is the glued one when a has none. */
  lemma {:induction false} IndexOfGlued(a: string, b: string, sep: char)
    requires sep !in a
    ensures IndexOf(a + [sep] + b, sep) == |a|
    decreases |a|
  {
    var s := a + [sep] + b;
    if a != [] {
      assert s[0] == a[0] != sep;
      assert s[1..] == a[1..] + [sep] + b;
      IndexOfGlued(a[1..], b, sep);
    }
  }

  lemma {:induction false} JoinAppend(a: seq<string>, b: seq<string>, sep: char)
    requires |a| >= 1 && |b| >= 1
    ensures Join(a + b, sep) == Join(a, sep) + [sep] + Join(b, sep)
    decreases |a|
  {
    if |a| == 1 {
      assert (a + b)[1..] == b;
    } else {
      assert (a + b)[1..] == a[1..] + b;
      JoinAppend(a[1..], b, sep);
    }
  }

  /** Splitting at a separator the text was glued with splits each side on its own. */
  lemma SplitAppend(a: string, b: string, sep: char)
    ensures Split(a + [sep] + b, sep) == Split(a, sep) + Split(b, sep)
  {
    var pa, pb := Split(a, sep), Split(b, sep);
    SeparatedAppend(pa, pb, sep);
    assert Join(pa + pb, sep) == a + [sep] + b by {
      JoinSplit(a, sep);
      JoinSplit(b, sep);
      JoinAppend(pa, pb, sep);
    }
    SplitJoin(pa + pb, sep);
  }

  lemma SplitTwo(a: string, b: string, sep: char)
    requires sep !in a && sep !in b
    ensures Split(a + [sep] + b, sep) == [a, b]
  {
    SplitAppend(a, b, sep);
  }

  lemma SplitThree(a: string, b: string, c: string, sep: char)
    requires sep !in a && sep !in b && sep !in c
    ensures Split(a + [sep] + b + [sep] + c, sep) == [a, b, c]
  {
    var t := b + [sep] + c;
    assert Split(t, sep) == [b, c] by {
      SplitTwo(b, c, sep);
    }
    assert Split(a + [sep] + t, sep) == [a, b, c] by {
      SplitAppend(a, t, sep);
      assert Split(a, sep) == [a];
    }
    assert a + [sep] + b + [sep] + c == a + [sep] + t;
  }

  // ---------------------------------------------------------------------
  // int(text), base 10

  predicate IsDigit(c: char) {
    '0' <= c <= '9'
  }

  function DigitValue(c: char): nat
    requires IsDigit(c)
  {
    c as int - '0' as int
  }

  function DigitChar(n: nat): (c: char)
    requires n < 10
    ensures IsDigit(c) && DigitValue(c) == n
  {
    ('0' as int + n) as char
  }

  /** Decimal digits with single underscores between them, the body of an
      integer that `int()` accepts. */
  predicate IsNumeral(s: string) {
    && |s| > 0 && IsDigit(s[0]) && IsDigit(s[|s| - 1])
    && (forall i | 0 <= i < |s| :: IsDigit(s[i]) || s[i] == '_')
    && (forall i | 0 <= i < |s| - 1 :: s[i] == '_' ==> s[i + 1] != '_')
  }

  function WithoutUnderscores(s: string): (r: string)
    ensures forall c | c in r :: c in s && c != '_'
  {
    if s == [] then [] else (if s[0] == '_' then [] else [s[0]]) + WithoutUnderscores(s[1..])
  }

  /** The number that a string of digits denotes. */
  function DigitsValue(s: string): nat
    requires forall c | c in s :: IsDigit(c)
  {
    if s == [] then 0 else DigitsValue(s[..|s| - 1]) * 10 + DigitValue(s[|s| - 1])
  }

  /** The whitespace `int()` skips around a numeral: that of `str.isspace()`
      except the four information separators U+001C..U+001F. CPython turns
      every non-ASCII space into a plain space first and then skips only the
      ASCII whitespace characters, so a separator stays in the text and is
      rejected. */
  predicate IsIntSpace(c: char) {
    IsSpace(c) && !('\U{1C}' <= c <= '\U{1F}')
  }

  function TrimIntLeft(s: string): string {
    if s != [] && IsIntSpace(s[0]) then TrimIntLeft(s[1..]) else s
  }

  function TrimIntRight(s: string): string {
    if s != [] && IsIntSpace(s[|s| - 1]) then TrimIntRight(s[..|s| - 1]) else s
  }

  /** What `int()` strips from both ends of its argument. */
  function IntStrip(s: string): string {
    TrimIntRight(TrimIntLeft(s))
  }

  /** Text that neither starts nor ends with such whitespace is left as it is. */
  lemma IntStripUnchanged(s: string)
    requires s != [] ==> !IsIntSpace(s[0]) && !IsIntSpace(s[|s| - 1])
    ensures IntStrip(s) == s
  {
  }

  /** CPython's default limit on the decimal digits of a conversion between
      `int` and `str` (`sys.get_int_max_str_digits()`). Leading zeros count
      toward it, underscores do not; past it both `int()` and `str()` raise
      `ValueError`. */
  const MaxStrDigits: nat := 4300

  /** `int(s)`: surrounding whitespace, an optional sign, then a numeral of
      at most MaxStrDigits digits. */
  function ParseInt(s: string): Option<int> {
    var t := IntStrip(s);
    var negative := t != [] && t[0] == '-';
    var body := if t != [] && (t[0] == '+' || t[0] == '-') then t[1..] else t;
    if IsNumeral(body) && |WithoutUnderscores(body)| <= MaxStrDigits then
      var n: int := DigitsValue(WithoutUnderscores(body));
      Some(if negative then -n else n)
    else None
  }

  /** `str(n)` for a natural number. */
  function NatToString(n: nat): (s: string)
    ensures IsNumeral(s) && '-' !in s && '_' !in s && ',' !in s
  {
    if n < 10 then [DigitChar(n)] else NatToString(n / 10) + [DigitChar(n % 10)]
  }

  /** `str(n)`. */
  function IntToString(n: int): string {
    if n < 0 then "-" + NatToString(-n) else NatToString(n)
  }

  /** n has at most MaxStrDigits decimal digits, so `str(n)` does not raise. */
  predicate FitsStrDigits(n: int) {
    |NatToString(if n < 0 then -n else n)| <= MaxStrDigits
  }

  function Pow10(k: nat): nat {
    if k == 0 then 1 else 10 * Pow10(k - 1)
  }

  /** A number below 10^k has at most k digits. */
  lemma {:induction false} NatToStringLength(n: nat, k: nat)
    requires 1 <= k && n < Pow10(k)
    ensures |NatToString(n)| <= k
    decreases k
  {
    if n >= 10 {
      assert k >= 2;
      assert n / 10 < Pow10(k - 1);
      NatToStringLength(n / 10, k - 1);
    }
  }

  /** Every number below 10000, and so every year, month and day of a date,
      is within the limit. */
  lemma SmallFits(n: nat)
    requires n < 10000
    ensures FitsStrDigits(n)
  {
    assert Pow10(4) == 10000 by {
      assert Pow10(2) == 100;
    }
    NatToStringLength(n, 4);
  }

  lemma {:induction false} NatToStringValue(n: nat)
    ensures WithoutUnderscores(NatToString(n)) == NatToString(n)
    ensures DigitsValue(NatToString(n)) == n
  {
    NoUnderscores(NatToString(n));
    if n >= 10 {
      var s := NatToString(n);
      assert s[..|s| - 1] == NatToString(n / 10);
      NatToStringValue(n / 10);
    }
  }

  lemma {:induction false} NoUnderscores(s: string)
    requires '_' !in s
    ensures WithoutUnderscores(s) == s
  {
    if s != [] {
      assert '_' !in s[1..];
      NoUnderscores(s[1..]);
    }
  }

  /** `int(str(n)) == n`: the parser reads back every integer Python prints. */
  lemma ParseIntToString(n: int)
    requires FitsStrDigits(n)
    ensures ParseInt(IntToString(n)) == Some(n)
  {
    if n < 0 {
      ParseNegative(n);
    } else {
      ParseNatural(n);
    }
  }

  lemma ParseNatural(n: nat)
    requires FitsStrDigits(n)
    ensures ParseInt(IntToString(n)) == Some(n)
  {
    NatToStringValue(n);
    ParseNumeral(NatToString(n), n);
  }

  lemma ParseNegative(n: int)
    requires n < 0 && FitsStrDigits(n)
    ensures ParseInt(IntToString(n)) == Some(n)
  {
    NatToStringValue(-n);
    ParseSignedNumeral(NatToString(-n), -n);
  }

  lemma NumeralUnstripped(s: string)
    requires IsNumeral(s)
    ensures IntStrip(s) == s
  {
    assert IsDigit(s[0]) && IsDigit(s[|s| - 1]);
    IntStripUnchanged(s);
  }

  /** A bare numeral within the limit reads as the number its digits denote. */
  lemma ParseNumeral(s: string, n: int)
    requires IsNumeral(s) && |WithoutUnderscores(s)| <= MaxStrDigits && n == DigitsValue(WithoutUnderscores(s))
    ensures ParseInt(s) == Some(n)
  {
    NumeralUnstripped(s);
    assert s[0] != '+' && s[0] != '-';
  }

  /** A numeral within the limit after a minus sign reads as the negated number. */
  lemma ParseSignedNumeral(s: string, n: int)
    requires IsNumeral(s) && |WithoutUnderscores(s)| <= MaxStrDigits && n == DigitsValue(WithoutUnderscores(s))
    ensures ParseInt("-" + s) == Some(-n)
  {
    var t := "-" + s;
    assert t[0] == '-' && t[|t| - 1] == s[|s| - 1] && IsDigit(s[|s| - 1]);
    IntStripUnchanged(t);
    assert t[1..] == s;
  }

  /** Below the limit a leading zero changes nothing: `int("05") == int("5")`. */
  lemma LeadingZero(s: string)
    requires IsNumeral(s) && |WithoutUnderscores(s)| < MaxStrDigits
    ensures ParseInt("0" + s) == ParseInt(s)
  {
    var n := DigitsValue(WithoutUnderscores(s));
    ZeroNumeral(s);
    ZeroDigitsValue(WithoutUnderscores(s));
    ParseNumeral(s, n);
    ParseNumeral("0" + s, n);
  }

  /** A numeral of more than MaxStrDigits digits is refused. */
  lemma TooManyDigits(s: string)
    requires IsNumeral(s) && |WithoutUnderscores(s)| > MaxStrDigits
    ensures ParseInt(s) == None
  {
    NumeralUnstripped(s);
    assert s[0] != '+' && s[0] != '-';
  }

  /** At the limit a leading zero does matter: the numeral is read, and the
      same numeral after a `0` is refused. */
  lemma LeadingZeroAtLimit(s: string)
    requires IsNumeral(s) && |WithoutUnderscores(s)| == MaxStrDigits
    ensures ParseInt(s) == Some(DigitsValue(WithoutUnderscores(s))) && ParseInt("0" + s) == None
  {
    ParseNumeral(s, DigitsValue(WithoutUnderscores(s)));
    ZeroNumeral(s);
    TooManyDigits("0" + s);
  }

  lemma ZeroNumeral(s: string)
    requires IsNumeral(s)
    ensures IsNumeral("0" + s) && WithoutUnderscores("0" + s) == "0" + WithoutUnderscores(s)
  {
    var z := "0" + s;
    assert forall i | 1 <= i < |z| :: z[i] == s[i - 1];
    assert z[0] == '0' && z[1..] == s;
  }

  lemma {:induction false} ZeroDigitsValue(t: string)
    requires forall c | c in t :: IsDigit(c)
    ensures DigitsValue("0" + t) == DigitsValue(t)
    decreases |t|
  {
    var z := "0" + t;
    if t == [] {
      assert z[..|z| - 1] == [];
    } else {
      var u := t[..|t| - 1];
      assert z[..|z| - 1] == "0" + u && z[|z| - 1] == t[|t| - 1];
      assert forall c | c in u :: c in t;
      ZeroDigitsValue(u);
    }
  }

  /** `int()` rejects a numeral followed by an information separator, which
      `str.isspace()` and so `str.strip()` treat as whitespace. */
  lemma SeparatorNotStripped()
    ensures Strip("2025\U{1C}") == "2025" && ParseInt("2025\U{1C}") == None
  {
    var s := "2025\U{1C}";
    assert !IsIntSpace(s[|s| - 1]) && !IsIntSpace(s[0]);
    IntStripUnchanged(s);
    assert !IsNumeral(s) by {
      assert !IsDigit(s[|s| - 1]);
    }
    assert TrimLeft(s) == s;
    assert TrimRight(s) == TrimRight("2025");
    assert !IsSpace("2025"[3]);
  }
}
