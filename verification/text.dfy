/**
 The two pieces of Python string handling the views depend on: `str.strip()`
 (used on order-line notes before grouping) and `int(str)` (used on the posted
 item ids and quantities), plus the decimal rendering `str(int)` that the
 audit-log details are built from.
 */
module Text {
  import opened Wrappers

  /** Python's `str.isspace()` for one character: the characters `strip()` discards. */
  predicate IsSpace(c: char) {
    || ('\t' <= c <= '\r')
    || ('\U{1C}' <= c <= ' ')
    || c == '\U{85}' || c == '\U{A0}' || c == '\U{1680}'
    || ('\U{2000}' <= c <= '\U{200A}')
    || c == '\U{2028}' || c == '\U{2029}' || c == '\U{202F}' || c == '\U{205F}' || c == '\U{3000}'
  }

  /**
   The whitespace `int()` skips around a number. It maps the non-ASCII
   `isspace()` characters to a space and then skips only the C whitespace
   characters, so the separators U+001C to U+001F, which `strip()` drops,
   are not skipped.
   */
  predicate IsIntSpace(c: char) {
    IsSpace(c) && !('\U{1C}' <= c <= '\U{1F}')
  }

  predicate IsDigit(c: char) {
    '0' <= c <= '9'
  }

  function DigitValue(c: char): (d: nat)
    requires IsDigit(c)
    ensures d < 10
  {
    (c as int) - ('0' as int)
  }

  function DigitChar(d: nat): (c: char)
    requires d < 10
    ensures IsDigit(c) && DigitValue(c) == d
  {
    ('0' as int + d) as char
  }

  predicate StartsWith(s: string, prefix: string) {
    |prefix| <= |s| && s[..|prefix|] == prefix
  }

  /** Drops the leading characters that are in the class `sp`. */
  function TrimStart(s: string, sp: char -> bool): string {
    if |s| > 0 && sp(s[0]) then TrimStart(s[1..], sp) else s
  }

  /** Drops the trailing characters that are in the class `sp`. */
  function TrimEnd(s: string, sp: char -> bool): string {
    if |s| > 0 && sp(s[|s| - 1]) then TrimEnd(s[..|s| - 1], sp) else s
  }

  lemma {:induction false} TrimStartSpec(s: string, sp: char -> bool)
    ensures |TrimStart(s, sp)| <= |s| && TrimStart(s, sp) == s[|s| - |TrimStart(s, sp)|..]
    ensures forall i :: 0 <= i < |s| - |TrimStart(s, sp)| ==> sp(s[i])
    ensures TrimStart(s, sp) != [] ==> !sp(TrimStart(s, sp)[0])
  {
    if |s| > 0 && sp(s[0]) {
      TrimStartSpec(s[1..], sp);
    }
  }

  lemma {:induction false} TrimEndSpec(s: string, sp: char -> bool)
    ensures |TrimEnd(s, sp)| <= |s| && TrimEnd(s, sp) == s[..|TrimEnd(s, sp)|]
    ensures forall i :: |TrimEnd(s, sp)| <= i < |s| ==> sp(s[i])
    ensures TrimEnd(s, sp) != [] ==> !sp(TrimEnd(s, sp)[|TrimEnd(s, sp)| - 1])
  {
    if |s| > 0 && sp(s[|s| - 1]) {
      TrimEndSpec(s[..|s| - 1], sp);
    }
  }

  /** The number of characters of class `sp` that `s` starts with. */
  function Leading(s: string, sp: char -> bool): (n: nat)
    ensures n <= |s|
    ensures forall j :: 0 <= j < n ==> sp(s[j])
    ensures n < |s| ==> !sp(s[n])
  {
    TrimStartSpec(s, sp);
    |s| - |TrimStart(s, sp)|
  }

  /** Drops the characters of class `sp` at both ends. */
  function Trim(s: string, sp: char -> bool): string {
    TrimEnd(TrimStart(s, sp), sp)
  }

  /**
   What `Trim` returns: the slice of `s` that starts after its leading run of
   `sp` characters and is followed only by `sp` characters, neither starting
   nor ending with one.
   */
  lemma TrimSpec(s: string, sp: char -> bool)
    ensures Leading(s, sp) + |Trim(s, sp)| <= |s|
    ensures Trim(s, sp) == s[Leading(s, sp)..Leading(s, sp) + |Trim(s, sp)|]
    ensures forall j :: Leading(s, sp) + |Trim(s, sp)| <= j < |s| ==> sp(s[j])
    ensures Trim(s, sp) != [] ==> !sp(Trim(s, sp)[0]) && !sp(Trim(s, sp)[|Trim(s, sp)| - 1])
  {
    var t := TrimStart(s, sp);
    TrimStartSpec(s, sp);
    TrimEndSpec(t, sp);
    var n := Leading(s, sp);
    forall j | n + |Trim(s, sp)| <= j < |s|
      ensures sp(s[j])
    {
      assert s[j] == t[j - n];
    }
  }

  /** Text whose ends are not of class `sp` is left alone by `Trim`. */
  lemma TrimKeepsTrimmed(s: string, sp: char -> bool)
    requires s != [] ==> !sp(s[0]) && !sp(s[|s| - 1])
    ensures Trim(s, sp) == s
  {
    TrimSpec(s, sp);
  }

  /** The number of whitespace characters `s` starts with. */
  function LeadingSpaces(s: string): nat {
    Leading(s, IsSpace)
  }

  /** Python's `str.strip()`: drops the whitespace at both ends. */
  function Strip(s: string): string {
    Trim(s, IsSpace)
  }

  /**
   What `Strip` returns: the slice of `s` that starts after its leading
   whitespace and is followed only by whitespace, neither starting nor ending
   with whitespace.
   */
  lemma StripSpec(s: string)
    ensures LeadingSpaces(s) + |Strip(s)| <= |s|
    ensures forall j :: 0 <= j < LeadingSpaces(s) ==> IsSpace(s[j])
    ensures Strip(s) == s[LeadingSpaces(s)..LeadingSpaces(s) + |Strip(s)|]
    ensures forall j :: LeadingSpaces(s) + |Strip(s)| <= j < |s| ==> IsSpace(s[j])
    ensures Strip(s) != [] ==> !IsSpace(Strip(s)[0]) && !IsSpace(Strip(s)[|Strip(s)| - 1])
  {
    TrimSpec(s, IsSpace);
  }

  /** Stripping twice is the same as stripping once. */
  lemma StripIdempotent(s: string)
    ensures Strip(Strip(s)) == Strip(s)
  {
    StripSpec(s);
    TrimKeepsTrimmed(Strip(s), IsSpace);
  }

  /** Digits and signs are not whitespace. */
  lemma DigitOrSignNotSpace(c: char)
    requires IsDigit(c) || c == '+' || c == '-'
    ensures !IsSpace(c) && !IsIntSpace(c)
  {
  }

  /** The whitespace trimming `int()` applies to its argument. */
  function IntStrip(s: string): string {
    Trim(s, IsIntSpace)
  }

  /**
   The digit strings Python's `int()` accepts in base 10: ASCII digits,
   optionally separated by single underscores, starting and ending with a digit.
   */
  predicate WellFormedDigits(t: string) {
    && |t| > 0
    && IsDigit(t[0]) && IsDigit(t[|t| - 1])
    && (forall i :: 0 <= i < |t| ==> IsDigit(t[i]) || t[i] == '_')
    && (forall i :: 0 <= i < |t| - 1 ==> t[i] != '_' || t[i + 1] != '_')
  }

  /** The number a digit string denotes, underscores ignored. */
  function DigitsValue(t: string): nat {
    if t == [] then 0
    else if IsDigit(t[|t| - 1]) then DigitsValue(t[..|t| - 1]) * 10 + DigitValue(t[|t| - 1])
    else DigitsValue(t[..|t| - 1])
  }

  /** The number of digits in a digit string, underscores not counted. */
  function DigitCount(t: string): nat {
    if t == [] then 0
    else DigitCount(t[..|t| - 1]) + (if IsDigit(t[|t| - 1]) then 1 else 0)
  }

  /**
   The most digits `int()` reads from text in base 10: CPython's default
   `sys.int_info.default_max_str_digits`. Longer digit strings raise
   `ValueError`, leading zeros included.
   */
  const MaxStrDigits: nat := 4300

  /** The length of the sign `t` starts with: one for `+` or `-`, otherwise none. */
  function SignLength(t: string): (k: nat)
    ensures k <= 1 && k <= |t|
    ensures k == 1 <==> |t| > 0 && (t[0] == '+' || t[0] == '-')
  {
    if |t| > 0 && (t[0] == '+' || t[0] == '-') then 1 else 0
  }

  /**
   Python's `int(s)` on a string: surrounding whitespace is ignored, one
   optional sign, then a well-formed digit string of at most `MaxStrDigits`
   digits; anything else is the `ValueError` the views catch, here `None`.
   Non-ASCII digits are not modelled.
   */
  function ParseInt(s: string): (r: Option<int>)
    ensures IntStrip(s) == [] ==> r == None
    ensures r.Some? ==> |IntStrip(s)| > 0 && IsDigit(IntStrip(s)[|IntStrip(s)| - 1])
    ensures r.Some? && r.value < 0 ==> IntStrip(s)[0] == '-'
  {
    var t := IntStrip(s);
    if |t| > 0 && (t[0] == '+' || t[0] == '-') then
      var u := t[1..];
      if WellFormedDigits(u) && DigitCount(u) <= MaxStrDigits then
        var v: int := DigitsValue(u);
        Some(if t[0] == '-' then -v else v)
      else None
    else if WellFormedDigits(t) && DigitCount(t) <= MaxStrDigits then
      assert IsDigit(t[0]);
      Some(DigitsValue(t))
    else None
  }

  /**
   What `int()` accepts: text that, once its whitespace is trimmed, is an
   optional sign followed by a well-formed digit string of at most
   `MaxStrDigits` digits, and nothing else. The result's magnitude is the
   number those digits denote, and only a minus sign makes it negative.
   */
  lemma ParseIntSpec(s: string)
    ensures var t := IntStrip(s); var r := ParseInt(s);
      r.Some? <==> && t != [] && WellFormedDigits(t[SignLength(t)..])
                   && DigitCount(t[SignLength(t)..]) <= MaxStrDigits
    ensures var t := IntStrip(s); var r := ParseInt(s);
      r.Some? ==> && (if r.value < 0 then -r.value else r.value) == DigitsValue(t[SignLength(t)..])
                  && (r.value < 0 ==> t[0] == '-')
                  && (t[0] == '-' ==> r.value <= 0)
  {
  }

  /** Text `int()` refuses: a decimal point, a letter, inner whitespace and a doubled sign. */
  lemma ParseIntRejectsJunk()
    ensures ParseInt("1.5") == None && ParseInt("a1") == None
    ensures ParseInt("1 2") == None && ParseInt("--1") == None
  {
    assert IntStrip("1.5") == "1.5" by { TrimKeepsTrimmed("1.5", IsIntSpace); }
    assert !WellFormedDigits("1.5") by { assert "1.5"[1] == '.'; }
    assert IntStrip("a1") == "a1" by { TrimKeepsTrimmed("a1", IsIntSpace); }
    assert IntStrip("1 2") == "1 2" by { TrimKeepsTrimmed("1 2", IsIntSpace); }
    assert !WellFormedDigits("1 2") by { assert "1 2"[1] == ' '; }
    assert IntStrip("--1") == "--1" by { TrimKeepsTrimmed("--1", IsIntSpace); }
    assert "--1"[1..] == "-1";
  }

  /** Underscores must sit singly between digits. */
  lemma ParseIntUnderscores()
    ensures ParseInt("1__0") == None && ParseInt("10_") == None
    ensures ParseInt("1_0") == Some(10)
  {
    assert IntStrip("1__0") == "1__0" by { TrimKeepsTrimmed("1__0", IsIntSpace); }
    assert !WellFormedDigits("1__0") by { assert "1__0"[1] == '_' && "1__0"[2] == '_'; }
    assert IntStrip("10_") == "10_" by { TrimKeepsTrimmed("10_", IsIntSpace); }
    assert IntStrip("1_0") == "1_0" by { TrimKeepsTrimmed("1_0", IsIntSpace); }
    assert DigitsValue("1_0") == 10 && DigitCount("1_0") == 2 by {
      assert "1_0"[..2] == "1_" && "1_"[..1] == "1" && "1"[..0] == "";
    }
  }

  /**
   `int()` skips a space and a newline around the number, but not the
   separator U+001C, which `strip()` drops.
   */
  lemma ParseIntWhitespace()
    ensures ParseInt(" 7\n") == Some(7)
    ensures ParseInt("\U{1C}5") == None && Strip("\U{1C}5") == "5"
  {
    assert IntStrip(" 7\n") == "7" by {
      assert TrimStart(" 7\n", IsIntSpace) == TrimStart("7\n", IsIntSpace) by { assert " 7\n"[1..] == "7\n"; }
      assert TrimEnd("7\n", IsIntSpace) == TrimEnd("7", IsIntSpace) by { assert "7\n"[..1] == "7"; }
    }
    assert DigitsValue("7") == 7 && DigitCount("7") == 1 by { assert "7"[..0] == ""; }
    assert IntStrip("\U{1C}5") == "\U{1C}5" by { TrimKeepsTrimmed("\U{1C}5", IsIntSpace); }
    assert Strip("\U{1C}5") == "5" by {
      assert TrimStart("\U{1C}5", IsSpace) == TrimStart("5", IsSpace) by { assert "\U{1C}5"[1..] == "5"; }
      TrimKeepsTrimmed("5", IsSpace);
    }
  }

  /** A minus sign negates, and leading zeros are allowed. */
  lemma ParseIntSigned()
    ensures ParseInt("-007") == Some(-7)
  {
    assert IntStrip("-007") == "-007" by { TrimKeepsTrimmed("-007", IsIntSpace); }
    assert "-007"[1..] == "007";
    assert DigitsValue("007") == 7 && DigitCount("007") == 3 by {
      assert "007"[..2] == "00" && "00"[..1] == "0" && "0"[..0] == "";
    }
  }

  /** `n` copies of a character. */
  function Repeat(c: char, n: nat): (r: string)
    ensures |r| == n && forall i :: 0 <= i < n ==> r[i] == c
  {
    if n == 0 then [] else Repeat(c, n - 1) + [c]
  }

  lemma {:induction false} ZerosValue(n: nat)
    ensures DigitCount(Repeat('0', n)) == n && DigitsValue(Repeat('0', n)) == 0
  {
    if n > 0 {
      ZerosValue(n - 1);
      assert Repeat('0', n)[..n - 1] == Repeat('0', n - 1);
    }
  }

  /**
   Leading zeros count towards the digit limit: `n` zeros and a one read
   as 1 while the `n + 1` digits fit in `MaxStrDigits`, and are refused beyond.
   */
  lemma ParseIntDigitLimit(n: nat)
    ensures ParseInt(Repeat('0', n) + "1") == if n + 1 <= MaxStrDigits then Some(1) else None
  {
    var t := Repeat('0', n) + "1";
    assert IsDigit(t[0]) && t[|t| - 1] == '1';
    DigitOrSignNotSpace(t[0]);
    DigitOrSignNotSpace(t[|t| - 1]);
    TrimKeepsTrimmed(t, IsIntSpace);
    assert SignLength(t) == 0 && t[SignLength(t)..] == t;
    assert DigitCount(t) == n + 1 && DigitsValue(t) == 1 by {
      ZerosValue(n);
      assert t[..|t| - 1] == Repeat('0', n);
    }
    assert WellFormedDigits(t);
    ParseIntSpec(t);
  }

  /** Python's `str(n)` for a natural number. */
  function NatText(n: nat): (r: string)
    ensures |r| > 0
    ensures forall i :: 0 <= i < |r| ==> IsDigit(r[i])
  {
    if n < 10 then [DigitChar(n)] else NatText(n / 10) + [DigitChar(n % 10)]
  }

  /** Python's `str(i)` for an integer. */
  function IntText(i: int): string {
    if i < 0 then "-" + NatText(-i) else NatText(i)
  }

  lemma {:induction false} NatTextValue(n: nat)
    ensures WellFormedDigits(NatText(n))
    ensures DigitsValue(NatText(n)) == n
    ensures DigitCount(NatText(n)) == |NatText(n)|
  {
    var t := NatText(n);
    if n >= 10 {
      NatTextValue(n / 10);
      assert t[..|t| - 1] == NatText(n / 10);
    } else {
      assert t[..0] == [];
    }
  }

  function Pow10(k: nat): (p: nat)
    ensures p >= 1
  {
    if k == 0 then 1 else 10 * Pow10(k - 1)
  }

  /** `str(n)` has at most `k` digits exactly when `n` is below `10^k`. */
  lemma {:induction false} NatTextLength(n: nat, k: nat)
    requires k >= 1
    ensures |NatText(n)| <= k <==> n < Pow10(k)
    decreases n
  {
    if n < 10 {
      assert Pow10(k) == 10 * Pow10(k - 1);
    } else if k == 1 {
      assert Pow10(1) == 10;
    } else {
      NatTextLength(n / 10, k - 1);
      assert n == 10 * (n / 10) + n % 10 && 0 <= n % 10 < 10;
      assert Pow10(k) == 10 * Pow10(k - 1);
    }
  }

  /** Whether `str(i)` has few enough digits for `int()` to read it back. */
  predicate FitsStrDigits(i: int) {
    |NatText(if i < 0 then -i else i)| <= MaxStrDigits
  }

  /** The integers `str()` prints within the limit are those strictly between `-10^MaxStrDigits` and `10^MaxStrDigits`. */
  lemma FitsStrDigitsBound(i: int)
    ensures FitsStrDigits(i) <==> (if i < 0 then -i else i) < Pow10(MaxStrDigits)
  {
    NatTextLength(if i < 0 then -i else i, MaxStrDigits);
  }

  /**
   `int(str(i)) == i` for every integer of at most `MaxStrDigits` digits;
   the text of a longer integer is refused.
   */
  lemma ParseIntText(i: int)
    ensures ParseInt(IntText(i)) == if FitsStrDigits(i) then Some(i) else None
  {
    var s := IntText(i);
    var n: nat := if i < 0 then -i else i;
    var d := NatText(n);
    NatTextValue(n);
    var k := if i < 0 then 1 else 0;
    assert s[k..] == d && s[|s| - 1] == d[|d| - 1];
    assert s[0] == '-' || IsDigit(s[0]);
    assert SignLength(s) == k;
    DigitOrSignNotSpace(s[0]);
    DigitOrSignNotSpace(s[|s| - 1]);
    TrimKeepsTrimmed(s, IsIntSpace);
    ParseIntSpec(s);
  }

}
