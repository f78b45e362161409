/** Values and text conversions shared by the acquisition script: bytes, an optional value,
    Python's str.strip(), int() on decimal text and str() of an integer. */
module Text {

  /** One octet of a BLE payload. */
  newtype byte = b: int | 0 <= b < 256

  datatype Option<+T> = None | Some(value: T)

  predicate IsDigit(c: char) { '0' <= c <= '9' }

  /** The ASCII characters that str.isspace() accepts, and so str.strip() removes: space,
      \t \n \v \f \r and the separators \x1c to \x1f. */
  predicate IsSpace(c: char) { c == ' ' || 9 <= c as int <= 13 || 28 <= c as int <= 31 }

  /** The fewer characters that int() skips around its digits: space and \t \n \v \f \r, but
      not the separators \x1c to \x1f. */
  predicate IsIntSpace(c: char) { c == ' ' || 9 <= c as int <= 13 }

  /** Which whitespace a strip removes: that of str.strip(), or that of int(). */
  datatype Whitespace = StrWhitespace | IntWhitespace

  predicate Skips(w: Whitespace, c: char)
  {
    match w
    case StrWhitespace => IsSpace(c)
    case IntWhitespace => IsIntSpace(c)
  }

  /** sys.get_int_max_str_digits() by default: int() of a decimal text with more digits raises
      ValueError. */
  const MaxStrDigits := 4300

  predicate AllDigits(s: string) { forall i :: 0 <= i < |s| ==> IsDigit(s[i]) }

  predicate NoComma(s: string) { forall i :: 0 <= i < |s| ==> s[i] != ',' }

  function DigitValue(c: char): (d: nat)
    requires IsDigit(c)
    ensures d < 10
  {
    c as int - '0' as int
  }

  function DigitChar(d: nat): (c: char)
    requires d < 10
    ensures IsDigit(c) && DigitValue(c) == d
  {
    ('0' as int + d) as char
  }

  /** The value of a run of decimal digits, most significant digit first. */
  function DigitsValue(s: string): nat
    requires AllDigits(s)
    decreases |s|
  {
    if |s| == 0 then 0 else DigitsValue(s[..|s| - 1]) * 10 + DigitValue(s[|s| - 1])
  }

  /** str(n) for n >= 0: decimal digits without leading zeros. */
  function NatText(n: nat): (s: string)
    ensures 1 <= |s| && AllDigits(s)
    ensures |s| > 1 ==> s[0] != '0'
  {
    if n < 10 then [DigitChar(n)] else NatText(n / 10) + [DigitChar(n % 10)]
  }

  /** str(n) for any integer: a minus sign before the digits of a negative number. */
  function IntText(n: int): (s: string)
    ensures 1 <= |s| && IsDigit(s[|s| - 1])
    ensures s[0] == '-' <==> n < 0
    ensures s[0] == '-' || IsDigit(s[0])
    ensures NoComma(s)
  {
    if n < 0 then "-" + NatText(-n) else NatText(n)
  }

  /** The number of decimal digits of n. */
  function DigitCount(n: int): nat
  {
    if n < 0 then |NatText(-n)| else |NatText(n)|
  }

  /** s without its leading whitespace of the kind w. */
  function StripLeft(w: Whitespace, s: string): (r: string)
    ensures |r| <= |s|
  {
    if |s| > 0 && Skips(w, s[0]) then StripLeft(w, s[1..]) else s
  }

  /** s without its trailing whitespace of the kind w. */
  function StripRight(w: Whitespace, s: string): (r: string)
    ensures |r| <= |s|
  {
    if |s| > 0 && Skips(w, s[|s| - 1]) then StripRight(w, s[..|s| - 1]) else s
  }

  /** s without the whitespace of the kind w at either end. */
  function Trim(w: Whitespace, s: string): string
  {
    StripRight(w, StripLeft(w, s))
  }

  /** str.strip() with no argument, restricted to ASCII whitespace. */
  function Strip(s: string): string
  {
    Trim(StrWhitespace, s)
  }

  /** int(s) for decimal text: the whitespace int() skips is ignored at both ends, then one
      optional sign and at least one digit, at most MaxStrDigits of them; anything else is the
      ValueError that int() raises, here None. */
  function ParseInt(s: string): Option<int>
  {
    ParseLiteral(Trim(IntWhitespace, s))
  }

  /** An optional sign followed by at least one and at most MaxStrDigits digits. */
  function ParseLiteral(t: string): Option<int>
  {
    var digits := if |t| > 0 && (t[0] == '-' || t[0] == '+') then |t| - 1 else |t|;
    if digits > MaxStrDigits then None else ParseDecimal(t)
  }

  /** An optional sign followed by at least one digit, and nothing else, of any length. */
  function ParseDecimal(t: string): Option<int>
  {
    if |t| > 0 && (t[0] == '-' || t[0] == '+') then
      if |t| > 1 && AllDigits(t[1..]) then
        var v: int := DigitsValue(t[1..]);
        Some(if t[0] == '-' then -v else v)
      else None
    else if |t| > 0 && AllDigits(t) then Some(DigitsValue(t))
    else None
  }

  lemma {:induction false} NatTextValue(n: nat)
    ensures DigitsValue(NatText(n)) == n
  {
    if n >= 10 {
      var s := NatText(n);
      assert s[..|s| - 1] == NatText(n / 10);
      NatTextValue(n / 10);
    }
  }

  /** StripLeft removes a run of whitespace from the front and nothing else: the rest is a
      suffix of s that is empty or starts with a non-space. */
  lemma {:induction false} StripLeftShape(w: Whitespace, s: string)
    ensures var r := StripLeft(w, s);
            && r == s[|s| - |r|..]
            && (forall i :: 0 <= i < |s| - |r| ==> Skips(w, s[i]))
            && (r == [] || !Skips(w, r[0]))
  {
    if |s| > 0 && Skips(w, s[0]) {
      StripLeftShape(w, s[1..]);
    }
  }

  /** StripRight removes a run of whitespace from the back and nothing else. */
  lemma {:induction false} StripRightShape(w: Whitespace, s: string)
    ensures var r := StripRight(w, s);
            && r == s[..|r|]
            && (forall i :: |r| <= i < |s| ==> Skips(w, s[i]))
            && (r == [] || !Skips(w, r[|r| - 1]))
  {
    if |s| > 0 && Skips(w, s[|s| - 1]) {
      StripRightShape(w, s[..|s| - 1]);
    }
  }

  lemma StripUnpadded(w: Whitespace, s: string)
    requires s == [] || (!Skips(w, s[0]) && !Skips(w, s[|s| - 1]))
    ensures Trim(w, s) == s
  {
  }

  /** The decimal text of every integer reads back as that integer when no digit limit applies. */
  lemma ParseDecimalText(n: int)
    ensures ParseDecimal(IntText(n)) == Some(n)
  {
    if n < 0 {
      ParseNegative(n);
    } else {
      ParseNatural(n);
    }
  }

  /** int(str(n)): the text of an integer of at most MaxStrDigits digits reads back as that
      integer, and the text of a longer one is the ValueError of the digit limit. */
  lemma {:induction false} ParseIntText(n: int)
    ensures ParseInt(IntText(n)) == if DigitCount(n) <= MaxStrDigits then Some(n) else None
  {
    var s := IntText(n);
    StripUnpadded(IntWhitespace, s);
    assert ParseInt(s) == ParseLiteral(s);
    ParseDecimalText(n);
  }

  lemma ParseNegative(n: int)
    requires n < 0
    ensures ParseDecimal("-" + NatText(-n)) == Some(n)
  {
    var t := "-" + NatText(-n);
    assert t[1..] == NatText(-n);
    NatTextValue(-n);
  }

  lemma ParseNatural(n: nat)
    ensures ParseDecimal(NatText(n)) == Some(n)
  {
    var t := NatText(n);
    assert IsDigit(t[0]);
    NatTextValue(n);
  }

  /** Whitespace of the kind w around the text of an integer is exactly what a trim removes. */
  lemma TrimPadded(w: Whitespace, n: int, before: string, after: string)
    requires forall i :: 0 <= i < |before| ==> Skips(w, before[i])
    requires forall i :: 0 <= i < |after| ==> Skips(w, after[i])
    ensures Trim(w, before + IntText(n) + after) == IntText(n)
  {
    var s := IntText(n);
    assert before + s + after == before + (s + after);
    StripLeftPadded(w, before, s + after);
    StripRightPadded(w, s, after);
  }

  /** The whitespace int() skips, around the digits, does not change what it reads. */
  lemma ParseIntPadded(n: int, before: string, after: string)
    requires forall i :: 0 <= i < |before| ==> IsIntSpace(before[i])
    requires forall i :: 0 <= i < |after| ==> IsIntSpace(after[i])
    ensures ParseInt(before + IntText(n) + after)
            == if DigitCount(n) <= MaxStrDigits then Some(n) else None
  {
    TrimPadded(IntWhitespace, n, before, after);
    ParseIntText(n);
    StripUnpadded(IntWhitespace, IntText(n));
  }

  /** Text that starts with one of the separators \x1c to \x1f, which str.strip() removes but
      int() does not skip, is no integer for int(). */
  lemma ParseIntSeparator(c: char, s: string)
    requires IsSpace(c) && !IsIntSpace(c)
    ensures ParseInt([c] + s) == None
  {
    var t := [c] + s;
    assert StripLeft(IntWhitespace, t) == t;
    StripRightShape(IntWhitespace, t);
    var r := StripRight(IntWhitespace, t);
    assert r != [] && r[0] == c;
  }

  lemma {:induction false} StripLeftPadded(w: Whitespace, pad: string, s: string)
    requires forall i :: 0 <= i < |pad| ==> Skips(w, pad[i])
    requires s != [] && !Skips(w, s[0])
    ensures StripLeft(w, pad + s) == s
  {
    if pad != [] {
      assert (pad + s)[1..] == pad[1..] + s;
      StripLeftPadded(w, pad[1..], s);
    }
  }

  lemma {:induction false} StripRightPadded(w: Whitespace, s: string, pad: string)
    requires forall i :: 0 <= i < |pad| ==> Skips(w, pad[i])
    requires s != [] && !Skips(w, s[|s| - 1])
    ensures StripRight(w, s + pad) == s
  {
    if pad != [] {
      assert (s + pad)[..|s + pad| - 1] == s + pad[..|pad| - 1];
      StripRightPadded(w, s, pad[..|pad| - 1]);
    }
  }

  /** The numbers below 1000 have at most three digits. */
  lemma NatTextShort(n: nat)
    requires n < 1000
    ensures |NatText(n)| <= 3
  {
    if n >= 10 {
      assert |NatText(n)| == |NatText(n / 10)| + 1;
      if n / 10 >= 10 {
        assert |NatText(n / 10)| == |NatText(n / 100)| + 1;
      }
    }
  }
}
