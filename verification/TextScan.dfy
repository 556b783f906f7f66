/** The C library's text searching and integer scanning, on the characters before the NUL,
    together with decimal printing, which integer scanning undoes.
 */
module TextScan {
  import opened Options
  import opened Wire

  // ---- strstr ----

  /** The pattern occurs k characters into the text. */
  predicate Occurs(pattern: string, text: string, k: nat)
  {
    k <= |text| && pattern <= text[k..]
  }

  lemma OccursLater(pattern: string, first: string, rest: string, k: nat)
    ensures Occurs(pattern, first + rest, |first| + k) == Occurs(pattern, rest, k)
  {
    if k <= |rest| {
      assert (first + rest)[|first| + k..] == rest[k..];
    }
  }

  lemma OccursChar(pattern: string, text: string, k: nat, j: nat)
    requires Occurs(pattern, text, k) && j < |pattern|
    ensures k + j < |text| && text[k + j] == pattern[j]
  {
    assert text[k..][j] == pattern[j];
  }

  /** strstr: how far into the text the pattern first occurs. */
  function Find(text: string, pattern: string): (at: Option<nat>)
    requires pattern != ""
    ensures at.Some? ==> Occurs(pattern, text, at.value) && forall k: nat :: k < at.value ==> !Occurs(pattern, text, k)
    ensures at.None? ==> forall k: nat :: !Occurs(pattern, text, k)
  {
    if Occurs(pattern, text, 0) then
      Some(0)
    else if text == "" then
      None
    else
      var later := Find(text[1..], pattern);
      assert text == text[..1] + text[1..];
      assert forall k: nat :: k > 0 ==> Occurs(pattern, text, k) == Occurs(pattern, text[1..], k - 1) by {
        forall k: nat | k > 0 ensures Occurs(pattern, text, k) == Occurs(pattern, text[1..], k - 1) {
          OccursLater(pattern, text[..1], text[1..], k - 1);
        }
      }
      if later.None? then None else Some(later.value + 1)
  }

  /** No occurrence of the pattern begins within the first part. */
  ghost predicate NoneBegins(pattern: string, first: string, rest: string)
  {
    forall k: nat :: k < |first| ==> !Occurs(pattern, first + rest, k)
  }

  /** Text in which no occurrence begins can be skipped. */
  lemma FindSkips(pattern: string, first: string, rest: string)
    requires pattern != ""
    requires NoneBegins(pattern, first, rest)
    ensures Find(rest, pattern).None? ==> Find(first + rest, pattern).None?
    ensures Find(rest, pattern).Some? ==> Find(first + rest, pattern) == Some(|first| + Find(rest, pattern).value)
  {
    hide Occurs, Find;
    forall k: nat ensures Occurs(pattern, first + rest, |first| + k) == Occurs(pattern, rest, k) {
      OccursLater(pattern, first, rest, k);
    }
    var whole := Find(first + rest, pattern);
    var tail := Find(rest, pattern);
    if tail.Some? {
      assert Occurs(pattern, first + rest, |first| + tail.value);
    }
    if whole.Some? {
      assert whole.value >= |first|;
      assert Occurs(pattern, rest, whole.value - |first|);
    }
  }

  // ---- sscanf("%d") ----

  predicate IsSpace(c: char)
  {
    c == ' ' || '\t' <= c <= '\r'
  }

  predicate IsDigit(c: char)
  {
    '0' <= c <= '9'
  }

  function SkipSpaces(text: string): string
  {
    if text != "" && IsSpace(text[0]) then SkipSpaces(text[1..]) else text
  }

  /** How many digits the text starts with. */
  function DigitRun(text: string): (run: nat)
    ensures run <= |text| && forall k :: 0 <= k < run ==> IsDigit(text[k])
  {
    if text != "" && IsDigit(text[0]) then 1 + DigitRun(text[1..]) else 0
  }

  predicate AllDigits(text: string)
  {
    forall k :: 0 <= k < |text| ==> IsDigit(text[k])
  }

  function ValueOf(digits: string): nat
    requires AllDigits(digits)
  {
    if digits == "" then
      0
    else
      10 * ValueOf(digits[..|digits| - 1]) + (digits[|digits| - 1] as int - '0' as int)
  }

  /** A value read by "%d": saturated to 64 bits, then cut to the low 32. */
  function Narrow(v: int): (w: i32)
    ensures -0x8000_0000 <= v < 0x8000_0000 ==> w == v
  {
    var wide := if v < -0x8000_0000_0000_0000 then -0x8000_0000_0000_0000
                else if v > 0x7FFF_FFFF_FFFF_FFFF then 0x7FFF_FFFF_FFFF_FFFF
                else v;
    (wide + 0x8000_0000) % 0x1_0000_0000 - 0x8000_0000
  }

  /** The number the text starts with, without a sign. */
  function ScanDigits(text: string): Option<nat>
  {
    var digits := text[..DigitRun(text)];
    if digits == "" then None else Some(ValueOf(digits))
  }

  /** sscanf(text, "%d", &x): the value stored, or nothing when no number is there. */
  function ScanInt(text: string): Option<i32>
  {
    var body := SkipSpaces(text);
    var signed := body != "" && (body[0] == '-' || body[0] == '+');
    match ScanDigits(if signed then body[1..] else body)
    case None => None
    case Some(size) => Some(Narrow(if signed && body[0] == '-' then 0 - size else size))
  }

  // ---- Decimal printing ----

  function Digits(n: nat): string
  {
    var last := [(n % 10 + '0' as int) as char];
    if n < 10 then last else Digits(n / 10) + last
  }

  /** How "%d" prints. */
  function Decimal(v: int): string
  {
    if v < 0 then "-" + Digits(-v) else Digits(v)
  }

  lemma {:induction false} DigitsHaveValue(n: nat)
    ensures Digits(n) != "" && AllDigits(Digits(n))
    ensures ValueOf(Digits(n)) == n
  {
    if n >= 10 {
      DigitsHaveValue(n / 10);
      assert Digits(n)[..|Digits(n)| - 1] == Digits(n / 10);
    }
  }

  /** Digits only, without a leading zero but for zero itself; a minus sign before them for the
      negative numbers and no others. */
  lemma {:induction false} DecimalForm(v: int)
    ensures v >= 0 ==> AllDigits(Decimal(v)) && Decimal(v) != "" && (Decimal(v)[0] == '0' <==> v == 0)
    ensures v < 0 ==> Decimal(v) == "-" + Decimal(-v)
    ensures 0 <= v < 10 ==> |Decimal(v)| == 1
    ensures v >= 10 ==> |Decimal(v)| == 1 + |Decimal(v / 10)|
    decreases if v < 0 then 0 - v + 1 else v
  {
    if v >= 10 {
      DecimalForm(v / 10);
    }
  }

  lemma {:induction false} DigitsEnd(digits: string, rest: string)
    requires AllDigits(digits)
    requires rest == "" || !IsDigit(rest[0])
    ensures DigitRun(digits + rest) == |digits|
  {
    if digits == "" {
      assert digits + rest == rest;
    } else {
      assert (digits + rest)[1..] == digits[1..] + rest;
      DigitsEnd(digits[1..], rest);
    }
  }

  lemma ScanDigitsBack(n: nat, rest: string)
    requires rest == "" || !IsDigit(rest[0])
    ensures ScanDigits(Digits(n) + rest) == Some(n)
  {
    DigitsHaveValue(n);
    DigitsEnd(Digits(n), rest);
    assert (Digits(n) + rest)[..|Digits(n)|] == Digits(n);
  }

  lemma ScanUnsigned(text: string, size: nat)
    requires text != "" && IsDigit(text[0]) && ScanDigits(text) == Some(size) && size < 0x8000_0000
    ensures ScanInt(text) == Some(size)
  {
    hide ScanDigits;
  }

  lemma ScanNegative(text: string, size: nat)
    requires text != "" && text[0] == '-' && ScanDigits(text[1..]) == Some(size) && size <= 0x8000_0000
    ensures ScanInt(text) == Some(0 - size)
  {
    hide ScanDigits;
  }

  lemma DropFirst(first: string, middle: string, rest: string)
    requires first != ""
    ensures (first + middle + rest)[0] == first[0] && (first + middle + rest)[|first|..] == middle + rest
  {
  }

  /** Scanning undoes printing, for every 32-bit value, whatever non-digit follows. */
  lemma ScanDecimal(v: i32, rest: string)
    requires rest == "" || !IsDigit(rest[0])
    ensures ScanInt(Decimal(v) + rest) == Some(v)
  {
    if v < 0 {
      NegativeBack(0 - v, rest);
    } else {
      PositiveBack(v, rest);
    }
  }

  lemma NegativeBack(size: nat, rest: string)
    requires size <= 0x8000_0000 && (rest == "" || !IsDigit(rest[0]))
    ensures ScanInt("-" + Digits(size) + rest) == Some(0 - size)
  {
    var digits := Digits(size);
    ScanDigitsBack(size, rest);
    hide ScanDigits, ScanInt, Digits, ValueOf, Narrow, SkipSpaces;
    DropFirst("-", digits, rest);
    ScanNegative("-" + digits + rest, size);
  }

  lemma PositiveBack(size: nat, rest: string)
    requires size < 0x8000_0000 && (rest == "" || !IsDigit(rest[0]))
    ensures ScanInt(Digits(size) + rest) == Some(size)
  {
    var digits := Digits(size);
    ScanDigitsBack(size, rest);
    DigitsHaveValue(size);
    hide ScanDigits, ScanInt, Digits, ValueOf, Narrow, SkipSpaces;
    assert (digits + rest)[0] == digits[0];
    ScanUnsigned(digits + rest, size);
  }

  // ---- Everything "%d" accepts ----

  lemma {:induction false} SpacesSkipped(spaces: string, text: string)
    requires forall i :: 0 <= i < |spaces| ==> spaces[i] == ' ' || 9 <= spaces[i] as int <= 13
    requires text != "" && text[0] != ' ' && !(9 <= text[0] as int <= 13)
    ensures SkipSpaces(spaces + text) == text
  {
    if spaces == "" {
      assert spaces + text == text;
    } else {
      assert (spaces + text)[1..] == spaces[1..] + text;
      SpacesSkipped(spaces[1..], text);
    }
  }

  /** Within 64 bits the value is right modulo 2^32; beyond them it is the low half of the bound. */
  lemma NarrowExact(v: int)
    ensures -0x8000_0000_0000_0000 <= v < 0x8000_0000_0000_0000 ==> exists k :: v == Narrow(v) + 4294967296 * k
    ensures v >= 0x8000_0000_0000_0000 ==> Narrow(v) == -1
    ensures v < -0x8000_0000_0000_0000 ==> Narrow(v) == 0
  {
    if -0x8000_0000_0000_0000 <= v < 0x8000_0000_0000_0000 {
      var k := (v + 0x8000_0000) / 0x1_0000_0000;
      assert v == Narrow(v) + 4294967296 * k;
    }
  }

  lemma ScanBody(text: string, sign: string, number: string, n: nat)
    requires SkipSpaces(text) == sign + number && ScanDigits(number) == Some(n)
    requires sign == "" || sign == "+" || sign == "-"
    requires number != "" && IsDigit(number[0])
    ensures ScanInt(text) == Some(Narrow(if sign == "-" then 0 - n else n))
  {
    hide ScanDigits, SkipSpaces, Narrow;
    if sign == "" {
      assert sign + number == number;
    } else {
      assert (sign + number)[1..] == number && (sign + number)[0] == sign[0];
    }
  }

  /** White space, a sign or none, and digits of any length: the number, cut to 32 bits as
      Narrow says, whatever non-digit follows. */
  lemma ScanForms(spaces: string, sign: string, n: nat, rest: string)
    requires forall i :: 0 <= i < |spaces| ==> spaces[i] == ' ' || 9 <= spaces[i] as int <= 13
    requires sign == "" || sign == "+" || sign == "-"
    requires rest == "" || !('0' <= rest[0] <= '9')
    ensures ScanInt(spaces + (sign + (Digits(n) + rest))) == Some(Narrow(if sign == "-" then 0 - n else n))
  {
    var number := Digits(n) + rest;
    ScanDigitsBack(n, rest);
    DigitsHaveValue(n);
    assert IsDigit(number[0]);
    assert sign == "" ==> sign + number == number;
    SpacesSkipped(spaces, sign + number);
    hide Digits, ScanDigits, ScanInt, SkipSpaces, Narrow;
    ScanBody(spaces + (sign + number), sign, number, n);
  }

  /** And without a digit behind white space and sign there is no number. */
  lemma NoNumber(spaces: string, sign: string, rest: string)
    requires forall i :: 0 <= i < |spaces| ==> spaces[i] == ' ' || 9 <= spaces[i] as int <= 13
    requires sign == "+" || sign == "-"
    requires rest == "" || !('0' <= rest[0] <= '9')
    ensures ScanInt(spaces + (sign + rest)) == None
  {
    assert (sign + rest)[1..] == rest;
    SpacesSkipped(spaces, sign + rest);
    hide SkipSpaces, Narrow;
  }
}
