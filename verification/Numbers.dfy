/** Printing numbers (sched/lib/printfmt.c) and reading them back
    (sched/lib/string.c). */
module Numbers {

  const DIGITS := "0123456789abcdef"

  // The bases that printnum has digits for.
  predicate IsBase(base: int) { 2 <= base <= 16 }

  // ---------------------------------------------------------------------
  // printnum

  lemma Product(a: nat, b: nat, c: nat)
    requires a <= b
    ensures a * c <= b * c
  {
  }

  lemma QuotientIsSmaller(q: nat, r: nat, num: nat, base: int)
    requires IsBase(base) && q * base + r == num && num >= base
    ensures q < num
  {
    Product(2, base, q);
  }

  // All digits of num but the last, and the last.
  function High(num: nat, base: int): (q: nat)
    requires IsBase(base)
    ensures num >= base ==> q < num
  {
    var q := num / base;
    assert num >= base ==> q < num by {
      if num >= base {
        QuotientIsSmaller(q, num % base, num, base);
      }
    }
    q
  }

  function Low(num: nat, base: int): (d: nat)
    requires IsBase(base)
    ensures d < base
  {
    num % base
  }

  // The two put together again.
  function Shift(v: int, base: int, d: int): (r: int) { v * base + d }

  lemma HighLow(num: nat, base: int)
    requires IsBase(base)
    ensures Shift(High(num, base), base, Low(num, base)) == num && (num < base ==> Low(num, base) == num)
  {
  }

  // The digits of num, most significant first.
  function Digits(num: nat, base: int): (s: string)
    requires IsBase(base)
    ensures |s| >= 1
  {
    (if num >= base then Digits(High(num, base), base) else "") + [DIGITS[Low(num, base)]]
  }

  function Repeat(c: char, n: int): (s: string)
    ensures |s| == if n < 0 then 0 else n
    ensures forall i :: 0 <= i < |s| ==> s[i] == c
  {
    if n <= 0 then "" else [c] + Repeat(c, n - 1)
  }

  /** What printnum prints: the digits, padded on the left to the width. */
  function Printed(num: nat, base: int, width: int, padc: char): (s: string)
    requires IsBase(base)
    ensures |s| == if width > |Digits(num, base)| then width else |Digits(num, base)|
  {
    Repeat(padc, width - |Digits(num, base)|) + Digits(num, base)
  }

  lemma {:induction false} RepeatSnoc(c: char, n: nat)
    ensures Repeat(c, n + 1) == Repeat(c, n) + [c]
  {
    if n > 0 {
      RepeatSnoc(c, n - 1);
    }
  }

  // What comes before the last digit.
  lemma PrintedLast(num: nat, base: int, width: int, padc: char)
    requires IsBase(base)
    ensures Printed(num, base, width, padc) ==
            (if num >= base then Printed(High(num, base), base, width - 1, padc) else Repeat(padc, width - 1)) + [DIGITS[Low(num, base)]]
  {
  }

  class Sink {
    var out: string

    method Putch(c: char)
      modifies this
      ensures out == old(out) + [c]
    {
      out := out + [c];
    }

    // The pad characters before the first digit.
    method Pad(width: int, padc: char)
      modifies this
      ensures out == old(out) + Repeat(padc, width - 1)
    {
      var w := width - 1;
      ghost var printed := 0;
      while w > 0
        invariant printed >= 0 && (width >= 1 ==> w + printed == width - 1 && w >= 0) && (width < 1 ==> printed == 0)
        invariant out == old(out) + Repeat(padc, printed)
        decreases w
      {
        RepeatSnoc(padc, printed);
        Putch(padc);
        w := w - 1;
        printed := printed + 1;
      }
    }

    method PrintNum(num: nat, base: int, width: int, padc: char)
      requires IsBase(base)
      modifies this
      ensures out == old(out) + Printed(num, base, width, padc)
      decreases num
    {
      if num >= base {
        PrintNum(High(num, base), base, width - 1, padc);
      } else {
        Pad(width, padc);
      }
      PrintedLast(num, base, width, padc);
      Putch(DIGITS[Low(num, base)]);
    }
  }

  // ---------------------------------------------------------------------
  // strtol

  // The character at i of a NUL-terminated string.
  function CharAt(s: string, i: nat): char { if i < |s| then s[i] else '\0' }

  // The value of a digit or letter, or -1.
  function DigitValue(c: char): int {
    if '0' <= c <= '9' then c as int - '0' as int
    else if 'a' <= c <= 'z' then c as int - 'a' as int + 10
    else if 'A' <= c <= 'Z' then c as int - 'A' as int + 10
    else -1
  }

  predicate IsDigit(c: char, base: int) { 0 <= DigitValue(c) < base }

  // The digits of s from i on, read after digits worth v.
  function Eval(s: string, i: nat, base: int, v: int): int
    decreases |s| - i
  {
    if i < |s| && IsDigit(s[i], base) then Eval(s, i + 1, base, Shift(v, base, DigitValue(s[i]))) else v
  }

  function DigitsEnd(s: string, i: nat, base: int): (e: nat)
    decreases |s| - i
  {
    if i < |s| && IsDigit(s[i], base) then DigitsEnd(s, i + 1, base) else i
  }

  predicate IsBlank(c: char) { c == ' ' || c == '\t' }

  function BlanksEnd(s: string, i: nat): (e: nat)
    decreases |s| - i
  {
    if i < |s| && IsBlank(s[i]) then BlanksEnd(s, i + 1) else i
  }

  // After the sign at i: where the digits begin, and in which base they are.
  function Prefix(s: string, i: nat, base: int): (r: (nat, int)) {
    if (base == 0 || base == 16) && CharAt(s, i) == '0' && CharAt(s, i + 1) == 'x' then (i + 2, 16)
    else if base == 0 && CharAt(s, i) == '0' then (i + 1, 8)
    else if base == 0 then (i, 10)
    else (i, base)
  }

  function SignEnd(s: string, i: nat): nat { if CharAt(s, i) == '+' || CharAt(s, i) == '-' then i + 1 else i }

  /** The number that s spells, and where it ends. */
  function Parsed(s: string, base: int): (int, nat) {
    var i := BlanksEnd(s, 0);
    var (j, b) := Prefix(s, SignEnd(s, i), base);
    (if CharAt(s, i) == '-' then -Eval(s, j, b, 0) else Eval(s, j, b, 0), DigitsEnd(s, j, b))
  }

  method SkipBlanks(s: string) returns (i: nat)
    ensures i == BlanksEnd(s, 0)
  {
    i := 0;
    while CharAt(s, i) == ' ' || CharAt(s, i) == '\t'
      invariant i <= |s| && BlanksEnd(s, i) == BlanksEnd(s, 0)
      decreases |s| - i
    {
      i := i + 1;
    }
  }

  method ReadDigits(s: string, start: nat, base: int) returns (val: int, end: nat)
    ensures val == Eval(s, start, base, 0) && end == DigitsEnd(s, start, base)
  {
    end, val := start, 0;
    while true
      invariant Eval(s, end, base, val) == Eval(s, start, base, 0) && DigitsEnd(s, end, base) == DigitsEnd(s, start, base)
      decreases |s| - end
    {
      var dig := DigitValue(CharAt(s, end));
      if dig < 0 || dig >= base {
        break;
      }
      end, val := end + 1, val * base + dig;
    }
  }

  lemma ParsedIs(s: string, base: int, i: nat, j: nat, b: int)
    requires i == BlanksEnd(s, 0) && (j, b) == Prefix(s, SignEnd(s, i), base)
    ensures Parsed(s, base) == (if CharAt(s, i) == '-' then -Eval(s, j, b, 0) else Eval(s, j, b, 0), DigitsEnd(s, j, b))
  {
  }

  // hex or octal base prefix
  method ReadPrefix(s: string, start: nat, base0: int) returns (i: nat, base: int)
    ensures (i, base) == Prefix(s, start, base0)
  {
    i, base := start, base0;
    if (base == 0 || base == 16) && CharAt(s, i) == '0' && CharAt(s, i + 1) == 'x' {
      i, base := i + 2, 16;
    } else if base == 0 && CharAt(s, i) == '0' {
      i, base := i + 1, 8;
    } else if base == 0 {
      base := 10;
    }
  }

  method Strtol(s: string, base0: int) returns (val: int, end: nat)
    ensures (val, end) == Parsed(s, base0)
  {
    var neg := false;
    var i := SkipBlanks(s);
    ghost var blanks := i;
    if CharAt(s, i) == '+' {
      i := i + 1;
    } else if CharAt(s, i) == '-' {
      i, neg := i + 1, true;
    }
    var base;
    i, base := ReadPrefix(s, i, base0);
    val, end := ReadDigits(s, i, base);
    val := if neg then -val else val;
    ParsedIs(s, base0, blanks, i, base);
  }

  // ---------------------------------------------------------------------
  // The round trip

  // A character that is neither a blank, nor a sign, nor part of a prefix.
  predicate Plain(c: char) { c != 'x' && c != '-' && c != '+' && !IsBlank(c) }

  lemma DigitsAreDigits(d: nat, base: int)
    requires IsBase(base) && d < base
    ensures DigitValue(DIGITS[d]) == d && IsDigit(DIGITS[d], base) && Plain(DIGITS[d])
  {
  }

  // The text of num stands in s from i to j.
  predicate Spells(s: string, i: nat, j: nat, num: nat, base: int)
    requires IsBase(base)
  {
    i <= j <= |s| && s[i..j] == Digits(num, base)
  }

  lemma SpellsRest(s: string, i: nat, j: nat, num: nat, base: int)
    requires IsBase(base) && Spells(s, i, j, num, base)
    ensures j > i && s[j - 1] == DIGITS[Low(num, base)]
    ensures if num >= base then Spells(s, i, j - 1, High(num, base), base) else j - 1 == i
  {
    assert s[j - 1] == s[i..j][j - i - 1];
    assert s[i..j - 1] == s[i..j][..j - i - 1];
  }

  lemma EvalStep(s: string, j: nat, base: int, v: int, d: nat)
    requires IsBase(base) && j < |s| && d < base && s[j] == DIGITS[d]
    ensures Eval(s, j, base, v) == Eval(s, j + 1, base, Shift(v, base, d)) && DigitsEnd(s, j, base) == DigitsEnd(s, j + 1, base)
  {
    DigitsAreDigits(d, base);
  }

  // Reading the digits of num, after something worth nothing, gives num.
  lemma {:induction false} EvalDigits(s: string, i: nat, j: nat, num: nat, base: int)
    requires IsBase(base) && Spells(s, i, j, num, base)
    ensures Eval(s, i, base, 0) == Eval(s, j, base, num) && DigitsEnd(s, i, base) == DigitsEnd(s, j, base)
    decreases num
  {
    HighLow(num, base);
    SpellsRest(s, i, j, num, base);
    if num >= base {
      EvalDigits(s, i, j - 1, High(num, base), base);
      EvalStep(s, j - 1, base, High(num, base), Low(num, base));
    } else {
      EvalStep(s, i, base, 0, num);
    }
  }

  lemma {:induction false} DigitsArePlain(num: nat, base: int)
    requires IsBase(base)
    ensures forall k :: 0 <= k < |Digits(num, base)| ==> Plain(Digits(num, base)[k])
    decreases num
  {
    DigitsAreDigits(Low(num, base), base);
    if num >= base {
      DigitsArePlain(High(num, base), base);
    }
  }

  lemma {:induction false} ZerosCountForNothing(s: string, i: nat, j: nat, base: int)
    requires IsBase(base) && i <= j <= |s| && forall k :: i <= k < j ==> s[k] == '0'
    ensures Eval(s, i, base, 0) == Eval(s, j, base, 0) && DigitsEnd(s, i, base) == DigitsEnd(s, j, base)
    decreases j - i
  {
    if i < j {
      ZerosCountForNothing(s, i + 1, j, base);
    }
  }

  // The digits of num at the end of s, after zeros from i to j.
  lemma ZerosThenDigits(s: string, i: nat, j: nat, num: nat, base: int)
    requires IsBase(base) && i <= j <= |s| && (forall k :: i <= k < j ==> s[k] == '0') && s[j..] == Digits(num, base)
    ensures Eval(s, i, base, 0) == num && DigitsEnd(s, i, base) == |s|
  {
    EvalDigits(s, j, |s|, num, base);
    ZerosCountForNothing(s, i, j, base);
  }

  lemma {:induction false} BlanksSkipped(s: string, i: nat, j: nat)
    requires i <= j < |s| && !IsBlank(s[j]) && forall k :: i <= k < j ==> IsBlank(s[k])
    ensures BlanksEnd(s, i) == j
    decreases j - i
  {
    if i < j {
      BlanksSkipped(s, i + 1, j);
    }
  }

  // Digits at i, or a zero before them, are neither a sign nor a base prefix.
  lemma NothingBefore(s: string, i: nat, j: nat, num: nat, base: int)
    requires IsBase(base) && i <= j <= |s| && s[j..] == Digits(num, base) && (i < j ==> s[i] == '0') && forall k :: i <= k < j ==> s[k] == '0'
    ensures i < |s| && !IsBlank(s[i]) && CharAt(s, i) != '-' && SignEnd(s, i) == i && Prefix(s, i, base) == (i, base)
  {
    DigitsArePlain(num, base);
    assert s[j] == s[j..][0];
    assert j + 1 < |s| ==> s[j + 1] == s[j..][1];
  }

  // The text s is read from i on: blanks, zeros up to j, the digits of num.
  lemma ReadsAs(s: string, i: nat, j: nat, num: nat, base: int)
    requires IsBase(base) && i <= j <= |s| && s[j..] == Digits(num, base)
    requires (forall k :: 0 <= k < i ==> IsBlank(s[k])) && (forall k :: i <= k < j ==> s[k] == '0')
    ensures Parsed(s, base) == (num, |s|)
  {
    NothingBefore(s, i, j, num, base);
    BlanksSkipped(s, 0, i);
    ZerosThenDigits(s, i, j, num, base);
    ParsedIs(s, base, i, i, base);
  }

  /** Printing a number in any base up to 16, padded by spaces or zeros, and reading the text back in that base gives the number, and uses up the text. */
  lemma PrintedReadsBack(num: nat, base: int, width: int, padc: char)
    requires IsBase(base) && (padc == ' ' || padc == '0')
    ensures Parsed(Printed(num, base, width, padc), base) == (num, |Printed(num, base, width, padc)|)
  {
    var s := Printed(num, base, width, padc);
    var j := |s| - |Digits(num, base)|;
    assert s[j..] == Digits(num, base);
    assert forall k :: 0 <= k < j ==> s[k] == padc;
    ReadsAs(s, if padc == ' ' then j else 0, j, num, base);
  }

  // What a negative number is printed as: vprintfmt puts the sign first.
  function PrintedNegative(num: nat, base: int, width: int, padc: char): string
    requires IsBase(base)
  {
    "-" + Printed(num, base, width, padc)
  }

  lemma NegativeUnpadded(num: nat, base: int, width: int, padc: char)
    requires IsBase(base) && (padc == '0' || width <= |Digits(num, base)|)
    ensures Parsed(PrintedNegative(num, base, width, padc), base).0 == -(num as int)
  {
    var digits := Digits(num, base);
    var s := PrintedNegative(num, base, width, padc);
    var j := |s| - |digits|;
    assert s[j..] == digits;
    assert forall k :: 1 <= k < j ==> s[k] == '0';
    NothingBefore(s, 1, j, num, base);
    BlanksSkipped(s, 0, 0);
    ZerosThenDigits(s, 1, j, num, base);
    ParsedIs(s, base, 0, 1, base);
  }

  /** A negative number, whose sign comes before the padding, reads back exactly
      when it is not padded by spaces. */
  lemma NegativeReadsBack(num: nat, base: int, width: int, padc: char)
    requires IsBase(base) && num > 0 && (padc == ' ' || padc == '0')
    ensures Parsed(PrintedNegative(num, base, width, padc), base).0 == -(num as int) <==> padc == '0' || width <= |Digits(num, base)|
  {
    if padc == '0' || width <= |Digits(num, base)| {
      NegativeUnpadded(num, base, width, padc);
    } else {
      var s := PrintedNegative(num, base, width, padc);
      BlanksSkipped(s, 0, 0);
      assert s[1] == Printed(num, base, width, padc)[0] == ' ';
    }
  }

  // ---------------------------------------------------------------------
  // Digits, signs and prefixes

  /** The digits are 0 to 9 and a to f in print; strtol takes letters of either case, up
      to z. */
  lemma DigitCharacters(d: nat)
    requires d < 36
    ensures d < 16 ==> DIGITS[d] as int == if d < 10 then 48 + d else 87 + d
    ensures d < 10 ==> DigitValue((48 + d) as char) == d
    ensures d >= 10 ==> DigitValue((87 + d) as char) == d && DigitValue((55 + d) as char) == d
  {
  }

  /** Reading stops at the first character that is no digit of the base. */
  lemma {:induction false} StopsAtNonDigit(s: string, i: nat, base: int)
    requires i <= |s|
    ensures var e := DigitsEnd(s, i, base);
            && i <= e <= |s| && (forall k :: i <= k < e ==> 0 <= DigitValue(s[k]) < base)
            && (e < |s| ==> !(0 <= DigitValue(s[e]) < base))
    decreases |s| - i
  {
    if i < |s| && IsDigit(s[i], base) {
      StopsAtNonDigit(s, i + 1, base);
    }
  }

  lemma {:induction false} DigitsShifted(c: char, s: string, i: nat, base: int, v: int)
    ensures Eval([c] + s, i + 1, base, v) == Eval(s, i, base, v) && DigitsEnd([c] + s, i + 1, base) == DigitsEnd(s, i, base) + 1
    decreases |s| - i
  {
    if i < |s| {
      assert ([c] + s)[i + 1] == s[i];
      DigitsShifted(c, s, i + 1, base, Shift(v, base, DigitValue(s[i])));
    }
  }

  lemma {:induction false} BlanksShifted(c: char, s: string, i: nat)
    ensures BlanksEnd([c] + s, i + 1) == BlanksEnd(s, i) + 1
    decreases |s| - i
  {
    if i < |s| {
      assert ([c] + s)[i + 1] == s[i];
      BlanksShifted(c, s, i + 1);
    }
  }

  lemma PrefixShifted(c: char, s: string, i: nat, base: int)
    ensures var (j, b) := Prefix(s, i, base); Prefix([c] + s, i + 1, base) == (j + 1, b)
  {
    assert CharAt([c] + s, i + 1) == CharAt(s, i) && CharAt([c] + s, i + 2) == CharAt(s, i + 1);
  }

  // Where the parts of the text are after a blank.
  lemma PartsShifted(c: char, s: string, base: int, i: nat, j: nat, b: int)
    requires c == ' ' || c == '\t'
    requires i == BlanksEnd(s, 0) && (j, b) == Prefix(s, SignEnd(s, i), base)
    ensures BlanksEnd([c] + s, 0) == i + 1 && CharAt([c] + s, i + 1) == CharAt(s, i)
    ensures Prefix([c] + s, SignEnd([c] + s, i + 1), base) == (j + 1, b)
  {
    BlanksShifted(c, s, 0);
    PrefixShifted(c, s, SignEnd(s, i), base);
  }

  /** A blank before the text changes nothing. */
  lemma BlankIsSkipped(c: char, s: string, base: int)
    requires c == ' ' || c == '\t'
    ensures Parsed([c] + s, base).0 == Parsed(s, base).0 && Parsed([c] + s, base).1 == Parsed(s, base).1 + 1
  {
    var i := BlanksEnd(s, 0);
    var (j, b) := Prefix(s, SignEnd(s, i), base);
    PartsShifted(c, s, base, i, j, b);
    DigitsShifted(c, s, j, b, 0);
    ParsedIs(s, base, i, j, b);
    ParsedIs([c] + s, base, i + 1, j + 1, b);
  }

  /** A sign before a text that begins with neither blank nor sign: a minus negates the
      number, a plus does not. */
  lemma SignCounts(c: char, s: string, base: int)
    requires (c == '+' || c == '-') && (s != "" ==> s[0] !in {' ', '\t', '+', '-'})
    ensures Parsed([c] + s, base).0 == if c == '-' then -Parsed(s, base).0 else Parsed(s, base).0
    ensures Parsed([c] + s, base).1 == Parsed(s, base).1 + 1
  {
    assert BlanksEnd([c] + s, 0) == 0 && BlanksEnd(s, 0) == 0;
    PrefixShifted(c, s, 0, base);
    var (j, b) := Prefix(s, 0, base);
    DigitsShifted(c, s, j, b, 0);
    ParsedIs(s, base, 0, j, b);
    ParsedIs([c] + s, base, 0, j + 1, b);
  }

  // The digits of num after k characters of something else.
  lemma DigitsAfter(pre: string, num: nat, base: int)
    requires IsBase(base)
    ensures var s := pre + Digits(num, base);
            Eval(s, |pre|, base, 0) == num && DigitsEnd(s, |pre|, base) == |s|
  {
    var s := pre + Digits(num, base);
    assert s[|pre|..] == Digits(num, base);
    ZerosThenDigits(s, |pre|, |pre|, num, base);
  }

  // The digits of num in base b, after a prefix pre that selects it from base.
  lemma PrefixSelects(pre: string, num: nat, base: int, b: int)
    requires IsBase(b) && pre != "" && pre[0] == '0'
    requires Prefix(pre + Digits(num, b), 0, base) == (|pre|, b)
    ensures Parsed(pre + Digits(num, b), base) == (num, |pre + Digits(num, b)|)
  {
    var s := pre + Digits(num, b);
    assert s[0] == '0';
    BlanksSkipped(s, 0, 0);
    DigitsAfter(pre, num, b);
    ParsedIs(s, base, 0, |pre|, b);
  }

  /** 0x before hexadecimal digits, as %p prints them, is read in base 16 and, like 0
      before octal digits, when the base is left open. */
  lemma PrefixedReadsBack(num: nat)
    ensures Parsed("0x" + Digits(num, 16), 16) == Parsed("0x" + Digits(num, 16), 0) == (num, |Digits(num, 16)| + 2)
    ensures Parsed("0" + Digits(num, 8), 0) == (num, |Digits(num, 8)| + 1)
  {
    var hex, oct := "0x" + Digits(num, 16), "0" + Digits(num, 8);
    assert hex[0] == '0' && hex[1] == 'x';
    DigitsArePlain(num, 8);
    assert oct[0] == '0' && oct[1] == Digits(num, 8)[0];
    PrefixSelects("0x", num, 0, 16);
    PrefixSelects("0x", num, 16, 16);
    PrefixSelects("0", num, 0, 8);
  }

  lemma {:induction false} NoLeadingZero(num: nat, base: int)
    requires IsBase(base) && num > 0
    ensures Digits(num, base)[0] != '0'
    decreases num
  {
    HighLow(num, base);
    if num >= base {
      NoLeadingZero(High(num, base), base);
    } else {
      DigitsAreDigits(num, base);
    }
  }

  /** Digits without a prefix are decimal when the base is left open. */
  lemma DecimalReadsBack(num: nat)
    ensures Parsed(Digits(num, 10), 0) == (num, |Digits(num, 10)|)
  {
    var s := Digits(num, 10);
    DigitsArePlain(num, 10);
    BlanksSkipped(s, 0, 0);
    if num > 0 {
      NoLeadingZero(num, 10);
      DigitsAfter("", num, 10);
      assert "" + s == s;
      ParsedIs(s, 0, 0, 0, 10);
    } else {
      assert s == "0";
      ParsedIs(s, 0, 0, 1, 8);
    }
  }
}
