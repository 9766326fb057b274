/** Conversion of text to integers (src/aux/libc/integer.c). Characters are their codes, a
    byte or a wide character alike. */
module IntegerParse {
  import Bits

  const U64_MAX: int := 0xffff_ffff_ffff_ffff
  const EINVAL: int := 22
  const ERANGE: int := 34

  const PLUS: int := 43
  const MINUS: int := 45
  const ZERO: int := 48

  function DigitValue(c: int): int {
    if 48 <= c <= 57 then c - 48
    else if 97 <= c <= 122 then c - 97 + 10
    else if 65 <= c <= 90 then c - 65 + 10
    else -1
  }

  predicate Space(c: int) {
    c == 32 || 9 <= c <= 13
  }

  predicate LetterX(c: int) {
    c == 120 || c == 88
  }

  predicate Digit(c: int, base: int) {
    0 <= DigitValue(c) < base
  }

  /** The digits in order, in either case. */
  const LOWER: string := "0123456789abcdefghijklmnopqrstuvwxyz"
  const UPPER: string := "0123456789ABCDEFGHIJKLMNOPQRSTUVWXYZ"

  /** The digits of a base are the first so many of these, each standing for its place. */
  lemma DigitsAre(c: int, base: int)
    requires 2 <= base <= 36
    ensures Digit(c, base) <==> exists v :: 0 <= v < base && (c == LOWER[v] as int || c == UPPER[v] as int)
    ensures forall v :: 0 <= v < 36 && (c == LOWER[v] as int || c == UPPER[v] as int) ==> DigitValue(c) == v
  {
    LowerAre();
    UpperAre();
    if Digit(c, base) {
      var v := DigitValue(c);
      assert c == LOWER[v] as int || c == UPPER[v] as int;
    }
  }

  lemma LowerAre()
    ensures |LOWER| == 36 && forall v :: 0 <= v < 36 ==> LOWER[v] as int == if v < 10 then 48 + v else 87 + v
  {
  }

  lemma UpperAre()
    ensures |UPPER| == 36 && forall v :: 0 <= v < 36 ==> UPPER[v] as int == if v < 10 then 48 + v else 55 + v
  {
  }

  /** White space is what `isspace` accepts in the C locale; the codes are those of the characters. */
  lemma CharactersAre(c: int)
    ensures Space(c) <==> c in {' ' as int, '\t' as int, '\n' as int, 11, 12, '\r' as int}
    ensures LetterX(c) <==> c in {'x' as int, 'X' as int}
    ensures PLUS == '+' as int && MINUS == '-' as int && ZERO == '0' as int
  {
  }

  /** A string that ends in a null character. */
  type Text = t: seq<int> | |t| > 0 && t[|t| - 1] == 0 witness [0]

  // ---- the subject sequence, section 7.22.1.4 of C11 -------------------------------

  ghost predicate Digits(t: Text, lo: int, hi: int, base: int) {
    0 <= lo < hi <= |t| && forall i :: lo <= i < hi ==> Digit(t[i], base)
  }

  /** A hexadecimal constant with its prefix. */
  ghost predicate Hex(t: Text, lo: int, hi: int) {
    0 <= lo && lo + 2 < hi && Digits(t, lo + 2, hi, 16) && t[lo] == ZERO && LetterX(t[lo + 1])
  }

  /** [lo, hi) is the unsigned part of a subject sequence. */
  ghost predicate Subject(t: Text, lo: int, hi: int, base: int) {
    if base == 0 then
      || Hex(t, lo, hi)
      || (Digits(t, lo, hi, 8) && t[lo] == ZERO)
      || (Digits(t, lo, hi, 10) && t[lo] != ZERO)
    else if base == 16 then Hex(t, lo, hi) || Digits(t, lo, hi, 16)
    else Digits(t, lo, hi, base)
  }

  /** The value of digits. */
  ghost function Value(t: seq<int>, lo: int, hi: int, base: int): int
    requires 0 <= lo <= hi <= |t|
    decreases hi - lo
  {
    if lo == hi then 0 else Value(t, lo, hi - 1, base) * base + DigitValue(t[hi - 1])
  }

  // ---- parsing ---------------------------------------------------------------------

  datatype Parsed = Parsed(magnitude: int, consumed: int, negative: bool, overflow: bool)

  ghost predicate LegalBase(base: int) {
    base == 0 || 2 <= base <= 36
  }

  /** The limit on the magnitude; the negative range has one more. */
  function Limit(positive: int, isSigned: bool, negative: bool): int {
    positive + if isSigned && negative then 1 else 0
  }

  method SkipSpaces(t: Text) returns (i: int)
    ensures 0 <= i < |t| && !Space(t[i]) && forall j :: 0 <= j < i ==> Space(t[j])
  {
    i := 0;
    while Space(t[i])
      invariant 0 <= i < |t| && forall j :: 0 <= j < i ==> Space(t[j])
      decreases |t| - i
    {
      i := i + 1;
    }
  }

  /** The base of the digits, and where they start. */
  method Prefix(t: Text, lo: int, base: int) returns (base': int, digits: int)
    requires 0 <= lo < |t| && LegalBase(base)
    ensures 2 <= base' <= 36 && lo <= digits < |t|
    ensures Chosen(t, lo, base, base', digits)
  {
    if (base == 0 || base == 16) && t[lo] == ZERO && LetterX(t[lo + 1]) && Digit(t[lo + 2], 16) {
      return 16, lo + 2;
    }
    digits := lo;
    base' := if base != 0 then base else if t[lo] == ZERO then 8 else 10;
  }

  ghost predicate Chosen(t: Text, lo: int, base: int, base': int, digits: int)
    requires 0 <= lo < |t|
  {
    if (base == 0 || base == 16) && lo + 2 < |t| && t[lo] == ZERO && LetterX(t[lo + 1]) && Digit(t[lo + 2], 16)
    then base' == 16 && digits == lo + 2
    else digits == lo && base' == if base != 0 then base else if t[lo] == ZERO then 8 else 10
  }

  /** The digit loop: stop at the first character that is no digit, keep the value while it
      is within the limit, and latch overflow. No step leaves the 64-bit range. */
  method Accumulate(t: Text, digits: int, base: int, limit: int) returns (magnitude: int, overflow: bool, cursor: int)
    requires 0 <= digits < |t| && 2 <= base <= 36 && 0 <= limit <= U64_MAX
    ensures digits <= cursor < |t| && !Digit(t[cursor], base) && forall i :: digits <= i < cursor ==> Digit(t[i], base)
    ensures overflow <==> Value(t, digits, cursor, base) > limit
    ensures magnitude == if overflow then limit else Value(t, digits, cursor, base)
    ensures 0 <= Value(t, digits, cursor, base)
  {
    var cutoff, remainder := limit / base, limit % base;
    magnitude, overflow, cursor := 0, false, digits;
    while Digit(t[cursor], base)
      invariant digits <= cursor < |t| && forall i :: digits <= i < cursor ==> Digit(t[i], base)
      invariant overflow <==> Value(t, digits, cursor, base) > limit
      invariant magnitude == if overflow then limit else Value(t, digits, cursor, base)
      invariant 0 <= magnitude <= limit && 0 <= Value(t, digits, cursor, base)
      decreases |t| - cursor
    {
      magnitude, overflow := TakeDigit(magnitude, overflow, DigitValue(t[cursor]), base, limit, cutoff, remainder,
                                       Value(t, digits, cursor, base));
      cursor := cursor + 1;
    }
  }

  /** One digit of that loop; `value` is what the digits so far amount to. */
  method TakeDigit(magnitude: int, overflow: bool, digit: int, base: int, limit: int, cutoff: int, remainder: int,
                   ghost value: int)
    returns (magnitude': int, overflow': bool)
    requires 0 <= digit < base && 2 <= base && 0 <= limit <= U64_MAX && 0 <= value
    requires cutoff == limit / base && remainder == limit % base
    requires overflow <==> value > limit
    requires magnitude == if overflow then limit else value
    ensures overflow' <==> value * base + digit > limit
    ensures magnitude' == if overflow' then limit else value * base + digit
    ensures 0 <= value * base + digit && 0 <= magnitude' <= limit
  {
    magnitude', overflow' := magnitude, overflow;
    TimesAtLeast(value, base);
    if !overflow {
      CutoffTest(magnitude, digit, base, limit);
      if magnitude > cutoff || (magnitude == cutoff && digit > remainder) {
        overflow', magnitude' := true, limit;
      } else {
        assert 0 <= magnitude * base <= U64_MAX && 0 <= magnitude * base + digit <= U64_MAX;
        magnitude' := magnitude * base + digit;
      }
    }
  }

  lemma TimesAtLeast(value: int, base: int)
    requires 0 <= value && 1 <= base
    ensures value <= value * base
  {
  }

  /** The test before the multiplication is exact. */
  lemma CutoffTest(magnitude: int, digit: int, base: int, limit: int)
    requires 0 <= magnitude && 0 <= digit < base && 2 <= base && 0 <= limit
    ensures magnitude > limit / base || (magnitude == limit / base && digit > limit % base) <==>
              magnitude * base + digit > limit
  {
    var cutoff, remainder := limit / base, limit % base;
    assert limit == cutoff * base + remainder;
    if magnitude > cutoff {
      assert magnitude * base >= (cutoff + 1) * base;
    } else if magnitude < cutoff {
      assert magnitude * base <= (cutoff - 1) * base;
    }
  }

  /** What a conversion of the digits after `lo` means: the longest subject sequence. */
  ghost predicate Longest(t: Text, lo: int, base: int, hi: int) {
    Subject(t, lo, hi, base) && forall e :: Subject(t, lo, e, base) ==> e <= hi
  }

  /** The digits the code takes are those of the longest subject sequence, and it takes none
      exactly if there is none. */
  lemma TakesLongest(t: Text, lead: int, base: int, base': int, digits: int, cursor: int)
    requires 0 <= lead < |t| && LegalBase(base) && Chosen(t, lead, base, base', digits)
    requires digits <= cursor < |t| && !Digit(t[cursor], base')
    requires forall i :: digits <= i < cursor ==> Digit(t[i], base')
    ensures cursor > digits ==> Longest(t, lead, base, cursor)
    ensures cursor == digits ==> forall e :: !Subject(t, lead, e, base)
  {
    forall e | Subject(t, lead, e, base)
      ensures cursor > digits && e <= cursor
    {
      SubjectEnds(t, lead, base, base', digits, cursor, e);
    }
    if cursor > digits {
      assert Digits(t, digits, cursor, base');
    }
  }

  lemma SubjectEnds(t: Text, lead: int, base: int, base': int, digits: int, cursor: int, e: int)
    requires 0 <= lead < |t| && LegalBase(base) && Chosen(t, lead, base, base', digits)
    requires digits <= cursor < |t| && !Digit(t[cursor], base')
    requires forall i :: digits <= i < cursor ==> Digit(t[i], base')
    requires Subject(t, lead, e, base)
    ensures cursor > digits && e <= cursor
  {
    if digits == lead + 2 {
      assert Digit(t[lead + 2], 16) && !Digit(t[lead + 1], 16);
      if !Hex(t, lead, e) {
        assert e <= lead + 1;
      }
    } else {
      assert Digits(t, lead, e, base');
      assert Digit(t[lead], base');
    }
  }

  // ---- conversions -----------------------------------------------------------------

  /** What `parse_integer` found: white space, a sign, and the longest subject sequence. */
  datatype Shape = Shape(blank: int, lead: int, base: int, digits: int)

  ghost predicate Shaped(t: Text, base: int, s: Shape, negative: bool) {
    && 0 <= s.blank < |t| && !Space(t[s.blank]) && (forall i :: 0 <= i < s.blank ==> Space(t[i]))
    && s.lead == (if t[s.blank] == PLUS || t[s.blank] == MINUS then s.blank + 1 else s.blank)
    && (negative <==> t[s.blank] == MINUS)
    && s.lead < |t| && Chosen(t, s.lead, base, s.base, s.digits)
  }

  /** The magnitude of what was taken. */
  ghost function Magnitude(t: Text, s: Shape, p: Parsed): int {
    if 0 <= s.digits <= p.consumed <= |t| then Value(t, s.digits, p.consumed, s.base) else 0
  }

  /** `parse_integer`. */
  method ParseInteger(t: Text, base: int, positive: int, isSigned: bool) returns (p: Parsed, errno: int, ghost s: Shape)
    requires 0 <= positive <= U64_MAX && (isSigned ==> positive < U64_MAX)
    ensures !LegalBase(base) ==> p == Parsed(0, 0, false, false) && errno == EINVAL
    ensures LegalBase(base) ==>
              && Shaped(t, base, s, p.negative)
              && (if p.consumed == 0 then forall e :: !Subject(t, s.lead, e, base)
                  else Longest(t, s.lead, base, p.consumed))
              && (p.consumed != 0 ==> 0 <= s.digits < p.consumed < |t|) && 0 <= Magnitude(t, s, p)
              && (p.overflow <==> Magnitude(t, s, p) > Limit(positive, isSigned, p.negative))
              && p.magnitude == (if p.overflow then Limit(positive, isSigned, p.negative) else Magnitude(t, s, p))
              && errno == (if p.overflow then ERANGE else 0)
  {
    s := Shape(0, 0, 0, 0);
    if base != 0 && (base < 2 || base > 36) {
      return Parsed(0, 0, false, false), EINVAL, s;
    }
    var blank := SkipSpaces(t);
    var negative, lead := t[blank] == MINUS, blank;
    if t[blank] == PLUS || t[blank] == MINUS {
      lead := lead + 1;
    }
    var base', digits := Prefix(t, lead, base);
    var magnitude, overflow, cursor := Accumulate(t, digits, base', Limit(positive, isSigned, negative));
    TakesLongest(t, lead, base, base', digits, cursor);
    s := Shape(blank, lead, base', digits);
    errno := if overflow then ERANGE else 0;
    p := Parsed(magnitude, if cursor != digits then cursor else 0, negative, overflow);
  }

  /** The value with its sign. */
  ghost function Signed(negative: bool, magnitude: int): int {
    if negative then -magnitude else magnitude
  }

  ghost function Clamp(v: int, lo: int, hi: int): int {
    if v < lo then lo else if v > hi then hi else v
  }

  /** `signed_value`. */
  function SignedValue(p: Parsed, maximum: int): int {
    if !p.negative then p.magnitude
    else if p.magnitude == maximum + 1 then -maximum - 1
    else -p.magnitude
  }

  /** `unsigned_value` in 64 bits, then cut to a type with the given maximum. */
  function UnsignedValue(p: Parsed, maximum: int): int
    requires maximum >= 0
  {
    (if p.negative && !p.overflow then (0 - p.magnitude) % (U64_MAX + 1) else p.magnitude) % (maximum + 1)
  }

  /** The signed conversions clamp the mathematical value to the range of their type. */
  method ToSigned(t: Text, base: int, maximum: int)
    returns (v: int, consumed: int, errno: int, ghost s: Shape, ghost negative: bool)
    requires 0 <= maximum < U64_MAX
    ensures !LegalBase(base) ==> v == 0 && consumed == 0 && errno == EINVAL
    ensures LegalBase(base) ==>
              && Shaped(t, base, s, negative)
              && (if consumed == 0 then v == 0 && forall e :: !Subject(t, s.lead, e, base)
                  else Longest(t, s.lead, base, consumed))
              && (consumed != 0 ==>
                    && 0 <= s.digits <= consumed <= |t|
                    && v == Clamp(Signed(negative, Value(t, s.digits, consumed, s.base)), -maximum - 1, maximum)
                    && (errno == ERANGE <==>
                         !(-maximum - 1 <= Signed(negative, Value(t, s.digits, consumed, s.base)) <= maximum)))
  {
    var p;
    p, errno, s := ParseInteger(t, base, maximum, true);
    v, consumed, negative := SignedValue(p, maximum), p.consumed, p.negative;
  }

  /** Negating in 64 bits and cutting is wrapping the negative value. */
  lemma NegationWraps(m: int, maximum: int)
    requires 0 <= m <= maximum && (maximum == 0xffff_ffff || maximum == U64_MAX)
    ensures (0 - m) % (U64_MAX + 1) % (maximum + 1) == (-m) % (maximum + 1)
  {
    if m == 0 {
      Bits.ModUnique(0, U64_MAX + 1, 0, 0);
      Bits.ModUnique(0, maximum + 1, 0, 0);
    } else {
      Bits.ModUnique(0 - m, U64_MAX + 1, -1, U64_MAX + 1 - m);
      Bits.ModUnique(U64_MAX + 1 - m, maximum + 1, if maximum == U64_MAX then 0 else 0xffff_ffff, maximum + 1 - m);
      Bits.ModUnique(-m, maximum + 1, -1, maximum + 1 - m);
    }
  }

  lemma UnsignedIs(p: Parsed, m: int, maximum: int)
    requires 0 <= m && (maximum == 0xffff_ffff || maximum == U64_MAX)
    requires (p.overflow <==> m > maximum) && p.magnitude == if p.overflow then maximum else m
    ensures UnsignedValue(p, maximum) == if m > maximum then maximum else Signed(p.negative, m) % (maximum + 1)
  {
    Bits.ModUnique(p.magnitude, maximum + 1, 0, p.magnitude);
    if !p.overflow {
      NegationWraps(m, maximum);
    }
  }

  /** The unsigned conversions wrap a value in range, and give the maximum for one out of
      range, whatever its sign. */
  method ToUnsigned(t: Text, base: int, maximum: int)
    returns (v: int, consumed: int, errno: int, ghost s: Shape, ghost negative: bool)
    requires maximum == 0xffff_ffff || maximum == U64_MAX
    ensures !LegalBase(base) ==> v == 0 && consumed == 0 && errno == EINVAL
    ensures LegalBase(base) ==>
              && Shaped(t, base, s, negative)
              && (if consumed == 0 then v == 0 && forall e :: !Subject(t, s.lead, e, base)
                  else Longest(t, s.lead, base, consumed))
              && (consumed != 0 ==>
                    && 0 <= s.digits <= consumed <= |t|
                    && var m := Value(t, s.digits, consumed, s.base);
                       && (errno == ERANGE <==> m > maximum)
                       && v == if m > maximum then maximum else Signed(negative, m) % (maximum + 1))
  {
    var p;
    p, errno, s := ParseInteger(t, base, maximum, false);
    v, consumed, negative := UnsignedValue(p, maximum), p.consumed, p.negative;
    UnsignedIs(p, if LegalBase(base) then Magnitude(t, s, p) else 0, maximum);
  }
}
