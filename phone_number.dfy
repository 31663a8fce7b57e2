/**
  Phone numbers of user profiles: normalisation to the E.164 shape
  (a '+' followed by the country code and subscriber digits, ITU-T E.164),
  display formatting of US numbers as "(AAA) PPP-LLLL", and a length check.

  Strings are `seq<char>`. In JavaScript the regular expression `\D` is
  `[^0-9]` whatever the flags, so stripping it is the filter `Digits` below.
*/
module PhoneNumber {

  /** The country code assumed for a number written without one. */
  const USCountryCode: char := '1'

  /** The characters that `\D` does not match. */
  predicate IsDigit(c: char) {
    '0' <= c <= '9'
  }

  predicate AllDigits(s: string) {
    forall i | 0 <= i < |s| :: IsDigit(s[i])
  }

  /** `s.replace(/\D/g, '')`: the digits of `s`, in their order. */
  function Digits(s: string): (r: string)
    ensures AllDigits(r)
    ensures |r| <= |s|
    ensures |r| == |s| <==> AllDigits(s)
    ensures AllDigits(s) ==> r == s
  {
    if s == [] then []
    else if IsDigit(s[0]) then [s[0]] + Digits(s[1..])
    else Digits(s[1..])
  }

  /** Stripping the non-digits of a concatenation strips each part. */
  lemma {:induction false} DigitsConcat(a: string, b: string)
    ensures Digits(a + b) == Digits(a) + Digits(b)
  {
    if a == [] {
      assert a + b == b;
    } else {
      assert (a + b)[0] == a[0];
      assert (a + b)[1..] == a[1..] + b;
      DigitsConcat(a[1..], b);
    }
  }

  /** A non-digit anywhere in the input contributes nothing to its digits. */
  lemma {:induction false} DigitsIgnoresNonDigit(a: string, c: char, b: string)
    requires !IsDigit(c)
    ensures Digits(a + [c] + b) == Digits(a + b)
  {
    DigitsConcat(a + [c], b);
    DigitsConcat(a, [c]);
    DigitsConcat(a, b);
    assert Digits([c]) == Digits([c][1..]);
  }

  /** normalizePhoneNumber: the E.164 form of `phone`, assuming the US
      country code when exactly ten digits are given. */
  function Normalize(phone: string): (r: string)
    ensures |r| >= 1 && r[0] == '+' && AllDigits(r[1..])
    ensures Digits(r) == r[1..]
    ensures |r| == |Digits(phone)| + (if |Digits(phone)| == 10 then 2 else 1)
  {
    var digits := Digits(phone);
    if |digits| == 10 then
      // US number without country code
      "+" + [USCountryCode] + digits
    else if |digits| == 11 && digits[0] == USCountryCode then
      // US number with country code
      "+" + digits
    else if |digits| > 11 then
      // already carries a country code
      "+" + digits
    else
      "+" + digits
  }

  /** The digits that follow the '+' of the normalised number. */
  lemma {:induction false} NormalizedDigits(phone: string)
    ensures Normalize(phone)[1..] ==
            (if |Digits(phone)| == 10 then [USCountryCode] else []) + Digits(phone)
  {
    var d := Digits(phone);
    var tail := if |d| == 10 then [USCountryCode] + d else d;
    assert Normalize(phone) == "+" + tail;
    assert ("+" + tail)[1..] == tail;
  }

  /** Ten digits get the US prefix: 12 characters, 11 digits after the '+'. */
  lemma {:induction false} NormalizeTenDigits(phone: string)
    requires |Digits(phone)| == 10
    ensures Normalize(phone) == "+1" + Digits(phone)
    ensures |Normalize(phone)| == 12 && |Digits(Normalize(phone))| == 11
  {
  }

  /** Every other digit count (fewer than ten, eleven with or without a
      leading '1', more than eleven) gets only the '+'. */
  lemma {:induction false} NormalizeOtherCounts(phone: string)
    requires |Digits(phone)| != 10
    ensures Normalize(phone) == "+" + Digits(phone)
  {
  }

  /** Only the digit subsequence of the input matters. */
  lemma {:induction false} NormalizeIgnoresNonDigits(phone: string)
    ensures Normalize(phone) == Normalize(Digits(phone))
  {
  }

  /** Inserting a non-digit anywhere does not change the normalised number. */
  lemma {:induction false} NormalizeIgnoresNoise(a: string, c: char, b: string)
    requires !IsDigit(c)
    ensures Normalize(a + [c] + b) == Normalize(a + b)
  {
    DigitsIgnoresNonDigit(a, c, b);
  }

  /** Normalising a normalised number changes nothing: a ten-digit input has
      become eleven digits starting with the country code. */
  lemma {:induction false} NormalizeIdempotent(phone: string)
    ensures Normalize(Normalize(phone)) == Normalize(phone)
  {
    var r := Normalize(phone);
    NormalizedDigits(phone);
    assert Digits(r) == r[1..];
    assert |r[1..]| != 10;
    assert r == "+" + r[1..];
  }

  /** Two inputs normalise alike exactly when they hold the same digits, or
      one holds ten digits and the other those ten after a leading '1'. */
  lemma {:induction false} NormalizeSameNumber(x: string, y: string)
    ensures Normalize(x) == Normalize(y) <==>
            Digits(x) == Digits(y)
            || (|Digits(x)| == 10 && Digits(y) == [USCountryCode] + Digits(x))
            || (|Digits(y)| == 10 && Digits(x) == [USCountryCode] + Digits(y))
  {
    NormalizedDigits(x);
    NormalizedDigits(y);
    var rx, ry := Normalize(x), Normalize(y);
    assert rx == "+" + rx[1..];
    assert ry == "+" + ry[1..];
    var dx, dy := Digits(x), Digits(y);
    if rx == ry && |dx| == 10 && |dy| == 10 {
      assert dx == rx[2..] == ry[2..] == dy;
    }
  }

  /** A number the formatter treats as a US number: ten digits, or eleven
      digits starting with the country code. This is exactly when the
      formatter's test (eleven normalised digits, the first of them the
      country code) holds. */
  function IsUSNumber(phone: string): (us: bool)
    ensures var d := Digits(Normalize(phone));
            us <==> |d| == 11 && d[0] == USCountryCode
  {
    NormalizedDigits(phone);
    var d := Digits(phone);
    |d| == 10 || (|d| == 11 && d[0] == USCountryCode)
  }

  /** The ten national digits of a US number. */
  function NationalNumber(phone: string): (n: string)
    requires IsUSNumber(phone)
    ensures |n| == 10 && AllDigits(n)
    ensures Digits(phone) == n || Digits(phone) == [USCountryCode] + n
  {
    var d := Digits(phone);
    if |d| == 10 then d else d[1..]
  }

  /** The display shape "(AAA) PPP-LLLL". */
  predicate DisplayShape(s: string) {
    && |s| == 14
    && s[0] == '(' && s[4] == ')' && s[5] == ' ' && s[9] == '-'
    && AllDigits(s[1..4]) && AllDigits(s[6..9]) && AllDigits(s[10..14])
  }

  /** The three digit groups of a display-shaped string, in order. */
  function DisplayGroups(s: string): (g: string)
    requires DisplayShape(s)
    ensures |g| == 10 && AllDigits(g)
  {
    s[1..4] + s[6..9] + s[10..14]
  }

  /** Builds "(A) P-L" from three groups; the groups can be read back at
      their offsets, between the fixed punctuation. */
  function Grouped(areaCode: string, prefix: string, lineNumber: string): (r: string)
    ensures var i, j := |areaCode| + 1, |areaCode| + 3 + |prefix|;
            && |r| == j + 1 + |lineNumber|
            && r[0] == '(' && r[i] == ')' && r[i + 1] == ' ' && r[j] == '-'
            && r[1..i] == areaCode && r[i + 2..j] == prefix && r[j + 1..] == lineNumber
  {
    "(" + areaCode + ") " + prefix + "-" + lineNumber
  }

  /** A string without digits has no digits to keep. */
  lemma {:induction false} DigitsOfNonDigits(s: string)
    requires forall i | 0 <= i < |s| :: !IsDigit(s[i])
    ensures Digits(s) == []
  {
    if s != [] {
      DigitsOfNonDigits(s[1..]);
    }
  }

  /** The digits of "(A) P-L" are those of A, P and L in order. */
  lemma {:induction false} DigitsOfGrouped(a: string, p: string, l: string)
    ensures Digits(Grouped(a, p, l)) == Digits(a) + Digits(p) + Digits(l)
  {
    DigitsOfNonDigits("(");
    DigitsOfNonDigits(") ");
    DigitsOfNonDigits("-");
    calc {
      Digits(Grouped(a, p, l));
      { assert Grouped(a, p, l) == "(" + (a + (") " + (p + ("-" + l)))); }
      Digits("(" + (a + (") " + (p + ("-" + l)))));
      { DigitsConcat("(", a + (") " + (p + ("-" + l)))); }
      Digits(a + (") " + (p + ("-" + l))));
      { DigitsConcat(a, ") " + (p + ("-" + l))); }
      Digits(a) + Digits(") " + (p + ("-" + l)));
      { DigitsConcat(") ", p + ("-" + l)); }
      Digits(a) + Digits(p + ("-" + l));
      { DigitsConcat(p, "-" + l); }
      Digits(a) + (Digits(p) + Digits("-" + l));
      { DigitsConcat("-", l); }
      Digits(a) + (Digits(p) + Digits(l));
    }
  }

  /** A display-shaped string is its three groups put back together, and its
      digits are those groups. */
  lemma {:induction false} DisplayShapeDigits(s: string)
    requires DisplayShape(s)
    ensures s == Grouped(s[1..4], s[6..9], s[10..14])
    ensures Digits(s) == DisplayGroups(s)
  {
    assert s == Grouped(s[1..4], s[6..9], s[10..14]);
    DigitsOfGrouped(s[1..4], s[6..9], s[10..14]);
  }

  /** "(A) P-L" built from three digit groups of sizes 3, 3 and 4 has the
      display shape, and its groups are A, P and L. */
  lemma {:induction false} GroupedShape(a: string, p: string, l: string)
    requires |a| == 3 && |p| == 3 && |l| == 4
    requires AllDigits(a) && AllDigits(p) && AllDigits(l)
    ensures var s := Grouped(a, p, l);
            DisplayShape(s) && s[1..4] == a && s[6..9] == p && s[10..14] == l
  {
    var s := Grouped(a, p, l);
    assert s == ['('] + a + [')', ' '] + p + ['-'] + l;
    assert s[1..4] == a;
    assert s[6..9] == p;
    assert s[10..14] == l;
  }

  /** Every slice of an all-digit string is all digits. */
  lemma {:induction false} AllDigitsSlice(s: string, i: nat, j: nat)
    requires AllDigits(s) && i <= j <= |s|
    ensures AllDigits(s[i..j])
  {
    forall k | 0 <= k < j - i ensures IsDigit(s[i..j][k]) {
      assert s[i..j][k] == s[i + k];
    }
  }

  /** Grouping the eleven digits of a normalised US number as the formatter
      does (skipping the country code) yields the display shape, and its
      digits are the ten national digits. */
  lemma {:induction false} GroupedNational(d: string)
    requires |d| == 11 && AllDigits(d)
    ensures DisplayShape(Grouped(d[1..4], d[4..7], d[7..11]))
    ensures Digits(Grouped(d[1..4], d[4..7], d[7..11])) == d[1..]
  {
    var a, p, l := d[1..4], d[4..7], d[7..11];
    AllDigitsSlice(d, 1, 4);
    AllDigitsSlice(d, 4, 7);
    AllDigitsSlice(d, 7, 11);
    GroupedShape(a, p, l);
    assert Digits(Grouped(a, p, l)) == d[1..] by {
      DigitsOfGrouped(a, p, l);
      assert Digits(a) + Digits(p) + Digits(l) == a + p + l;
      assert a + p + l == d[1..];
    }
  }

  /** For a US number, the digits the formatter finds after normalising are
      the country code followed by the national digits. */
  lemma {:induction false} FormatCondition(phone: string)
    ensures IsUSNumber(phone) ==>
            Digits(Normalize(phone)) == [USCountryCode] + NationalNumber(phone)
  {
    NormalizedDigits(phone);
  }

  /** formatPhoneNumber: "(AAA) PPP-LLLL" for a US number, the input
      unchanged (not normalised) otherwise. */
  function Format(phone: string): (r: string)
    ensures IsUSNumber(phone) ==> DisplayShape(r) && Digits(r) == NationalNumber(phone)
    ensures !IsUSNumber(phone) ==> r == phone
  {
    var normalized := Normalize(phone);
    var digits := Digits(normalized);
    FormatCondition(phone);
    if |digits| == 11 && digits[0] == USCountryCode then
      var areaCode := digits[1..4];
      var prefix := digits[4..7];
      var lineNumber := digits[7..11];
      GroupedNational(digits);
      Grouped(areaCode, prefix, lineNumber)
    else
      phone
  }

  /** The grouping of a US number: area code, prefix and line number are the
      national digits 0..3, 3..6 and 6..10; the result has 14 characters. */
  lemma {:induction false} FormatUS(phone: string)
    requires IsUSNumber(phone)
    ensures var n := NationalNumber(phone);
            Format(phone) == "(" + n[0..3] + ") " + n[3..6] + "-" + n[6..10]
    ensures |Format(phone)| == 14
  {
    FormatCondition(phone);
    var n := NationalNumber(phone);
    var d := Digits(Normalize(phone));
    assert d[1..] == n;
    assert d[1..4] == n[0..3] && d[4..7] == n[3..6] && d[7..11] == n[6..10];
    assert Format(phone) == Grouped(n[0..3], n[3..6], n[6..10]);
  }

  /** Displayed strings are fixed points of the formatter. */
  lemma {:induction false} FormatDisplayShape(s: string)
    requires DisplayShape(s)
    ensures IsUSNumber(s) && Format(s) == s
  {
    DisplayShapeDigits(s);
    var n := NationalNumber(s);
    assert n == DisplayGroups(s);
    FormatUS(s);
    assert n[0..3] == s[1..4] && n[3..6] == s[6..9] && n[6..10] == s[10..14];
  }

  /** Formatting twice is formatting once. */
  lemma {:induction false} FormatIdempotent(phone: string)
    ensures Format(Format(phone)) == Format(phone)
  {
    if IsUSNumber(phone) {
      FormatDisplayShape(Format(phone));
    }
  }

  /** Formatting loses nothing of the number: the formatted string
      normalises to the same E.164 number as the input. */
  lemma {:induction false} FormatKeepsNumber(phone: string)
    ensures Normalize(Format(phone)) == Normalize(phone)
  {
    if IsUSNumber(phone) {
      NormalizeSameNumber(Format(phone), phone);
    }
  }

  /** isValidPhoneNumber: the normalised number has 10 to 15 digits. */
  function IsValid(phone: string): (valid: bool)
    ensures valid <==> 10 <= |Digits(phone)| <= 15
  {
    var normalized := Normalize(phone);
    var digits := Digits(normalized);
    |digits| >= 10 && |digits| <= 15
  }

  /** Validity is unchanged by normalisation, and every US number is valid. */
  lemma {:induction false} IsValidNormalize(phone: string)
    ensures IsValid(Normalize(phone)) == IsValid(phone)
    ensures IsUSNumber(phone) ==> IsValid(phone)
  {
  }
}
