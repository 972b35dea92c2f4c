/**
 * Go's strconv.ParseUint(s, 0, 64), the call uiAccess uses to read a port
 * number, and strconv.FormatUint(n, 10) as the decimal rendering it inverts.
 *
 * With base 0 the base comes from the text: "0x"/"0X" is hexadecimal, "0o"/"0O"
 * octal, "0b"/"0B" binary, any other leading "0" octal, otherwise decimal;
 * underscores may separate digits. Every failure (syntax or range) is `None`.
 */
module GoStrconv {
  import opened Wrappers

  const MaxUint64: nat := 0xFFFF_FFFF_FFFF_FFFF

  /** ASCII lower-casing, as strconv's `lower` does for letters. */
  function Lower(c: char): char
  {
    if 'A' <= c <= 'Z' then (c as int + 32) as char else c
  }

  /** The value strconv gives a digit character in any base: 0-9, then a-z (either case) as 10-35. */
  function DigitValue(c: char): (d: Option<nat>)
    ensures d.Some? ==> d.value < 36
    ensures d.Some? && d.value < 10 <==> '0' <= c <= '9'
  {
    if '0' <= c <= '9' then Some(c as int - '0' as int)
    else if 'a' <= Lower(c) <= 'z' then Some(Lower(c) as int - 'a' as int + 10)
    else None
  }

  /** The base and the digit text ParseUint with base 0 reads from a non-empty `s`. */
  function Base0(s: string): (r: (nat, string))
    requires s != []
    ensures r.0 in {2, 8, 10, 16}
    ensures r.0 == 10 <==> s[0] != '0'
    ensures |r.1| < |s| <==> s[0] == '0'
  {
    if s[0] == '0' then
      if |s| >= 3 && Lower(s[1]) == 'b' then (2, s[2..])
      else if |s| >= 3 && Lower(s[1]) == 'o' then (8, s[2..])
      else if |s| >= 3 && Lower(s[1]) == 'x' then (16, s[2..])
      else (8, s[1..])
    else (10, s)
  }

  /**
   * ParseUint's digit loop from accumulated value `n`: underscores are skipped,
   * a character that is not a digit below `base` is a syntax error, and a step
   * whose value `n * base + d` exceeds MaxUint64 is a range error.
   */
  function Accumulate(ds: string, base: nat, n: nat): (r: Option<nat>)
    requires n <= MaxUint64
    ensures r.Some? ==> r.value <= MaxUint64
  {
    if ds == [] then Some(n)
    else if ds[0] == '_' then Accumulate(ds[1..], base, n)
    else match DigitValue(ds[0])
      case None => None
      case Some(d) =>
        if d >= base || n * base + d > MaxUint64 then None
        else Accumulate(ds[1..], base, n * base + d)
  }

  /** Whether a digit or base prefix, an underscore, or something else was seen last. */
  datatype Seen = Start | Digit | Underscore | Other

  /** strconv's underscoreOK after the optional sign and base prefix: every '_' sits between digits. */
  function UnderscoresBetweenDigits(t: string, hex: bool, saw: Seen): bool
  {
    if t == [] then saw != Underscore
    else if '0' <= t[0] <= '9' || (hex && 'a' <= Lower(t[0]) <= 'f') then
      UnderscoresBetweenDigits(t[1..], hex, Digit)
    else if t[0] == '_' then
      saw == Digit && UnderscoresBetweenDigits(t[1..], hex, Underscore)
    else
      saw != Underscore && UnderscoresBetweenDigits(t[1..], hex, Other)
  }

  /** strconv's underscoreOK: a base prefix counts as a digit. */
  function UnderscoreOK(s: string): bool
  {
    var t := if |s| >= 1 && (s[0] == '-' || s[0] == '+') then s[1..] else s;
    if |t| >= 2 && t[0] == '0' && Lower(t[1]) in {'b', 'o', 'x'} then
      UnderscoresBetweenDigits(t[2..], Lower(t[1]) == 'x', Digit)
    else
      UnderscoresBetweenDigits(t, false, Start)
  }

  /** strconv.ParseUint(s, 0, 64); `None` stands for its error. */
  function ParseUint(s: string): (r: Option<nat>)
    ensures r.Some? ==> s != [] && r.value <= MaxUint64
  {
    if s == [] then None
    else
      var (base, ds) := Base0(s);
      match Accumulate(ds, base, 0)
      case None => None
      case Some(n) => if '_' in ds && !UnderscoreOK(s) then None else Some(n)
  }

  /** strconv.FormatUint(n, 10): decimal digits, no leading zero. */
  function Decimal(n: nat): (s: string)
    ensures |s| >= 1 && forall i | 0 <= i < |s| :: '0' <= s[i] <= '9'
    ensures n > 0 ==> s[0] != '0'
  {
    if n < 10 then ["0123456789"[n]]
    else Decimal(n / 10) + ["0123456789"[n % 10]]
  }

  /** Running the digit loop over a concatenation runs it over each part in turn. */
  lemma {:induction false} AccumulateAppend(s: string, t: string, base: nat, n: nat)
    requires n <= MaxUint64
    ensures Accumulate(s + t, base, n) ==
            match Accumulate(s, base, n)
            case None => None
            case Some(m) => Accumulate(t, base, m)
  {
    if s != [] {
      assert (s + t)[0] == s[0] && (s + t)[1..] == s[1..] + t;
      if s[0] == '_' {
        AccumulateAppend(s[1..], t, base, n);
      } else if DigitValue(s[0]).Some? {
        var d := DigitValue(s[0]).value;
        if d < base && n * base + d <= MaxUint64 {
          AccumulateAppend(s[1..], t, base, n * base + d);
        }
      }
    } else {
      assert s + t == t;
    }
  }

  /** Every character of `ds` is an underscore or a digit below `base`. */
  predicate DigitsIn(ds: string, base: nat)
  {
    forall i | 0 <= i < |ds| :: ds[i] == '_' || (DigitValue(ds[i]).Some? && DigitValue(ds[i]).value < base)
  }

  /**
   * The number digit text denotes in `base`, by Horner's rule recursing from
   * the right end: the value of all but the last character times the base,
   * plus the last digit. Underscores are skipped, and so are characters that
   * are not digits (DigitsIn rules those out wherever Value is used).
   */
  function Value(ds: string, base: nat): nat
  {
    if ds == [] then 0
    else
      var init, last := ds[..|ds| - 1], ds[|ds| - 1];
      if last == '_' then Value(init, base)
      else match DigitValue(last)
        case None => Value(init, base)
        case Some(d) => Value(init, base) * base + d
  }

  /**
   * The digit loop started from zero computes Value: it succeeds exactly when
   * every character is an underscore or a digit below the base and the value
   * fits in 64 bits, and then yields that value.
   */
  lemma {:induction false} AccumulateValue(ds: string, base: nat)
    ensures Accumulate(ds, base, 0) ==
            if DigitsIn(ds, base) && Value(ds, base) <= MaxUint64 then Some(Value(ds, base)) else None
  {
    if ds != [] {
      var init, c := ds[..|ds| - 1], ds[|ds| - 1];
      assert ds == init + [c];
      assert DigitsIn(ds, base) <==>
             DigitsIn(init, base) && (c == '_' || (DigitValue(c).Some? && DigitValue(c).value < base)) by {
        assert forall i | 0 <= i < |init| :: init[i] == ds[i];
      }
      AccumulateValue(init, base);
      AccumulateAppend(init, [c], base, 0);
      assert [c][1..] == [];
      if c != '_' && DigitValue(c).Some? && DigitValue(c).value < base {
        ValueGrows(Value(init, base), base, DigitValue(c).value);
      }
    }
  }

  /** Appending a digit never makes the value smaller. */
  lemma ValueGrows(v: nat, base: nat, d: nat)
    requires d < base
    ensures v <= v * base + d
  {
  }

  /** Decimal digits run through the digit loop give their value, or a range error beyond MaxUint64. */
  lemma {:induction false} AccumulateDecimal(n: nat)
    ensures Accumulate(Decimal(n), 10, 0) == if n <= MaxUint64 then Some(n) else None
  {
    var digit := "0123456789"[n % 10];
    DecimalDigit(n % 10);
    if n >= 10 {
      var q := n / 10;
      assert Decimal(n) == Decimal(q) + [digit];
      AccumulateDecimal(q);
      AccumulateAppend(Decimal(q), [digit], 10, 0);
      if q <= MaxUint64 {
        AccumulateLastDigit(q, n % 10, digit);
        assert q * 10 + n % 10 == n;
      }
    } else {
      assert Decimal(n) == [digit];
      AccumulateLastDigit(0, n, digit);
    }
  }

  /** The character FormatUint writes for a decimal digit reads back as that digit. */
  lemma DecimalDigit(d: nat)
    requires d < 10
    ensures DigitValue("0123456789"[d]) == Some(d)
  {
  }

  /** One more decimal digit multiplies by ten and adds it, within the 64-bit range. */
  lemma AccumulateLastDigit(q: nat, d: nat, c: char)
    requires q <= MaxUint64 && d < 10 && DigitValue(c) == Some(d)
    ensures Accumulate([c], 10, q) == if q * 10 + d <= MaxUint64 then Some(q * 10 + d) else None
  {
    assert [c][1..] == [];
  }

  /** ParseUint reads back exactly the numbers FormatUint renders, and refuses larger ones. */
  lemma ParseDecimal(n: nat)
    ensures ParseUint(Decimal(n)) == if n <= MaxUint64 then Some(n) else None
  {
    var s := Decimal(n);
    AccumulateDecimal(n);
    if n == 0 {
      assert s == "0";
    } else {
      assert Base0(s) == (10, s);
      assert '_' !in s;
    }
  }

  /** The accepted parse: well-formed digits after the base prefix, a value within 64 bits, and underscores only between digits. */
  predicate Accepted(s: string, base: nat, ds: string)
  {
    DigitsIn(ds, base) && Value(ds, base) <= MaxUint64 && ('_' in ds ==> UnderscoreOK(s))
  }

  /** ParseUint yields the value of the text after the base prefix exactly when that text is accepted. */
  lemma ParseUintValue(s: string)
    requires s != []
    ensures ParseUint(s) == if Accepted(s, Base0(s).0, Base0(s).1) then Some(Value(Base0(s).1, Base0(s).0)) else None
  {
    AccumulateValue(Base0(s).1, Base0(s).0);
  }

  /** "0b"/"0B", "0o"/"0O" and "0x"/"0X" followed by at least one character read the rest in base 2, 8 and 16. */
  lemma ParsePrefixed(p: char, ds: string)
    requires Lower(p) in {'b', 'o', 'x'} && ds != []
    ensures var base := if Lower(p) == 'b' then 2 else if Lower(p) == 'o' then 8 else 16;
            ParseUint(['0', p] + ds) == if Accepted(['0', p] + ds, base, ds) then Some(Value(ds, base)) else None
  {
    var s := ['0', p] + ds;
    assert s[0] == '0' && s[1] == p && s[2..] == ds;
    ParseUintValue(s);
  }

  /** Any other leading "0", including a lone "0b", "0o" or "0x", reads the rest in base 8; a lone "0" is zero. */
  lemma ParseLeadingZero(ds: string)
    requires !(|ds| >= 2 && Lower(ds[0]) in {'b', 'o', 'x'})
    ensures ParseUint(['0'] + ds) == if Accepted(['0'] + ds, 8, ds) then Some(Value(ds, 8)) else None
  {
    var s := ['0'] + ds;
    assert s[0] == '0' && s[1..] == ds;
    assert |s| >= 3 ==> s[1] == ds[0];
    ParseUintValue(s);
  }

  /** Text that does not start with "0" reads in base 10 from its first character. */
  lemma ParseNoPrefix(s: string)
    requires s != [] && s[0] != '0'
    ensures ParseUint(s) == if Accepted(s, 10, s) then Some(Value(s, 10)) else None
  {
    ParseUintValue(s);
  }

  /** A leading "0x" reads hexadecimal, "0b" binary, and a bare leading "0" octal. */
  lemma PrefixExamples()
    ensures ParseUint("0x1F") == Some(31)
    ensures ParseUint("0b101") == Some(5)
    ensures ParseUint("010") == Some(8)
    ensures ParseUint("08") == None
    ensures ParseUint("0") == Some(0)
  {
  }

  /** Underscores are allowed only between digits. */
  lemma UnderscoreExamples()
    ensures ParseUint("1_000") == Some(1000)
    ensures ParseUint("_1") == None
    ensures ParseUint("1__0") == None
  {
    assert UnderscoreOK("1_000");
    assert Accumulate("1_000", 10, 0) == Some(1000);
  }

  /** Empty text and trailing letters are syntax errors. */
  lemma SyntaxErrorExamples()
    ensures ParseUint("") == None
    ensures ParseUint("80a") == None
    ensures ParseUint("-1") == None
  {
    assert DigitValue('a') == Some(10);
    assert Accumulate("a", 10, 80) == None;
    assert Accumulate("0a", 10, 8) == None;
  }
}
