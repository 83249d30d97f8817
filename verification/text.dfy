/**
 * The two .NET string primitives the seed-data loader relies on:
 * `String.Split(char)` and `int.Parse(string)`, each with the inverse it
 * is proved against (`Join` and `ShowNat`).
 */
module Text {
  import opened Wrappers
  import opened Exceptions

  /** Number of occurrences of `c` in `s`. */
  function Count(s: string, c: char): nat {
    if s == [] then 0 else (if s[0] == c then 1 else 0) + Count(s[1..], c)
  }

  /**
   * `s.Split(sep)`: the pieces of `s` between occurrences of `sep`, empty
   * pieces included, so there is always one more piece than separators.
   */
  function Split(s: string, sep: char): (parts: seq<string>)
    ensures |parts| == Count(s, sep) + 1
    ensures forall i :: 0 <= i < |parts| ==> sep !in parts[i]
  {
    if s == [] then [""]
    else
      var rest := Split(s[1..], sep);
      if s[0] == sep then [""] + rest
      else [[s[0]] + rest[0]] + rest[1..]
  }

  /** `String.Join(sep, parts)` for a non-empty list of pieces. */
  function Join(parts: seq<string>, sep: char): string
    requires |parts| >= 1
  {
    if |parts| == 1 then parts[0] else parts[0] + [sep] + Join(parts[1..], sep)
  }

  /** Three pieces joined: the separator goes between neighbours only. */
  lemma JoinThree(a: string, b: string, c: string, sep: char)
    ensures Join([a, b, c], sep) == a + [sep] + b + [sep] + c
  {
    assert [a, b, c][1..] == [b, c];
    assert [b, c][1..] == [c];
    assert Join([b, c], sep) == b + [sep] + c;
    assert a + [sep] + (b + [sep] + c) == a + [sep] + b + [sep] + c;
  }

  /** Splitting and joining again gives back the original text. */
  lemma {:induction false} JoinSplit(s: string, sep: char)
    ensures Join(Split(s, sep), sep) == s
  {
    if s != [] {
      JoinSplit(s[1..], sep);
      var rest := Split(s[1..], sep);
      if s[0] != sep && |rest| > 1 {
        assert Split(s, sep)[1..] == rest[1..];
      }
    }
  }

  /** A separator-free head glues onto the first piece of whatever follows it. */
  lemma {:induction false} SplitPrepend(a: string, t: string, sep: char)
    requires sep !in a
    ensures Split(a + t, sep) == [a + Split(t, sep)[0]] + Split(t, sep)[1..]
  {
    var rest := Split(t, sep);
    if a == [] {
      assert a + t == t && a + rest[0] == rest[0];
    } else {
      assert (a + t)[0] == a[0] && (a + t)[1..] == a[1..] + t;
      SplitPrepend(a[1..], t, sep);
      var tail := Split(a[1..] + t, sep);
      assert tail[0] == a[1..] + rest[0] && tail[1..] == rest[1..];
      assert [a[0]] + (a[1..] + rest[0]) == a + rest[0];
    }
  }

  /** Joining separator-free pieces and splitting again gives back the pieces. */
  lemma {:induction false} SplitJoin(parts: seq<string>, sep: char)
    requires |parts| >= 1
    requires forall i :: 0 <= i < |parts| ==> sep !in parts[i]
    ensures Split(Join(parts, sep), sep) == parts
  {
    if |parts| == 1 {
      SplitPrepend(parts[0], "", sep);
      assert parts[0] + "" == parts[0];
    } else {
      var tail := Join(parts[1..], sep);
      SplitJoin(parts[1..], sep);
      assert parts[0] + [sep] + tail == parts[0] + ([sep] + tail);
      SplitPrepend(parts[0], [sep] + tail, sep);
      SplitAtSep(tail, sep);
      assert parts[0] + "" == parts[0];
      assert parts == [parts[0]] + parts[1..];
    }
  }

  /** A leading separator splits off an empty first piece. */
  lemma SplitAtSep(t: string, sep: char)
    ensures Split([sep] + t, sep) == [""] + Split(t, sep)
  {
    assert ([sep] + t)[1..] == t;
  }

  const Int32Max: int := 0x7FFF_FFFF
  const Int32Min: int := -0x8000_0000

  predicate IsDigit(c: char) {
    '0' <= c <= '9'
  }

  predicate AllDigits(s: string) {
    forall i :: 0 <= i < |s| ==> IsDigit(s[i])
  }

  /** Value of a decimal digit string, most significant digit first. */
  function DigitsValue(s: string): nat
    requires AllDigits(s)
  {
    if s == [] then 0 else 10 * DigitsValue(s[..|s| - 1]) + (s[|s| - 1] - '0') as int
  }

  /** The text after an optional leading sign. */
  function Unsigned(s: string): (digits: string)
    ensures |digits| <= |s| && digits == s[|s| - |digits|..]
  {
    if |s| > 0 && (s[0] == '-' || s[0] == '+') then s[1..] else s
  }

  /** The text `int.Parse` accepts: an optional sign, then at least one digit. */
  predicate IsIntegerText(s: string) {
    Unsigned(s) != [] && AllDigits(Unsigned(s))
  }

  /** The number an integer text denotes, negative exactly after a minus sign. */
  function IntegerValue(s: string): int
    requires IsIntegerText(s)
  {
    var magnitude: int := DigitsValue(Unsigned(s));
    if s[0] == '-' then -magnitude else magnitude
  }

  /**
   * `int.Parse(s)`: a signed decimal number in the range of a 32-bit int;
   * anything else is a FormatException, a value out of range an
   * OverflowException.
   */
  function ParseInt(s: string): (r: Result<int, Exception>)
    ensures r.Success? <==> IsIntegerText(s) && Int32Min <= IntegerValue(s) <= Int32Max
    ensures r.Success? ==> r.value == IntegerValue(s) && Int32Min <= r.value <= Int32Max
    ensures r.Failure? && r.error.Format? <==> !IsIntegerText(s)
    ensures r.Failure? ==> r.error == if IsIntegerText(s) then Overflow(s) else Format(s)
  {
    if !IsIntegerText(s) then Failure(Format(s))
    else
      var v := IntegerValue(s);
      if v < Int32Min || Int32Max < v then Failure(Overflow(s)) else Success(v)
  }

  /** `n` zero digits. */
  function Zeros(n: nat): (z: string)
    ensures |z| == n && AllDigits(z)
  {
    if n == 0 then "" else Zeros(n - 1) + "0"
  }

  /** Leading zeros do not change the value of a digit string. */
  lemma {:induction false} LeadingZeros(n: nat, t: string)
    requires AllDigits(t)
    ensures AllDigits(Zeros(n) + t) && DigitsValue(Zeros(n) + t) == DigitsValue(t)
    decreases |t|, n
  {
    var s := Zeros(n) + t;
    assert AllDigits(s) by {
      forall i | 0 <= i < |s| ensures IsDigit(s[i]) {
        if i < n {
          assert s[i] == Zeros(n)[i];
        } else {
          assert s[i] == t[i - n];
        }
      }
    }
    if t == [] {
      assert s == Zeros(n);
      if n > 0 {
        LeadingZeros(n - 1, t);
        assert s[..|s| - 1] == Zeros(n - 1) + t;
      }
    } else {
      LeadingZeros(n, t[..|t| - 1]);
      assert s[..|s| - 1] == Zeros(n) + t[..|t| - 1];
    }
  }

  /** Decimal text of a natural number, without sign or leading zeros. */
  function ShowNat(n: nat): string {
    if n < 10 then [('0' as int + n) as char]
    else ShowNat(n / 10) + [('0' as int + n % 10) as char]
  }

  /** `ShowNat` writes digits only, and reading them back gives the number. */
  lemma {:induction false} ShowNatDigits(n: nat)
    ensures ShowNat(n) != [] && AllDigits(ShowNat(n))
    ensures DigitsValue(ShowNat(n)) == n
  {
    if n >= 10 {
      ShowNatDigits(n / 10);
      var s := ShowNat(n);
      assert s[..|s| - 1] == ShowNat(n / 10);
    }
  }

  /** `int.Parse` inverts `ShowNat` on the non-negative 32-bit range. */
  lemma ParseShowNat(n: nat)
    requires n <= Int32Max
    ensures ParseInt(ShowNat(n)) == Success(n)
    ensures '-' !in ShowNat(n)
  {
    ParsePadded(n, 0);
    assert Zeros(0) + ShowNat(n) == ShowNat(n);
  }

  /**
   * `int.Parse` reads a zero-padded decimal text ("06"), with or without a
   * plus sign, as its value, and with a minus sign as the negated value.
   */
  lemma ParsePadded(n: nat, zeros: nat)
    requires n <= Int32Max
    ensures var t := Zeros(zeros) + ShowNat(n);
      && '-' !in t
      && ParseInt(t) == Success(n)
      && ParseInt("+" + t) == Success(n)
      && ParseInt("-" + t) == Success(-(n as int))
  {
    var t := Zeros(zeros) + ShowNat(n);
    ParseZeroPadded(n, zeros);
    PaddedDigits(n, zeros);
    ParseSigned(t, "+");
    ParseSigned(t, "-");
  }

  /** Decimal text of a number after `zeros` leading zeros, as in "06". */
  function Padded(n: nat, zeros: nat): string {
    Zeros(zeros) + ShowNat(n)
  }

  /** `int.Parse` reads a zero-padded decimal text as its value. */
  lemma ParseZeroPadded(n: nat, zeros: nat)
    requires n <= Int32Max
    ensures '-' !in Padded(n, zeros)
    ensures ParseInt(Padded(n, zeros)) == Success(n)
  {
    var t := Padded(n, zeros);
    PaddedDigits(n, zeros);
    ParseSigned(t, "");
    assert "" + t == t;
  }

  /** A digit string after no sign, a plus or a minus sign, as `int.Parse` sees it. */
  lemma ParseSigned(t: string, sign: string)
    requires t != [] && AllDigits(t) && t[0] != '-' && t[0] != '+'
    requires sign == "" || sign == "+" || sign == "-"
    requires DigitsValue(t) <= Int32Max
    ensures ParseInt(sign + t) == Success(if sign == "-" then -(DigitsValue(t) as int) else DigitsValue(t))
  {
    SignedText(t, sign);
    var v := IntegerValue(sign + t);
    assert v == if sign == "-" then -(DigitsValue(t) as int) else DigitsValue(t);
  }

  /** The sign in front of a digit string is what `Unsigned` strips and what the value's sign reads. */
  lemma SignedText(t: string, sign: string)
    requires t != [] && AllDigits(t) && t[0] != '-' && t[0] != '+'
    requires sign == "" || sign == "+" || sign == "-"
    ensures Unsigned(sign + t) == t && IsIntegerText(sign + t)
    ensures (sign + t)[0] == '-' <==> sign == "-"
  {
    var s := sign + t;
    if sign != "" {
      assert s[1..] == t;
    } else {
      assert s == t;
    }
  }

  /** A zero-padded decimal text is a non-empty digit string of the number, without sign. */
  lemma PaddedDigits(n: nat, zeros: nat)
    ensures var t := Zeros(zeros) + ShowNat(n);
      && t != [] && AllDigits(t) && DigitsValue(t) == n
      && t[0] != '-' && t[0] != '+' && '-' !in t
  {
    var t := Zeros(zeros) + ShowNat(n);
    ShowNatDigits(n);
    LeadingZeros(zeros, ShowNat(n));
    assert IsDigit(t[0]);
    assert '-' !in t by {
      forall i | 0 <= i < |t| ensures t[i] != '-' {
        assert IsDigit(t[i]);
      }
    }
  }

  /** The 32-bit range is asymmetric: "-2147483648" parses, "2147483648" overflows. */
  lemma ParseInt32Bounds()
    ensures ParseInt("-" + ShowNat(Int32Max + 1)) == Success(Int32Min)
    ensures ParseInt(ShowNat(Int32Max + 1)) == Failure(Overflow(ShowNat(Int32Max + 1)))
  {
    var t := ShowNat(Int32Max + 1);
    ShowNatDigits(Int32Max + 1);
    assert IsDigit(t[0]);
    assert Unsigned(t) == t;
    assert Unsigned("-" + t) == t;
  }
}
