/**
  Which texts are numbers, without the parser: the decimal form that strtod reads (section 7.22.1.3 of ISO/IEC 9899:2011),
  an optional minus sign in front.
 */
module JsonNumbers {
  import opened JsonText
  import opened JsonTree
  import opened JsonParser
  import opened JsonRoundTrip

  predicate DigitAt(s: Bytes, i: nat) {
    i < |s| && 48 <= s[i] <= 57
  }

  /** A point, or an exponent with a digit: the number goes on behind its first digits. */
  predicate GoesOn(rest: Bytes) {
    rest != [] &&
    (rest[0] == 46
     || ((rest[0] == 69 || rest[0] == 101)
         && (DigitAt(rest, 1) || (|rest| > 1 && (rest[1] == 43 || rest[1] == 45) && DigitAt(rest, 2)))))
  }

  ghost predicate AllDigits(digits: Bytes) {
    forall i :: 0 <= i < |digits| ==> 48 <= digits[i] <= 57
  }

  /** The number that digits stand for, the most significant first. */
  function Magnitude(digits: Bytes): int
    requires forall i :: 0 <= i < |digits| ==> 48 <= digits[i] <= 57
  {
    if digits == [] then 0 else (digits[0] as int - 48) * Power(|digits| - 1) + Magnitude(digits[1..])
  }

  function Power(n: nat): nat {
    if n == 0 then 1 else 10 * Power(n - 1)
  }

  lemma {:induction false} MagnitudeNext(digits: Bytes)
    requires AllDigits(digits) && digits != []
    ensures var last := |digits| - 1; Magnitude(digits) == Magnitude(digits[..last]) * 10 + (digits[last] as int - 48)
  {
    var last := |digits| - 1;
    if last == 0 {
      assert digits[1..] == [] && digits[..0] == [];
    } else {
      MagnitudeNext(digits[1..]);
      assert digits[1..][..last - 1] == digits[..last][1..];
      var d := digits[0] as int - 48;
      assert Power(last) == 10 * Power(last - 1);
      assert d * (10 * Power(last - 1)) == d * Power(last - 1) * 10;
    }
  }

  lemma {:induction false} ValueIsMagnitude(digits: Bytes)
    requires AllDigits(digits)
    ensures DigitsValue(digits) == Magnitude(digits)
  {
    if digits != [] {
      ValueIsMagnitude(digits[..|digits| - 1]);
      MagnitudeNext(digits);
    }
  }

  // ----- What the parser sees of a text -----

  lemma {:induction false} TokenSplit(t: Bytes, rest: Bytes)
    requires forall i :: 0 <= i < |t| ==> IsNumberByte(t[i])
    ensures Token(t + rest) == t + Token(rest)
  {
    if t == [] {
      assert t + rest == rest;
    } else {
      assert (t + rest)[1..] == t[1..] + rest;
      TokenSplit(t[1..], rest);
    }
  }

  lemma {:induction false} DigitsCounted(digits: Bytes, rest: Bytes)
    requires AllDigits(digits) && !DigitAt(rest, 0)
    ensures DigitCount(digits + rest) == |digits|
  {
    if digits == [] {
      assert digits + rest == rest;
    } else {
      assert (digits + rest)[1..] == digits[1..] + rest;
      DigitsCounted(digits[1..], rest);
    }
  }

  lemma SomeDigit(s: Bytes)
    ensures DigitCount(s) > 0 <==> DigitAt(s, 0)
  {}

  /** The bytes that decide whether a number goes on are in the token. */
  lemma TokenKeeps(rest: Bytes)
    ensures var t := Token(rest);
      t <= rest && (rest != [] && IsNumberByte(rest[0]) ==> t != [])
      && (|rest| > 1 && IsNumberByte(rest[0]) && IsNumberByte(rest[1]) ==> |t| > 1)
      && (|rest| > 2 && IsNumberByte(rest[0]) && IsNumberByte(rest[1]) && IsNumberByte(rest[2]) ==> |t| > 2)
  {
    if |rest| > 2 {
      assert rest[1..][1..] == rest[2..];
    }
  }

  lemma TokenGoesOn(rest: Bytes)
    ensures Continues(Token(rest)) <==> GoesOn(rest)
    ensures !DigitAt(rest, 0) ==> !DigitAt(Token(rest), 0)
    ensures var t := Token(rest);
      (t != [] && t[0] == 46 && DigitAt(t[1..], 0)) <==> (rest != [] && rest[0] == 46 && DigitAt(rest, 1))
  {
    hide Token, DigitCount;
    TokenKeeps(rest);
    var t := Token(rest);
    if t != [] {
      SomeDigit(t[1..]);
      if |t| > 1 {
        SomeDigit(t[2..]);
      }
    }
  }

  /**
    A minus sign or nothing, all digits that follow, and the rest. The number is an int exactly if there is a digit, it
    does not go on, and its value fits; what goes on or does not fit is some other number; without a digit there is none,
    unless a point and a digit follow the sign.
   */
  lemma NumberExactly(minus: bool, digits: Bytes, rest: Bytes)
    requires AllDigits(digits) && !DigitAt(rest, 0) && (minus || digits != [])
    ensures
      var n := if minus then -Magnitude(digits) else Magnitude(digits);
      ParseNumber((if minus then [MINUS] else []) + digits + rest) ==
        if digits == [] then if rest != [] && rest[0] == 46 && DigitAt(rest, 1) then Unmodelled else Rejected
        else if GoesOn(rest) || n < -0x8000_0000 || n > 0x7FFF_FFFF then Unmodelled
        else Ok(Number(n), rest)
  {
    hide Token, DigitCount, DigitsValue, Magnitude, Continues, GoesOn, ReadNumber;
    var front := (if minus then [MINUS] else []) + digits;
    var s := front + rest;
    TokenSplit(front, rest);
    TokenGoesOn(rest);
    ValueIsMagnitude(digits);
    TokenRead(minus, digits, Token(rest));
    assert s[|front|..] == rest;
  }

  lemma TokenRead(minus: bool, digits: Bytes, more: Bytes)
    requires AllDigits(digits) && !DigitAt(more, 0) && (minus || digits != [])
    ensures
      var front := (if minus then [MINUS] else []) + digits;
      var v: int := DigitsValue(digits);
      var n := if minus then -v else v;
      ReadNumber(front + more) ==
        if digits == [] then if more != [] && more[0] == DOT && DigitAt(more[1..], 0) then OtherNumber else NoNumber
        else if Continues(more) then OtherNumber
        else if IsInt(n) then Integer(n, |front|) else OtherNumber
  {
    hide DigitsValue, Continues, DigitCount;
    var front := (if minus then [MINUS] else []) + digits;
    var token := front + more;
    DigitsCounted(digits, more);
    assert token[if minus then 1 else 0..] == digits + more;
    assert (digits + more)[|digits|..] == more && (digits + more)[..|digits|] == digits;
    if digits == [] && more != [] {
      SomeDigit(more[1..]);
    }
  }
}
