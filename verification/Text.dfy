/** The string functions the parsers rely on, with the laws that tie each to its inverse. */
module Text {

  datatype Option<+T> = None | Some(value: T)

  // ----- Splitting -----

  /** The pieces of `s` between occurrences of `sep`: one more piece than there are separators. */
  function Split(s: string, sep: char): (parts: seq<string>)
    ensures parts != []
  {
    if s == "" then [""]
    else
      var rest := Split(s[1..], sep);
      if s[0] == sep then [""] + rest else [[s[0]] + rest[0]] + rest[1..]
  }

  function Join(parts: seq<string>, sep: char): string {
    if parts == [] then ""
    else if |parts| == 1 then parts[0]
    else parts[0] + [sep] + Join(parts[1..], sep)
  }

  lemma {:induction false} SplitFirst(part: string, sep: char, rest: string)
    requires sep !in part
    ensures Split(part, sep) == [part]
    ensures Split(part + [sep] + rest, sep) == [part] + Split(rest, sep)
  {
    var s := part + [sep] + rest;
    if part == "" {
      assert s[1..] == rest;
    } else {
      SplitFirst(part[1..], sep, rest);
      assert s[1..] == part[1..] + [sep] + rest;
      assert [part[0]] + part[1..] == part;
    }
  }

  lemma {:induction false} SplitJoin(parts: seq<string>, sep: char)
    requires parts != [] && forall part | part in parts :: sep !in part
    ensures Split(Join(parts, sep), sep) == parts
  {
    if |parts| == 1 {
      SplitFirst(parts[0], sep, "");
    } else {
      SplitJoin(parts[1..], sep);
      SplitFirst(parts[0], sep, Join(parts[1..], sep));
      assert parts == [parts[0]] + parts[1..];
    }
  }

  lemma JoinEmptyFirst(rest: seq<string>, sep: char)
    requires rest != []
    ensures Join([""] + rest, sep) == [sep] + Join(rest, sep)
  {
    assert ([""] + rest)[1..] == rest;
  }

  lemma JoinLongerFirst(c: char, rest: seq<string>, sep: char)
    requires rest != []
    ensures Join([[c] + rest[0]] + rest[1..], sep) == [c] + Join(rest, sep)
  {
    var parts := [[c] + rest[0]] + rest[1..];
    if |rest| == 1 {
      assert parts == [[c] + rest[0]];
    } else {
      assert parts[1..] == rest[1..];
      assert [c] + rest[0] + [sep] + Join(rest[1..], sep) == [c] + (rest[0] + [sep] + Join(rest[1..], sep));
    }
  }

  lemma {:induction false} JoinSplit(s: string, sep: char)
    ensures Join(Split(s, sep), sep) == s
    ensures forall part | part in Split(s, sep) :: sep !in part
  {
    if s == "" {
    } else {
      var rest := Split(s[1..], sep);
      JoinSplit(s[1..], sep);
      JoinEmptyFirst(rest, sep);
      JoinLongerFirst(s[0], rest, sep);
      assert s == [s[0]] + s[1..];
    }
  }

  /** Two parts around one separator. */
  lemma SplitPair(a: string, sep: char, b: string)
    requires sep !in a && sep !in b
    ensures Split(a + [sep] + b, sep) == [a, b]
  {
    SplitFirst(a, sep, b);
    SplitFirst(b, sep, "");
  }

  predicate HasPrefix(s: string, prefix: string) {
    prefix <= s
  }

  lemma HasPrefixIff(s: string, prefix: string)
    ensures HasPrefix(s, prefix) <==> exists rest :: s == prefix + rest
  {
    if HasPrefix(s, prefix) { assert s == prefix + s[|prefix|..]; }
  }

  // ----- Decimal numbers -----

  predicate IsDigit(c: char) {
    '0' <= c <= '9'
  }

  function Digit(d: nat): char
    requires d < 10
  {
    '0' + d as char
  }

  function Decimal(n: nat): string {
    if n < 10 then [Digit(n)] else Decimal(n / 10) + [Digit(n % 10)]
  }

  predicate AllDigits(s: string) {
    forall i | 0 <= i < |s| :: IsDigit(s[i])
  }

  function DigitsValue(s: string): nat
    requires AllDigits(s)
  {
    if s == "" then 0 else 10 * DigitsValue(s[..|s| - 1]) + (s[|s| - 1] as int - '0' as int)
  }

  lemma {:induction false} DecimalRoundTrip(n: nat)
    ensures Decimal(n) != "" && AllDigits(Decimal(n)) && DigitsValue(Decimal(n)) == n
  {
    if n < 10 {
      assert Decimal(n)[..0] == "";
    } else {
      DecimalRoundTrip(n / 10);
      assert Decimal(n)[..|Decimal(n)| - 1] == Decimal(n / 10);
    }
  }

  /** The ten digits, and the positional notation. */
  lemma DecimalIsPositional(n: nat, d: nat)
    requires d < 10
    ensures Decimal(d) == ["0123456789"[d]]
    ensures 0 < n ==> Decimal(10 * n + d) == Decimal(n) + ["0123456789"[d]]
  {
    assert "0123456789"[d] == '0' + d as char;
    assert (10 * n + d) / 10 == n && (10 * n + d) % 10 == d;
  }

  function Zeros(n: nat): string {
    seq(n, i requires 0 <= i < n => '0')
  }

  lemma {:induction false} AppendDigit(s: string, c: char)
    requires AllDigits(s) && IsDigit(c)
    ensures AllDigits(s + [c]) && DigitsValue(s + [c]) == 10 * DigitsValue(s) + (c as int - '0' as int)
  {
    assert (s + [c])[..|s + [c]| - 1] == s;
  }

  lemma {:induction false} ZerosValue(n: nat)
    ensures AllDigits(Zeros(n)) && DigitsValue(Zeros(n)) == 0
  {
    if n != 0 {
      ZerosValue(n - 1);
      AppendDigit(Zeros(n - 1), '0');
      assert Zeros(n) == Zeros(n - 1) + ['0'];
    }
  }

  lemma {:induction false} ZerosThenDecimal(zeros: nat, n: nat)
    ensures AllDigits(Zeros(zeros) + Decimal(n)) && DigitsValue(Zeros(zeros) + Decimal(n)) == n
  {
    ZerosValue(zeros);
    if n < 10 {
      AppendDigit(Zeros(zeros), Digit(n));
    } else {
      ZerosThenDecimal(zeros, n / 10);
      AppendDigit(Zeros(zeros) + Decimal(n / 10), Digit(n % 10));
      assert Zeros(zeros) + Decimal(n) == Zeros(zeros) + Decimal(n / 10) + [Digit(n % 10)];
    }
  }

  /** Every non-empty string of digits is the decimal form of its value, after some zeros. */
  lemma {:induction false} DigitsAreDecimal(s: string) returns (zeros: nat)
    requires s != "" && AllDigits(s)
    ensures s == Zeros(zeros) + Decimal(DigitsValue(s))
  {
    var init, d := s[..|s| - 1], s[|s| - 1] as int - '0' as int;
    assert s == init + [s[|s| - 1]];
    if init == "" {
      zeros := 0;
      assert DigitsValue(s) == d;
    } else {
      var before := DigitsAreDecimal(init);
      DecimalIsPositional(DigitsValue(init), d);
      if DigitsValue(init) == 0 {
        zeros := before + 1;
        assert Zeros(zeros) == Zeros(before) + Decimal(0);
      } else {
        zeros := before;
        assert Zeros(zeros) + (Decimal(DigitsValue(init)) + [s[|s| - 1]]) == init + [s[|s| - 1]];
      }
    }
  }

  /** A signed decimal number that fits in 64 bits. */
  function Atoi(s: string): Option<int> {
    var signed := s != "" && s[0] in "+-";
    var digits := if signed then s[1..] else s;
    if digits == "" || !AllDigits(digits) then None
    else
      var n := (if signed && s[0] == '-' then -1 else 1) * DigitsValue(digits);
      if -0x8000_0000_0000_0000 <= n < 0x8000_0000_0000_0000 then Some(n) else None
  }

  lemma AtoiDecimal(n: nat)
    requires n < 0x8000_0000_0000_0000
    ensures Atoi(Decimal(n)) == Some(n)
  {
    DecimalRoundTrip(n);
    assert IsDigit(Decimal(n)[0]);
  }

  /** An unsigned decimal number that fits in 32 bits. */
  function ParseUint32(s: string): Option<nat> {
    if s == "" || !AllDigits(s) then None
    else if DigitsValue(s) < 0x1_0000_0000 then Some(DigitsValue(s)) else None
  }

  predicate IsSign(sign: string) {
    sign == "" || sign == "+" || sign == "-"
  }

  function WithSign(sign: string, size: nat): int {
    if sign == "-" then 0 - size else size
  }

  predicate FitsInt64(n: int) {
    -0x8000_0000_0000_0000 <= n < 0x8000_0000_0000_0000
  }

  lemma AtoiOfDigits(sign: string, digits: string)
    requires IsSign(sign) && digits != "" && AllDigits(digits)
    ensures Atoi(sign + digits) ==
      if FitsInt64(WithSign(sign, DigitsValue(digits))) then Some(WithSign(sign, DigitsValue(digits))) else None
  {
    var s := sign + digits;
    assert IsDigit(digits[0]);
    if sign == "" {
      assert s == digits;
    } else {
      assert s[0] == sign[0] && s[1..] == digits;
    }
  }

  lemma AtoiNeedsDigits(s: string) returns (sign: string, digits: string)
    requires Atoi(s).Some?
    ensures IsSign(sign) && digits != "" && AllDigits(digits) && s == sign + digits
  {
    if s[0] in "+-" {
      sign, digits := [s[0]], s[1..];
    } else {
      sign, digits := "", s;
    }
  }

  /** The text of a signed number: a sign or none, zeros, and the decimal form of its size. */
  predicate SpelledAs(s: string, sign: string, zeros: nat, size: nat) {
    IsSign(sign) && s == sign + (Zeros(zeros) + Decimal(size))
  }

  lemma AtoiOfSpelled(s: string, sign: string, zeros: nat, size: nat)
    requires SpelledAs(s, sign, zeros, size)
    ensures Atoi(s) == if FitsInt64(WithSign(sign, size)) then Some(WithSign(sign, size)) else None
  {
    ZerosThenDecimal(zeros, size);
    DecimalRoundTrip(size);
    AtoiOfDigits(sign, Zeros(zeros) + Decimal(size));
  }

  /** Exactly the texts that read as `n`: signed decimal numbers, leading zeros allowed, within 64 bits. */
  lemma AtoiIff(s: string, n: int)
    ensures Atoi(s) == Some(n) <==>
      FitsInt64(n) && exists sign, zeros: nat, size: nat :: SpelledAs(s, sign, zeros, size) && n == WithSign(sign, size)
  {
    if Atoi(s) == Some(n) {
      var sign, digits := AtoiNeedsDigits(s);
      var zeros := DigitsAreDecimal(digits);
      AtoiOfDigits(sign, digits);
      assert SpelledAs(s, sign, zeros, DigitsValue(digits)) && n == WithSign(sign, DigitsValue(digits));
    }
    if sign, zeros: nat, size: nat :| SpelledAs(s, sign, zeros, size) && n == WithSign(sign, size) {
      AtoiOfSpelled(s, sign, zeros, size);
    }
  }

  /** Exactly the texts that read as an unsigned 32-bit number. */
  lemma ParseUint32Iff(s: string, n: nat)
    ensures ParseUint32(s) == Some(n) <==> n < 0x1_0000_0000 && exists zeros: nat :: s == Zeros(zeros) + Decimal(n)
  {
    if ParseUint32(s) == Some(n) {
      var zeros := DigitsAreDecimal(s);
      assert s == Zeros(zeros) + Decimal(n);
    }
    if zeros: nat :| s == Zeros(zeros) + Decimal(n) {
      ZerosThenDecimal(zeros, n);
      DecimalRoundTrip(n);
      assert s != "";
    }
  }
}
