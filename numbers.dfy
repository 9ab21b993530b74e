/** The two string-to-number conversions the request handling uses:
    `parseInt(s, 10)` (skip leading white space, one optional sign, then the
    longest run of decimal digits, NaN when that run is empty) and
    `Number(s)` as far as whole decimal numbers go, plus the decimal
    rendering of an integer that template literals produce. NaN is `None`. */
module Numbers {
  import opened Wrappers

  /** The ECMAScript WhiteSpace and LineTerminator code points, which both
      `parseInt` and `Number` skip. */
  predicate IsWhiteSpace(c: char)
  {
    || c == '\t' || c == '\n' || c == '\U{000B}' || c == '\U{000C}' || c == '\r'
    || c == ' ' || c == '\U{00A0}' || c == '\U{1680}' || '\U{2000}' <= c <= '\U{200A}'
    || c == '\U{2028}' || c == '\U{2029}' || c == '\U{202F}' || c == '\U{205F}'
    || c == '\U{3000}' || c == '\U{FEFF}'
  }

  predicate IsDigit(c: char)
  {
    '0' <= c <= '9'
  }

  predicate AllDigits(d: string)
  {
    forall i :: 0 <= i < |d| ==> IsDigit(d[i])
  }

  function DigitValue(c: char): int
  {
    c as int - '0' as int
  }

  function DigitChar(d: nat): (c: char)
    requires d < 10
    ensures IsDigit(c) && DigitValue(c) == d
  {
    ('0' as int + d) as char
  }

  /** `s` without its leading white space. */
  function TrimStart(s: string): (r: string)
    ensures |r| <= |s|
    ensures r == [] || !IsWhiteSpace(r[0])
  {
    if s != [] && IsWhiteSpace(s[0]) then TrimStart(s[1..]) else s
  }

  /** `s` without its trailing white space. */
  function TrimEnd(s: string): (r: string)
    ensures |r| <= |s|
    ensures r == [] || !IsWhiteSpace(r[|r| - 1])
  {
    if s != [] && IsWhiteSpace(s[|s| - 1]) then TrimEnd(s[..|s| - 1]) else s
  }

  /** `s` after one leading `-` or `+`, if there is one. */
  function Unsigned(t: string): string
  {
    if t != [] && (t[0] == '-' || t[0] == '+') then t[1..] else t
  }

  /** The length of the longest run of decimal digits at the front of `s`. */
  function DigitRun(s: string): (n: nat)
    ensures n <= |s|
  {
    if s != [] && IsDigit(s[0]) then 1 + DigitRun(s[1..]) else 0
  }

  /** The run `DigitRun` measures consists of digits and cannot be extended. */
  lemma {:induction false} DigitRunIsLongest(s: string)
    ensures forall i :: 0 <= i < DigitRun(s) ==> IsDigit(s[i])
    ensures DigitRun(s) == |s| || !IsDigit(s[DigitRun(s)])
  {
    if s != [] && IsDigit(s[0]) {
      DigitRunIsLongest(s[1..]);
    }
  }

  /** The value of a string of decimal digits, most significant first. */
  function DecimalValue(d: string): int
  {
    if d == [] then 0 else DecimalValue(d[..|d| - 1]) * 10 + DigitValue(d[|d| - 1])
  }

  /** The value of the digit run at the front of `u`, or NaN when `u` does
      not start with a digit. */
  function LeadingDigits(u: string): Option<int>
  {
    var n := DigitRun(u);
    if n == 0 then None else Some(DecimalValue(u[..n]))
  }

  /** Applies the sign at the front of `t`, if any, to the value after it. */
  function Signed(t: string, v: int): int
  {
    if t != [] && t[0] == '-' then -v else v
  }

  /** `parseInt(s, 10)`. */
  function ParseInt(s: string): Option<int>
  {
    var t := TrimStart(s);
    match LeadingDigits(Unsigned(t))
    case None => None
    case Some(v) => Some(Signed(t, v))
  }

  /** `Number(s)` on a string, for whole decimal numbers: surrounding white
      space is ignored, nothing left is 0, one optional sign followed by
      digits only is that integer, and anything else is NaN. */
  function NumberOf(s: string): Option<int>
  {
    var t := TrimEnd(TrimStart(s));
    var u := Unsigned(t);
    if t == [] then Some(0)
    else if u == [] || !AllDigits(u) then None
    else Some(Signed(t, DecimalValue(u)))
  }

  /** The decimal digits of `n`, without leading zeros. */
  function ShowNat(n: nat): (s: string)
    ensures s != []
  {
    if n < 10 then [DigitChar(n)] else ShowNat(n / 10) + [DigitChar(n % 10)]
  }

  /** The rendering consists of digits only. */
  lemma {:induction false} ShowNatDigits(n: nat)
    ensures AllDigits(ShowNat(n))
  {
    if n >= 10 {
      ShowNatDigits(n / 10);
    }
  }

  /** `${i}` for an integer `i`. */
  function ShowInt(i: int): (s: string)
    ensures s != []
  {
    if i < 0 then "-" + ShowNat(-i) else ShowNat(i)
  }

  /** Reading back the digits of `n` gives `n`. */
  lemma {:induction false} DecimalValueOfShowNat(n: nat)
    ensures DecimalValue(ShowNat(n)) == n
  {
    if n >= 10 {
      var d := ShowNat(n / 10);
      var s := d + [DigitChar(n % 10)];
      assert s[..|s| - 1] == d;
      DecimalValueOfShowNat(n / 10);
    }
  }

  /** A run of digits followed by a non-digit is exactly the digit run. */
  lemma {:induction false} DigitRunOfDigits(d: string, rest: string)
    requires AllDigits(d)
    requires rest == [] || !IsDigit(rest[0])
    ensures DigitRun(d + rest) == |d|
  {
    if d != [] {
      assert (d + rest)[1..] == d[1..] + rest;
      DigitRunOfDigits(d[1..], rest);
    }
  }

  /** `parseInt` of a string that starts with neither white space nor
      anything but a sign or a digit: the signed value of its digit run. */
  lemma {:induction false} ParseIntUnfold(t: string, v: int)
    requires t != [] && !IsWhiteSpace(t[0])
    requires LeadingDigits(Unsigned(t)) == Some(v)
    ensures ParseInt(t) == Some(Signed(t, v))
  {
  }

  /** The digit run of a string of digits followed by a non-digit is that
      string's value. */
  lemma {:induction false} LeadingDigitsOfDigits(d: string, rest: string)
    requires d != [] && AllDigits(d)
    requires rest == [] || !IsDigit(rest[0])
    ensures LeadingDigits(d + rest) == Some(DecimalValue(d))
  {
    DigitRunOfDigits(d, rest);
    assert (d + rest)[..|d|] == d;
  }

  /** `parseInt` reads a string of digits and stops at the first non-digit
      after them. */
  lemma {:induction false} ParseIntOfDigitString(d: string, rest: string)
    requires d != [] && AllDigits(d)
    requires rest == [] || !IsDigit(rest[0])
    ensures ParseInt(d + rest) == Some(DecimalValue(d))
  {
    var u := d + rest;
    LeadingDigitsOfDigits(d, rest);
    assert u[0] == d[0];
    ParseIntUnfold(u, DecimalValue(d));
  }

  /** The same with a sign in front: `+` keeps the value, `-` negates it. */
  lemma {:induction false} ParseIntOfSignedDigitString(sign: char, d: string, rest: string)
    requires sign == '+' || sign == '-'
    requires d != [] && AllDigits(d)
    requires rest == [] || !IsDigit(rest[0])
    ensures ParseInt([sign] + d + rest) == Some(if sign == '-' then -DecimalValue(d) else DecimalValue(d))
  {
    var u := d + rest;
    LeadingDigitsOfDigits(d, rest);
    var t := [sign] + u;
    assert [sign] + d + rest == t;
    assert t[1..] == u;
    ParseIntUnfold(t, DecimalValue(d));
  }

  /** `parseInt` reads the digits of `n` and stops at the first non-digit
      after them. */
  lemma {:induction false} ParseIntOfDigits(n: nat, rest: string)
    requires rest == [] || !IsDigit(rest[0])
    ensures ParseInt(ShowNat(n) + rest) == Some(n)
  {
    ShowNatDigits(n);
    ParseIntOfDigitString(ShowNat(n), rest);
    DecimalValueOfShowNat(n);
  }

  lemma {:induction false} ParseIntOfNegativeShowInt(i: int)
    requires i < 0
    ensures ParseInt(ShowInt(i)) == Some(i)
  {
    var d := ShowNat(-i);
    DecimalValueOfShowNat(-i);
    ShowNatDigits(-i);
    ParseIntOfSignedDigitString('-', d, []);
    assert ShowInt(i) == ['-'] + d + [];
  }

  /** `parseInt` reads `${i}` back as `i` whatever non-digit text follows
      it, as in a message that embeds the number. */
  lemma {:induction false} ParseIntOfShowIntFollowedBy(i: int, rest: string)
    requires rest == [] || !IsDigit(rest[0])
    ensures ParseInt(ShowInt(i) + rest) == Some(i)
  {
    if i < 0 {
      var d := ShowNat(-i);
      DecimalValueOfShowNat(-i);
      ShowNatDigits(-i);
      ParseIntOfSignedDigitString('-', d, rest);
      assert ShowInt(i) + rest == ['-'] + d + rest;
    } else {
      ParseIntOfDigits(i, rest);
    }
  }

  /** `parseInt` undoes the decimal rendering of an integer. */
  lemma {:induction false} ParseIntOfShowInt(i: int)
    ensures ParseInt(ShowInt(i)) == Some(i)
  {
    if i < 0 {
      ParseIntOfNegativeShowInt(i);
    } else {
      ParseIntOfDigits(i, []);
      assert ShowNat(i) + [] == ShowInt(i);
    }
  }

  /** Dropping leading white space first does not change the trimmed string. */
  lemma {:induction false} TrimStartSkips(ws: string, s: string)
    requires forall i :: 0 <= i < |ws| ==> IsWhiteSpace(ws[i])
    ensures TrimStart(ws + s) == TrimStart(s)
  {
    if ws == [] {
      assert ws + s == s;
    } else {
      assert IsWhiteSpace((ws + s)[0]);
      assert (ws + s)[1..] == ws[1..] + s;
      TrimStartSkips(ws[1..], s);
    }
  }

  /** Leading white space never changes what `parseInt` reads. */
  lemma {:induction false} ParseIntSkipsWhiteSpace(ws: string, s: string)
    requires forall i :: 0 <= i < |ws| ==> IsWhiteSpace(ws[i])
    ensures ParseInt(ws + s) == ParseInt(s)
  {
    TrimStartSkips(ws, s);
  }

  /** The result is NaN exactly when no digit follows the white space and
      one optional sign: the empty string, a bare sign, a doubled sign, a
      letter. */
  lemma {:induction false} ParseIntNaN(s: string)
    ensures ParseInt(s) == None <==>
      var u := Unsigned(TrimStart(s)); u == [] || !IsDigit(u[0])
  {
  }

  /** `Number` of a string with no surrounding white space and at least one
      character. */
  lemma {:induction false} NumberOfUnfold(t: string)
    requires t != [] && !IsWhiteSpace(t[0]) && !IsWhiteSpace(t[|t| - 1])
    ensures NumberOf(t) ==
      var u := Unsigned(t);
      if u == [] || !AllDigits(u) then None else Some(Signed(t, DecimalValue(u)))
  {
  }

  /** `Number` undoes the decimal rendering of an integer. */
  lemma {:induction false} NumberOfShowInt(i: int)
    ensures NumberOf(ShowInt(i)) == Some(i)
  {
    var m: nat := if i < 0 then -i else i;
    var d := ShowNat(m);
    DecimalValueOfShowNat(m);
    ShowNatDigits(m);
    var s := ShowInt(i);
    assert s[|s| - 1] == d[|d| - 1];
    NumberOfUnfold(s);
    if i < 0 {
      assert s[1..] == d;
    }
  }

  /** Where the two conversions part: for "12abc" `parseInt` reads 12 while
      `Number` is NaN; for the empty string `parseInt` is NaN while `Number`
      is 0; and `parseInt` with radix 10 reads "0x1A" as 0. */
  lemma {:induction false} ParseIntVersusNumber()
    ensures ParseInt("12abc") == Some(12) && NumberOf("12abc") == None
    ensures ParseInt("") == None && NumberOf("") == Some(0)
    ensures ParseInt("0x1A") == Some(0)
  {
    ParseIntOfTwelveAbc();
    NumberOfTwelveAbc();
    ParseIntOfHex();
  }

  lemma {:induction false} ParseIntOfTwelveAbc()
    ensures ParseInt("12abc") == Some(12)
  {
    assert "12"[..1] == "1";
    assert DecimalValue("12") == 12;
    ParseIntOfDigitString("12", "abc");
    assert "12" + "abc" == "12abc";
  }

  lemma {:induction false} NumberOfTwelveAbc()
    ensures NumberOf("12abc") == None
  {
    var t := "12abc";
    NumberOfUnfold(t);
    assert !IsDigit(Unsigned(t)[2]);
  }

  lemma {:induction false} ParseIntOfHex()
    ensures ParseInt("0x1A") == Some(0)
  {
    ParseIntOfDigitString("0", "x1A");
    assert "0" + "x1A" == "0x1A";
  }
}
