/** German numbers at the form boundary: how amounts and meter values are printed and read back. */
module GermanFormat {
  import opened Rows
  import opened Lists

  predicate Digit(c: char)
  {
    '0' <= c <= '9'
  }

  predicate AllDigits(s: string)
  {
    forall i | 0 <= i < |s| :: Digit(s[i])
  }

  /** Number.parseInt of a digit string. */
  function Value(s: string): int
    requires AllDigits(s)
  {
    if s == "" then 0 else Value(s[..|s| - 1]) * 10 + (s[|s| - 1] - '0') as int
  }

  /** toString of a non-negative integer. */
  function Digits(n: nat): string
  {
    if n < 10 then ['0' + n as char] else Digits(n / 10) + ['0' + (n % 10) as char]
  }

  function Zeros(n: int): string
    decreases n
  {
    if n <= 0 then "" else "0" + Zeros(n - 1)
  }

  function PadStart(s: string, width: nat): string
  {
    Zeros(width - |s|) + s
  }

  function PadEnd(s: string, width: nat): string
  {
    s + Zeros(width - |s|)
  }

  function TrimZeros(s: string): string
  {
    if s != "" && s[|s| - 1] == '0' then TrimZeros(s[..|s| - 1]) else s
  }

  /** A dot in front of every group of three digits, except at the start. */
  function Group(s: string): string
  {
    if |s| <= 3 then s else Group(s[..|s| - 3]) + "." + s[|s| - 3..]
  }

  // ---- Printing ---------------------------------------------------------------------------------------

  function Abs(n: int): nat { if n < 0 then -n else n }

  function Sign(n: int): string { if n < 0 then "-" else "" }

  function CentsToEurInput(cents: int): string
  {
    Sign(cents) + Digits(Abs(cents) / 100) + "," + PadStart(Digits(Abs(cents) % 100), 2)
  }

  function CentsToEurDisplay(cents: int): string
  {
    Sign(cents) + Group(Digits(Abs(cents) / 100)) + "," + PadStart(Digits(Abs(cents) % 100), 2) + [' ', '\U{20AC}']
  }

  /** JavaScript's remainder keeps the sign of the dividend, the quotient is rounded down. */
  function MeterValueToDisplay(value: int): string
  {
    var whole := value / 1000;
    var rest := if value >= 0 then value % 1000 else -(-value % 1000);
    var fraction := TrimZeros(PadStart(Sign(rest) + Digits(Abs(rest)), 3));
    var grouped := Sign(whole) + Group(Digits(Abs(whole)));
    if fraction != "" then grouped + "," + fraction else grouped
  }

  // ---- Reading ------------------------------------------------------------------------------------------

  predicate Space(c: char)
  {
    c == ' ' || c == '\t' || c == '\n' || c == '\r' || c == '\U{00A0}' || c == '\U{202F}'
  }

  predicate EuroOrSpace(c: char)
  {
    Space(c) || c == '\U{20AC}'
  }

  function Without(s: string, dropped: char -> bool): string
  {
    if s == "" then "" else (if dropped(s[0]) then "" else [s[0]]) + Without(s[1..], dropped)
  }

  function IsDot(): char -> bool
  {
    (c: char) => c == '.'
  }

  /** One to three digits, then groups of three behind dots. */
  predicate Grouped(s: string)
  {
    if |s| <= 3 then s != "" && AllDigits(s)
    else s[|s| - 4] == '.' && AllDigits(s[|s| - 3..]) && Grouped(s[..|s| - 4])
  }

  function CommaAt(s: string): nat
  {
    if s == "" || s[0] == ',' then 0 else 1 + CommaAt(s[1..])
  }

  lemma {:induction false} CommaBound(s: string)
    ensures CommaAt(s) <= |s|
    ensures CommaAt(s) < |s| ==> s[CommaAt(s)] == ','
  {
    if s != "" && s[0] != ',' {
      CommaBound(s[1..]);
    }
  }

  predicate WholePart(s: string)
  {
    Grouped(s) || (s != "" && AllDigits(s))
  }

  /** The accepted spellings, after blanks are gone. */
  predicate Accepted(s: string, decimals: nat)
  {
    var c := CommaAt(s);
    && c <= |s| && WholePart(s[..c])
    && (c < |s| ==> 1 <= |s[c + 1..]| <= decimals && AllDigits(s[c + 1..]))
  }

  function Power(decimals: nat): int
  {
    if decimals == 0 then 1 else 10 * Power(decimals - 1)
  }

  function Read(s: string, decimals: nat): Option<int>
  {
    if !Accepted(s, decimals) then None
    else
      var c := CommaAt(s);
      var fraction := if c < |s| then s[c + 1..] else "";
      WholeDigits(s[..c]);
      ZerosDigits(decimals - |fraction|);
      Some(Value(Without(s[..c], IsDot())) * Power(decimals) + Value(PadEnd(fraction, decimals)))
  }

  function ParseEurToCents(raw: string): Option<int>
  {
    Read(Without(raw, EuroOrSpace), 2)
  }

  function ParseMeterValueToX1000(raw: string): Option<int>
  {
    Read(Without(raw, Space), 3)
  }

  // ---- Digits ----------------------------------------------------------------------------------------------

  lemma {:induction false} ZerosDigits(n: int)
    ensures AllDigits(Zeros(n)) && |Zeros(n)| == if n < 0 then 0 else n
    ensures forall i | 0 <= i < |Zeros(n)| :: Zeros(n)[i] == '0'
    decreases n
  {
    if n > 0 {
      ZerosDigits(n - 1);
    }
  }

  lemma {:induction false} DigitsValue(n: nat)
    ensures AllDigits(Digits(n)) && Digits(n) != "" && Value(Digits(n)) == n
  {
    if n >= 10 {
      DigitsValue(n / 10);
      assert Digits(n)[..|Digits(n)| - 1] == Digits(n / 10);
    } else {
      assert Digits(n)[..0] == "";
    }
  }

  lemma {:induction false} DigitsLength(n: nat, width: nat)
    requires n < Power(width) && width > 0
    ensures |Digits(n)| <= width
  {
    if n >= 10 {
      DigitsLength(n / 10, width - 1);
    }
  }

  lemma {:induction false} ZerosInFront(n: int, s: string)
    requires AllDigits(s)
    ensures AllDigits(Zeros(n) + s) && Value(Zeros(n) + s) == Value(s)
    decreases |s|
  {
    ZerosDigits(n);
    if s == "" {
      ZerosAreNothing(n);
      assert Zeros(n) + s == Zeros(n);
    } else {
      var m := |s| - 1;
      ZerosInFront(n, s[..m]);
      assert (Zeros(n) + s)[..|Zeros(n) + s| - 1] == Zeros(n) + s[..m];
    }
  }

  lemma {:induction false} ZerosAreNothing(n: int)
    ensures AllDigits(Zeros(n)) && Value(Zeros(n)) == 0
    decreases n
  {
    ZerosDigits(n);
    if n > 0 {
      ZerosAreNothing(n - 1);
      ZerosDigits(n - 1);
      assert Zeros(n)[..|Zeros(n)| - 1] == Zeros(n - 1);
    }
  }

  /** A number below the power, padded to the width. */
  lemma PaddedDigits(n: nat, width: nat)
    requires n < Power(width) && width > 0
    ensures var padded := PadStart(Digits(n), width);
            |padded| == width && AllDigits(padded) && Value(padded) == n
  {
    hide Value, Digits, Zeros, Power;
    DigitsValue(n);
    DigitsLength(n, width);
    ZerosInFront(width - |Digits(n)|, Digits(n));
    ZerosDigits(width - |Digits(n)|);
  }

  lemma {:induction false} ZerosBack(n: int)
    requires n > 0
    ensures Zeros(n) == Zeros(n - 1) + "0"
    decreases n
  {
    if n > 1 {
      ZerosBack(n - 1);
      assert "0" + (Zeros(n - 2) + "0") == ("0" + Zeros(n - 2)) + "0";
    }
  }

  /** Trimmed zeros come back by padding. */
  lemma {:induction false} TrimThenPad(s: string)
    ensures |TrimZeros(s)| <= |s| && TrimZeros(s) + Zeros(|s| - |TrimZeros(s)|) == s
    ensures TrimZeros(s) <= s
  {
    if s != "" && s[|s| - 1] == '0' {
      TrimThenPad(s[..|s| - 1]);
      var t := TrimZeros(s);
      ZerosBack(|s| - |t|);
      assert s == s[..|s| - 1] + "0";
      assert t + (Zeros(|s| - |t| - 1) + "0") == (t + Zeros(|s| - |t| - 1)) + "0";
    }
  }

  // ---- Grouping ----------------------------------------------------------------------------------------------

  lemma {:induction false} WithoutConcat(a: string, b: string, dropped: char -> bool)
    ensures Without(a + b, dropped) == Without(a, dropped) + Without(b, dropped)
  {
    if a == "" {
      assert a + b == b;
    } else {
      WithoutConcat(a[1..], b, dropped);
      assert (a + b)[1..] == a[1..] + b;
      var head := if dropped(a[0]) then "" else [a[0]];
      assert head + (Without(a[1..], dropped) + Without(b, dropped))
          == (head + Without(a[1..], dropped)) + Without(b, dropped);
    }
  }

  lemma {:induction false} WithoutNothing(s: string, dropped: char -> bool)
    requires forall i | 0 <= i < |s| :: !dropped(s[i])
    ensures Without(s, dropped) == s
  {
    if s != "" {
      WithoutNothing(s[1..], dropped);
      assert s == [s[0]] + s[1..];
    }
  }

  lemma {:induction false} WithoutMembers(s: string, dropped: char -> bool)
    ensures forall c | c in Without(s, dropped) :: c in s && !dropped(c)
  {
    if s != "" {
      WithoutMembers(s[1..], dropped);
    }
  }

  lemma WholeDigits(s: string)
    requires WholePart(s)
    ensures AllDigits(Without(s, IsDot()))
  {
    if Grouped(s) {
      GroupedChars(s);
    }
    WithoutMembers(s, IsDot());
    var rest := Without(s, IsDot());
    forall i | 0 <= i < |rest| ensures Digit(rest[i]) {
      assert rest[i] in rest;
      assert rest[i] in s && rest[i] != '.';
      var j :| 0 <= j < |s| && s[j] == rest[i];
    }
  }

  lemma {:induction false} GroupedChars(s: string)
    requires Grouped(s)
    ensures forall i | 0 <= i < |s| :: Digit(s[i]) || s[i] == '.'
  {
    if |s| > 3 {
      var n := |s| - 4;
      GroupedChars(s[..n]);
      forall i | 0 <= i < |s| ensures Digit(s[i]) || s[i] == '.' {
        if i < n {
          assert s[i] == s[..n][i];
        } else if i > n {
          assert s[i] == s[n + 1..][i - n - 1];
        }
      }
    }
  }

  lemma AppendGroup(head: string, tail: string)
    requires Grouped(head) && |tail| == 3 && AllDigits(tail)
    ensures Grouped(head + "." + tail)
    ensures Without(head + "." + tail, IsDot()) == Without(head, IsDot()) + tail
  {
    var whole := head + "." + tail;
    GroupedNonEmpty(head);
    assert whole[..|whole| - 4] == head && whole[|whole| - 3..] == tail && whole[|whole| - 4] == '.';
    WithoutDot(head, tail);
  }

  lemma GroupedNonEmpty(s: string)
    requires Grouped(s)
    ensures s != ""
  {
  }

  lemma WithoutDot(head: string, tail: string)
    requires AllDigits(tail)
    ensures Without(head + "." + tail, IsDot()) == Without(head, IsDot()) + tail
  {
    WithoutConcat(head + ".", tail, IsDot());
    WithoutConcat(head, ".", IsDot());
    assert Without(".", IsDot()) == "" + Without("", IsDot());
    WithoutNothing(tail, IsDot());
    assert Without(head, IsDot()) + "" == Without(head, IsDot());
  }

  /** Grouped digits are well grouped, and without the dots they are the digits again. */
  lemma {:induction false} GroupThenUngroup(s: string)
    requires s != "" && AllDigits(s)
    ensures Grouped(Group(s)) && Without(Group(s), IsDot()) == s
  {
    hide Without;
    if |s| <= 3 {
      WithoutNothing(s, IsDot());
    } else {
      var n := |s| - 3;
      GroupThenUngroup(s[..n]);
      AppendGroup(Group(s[..n]), s[n..]);
      assert s == s[..n] + s[n..];
    }
  }

  // ---- Reading what was printed ---------------------------------------------------------------------------------

  lemma {:induction false} CommaAfter(a: string, b: string)
    requires ',' !in a
    ensures CommaAt(a + "," + b) == |a| && CommaAt(a) == |a|
  {
    if a == "" {
      assert a + "," + b == "," + b;
    } else {
      CommaAfter(a[1..], b);
      assert (a + "," + b)[1..] == a[1..] + "," + b;
    }
  }

  lemma NoComma(s: string)
    requires WholePart(s)
    ensures ',' !in s
  {
    if Grouped(s) {
      GroupedChars(s);
    }
  }

  /** A whole part, a comma and some decimals. */
  lemma ReadDecimals(whole: string, fraction: string, decimals: nat)
    requires WholePart(whole) && 1 <= |fraction| <= decimals && AllDigits(fraction)
    ensures AllDigits(Without(whole, IsDot())) && AllDigits(PadEnd(fraction, decimals))
    ensures Read(whole + "," + fraction, decimals)
         == Some(Value(Without(whole, IsDot())) * Power(decimals) + Value(PadEnd(fraction, decimals)))
  {
    NoComma(whole);
    CommaAfter(whole, fraction);
    var text := whole + "," + fraction;
    assert text[..|whole|] == whole && text[|whole| + 1..] == fraction;
    WholeDigits(whole);
    ZerosDigits(decimals - |fraction|);
  }

  lemma ReadWhole(whole: string, decimals: nat)
    requires WholePart(whole)
    ensures AllDigits(Without(whole, IsDot()))
    ensures Read(whole, decimals) == Some(Value(Without(whole, IsDot())) * Power(decimals))
  {
    NoComma(whole);
    CommaAfter(whole, "");
    assert whole[..|whole|] == whole;
    WholeDigits(whole);
    ZerosAreNothing(decimals);
    assert "" + Zeros(decimals) == Zeros(decimals);
  }

  /** Nothing that contains a minus sign is accepted. */
  lemma MinusRejected(s: string, decimals: nat)
    requires '-' in s
    ensures Read(s, decimals) == None
  {
    var c := CommaAt(s);
    CommaBound(s);
    if Accepted(s, decimals) {
      if Grouped(s[..c]) {
        GroupedChars(s[..c]);
      }
      forall i | 0 <= i < |s| ensures s[i] != '-' {
        if i < c {
          assert s[i] == s[..c][i];
        } else if i > c {
          assert s[i] == s[c + 1..][i - c - 1];
        }
      }
    }
  }

  lemma {:induction false} KeepsMinus(s: string, dropped: char -> bool)
    requires '-' in s && !dropped('-')
    ensures '-' in Without(s, dropped)
  {
    if s[0] != '-' {
      KeepsMinus(s[1..], dropped);
    }
  }

  /** The amount in an input field reads back to itself exactly when it is not negative. */
  lemma InputReadsBack(cents: int)
    ensures ParseEurToCents(CentsToEurInput(cents)) == if cents >= 0 then Some(cents) else None
  {
    var text := CentsToEurInput(cents);
    if cents < 0 {
      assert text[0] == '-';
      KeepsMinus(text, EuroOrSpace);
      MinusRejected(Without(text, EuroOrSpace), 2);
    } else {
      InputText(cents / 100, cents % 100);
      assert "" + Digits(cents / 100) == Digits(cents / 100);
    }
  }

  lemma InputText(euros: nat, rest: nat)
    requires rest < 100
    ensures ParseEurToCents(Digits(euros) + "," + PadStart(Digits(rest), 2)) == Some(euros * 100 + rest)
  {
    hide Value, Without, Digits, PadStart, Read;
    var digits, fraction := Digits(euros), PadStart(Digits(rest), 2);
    assert Power(2) == 100;
    DigitsValue(euros);
    PaddedDigits(rest, 2);
    WithoutNothing(digits + "," + fraction, EuroOrSpace);
    WithoutNothing(digits, IsDot());
    ReadDecimals(digits, fraction, 2);
    assert PadEnd(fraction, 2) == fraction + "" == fraction;
  }

  /** So does the grouped display with its currency sign. */
  lemma DisplayReadsBack(cents: int)
    ensures ParseEurToCents(CentsToEurDisplay(cents)) == if cents >= 0 then Some(cents) else None
  {
    var text := CentsToEurDisplay(cents);
    if cents < 0 {
      assert text[0] == '-';
      KeepsMinus(text, EuroOrSpace);
      MinusRejected(Without(text, EuroOrSpace), 2);
    } else {
      EurText(cents / 100, cents % 100);
      assert "" + Group(Digits(cents / 100)) == Group(Digits(cents / 100));
    }
  }

  lemma EurText(euros: nat, rest: nat)
    requires rest < 100
    ensures ParseEurToCents(Group(Digits(euros)) + "," + PadStart(Digits(rest), 2) + [' ', '\U{20AC}'])
              == Some(euros * 100 + rest)
  {
    hide Value, Without, Digits, Group, PadStart, Read;
    var digits, fraction := Digits(euros), PadStart(Digits(rest), 2);
    assert Power(2) == 100;
    DigitsValue(euros);
    PaddedDigits(rest, 2);
    GroupThenUngroup(digits);
    EuroSignIgnored(Group(digits), fraction);
    ReadDecimals(Group(digits), fraction, 2);
    assert PadEnd(fraction, 2) == fraction + "" == fraction;
  }

  lemma EuroSignIgnored(whole: string, fraction: string)
    requires Grouped(whole) && AllDigits(fraction)
    ensures Without(whole + "," + fraction + [' ', '\U{20AC}'], EuroOrSpace) == whole + "," + fraction
  {
    hide Grouped;
    var number := whole + "," + fraction;
    PrintedIsPlain(whole, fraction);
    WithoutNothing(number, EuroOrSpace);
    WithoutConcat(number, [' ', '\U{20AC}'], EuroOrSpace);
    EuroSignDropped();
    assert number + "" == number;
  }

  lemma EuroSignDropped()
    ensures Without([' ', '\U{20AC}'], EuroOrSpace) == ""
  {
    assert [' ', '\U{20AC}'][1..] == ['\U{20AC}'];
    assert ['\U{20AC}'][1..] == "";
    assert Without(['\U{20AC}'], EuroOrSpace) == "" + Without("", EuroOrSpace);
    assert Without([' ', '\U{20AC}'], EuroOrSpace) == "" + Without(['\U{20AC}'], EuroOrSpace);
  }

  lemma PrintedIsPlain(whole: string, fraction: string)
    requires Grouped(whole) && AllDigits(fraction)
    ensures forall i | 0 <= i < |whole + "," + fraction| :: !EuroOrSpace((whole + "," + fraction)[i])
  {
    GroupedChars(whole);
  }

  /** And so does a meter value, although its trailing zeros are not printed. */
  lemma MeterValueReadsBack(value: int)
    ensures ParseMeterValueToX1000(MeterValueToDisplay(value)) == if value >= 0 then Some(value) else None
  {
    hide Value, Without, Digits, Group, PadStart, TrimZeros, Read;
    if value < 0 {
      NegativeMeterText(value);
      KeepsMinus(MeterValueToDisplay(value), Space);
      MinusRejected(Without(MeterValueToDisplay(value), Space), 3);
    } else {
      PositiveMeterText(value);
      MeterText(value / 1000, value % 1000);
    }
  }

  lemma NegativeMeterText(value: int)
    requires value < 0
    ensures '-' in MeterValueToDisplay(value)
  {
    hide Digits, Group, PadStart, TrimZeros;
    assert value / 1000 < 0;
    assert MeterValueToDisplay(value)[0] == '-';
  }

  lemma PositiveMeterText(value: int)
    requires value >= 0
    ensures MeterValueToDisplay(value) == MeterSpelling(value / 1000, value % 1000)
  {
    hide Digits, Group, PadStart, TrimZeros;
    assert "" + Digits(value % 1000) == Digits(value % 1000);
    assert "" + Group(Digits(value / 1000)) == Group(Digits(value / 1000));
  }

  /** The text of a meter value, by its whole and its thousandths. */
  function MeterSpelling(whole: nat, rest: nat): string
  {
    var fraction := TrimZeros(PadStart(Digits(rest), 3));
    if fraction != "" then Group(Digits(whole)) + "," + fraction else Group(Digits(whole))
  }

  lemma MeterText(whole: nat, rest: nat)
    requires rest < 1000
    ensures ParseMeterValueToX1000(MeterSpelling(whole, rest)) == Some(whole * 1000 + rest)
  {
    hide Value, Without, Digits, Group, PadStart, Read;
    var digits, padded := Digits(whole), PadStart(Digits(rest), 3);
    assert Power(3) == 1000;
    DigitsValue(whole);
    PaddedDigits(rest, 3);
    GroupThenUngroup(digits);
    if TrimZeros(padded) == "" {
      WholeMeterText(Group(digits), padded);
    } else {
      FractionMeterText(Group(digits), padded);
    }
  }

  lemma WholeMeterText(grouped: string, padded: string)
    requires Grouped(grouped) && |padded| == 3 && AllDigits(padded) && TrimZeros(padded) == ""
    ensures AllDigits(Without(grouped, IsDot())) && Value(padded) == 0
    ensures ParseMeterValueToX1000(grouped) == Some(Value(Without(grouped, IsDot())) * Power(3))
  {
    hide Read, Value;
    TrimThenPad(padded);
    ZerosAreNothing(3);
    assert padded == "" + Zeros(3) == Zeros(3);
    GroupedChars(grouped);
    WithoutNothing(grouped, Space);
    ReadWhole(grouped, 3);
  }

  lemma FractionMeterText(grouped: string, padded: string)
    requires Grouped(grouped) && |padded| == 3 && AllDigits(padded) && TrimZeros(padded) != ""
    ensures AllDigits(Without(grouped, IsDot()))
    ensures ParseMeterValueToX1000(grouped + "," + TrimZeros(padded))
         == Some(Value(Without(grouped, IsDot())) * Power(3) + Value(padded))
  {
    hide Read, Value, Grouped;
    var fraction := TrimZeros(padded);
    TrimThenPad(padded);
    assert AllDigits(fraction) by {
      assert forall i | 0 <= i < |fraction| :: fraction[i] == padded[i];
    }
    PrintedIsPlain(grouped, fraction);
    WithoutNothing(grouped + "," + fraction, Space);
    ReadDecimals(grouped, fraction, 3);
  }

  /** Every accepted spelling means the same number without its dots. */
  lemma DotsMeanNothing(s: string, decimals: nat)
    requires Read(s, decimals).Some?
    ensures Read(Without(s, IsDot()), decimals) == Read(s, decimals)
  {
    hide Value, Without, Grouped;
    var c := CommaAt(s);
    var whole := s[..c];
    if c < |s| {
      CommaBound(s);
      assert s == whole + "," + s[c + 1..];
      DotsBeforeComma(whole, s[c + 1..], decimals);
    } else {
      assert s == whole;
      DotsInWhole(whole, decimals);
    }
  }

  lemma DotsInWhole(whole: string, decimals: nat)
    requires WholePart(whole)
    ensures Read(Without(whole, IsDot()), decimals) == Read(whole, decimals)
  {
    hide Value, Without, Grouped, Read;
    UndottedWhole(whole);
    WithoutNothing(Without(whole, IsDot()), IsDot());
    ReadWhole(whole, decimals);
    ReadWhole(Without(whole, IsDot()), decimals);
  }

  lemma DotsBeforeComma(whole: string, fraction: string, decimals: nat)
    requires WholePart(whole) && 1 <= |fraction| <= decimals && AllDigits(fraction)
    ensures Read(Without(whole + "," + fraction, IsDot()), decimals) == Read(whole + "," + fraction, decimals)
  {
    hide Value, Without, Grouped, Read;
    UndottedWhole(whole);
    WithoutNothing(Without(whole, IsDot()), IsDot());
    WithoutConcat(whole + ",", fraction, IsDot());
    WithoutConcat(whole, ",", IsDot());
    WithoutNothing(fraction, IsDot());
    WithoutNothing(",", IsDot());
    ReadDecimals(whole, fraction, decimals);
    ReadDecimals(Without(whole, IsDot()), fraction, decimals);
  }

  lemma UndottedWhole(s: string)
    requires WholePart(s)
    ensures Without(s, IsDot()) != "" && AllDigits(Without(s, IsDot()))
  {
    WholeDigits(s);
    var i := SomeDigit(s);
    assert s == s[..i] + ([s[i]] + s[i + 1..]);
    WithoutConcat(s[..i], [s[i]] + s[i + 1..], IsDot());
    WithoutConcat([s[i]], s[i + 1..], IsDot());
    WithoutNothing([s[i]], IsDot());
  }

  lemma SomeDigit(s: string) returns (i: nat)
    requires WholePart(s)
    ensures i < |s| && Digit(s[i])
  {
    if Grouped(s) && |s| > 3 {
      i := |s| - 1;
      assert s[i] == s[|s| - 3..][2];
    } else {
      i := 0;
    }
  }

  /** No text is read as a negative number. */
  lemma NeverNegative(s: string, decimals: nat)
    requires Read(s, decimals).Some?
    ensures Read(s, decimals).value >= 0
  {
    hide Value, Without, Power;
    var c := CommaAt(s);
    var fraction := if c < |s| then s[c + 1..] else "";
    WholeDigits(s[..c]);
    ZerosDigits(decimals - |fraction|);
    ValueNonNegative(Without(s[..c], IsDot()));
    ValueNonNegative(PadEnd(fraction, decimals));
    PowerPositive(decimals);
    ProductNonNegative(Value(Without(s[..c], IsDot())), Power(decimals));
  }

  lemma ProductNonNegative(a: int, b: int)
    requires a >= 0 && b > 0
    ensures a * b >= 0
  {
  }

  lemma {:induction false} ValueNonNegative(s: string)
    requires AllDigits(s)
    ensures Value(s) >= 0
  {
    if s != "" {
      ValueNonNegative(s[..|s| - 1]);
    }
  }

  lemma {:induction false} PowerPositive(decimals: nat)
    ensures Power(decimals) > 0
  {
    if decimals > 0 {
      PowerPositive(decimals - 1);
    }
  }

  // ---- The accepted texts, and what they mean -----------------------------------------------------------------

  /** Appending a digit multiplies by ten and adds it. */
  lemma ValueIs(s: string, c: char)
    requires AllDigits(s) && '0' <= c <= '9'
    ensures Value("") == 0 && Value(s + [c]) == 10 * Value(s) + (c as int - 48)
  {
    assert (s + [c])[..|s|] == s;
  }

  /** The digits of a number, without a leading zero. */
  lemma {:induction false} DigitsAre(n: nat)
    ensures AllDigits(Digits(n)) && Digits(n) != "" && Value(Digits(n)) == n
    ensures n > 0 ==> Digits(n)[0] != '0'
    ensures n == 0 ==> Digits(n) == "0"
  {
    DigitsValue(n);
    if n >= 10 {
      DigitsAre(n / 10);
    }
  }

  /** Counted from the end, every fourth character is a dot, and none stands in front. */
  lemma {:induction false} GroupIs(s: string)
    requires s != "" && AllDigits(s)
    ensures Without(Group(s), IsDot()) == s && Group(s) != "" && Group(s)[0] != '.'
    ensures DotsEveryFourth(Group(s))
  {
    hide Without;
    GroupThenUngroup(s);
    if |s| <= 3 {
      NoDots(s);
    } else {
      var n := |s| - 3;
      GroupIs(s[..n]);
      GroupedEnd(Group(s[..n]), s[n..]);
    }
  }

  ghost predicate DotsEveryFourth(text: string)
  {
    forall j | 0 <= j < |text| :: text[j] == '.' <==> (|text| - 1 - j) % 4 == 3
  }

  lemma NoDots(s: string)
    requires |s| <= 3 && AllDigits(s)
    ensures DotsEveryFourth(s)
  {
    forall j | 0 <= j < |s| ensures s[j] != '.' && (|s| - 1 - j) % 4 != 3 {
      assert Digit(s[j]);
    }
  }

  lemma GroupedEnd(head: string, tail: string)
    requires |tail| == 3 && AllDigits(tail) && DotsEveryFourth(head)
    ensures DotsEveryFourth(head + "." + tail)
  {
    var text := head + "." + tail;
    forall j | 0 <= j < |text| ensures text[j] == '.' <==> (|text| - 1 - j) % 4 == 3 {
      if j < |head| {
        assert text[j] == head[j];
        assert |text| - 1 - j == |head| - 1 - j + 4;
      } else if j > |head| {
        assert text[j] == tail[j - |head| - 1] && Digit(tail[j - |head| - 1]);
      }
    }
  }

  lemma {:induction false} UngroupThenGroup(s: string)
    requires Grouped(s)
    ensures AllDigits(Without(s, IsDot())) && Without(s, IsDot()) != "" && Group(Without(s, IsDot())) == s
  {
    WholeDigits(s);
    if |s| <= 3 {
      WithoutNothing(s, IsDot());
    } else {
      var n := |s| - 4;
      UngroupThenGroup(s[..n]);
      assert s == s[..n] + "." + s[n + 1..];
      WithoutDot(s[..n], s[n + 1..]);
      GroupAppended(Without(s[..n], IsDot()), s[n + 1..]);
    }
  }

  lemma GroupAppended(digits: string, tail: string)
    requires digits != "" && |tail| == 3
    ensures Group(digits + tail) == Group(digits) + "." + tail
  {
    var s := digits + tail;
    assert s[..|s| - 3] == digits && s[|s| - 3..] == tail;
  }

  /** Whole digits, with or without their dots, and up to `decimals` digits behind a comma. */
  ghost predicate Spells(s: string, whole: string, fraction: string, decimals: nat)
  {
    && AllDigits(whole) && whole != "" && AllDigits(fraction) && |fraction| <= decimals
    && exists front :: (front == whole || front == Group(whole))
                       && s == if fraction == "" then front else front + "," + fraction
  }

  lemma {:induction false} ValueShift(s: string, zeros: nat)
    requires AllDigits(s)
    ensures AllDigits(s + Zeros(zeros)) && Value(s + Zeros(zeros)) == Value(s) * Power(zeros)
    decreases zeros
  {
    hide Value;
    ZerosDigits(zeros);
    if zeros == 0 {
      assert Zeros(0) == "" && s + "" == s;
    } else {
      ZerosBack(zeros);
      ValueShift(s, zeros - 1);
      var before := s + Zeros(zeros - 1);
      assert s + Zeros(zeros) == before + ['0'];
      ValueIs(before, '0');
      TenTimes(Value(s), Power(zeros - 1));
    }
  }

  lemma TenTimes(a: int, b: int)
    ensures a * (10 * b) == 10 * (a * b)
  {
  }

  /** A spelling reads as its whole and its short decimals filled up. */
  lemma SpellingReads(s: string, whole: string, fraction: string, decimals: nat)
    requires Spells(s, whole, fraction, decimals)
    ensures Read(s, decimals)
         == Some(Value(whole) * Power(decimals) + Value(fraction) * Power(decimals - |fraction|))
  {
    hide Read, Value, Group, Without, Power;
    var front :| (front == whole || front == Group(whole))
                 && s == if fraction == "" then front else front + "," + fraction;
    GroupThenUngroup(whole);
    WithoutNothing(whole, IsDot());
    if fraction == "" {
      ReadWhole(front, decimals);
      NoDigits();
    } else {
      ReadDecimals(front, fraction, decimals);
      ValueShift(fraction, decimals - |fraction|);
    }
  }

  lemma NoDigits()
    ensures Value("") == 0
  {
  }

  lemma AcceptedSpells(s: string, decimals: nat) returns (whole: string, fraction: string)
    requires Accepted(s, decimals)
    ensures Spells(s, whole, fraction, decimals)
  {
    hide Group, Without, Accepted, WholePart, Grouped;
    AcceptedParts(s, decimals);
    var front := s[..CommaAt(s)];
    fraction := if CommaAt(s) < |s| then s[CommaAt(s) + 1..] else "";
    whole := WholeOf(front);
  }

  lemma AcceptedParts(s: string, decimals: nat)
    requires Accepted(s, decimals)
    ensures CommaAt(s) <= |s| && WholePart(s[..CommaAt(s)])
    ensures var fraction := if CommaAt(s) < |s| then s[CommaAt(s) + 1..] else "";
            && AllDigits(fraction) && |fraction| <= decimals
            && s == if fraction == "" then s[..CommaAt(s)] else s[..CommaAt(s)] + "," + fraction
  {
    hide WholePart;
    CommaBound(s);
  }

  lemma WholeOf(front: string) returns (whole: string)
    requires WholePart(front)
    ensures AllDigits(whole) && whole != "" && (front == whole || front == Group(whole))
  {
    hide Group, Without;
    if AllDigits(front) && front != "" {
      whole := front;
    } else {
      UngroupThenGroup(front);
      whole := Without(front, IsDot());
    }
  }

  /** What stays of a text once blanks, and the euro sign if it is dropped, are taken out. */
  ghost function Bare(raw: string, euro: bool): string
  {
    Keep(raw, (c: char) => c != ' ' && c != '\t' && c != '\n' && c != '\r' && c != '\U{00A0}' && c != '\U{202F}'
                           && !(euro && c == '\U{20AC}'))
  }

  lemma {:induction false} WithoutIsKeep(s: string, dropped: char -> bool, kept: char -> bool)
    requires forall c :: kept(c) == !dropped(c)
    ensures Without(s, dropped) == Keep(s, kept)
  {
    if s != "" {
      var n := |s| - 1;
      WithoutIsKeep(s[..n], dropped, kept);
      assert s == s[..n] + [s[n]];
      WithoutConcat(s[..n], [s[n]], dropped);
      assert [s[n]][1..] == "";
    }
  }

  lemma BareIs(raw: string)
    ensures Without(raw, EuroOrSpace) == Bare(raw, true) && Without(raw, Space) == Bare(raw, false)
  {
    WithoutIsKeep(raw, EuroOrSpace, (c: char) => c != ' ' && c != '\t' && c != '\n' && c != '\r' && c != '\U{00A0}'
                                                 && c != '\U{202F}' && !(true && c == '\U{20AC}'));
    WithoutIsKeep(raw, Space, (c: char) => c != ' ' && c != '\t' && c != '\n' && c != '\r' && c != '\U{00A0}'
                                           && c != '\U{202F}' && !(false && c == '\U{20AC}'));
  }

  /**
   * An amount is read exactly from the spellings of it: whole euros with or without dots, and none, one
   * or two decimals, of which a single one means tens of cents.
   */
  lemma EurReadsIff(raw: string, cents: int)
    ensures ParseEurToCents(raw) == Some(cents) <==>
      exists whole, fraction :: Spells(Bare(raw, true), whole, fraction, 2)
        && cents == Value(whole) * 100
                    + (if |fraction| == 2 then Value(fraction) else if |fraction| == 1 then 10 * Value(fraction) else 0)
  {
    hide Value, Spells, Read;
    BareIs(raw);
    assert Power(0) == 1 && Power(1) == 10 && Power(2) == 100;
    forall whole, fraction | Spells(Bare(raw, true), whole, fraction, 2)
      ensures AllDigits(whole) && AllDigits(fraction) && |fraction| <= 2
      ensures Read(Bare(raw, true), 2) == Some(Value(whole) * 100 + Value(fraction) * Power(2 - |fraction|))
    {
      SpellingReads(Bare(raw, true), whole, fraction, 2);
      SpelledDigits(Bare(raw, true), whole, fraction, 2);
    }
    NoDigits();
    ReadAccepted(Bare(raw, true), 2);
    if Accepted(Bare(raw, true), 2) {
      var whole, fraction := AcceptedSpells(Bare(raw, true), 2);
    }
  }

  lemma SpelledDigits(s: string, whole: string, fraction: string, decimals: nat)
    requires Spells(s, whole, fraction, decimals)
    ensures AllDigits(whole) && AllDigits(fraction) && |fraction| <= decimals
  {
  }

  lemma ReadAccepted(s: string, decimals: nat)
    ensures Read(s, decimals).Some? <==> Accepted(s, decimals)
  {
  }

  /** The same for a meter value, with up to three decimals. */
  lemma MeterReadsIff(raw: string, value: int)
    ensures ParseMeterValueToX1000(raw) == Some(value) <==>
      exists whole, fraction :: Spells(Bare(raw, false), whole, fraction, 3)
        && value == Value(whole) * 1000
                    + (if |fraction| == 3 then Value(fraction) else if |fraction| == 2 then 10 * Value(fraction)
                       else if |fraction| == 1 then 100 * Value(fraction) else 0)
  {
    hide Value, Spells, Read;
    BareIs(raw);
    assert Power(0) == 1 && Power(1) == 10 && Power(2) == 100 && Power(3) == 1000;
    forall whole, fraction | Spells(Bare(raw, false), whole, fraction, 3)
      ensures AllDigits(whole) && AllDigits(fraction) && |fraction| <= 3
      ensures Read(Bare(raw, false), 3) == Some(Value(whole) * 1000 + Value(fraction) * Power(3 - |fraction|))
    {
      SpellingReads(Bare(raw, false), whole, fraction, 3);
      SpelledDigits(Bare(raw, false), whole, fraction, 3);
    }
    NoDigits();
    ReadAccepted(Bare(raw, false), 3);
    if Accepted(Bare(raw, false), 3) {
      var whole, fraction := AcceptedSpells(Bare(raw, false), 3);
    }
  }

  // ---- The printed texts ----------------------------------------------------------------------------------------

  ghost function DigitOf(d: int): char
    requires 0 <= d <= 9
  {
    (d + 48) as char
  }

  lemma TwoDigits(rest: nat)
    requires rest < 100
    ensures PadStart(Digits(rest), 2) == [DigitOf(rest / 10), DigitOf(rest % 10)]
  {
    assert Zeros(0) == "" && Zeros(1) == "0" + Zeros(0) == "0";
    if rest < 10 {
      assert Digits(rest) == [DigitOf(rest)];
    } else {
      assert Digits(rest) == Digits(rest / 10) + [DigitOf(rest % 10)];
    }
  }

  /** The input value: whole euros, a comma, two digits of cents; a negative amount has a minus in front. */
  lemma InputPrints(cents: int)
    requires cents >= 0
    ensures CentsToEurInput(cents)
         == Digits(cents / 100) + "," + [DigitOf(cents % 100 / 10), DigitOf(cents % 10)]
    ensures cents > 0 ==> CentsToEurInput(-cents) == "-" + CentsToEurInput(cents)
  {
    hide Digits, PadStart;
    LastTwo(cents);
    var euros, rest := Digits(cents / 100), PadStart(Digits(cents % 100), 2);
    SignedText("", euros, "," + rest);
    SignedText("-", euros, "," + rest);
  }

  lemma LastTwo(cents: nat)
    ensures PadStart(Digits(cents % 100), 2) == [DigitOf(cents % 100 / 10), DigitOf(cents % 10)]
  {
    hide Digits, PadStart;
    TwoDigits(cents % 100);
    assert cents % 100 % 10 == cents % 10;
  }

  lemma SignedText(sign: string, front: string, back: string)
    ensures sign + front + back == sign + (front + back) && "" + (front + back) == front + back
  {
  }

  /** The display groups the euros and ends in the currency sign. */
  lemma DisplayPrints(cents: int)
    requires cents >= 0
    ensures CentsToEurDisplay(cents)
         == Group(Digits(cents / 100)) + "," + [DigitOf(cents % 100 / 10), DigitOf(cents % 10)] + [' ', '\U{20AC}']
    ensures cents > 0 ==> CentsToEurDisplay(-cents) == "-" + CentsToEurDisplay(cents)
  {
    hide Digits, PadStart, Group;
    LastTwo(cents);
    var euros, rest := Group(Digits(cents / 100)), PadStart(Digits(cents % 100), 2);
    SignedText("", euros, "," + rest + [' ', '\U{20AC}']);
    SignedText("-", euros, "," + rest + [' ', '\U{20AC}']);
  }

  lemma {:induction false} TrimmedEnd(s: string)
    ensures TrimZeros(s) == "" || TrimZeros(s)[|TrimZeros(s)| - 1] != '0'
  {
    if s != "" && s[|s| - 1] == '0' {
      TrimmedEnd(s[..|s| - 1]);
    }
  }

  /** A meter value is printed with exactly the decimals that are not trailing zeros. */
  lemma MeterPrints(value: nat)
    ensures exists fraction ::
      && AllDigits(fraction) && |fraction| <= 3 && (fraction == "" || fraction[|fraction| - 1] != '0')
      && Value(fraction) * Power(3 - |fraction|) == value % 1000
      && MeterValueToDisplay(value)
         == Group(Digits(value / 1000)) + (if fraction == "" then "" else "," + fraction)
  {
    hide Digits, Group, Value, Power;
    var padded := PadStart(Digits(value % 1000), 3);
    var fraction := TrimZeros(padded);
    PositiveMeterText(value);
    PaddedThousandths(value % 1000);
    TrimmedEnd(padded);
    TrimThenPad(padded);
    assert AllDigits(fraction) by {
      assert forall i | 0 <= i < |fraction| :: fraction[i] == padded[i];
    }
    ValueShift(fraction, 3 - |fraction|);
    assert Group(Digits(value / 1000)) + "" == Group(Digits(value / 1000));
    assert Group(Digits(value / 1000)) + ("," + fraction) == Group(Digits(value / 1000)) + "," + fraction;
  }

  lemma PaddedThousandths(rest: nat)
    requires rest < 1000
    ensures var padded := PadStart(Digits(rest), 3); |padded| == 3 && AllDigits(padded) && Value(padded) == rest
  {
    assert Power(3) == 1000;
    PaddedDigits(rest, 3);
  }

  lemma WholeNegative(value: int)
    requires value > 0 && value % 1000 == 0
    ensures MeterValueToDisplay(-value) == "-" + MeterValueToDisplay(value)
  {
    hide Group;
    assert (-value) / 1000 == -(value / 1000);
    ZeroFraction();
    assert Abs((-value) / 1000) == value / 1000;
    assert "" + Group(Digits(value / 1000)) == Group(Digits(value / 1000));
  }

  lemma {:induction false} OnlyZeros(s: string)
    requires forall i | 0 <= i < |s| :: s[i] == '0'
    ensures TrimZeros(s) == ""
  {
    if s != "" {
      OnlyZeros(s[..|s| - 1]);
    }
  }

  lemma ZeroFraction()
    ensures TrimZeros(PadStart("" + Digits(0), 3)) == ""
  {
    hide TrimZeros, Zeros;
    assert "" + Digits(0) == "0";
    ZerosDigits(2);
    OnlyZeros(Zeros(2) + "0");
  }

  lemma TrimKeepsMinus(s: string)
    requires '-' in s
    ensures '-' in TrimZeros(s)
  {
    hide TrimZeros;
    TrimThenPad(s);
    ZerosDigits(|s| - |TrimZeros(s)|);
    var i :| 0 <= i < |s| && s[i] == '-';
    assert (TrimZeros(s) + Zeros(|s| - |TrimZeros(s)|))[i] == '-';
    assert i < |TrimZeros(s)|;
  }

  lemma NoMinusInside(value: int)
    requires value >= 0
    ensures '-' !in MeterValueToDisplay(value)
  {
    hide Digits, Group, Value, Power, MeterValueToDisplay, Without;
    MeterPrints(value);
    DigitsValue(value / 1000);
    GroupThenUngroup(Digits(value / 1000));
    GroupedChars(Group(Digits(value / 1000)));
  }

  lemma MinusInside(value: int)
    requires value > 0 && value % 1000 != 0
    ensures var text := MeterValueToDisplay(-value); exists i :: 0 < i < |text| && text[i] == '-'
  {
    hide Digits, Group, PadStart, TrimZeros;
    var rest := -(value % 1000);
    var padded := PadStart("-" + Digits(Abs(rest)), 3);
    PadKeepsMinus(Digits(Abs(rest)));
    TrimKeepsMinus(padded);
    var fraction := TrimZeros(padded);
    var i :| 0 <= i < |fraction| && fraction[i] == '-';
    var whole := (-value) / 1000;
    var grouped := Sign(whole) + Group(Digits(Abs(whole)));
    assert whole < 0;
    assert MeterValueToDisplay(-value) == grouped + "," + fraction;
    assert (grouped + "," + fraction)[|grouped| + 1 + i] == '-';
  }

  lemma PadKeepsMinus(digits: string)
    ensures '-' in PadStart("-" + digits, 3)
  {
    var zeros := Zeros(3 - |"-" + digits|);
    assert (zeros + ("-" + digits))[|zeros|] == '-';
  }

  /**
   * A negative meter value is printed as its amount behind a minus exactly when it is a whole number.
   * Otherwise the whole is rounded down and the rest has a minus of its own, as in "-2,-5".
   */
  lemma NegativeMeterIff(value: int)
    requires value > 0
    ensures MeterValueToDisplay(-value) == "-" + MeterValueToDisplay(value) <==> value % 1000 == 0
  {
    hide MeterValueToDisplay;
    if value % 1000 == 0 {
      WholeNegative(value);
    } else {
      MinusInside(value);
      NoMinusInside(value);
      var text := MeterValueToDisplay(-value);
      var i :| 0 < i < |text| && text[i] == '-';
      assert i - 1 < |MeterValueToDisplay(value)| ==>
        ("-" + MeterValueToDisplay(value))[i] == MeterValueToDisplay(value)[i - 1];
    }
  }
}
