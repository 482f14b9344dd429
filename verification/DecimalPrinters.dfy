/**
  The two hand-written decimal printers: that of the debug console
  (VL53_DMA.c) and that of the display (main.c). Floats are exact reals here.
 */
module DecimalPrinters {
  import opened Arithmetic

  // ---- Powers of ten and division ----

  function Pow10(n: nat): (p: nat)
    ensures p > 0
  {
    if n == 0 then 1 else 10 * Pow10(n - 1)
  }

  lemma DivideTwice(x: nat, n: nat)
    requires n > 0
    ensures x / 10 / n == x / (10 * n)
  {
    var q := x / 10 / n;
    assert x / 10 == n * q + x / 10 % n;
    assert x == 10 * (x / 10) + x % 10;
    assert (10 * n) * q == 10 * (n * q);
    DivisionIs(x, 10 * n, q, x - 10 * n * q);
  }

  // ---- What is printed ----

  function Digit(d: nat): (c: char)
    requires d < 10
    ensures '0' <= c <= '9'
  {
    '0' + d as char
  }

  // Without leading zeros, and nothing at all for zero.
  function Significant(n: nat): (s: string) {
    if n == 0 then "" else Significant(n / 10) + [Digit(n % 10)]
  }

  function Decimal(n: nat): (s: string) {
    if n == 0 then "0" else Significant(n)
  }

  // The last `d` digits.
  function LastDigits(n: nat, d: nat): (s: string)
    ensures |s| == d
  {
    if d == 0 then "" else LastDigits(n / 10, d - 1) + [Digit(n % 10)]
  }

  lemma {:induction false} LastDigitsAt(n: nat, d: nat, i: nat)
    requires i < d
    ensures LastDigits(n, d)[i] == Digit(n / Pow10(d - 1 - i) % 10)
    decreases d
  {
    if i < d - 1 {
      LastDigitsAt(n / 10, d - 1, i);
      DivideTwice(n, Pow10(d - 2 - i));
      assert Pow10(d - 1 - i) == 10 * Pow10(d - 2 - i);
    }
  }

  function Abs(x: real): (y: real)
    ensures y >= 0.0
  {
    if x < 0.0 then -x else x
  }

  // Half up.
  function Rounded(x: real): (n: nat)
    requires x >= 0.0
  {
    (x + 0.5).Floor
  }

  function Units(m: real, scale: nat): (x: real)
    requires m >= 0.0
    ensures x >= 0.0
  {
    m * scale as real
  }

  // The size of a number in units of its last decimal.
  function Exact(value: real, d: nat): (x: real) {
    Units(Abs(value), Pow10(d))
  }

  // That, rounded.
  function Scaled(value: real, d: nat): (v: nat) {
    Rounded(Exact(value, d))
  }

  function Whole(v: nat, scale: nat): (w: nat)
    requires scale > 0
    ensures scale * w <= v < scale * w + scale
  {
    v / scale
  }

  function Rest(v: nat, scale: nat): (r: nat)
    requires scale > 0
    ensures r < scale && v == scale * Whole(v, scale) + r
  {
    v % scale
  }

  /** What both printers print. */
  function Printed(value: real, d: nat): (s: string) {
    Joined(value < 0.0, Whole(Scaled(value, d), Pow10(d)), Rest(Scaled(value, d), Pow10(d)), d)
  }

  function Joined(negative: bool, whole: nat, rest: nat, d: nat): string {
    (if negative then "-" else "") + Decimal(whole) + (if d == 0 then "" else "." + LastDigits(rest, d))
  }

  // ---- Reading a printed number ----

  datatype Number = Number(negative: bool, digits: nat, point: bool, places: nat)

  function ReadChar(n: Number, c: char): Number {
    if c == '-' then n.(negative := true)
    else if c == '.' then n.(point := true)
    else if '0' <= c <= '9' then
      n.(digits := n.digits * 10 + (c - '0') as nat, places := if n.point then n.places + 1 else n.places)
    else n
  }

  function Read(s: string): Number {
    if |s| == 0 then Number(false, 0, false, 0)
    else ReadChar(Read(s[..|s| - 1]), s[|s| - 1])
  }

  lemma {:induction false} ReadSnoc(s: string, c: char)
    ensures Read(s + [c]) == ReadChar(Read(s), c)
  {
    assert (s + [c])[..|s|] == s;
  }

  lemma {:induction false} ReadSignificant(s: string, n: nat)
    requires Read(s).digits == 0 && !Read(s).point
    ensures Read(s + Significant(n)) == Read(s).(digits := n)
  {
    if n == 0 {
      assert s + Significant(n) == s;
    } else {
      ReadSignificant(s, n / 10);
      assert s + Significant(n) == s + Significant(n / 10) + [Digit(n % 10)];
      ReadSnoc(s + Significant(n / 10), Digit(n % 10));
    }
  }

  lemma {:induction false} ReadLastDigits(s: string, n: nat, d: nat)
    requires Read(s).point && n < Pow10(d)
    ensures Read(s + LastDigits(n, d)) ==
            Read(s).(digits := Read(s).digits * Pow10(d) + n, places := Read(s).places + d)
    decreases d
  {
    if d == 0 {
      assert s + LastDigits(n, d) == s;
    } else {
      ReadLastDigits(s, n / 10, d - 1);
      assert s + LastDigits(n, d) == s + LastDigits(n / 10, d - 1) + [Digit(n % 10)];
      ReadSnoc(s + LastDigits(n / 10, d - 1), Digit(n % 10));
      TimesTen(Read(s).digits, Pow10(d - 1), n);
    }
  }

  lemma TimesTen(k: nat, p: nat, n: nat)
    ensures (k * p + n / 10) * 10 + n % 10 == k * (10 * p) + n
  {
    assert (k * p) * 10 == k * (10 * p);
  }

  /** A printed natural number reads back as itself. */
  lemma DecimalRoundTrip(n: nat)
    ensures Read(Decimal(n)) == Number(false, n, false, 0)
  {
    if n == 0 {
      ReadSnoc("", '0');
      assert "" + ['0'] == "0";
    } else {
      ReadSignificant("", n);
      assert "" + Significant(n) == Significant(n);
    }
  }

  lemma {:induction false} NoLeadingZero(n: nat)
    requires n > 0
    ensures |Significant(n)| > 0 && Significant(n)[0] != '0'
  {
    if n >= 10 {
      NoLeadingZero(n / 10);
    }
  }

  lemma {:induction false} ReadDecimal(s: string, n: nat)
    requires Read(s).digits == 0 && !Read(s).point
    ensures Read(s + Decimal(n)) == Read(s).(digits := n)
  {
    if n == 0 {
      ReadSnoc(s, '0');
    } else {
      ReadSignificant(s, n);
    }
  }

  /** A printed number reads back as the scaled one, with its sign and its places. */
  lemma {:induction false} PrintedRoundTrip(value: real, d: nat)
    ensures Read(Printed(value, d)) == Number(value < 0.0, Scaled(value, d), d > 0, d)
  {
    var v, p := Scaled(value, d), Pow10(d);
    ReadParts(value < 0.0, Whole(v, p), Rest(v, p), d);
    assert Whole(v, p) * p == p * Whole(v, p);
  }

  lemma {:induction false} ReadParts(negative: bool, whole: nat, rest: nat, d: nat)
    requires rest < Pow10(d)
    ensures Read(Joined(negative, whole, rest, d)) == Number(negative, whole * Pow10(d) + rest, d > 0, d)
  {
    var sign := if negative then "-" else "";
    ReadSign();
    ReadDecimal(sign, whole);
    if d == 0 {
      assert Joined(negative, whole, rest, d) == sign + Decimal(whole);
    } else {
      ReadFraction(sign + Decimal(whole), rest, d);
    }
  }

  lemma {:induction false} ReadFraction(front: string, rest: nat, d: nat)
    requires !Read(front).point && Read(front).places == 0 && rest < Pow10(d)
    ensures Read(front + ("." + LastDigits(rest, d))) ==
            Number(Read(front).negative, Read(front).digits * Pow10(d) + rest, true, d)
  {
    ReadSnoc(front, '.');
    ReadLastDigits(front + ['.'], rest, d);
    assert front + ("." + LastDigits(rest, d)) == front + ['.'] + LastDigits(rest, d);
  }

  lemma {:induction false} ReadSign()
    ensures Read("-") == Number(true, 0, false, 0)
  {
    ReadSnoc("", '-');
    assert "" + ['-'] == "-";
  }

  /** No number of `d` decimals is closer, and none as close lies further from zero. */
  lemma {:induction false} RoundsHalfAwayFromZero(value: real, d: nat, k: int)
    ensures var exact, printed := Exact(value, d), Scaled(value, d) as real;
            && Abs(printed - exact) <= 0.5
            && Abs(printed - exact) <= Abs(k as real - exact)
            && (Abs(printed - exact) == Abs(k as real - exact) ==> k as real <= printed)
  {
    Nearest(Exact(value, d), k);
  }

  lemma Nearest(exact: real, k: int)
    requires exact >= 0.0
    ensures var v := Rounded(exact) as real;
            && Abs(v - exact) <= 0.5
            && Abs(v - exact) <= Abs(k as real - exact)
            && (Abs(v - exact) == Abs(k as real - exact) ==> k as real <= v)
  {
    var v := Rounded(exact);
    assert v as real <= exact + 0.5 < v as real + 1.0;
    if k > v {
      assert k as real >= v as real + 1.0;
    } else if k < v {
      assert k as real <= v as real - 1.0;
    }
  }

  // ---- How the two printers find the parts ----

  lemma Parts(v: nat, scale: nat, w: nat, r: nat)
    requires r < scale && v == scale * w + r
    ensures Whole(v, scale) == w && Rest(v, scale) == r
  {
    DivisionIs(v, scale, w, r);
  }

  lemma FloorShift(x: real, n: int)
    ensures (x - n as real).Floor == x.Floor - n
  {
  }

  lemma Spread(m: real, i: int, x: real, scale: nat)
    requires m == i as real + x && m >= 0.0 && x >= 0.0
    ensures Units(x, scale) == Units(m, scale) - (scale * i) as real
  {
    assert (scale * i) as real == scale as real * i as real;
  }

  lemma Within(x: real, scale: nat)
    requires 0.0 <= x < 1.0 && scale > 0
    ensures 0.0 <= Units(x, scale) < scale as real
  {
  }

  // What lies beyond the whole part, in units of the last decimal.
  function Beyond(m: real, scale: nat): (x: real)
    requires m >= 0.0
  {
    Units(Part(m), scale)
  }

  function Part(m: real): (x: real)
    requires m >= 0.0
    ensures 0.0 <= x < 1.0 && m == m.Floor as real + x && m.Floor >= 0
  {
    m - m.Floor as real
  }

  lemma BeyondWhole(m: real, scale: nat)
    requires m >= 0.0 && scale > 0
    ensures m.Floor >= 0
    ensures Beyond(m, scale) == Units(m, scale) - (scale * m.Floor) as real
    ensures 0.0 <= Beyond(m, scale) < scale as real
  {
    Spread(m, m.Floor, Part(m), scale);
    Within(Part(m), scale);
  }

  // The console's way: the fraction is rounded, and carries.
  lemma {:induction false} RoundedFraction(m: real, scale: nat)
    requires m >= 0.0 && scale > 0
    ensures var v, i, f := Rounded(Units(m, scale)), m.Floor, (Beyond(m, scale) + 0.5).Floor;
            && i >= 0 && 0 <= f <= scale
            && (f < scale ==> Whole(v, scale) == i && Rest(v, scale) == f)
            && (f >= scale ==> Whole(v, scale) == i + 1 && Rest(v, scale) == f - scale)
  {
    BeyondWhole(m, scale);
    RoundTheRest(Units(m, scale), Beyond(m, scale), m.Floor, scale);
  }

  lemma RoundTheRest(exact: real, rest: real, i: nat, scale: nat)
    requires exact >= 0.0 && rest == exact - (scale * i) as real && 0.0 <= rest < scale as real
    ensures var v, f := Rounded(exact), (rest + 0.5).Floor;
            && 0 <= f <= scale
            && (f < scale ==> Whole(v, scale) == i && Rest(v, scale) == f)
            && (f >= scale ==> Whole(v, scale) == i + 1 && Rest(v, scale) == f - scale)
  {
    FloorShift(exact + 0.5, scale * i);
    var v, f := Rounded(exact), (rest + 0.5).Floor;
    if f < scale {
      Parts(v, scale, i, f);
    } else {
      NextMultiple(scale, i);
      Parts(v, scale, i + 1, 0);
    }
  }

  lemma NextMultiple(scale: nat, i: nat)
    ensures scale * (i + 1) == scale * i + scale
  {
  }

  // The display's way: half a unit is added first, and both parts are cut off.
  lemma {:induction false} CutFraction(m: real, scale: nat)
    requires m >= 0.0 && scale > 0
    ensures var v, a := Rounded(Units(m, scale)), m + 0.5 / scale as real;
            a.Floor == Whole(v, scale) && Beyond(a, scale).Floor == Rest(v, scale)
  {
    var a := m + 0.5 / scale as real;
    assert Units(a, scale) == Units(m, scale) + 0.5;
    BeyondWhole(a, scale);
    CutTheRest(Units(m, scale), Beyond(a, scale), a.Floor, scale);
  }

  lemma CutTheRest(exact: real, rest: real, i: nat, scale: nat)
    requires exact >= 0.0 && rest == exact + 0.5 - (scale * i) as real && 0.0 <= rest < scale as real
    ensures Whole(Rounded(exact), scale) == i && Rest(Rounded(exact), scale) == rest.Floor
  {
    FloorShift(exact + 0.5, scale * i);
    Parts(Rounded(exact), scale, i, rest.Floor);
  }

  lemma {:induction false} SignificantLength(n: nat, k: nat)
    requires n < Pow10(k)
    ensures |Significant(n)| <= k
  {
    if n > 0 {
      SignificantLength(n / 10, k - 1);
    }
  }

  lemma TenDigits(n: nat)
    requires n < 0x1_0000_0000
    ensures |Decimal(n)| <= 10
  {
    assert Pow10(5) == 100_000;
    assert Pow10(10) == 10_000_000_000;
    SignificantLength(n, 10);
  }

  // ---- The printers ----

  // The digits of a number, the last first.
  method TakeApart(value: nat, temp: array<char>) returns (index: nat)
    requires |Significant(value)| <= temp.Length
    modifies temp
    ensures index == |Significant(value)|
    ensures forall k | 0 <= k < index :: temp[k] == Significant(value)[index - 1 - k]
  {
    var rest := value;
    index := 0;
    ghost var digits := Significant(value);
    while rest > 0
      invariant index <= |digits| && Significant(rest) == digits[..|digits| - index]
      invariant forall k | 0 <= k < index :: temp[k] == digits[|digits| - 1 - k]
    {
      SignificantSnoc(rest, digits, |digits| - index);
      temp[index] := Digit(rest % 10);
      index, rest := index + 1, rest / 10;
    }
  }

  lemma {:induction false} SignificantSnoc(rest: nat, digits: string, n: nat)
    requires rest > 0 && n <= |digits| && Significant(rest) == digits[..n]
    ensures n > 0 && digits[n - 1] == Digit(rest % 10) && Significant(rest / 10) == digits[..n - 1]
  {
    assert Significant(rest)[..n - 1] == Significant(rest / 10);
    assert digits[..n][..n - 1] == digits[..n - 1];
  }

  // The parts as VL53_AppendFloat finds them.
  method RoundFraction(size: real, scale: nat) returns (intPart: nat, fracPart: nat)
    requires size >= 0.0 && scale > 0
    ensures intPart == Whole(Rounded(Units(size, scale)), scale)
    ensures fracPart == Rest(Rounded(Units(size, scale)), scale)
  {
    RoundedFraction(size, scale);
    intPart := size.Floor;
    fracPart := (Beyond(size, scale) + 0.5).Floor;
    if fracPart >= scale {
      intPart := intPart + 1;
      fracPart := fracPart - scale;
    }
  }

  // The parts as main_append_fixed finds them.
  method CutOff(size: real, scale: nat) returns (integer: nat, fraction: nat)
    requires size >= 0.0 && scale > 0
    ensures integer == Whole(Rounded(Units(size, scale)), scale)
    ensures fraction == Rest(Rounded(Units(size, scale)), scale)
  {
    CutFraction(size, scale);
    var raised := size + 0.5 / scale as real;
    integer := raised.Floor;
    fraction := Beyond(raised, scale).Floor;
  }

  lemma JoinedPieces(before: string, whole: nat, rest: nat, d: nat)
    ensures var front := before + Decimal(whole);
            && (d == 0 ==> front == before + Joined(false, whole, rest, d))
            && (d > 0 ==> front + ['.'] + LastDigits(rest, d) == before + Joined(false, whole, rest, d))
    ensures |Joined(false, whole, rest, d)| == |Decimal(whole)| + (if d == 0 then 0 else 1 + d)
  {
  }

  lemma PrintedPieces(before: string, value: real, d: nat)
    ensures var w, r := Whole(Scaled(value, d), Pow10(d)), Rest(Scaled(value, d), Pow10(d));
            var sign := if value < 0.0 then "-" else "";
            && before + sign + Joined(false, w, r, d) == before + Printed(value, d)
            && |Printed(value, d)| == |sign| + |Joined(false, w, r, d)|
            && |Joined(false, w, r, d)| > 0
  {
    var w, r := Whole(Scaled(value, d), Pow10(d)), Rest(Scaled(value, d), Pow10(d));
    SignedPieces(before, value < 0.0, w, r, d);
  }

  lemma SignedPieces(before: string, negative: bool, w: nat, r: nat, d: nat)
    ensures var sign := if negative then "-" else "";
            && before + sign + Joined(false, w, r, d) == before + Joined(negative, w, r, d)
            && |Joined(negative, w, r, d)| == |sign| + |Joined(false, w, r, d)|
            && |Joined(false, w, r, d)| > 0
  {
  }

  // The buffer, and how far it has been filled.
  class Line {
    const cells: array<char>
    var length: nat

    ghost predicate Valid()
      reads this, cells
    {
      length < cells.Length && cells[length] == '\0'
    }

    ghost function Text(): string
      reads this, cells
      requires Valid()
    {
      cells[..length]
    }

    /** VL53_AppendChar, main_append_char */
    method AppendChar(ch: char)
      requires Valid() && length + 1 < cells.Length
      modifies this, cells
      ensures Valid() && Text() == old(Text()) + [ch]
    {
      cells[length] := ch;
      length := length + 1;
      cells[length] := '\0';
    }

    /** VL53_AppendUnsigned, main_append_unsigned */
    method AppendUnsigned(value: nat)
      requires Valid() && value < 0x1_0000_0000 && length + |Decimal(value)| < cells.Length
      modifies this, cells
      ensures Valid() && Text() == old(Text()) + Decimal(value)
    {
      if value == 0 {
        AppendChar('0');
        return;
      }
      TenDigits(value);
      var temp := new char[16];
      var index := TakeApart(value, temp);
      AppendReversed(temp, index, Significant(value));
    }

    // The digits were found last first.
    method AppendReversed(temp: array<char>, count: nat, ghost digits: string)
      requires Valid() && temp != cells && count == |digits| <= temp.Length && length + count < cells.Length
      requires forall k | 0 <= k < count :: temp[k] == digits[count - 1 - k]
      modifies this, cells
      ensures Valid() && Text() == old(Text()) + digits
    {
      var index: nat := count;
      assert old(Text()) + digits[..0] == old(Text());
      while index > 0
        invariant index <= count && Valid()
        invariant length + index < cells.Length
        invariant Text() == old(Text()) + digits[..count - index]
      {
        index := index - 1;
        AppendChar(temp[index]);
        assert digits[..count - index] == digits[..count - index - 1] + [temp[index]];
      }
      assert digits[..count] == digits;
    }

    /** VL53_AppendSigned */
    method AppendSigned(value: int)
      requires Valid() && -0x8000_0000 < value < 0x8000_0000
      requires length + (if value < 0 then 1 else 0) + |Decimal(if value < 0 then -value else value)| < cells.Length
      modifies this, cells
      ensures Valid()
      ensures Text() == old(Text()) + (if value < 0 then "-" else "") + Decimal(if value < 0 then -value else value)
    {
      var size := value;
      if value < 0 {
        AppendChar('-');
        size := -value;
      }
      AppendUnsigned(size);
    }

    // Both printers begin with the sign and go on with the size.
    method AppendSign(value: real) returns (size: real)
      requires Valid() && length + 1 < cells.Length
      modifies this, cells
      ensures Valid() && Text() == old(Text()) + (if value < 0.0 then "-" else "") && size == Abs(value)
    {
      size := value;
      if value < 0.0 {
        AppendChar('-');
        size := -value;
      }
    }

    /** VL53_AppendFloat */
    method AppendFloat(value: real, decimals: nat)
      requires Valid() && Printable(value, decimals, 0x8000_0000) && length + |Printed(value, decimals)| < cells.Length
      modifies this, cells
      ensures Valid() && Text() == old(Text()) + Printed(value, decimals)
    {
      var scale := Power(decimals);
      PartsAreSmall(value, decimals, 0x8000_0000);
      PrintedPieces(old(Text()), value, decimals);
      var size := AppendSign(value);
      var intPart, fracPart := RoundFraction(size, scale);
      AppendRounded(intPart, fracPart, scale, decimals);
    }

    // What VL53_AppendFloat does with the parts.
    method AppendRounded(intPart: nat, fracPart: nat, scale: nat, decimals: nat)
      requires Valid() && intPart < 0x8000_0000 && scale == Pow10(decimals)
      requires length + |Joined(false, intPart, fracPart, decimals)| < cells.Length
      modifies this, cells
      ensures Valid() && Text() == old(Text()) + Joined(false, intPart, fracPart, decimals)
    {
      JoinedPieces(old(Text()), intPart, fracPart, decimals);
      AppendSigned(intPart);
      if decimals == 0 {
        return;
      }
      AppendChar('.');
      AppendPlacesDown(fracPart, scale, decimals);
    }

    // Its last loop: the scale shrinks by ten with every digit.
    method AppendPlacesDown(fraction: nat, scale: nat, decimals: nat)
      requires Valid() && scale == Pow10(decimals) && length + decimals < cells.Length
      modifies this, cells
      ensures Valid() && Text() == old(Text()) + LastDigits(fraction, decimals)
    {
      var rest := scale;
      ghost var digits := LastDigits(fraction, decimals);
      for i := 0 to decimals
        invariant Valid() && length + (decimals - i) < cells.Length
        invariant rest == Pow10(decimals - i)
        invariant Text() == old(Text()) + digits[..i]
      {
        var div := rest / 10;
        LastDigitsAt(fraction, decimals, i);
        assert digits[..i + 1] == digits[..i] + [digits[i]];
        AppendChar(Digit(fraction / div % 10));
        rest := div;
      }
      assert digits[..decimals] == digits;
    }

    /** main_append_fixed */
    method AppendFixed(value: real, decimals: nat)
      requires Valid() && Printable(value, decimals, 0x1_0000_0000) && length + |Printed(value, decimals)| < cells.Length
      modifies this, cells
      ensures Valid() && Text() == old(Text()) + Printed(value, decimals)
    {
      var scale := Power(decimals);
      PartsAreSmall(value, decimals, 0x1_0000_0000);
      PrintedPieces(old(Text()), value, decimals);
      var size := AppendSign(value);
      var integer, fraction := CutOff(size, scale);
      AppendCut(integer, fraction, decimals);
    }

    // What main_append_fixed does with the parts.
    method AppendCut(integer: nat, fraction: nat, decimals: nat)
      requires Valid() && integer < 0x1_0000_0000
      requires length + |Joined(false, integer, fraction, decimals)| < cells.Length
      modifies this, cells
      ensures Valid() && Text() == old(Text()) + Joined(false, integer, fraction, decimals)
    {
      JoinedPieces(old(Text()), integer, fraction, decimals);
      AppendUnsigned(integer);
      if decimals > 0 {
        AppendChar('.');
        AppendPlaces(fraction, decimals);
      }
    }

    // Its last loop: every digit has its power computed anew.
    method AppendPlaces(fraction: nat, decimals: nat)
      requires Valid() && length + decimals < cells.Length
      modifies this, cells
      ensures Valid() && Text() == old(Text()) + LastDigits(fraction, decimals)
    {
      ghost var digits := LastDigits(fraction, decimals);
      var i: nat := decimals;
      while i > 0
        invariant i <= decimals && Valid() && length + i < cells.Length
        invariant Text() == old(Text()) + digits[..decimals - i]
      {
        var div := Power(i - 1);
        LastDigitsAt(fraction, decimals, decimals - i);
        assert digits[..decimals - i + 1] == digits[..decimals - i] + [digits[decimals - i]];
        AppendChar(Digit(fraction / div % 10));
        i := i - 1;
      }
      assert digits[..decimals] == digits;
    }
  }

  // The loops that multiply by ten.
  method Power(n: nat) returns (scale: nat)
    ensures scale == Pow10(n)
  {
    scale := 1;
    for i := 0 to n
      invariant scale == Pow10(i)
    {
      scale := scale * 10;
    }
  }

  // What fits the integers of a printer: its scale in 32 bits, its whole part below `limit`.
  predicate Printable(value: real, decimals: nat, limit: nat) {
    decimals <= 9 && Abs(value) + 1.0 < limit as real
  }

  lemma PartsAreSmall(value: real, decimals: nat, limit: nat)
    requires Printable(value, decimals, limit)
    ensures Whole(Scaled(value, decimals), Pow10(decimals)) < limit
  {
    RoundedFraction(Abs(value), Pow10(decimals));
  }
}
