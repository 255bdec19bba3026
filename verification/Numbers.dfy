/** Python's int(s, base), str(n) and hex(n), and the strcmp()-alike comparison,
    for ASCII strings. */
module Numbers {
  import opened Wrappers

  /** The ASCII characters for which str.isspace() holds. */
  predicate IsSpace(c: char) {
    9 <= c as int <= 13 || 28 <= c as int <= 32
  }

  function LStrip(s: string): (r: string)
    ensures |r| <= |s|
    ensures r != [] ==> !IsSpace(r[0])
  {
    if s == [] || !IsSpace(s[0]) then s else LStrip(s[1..])
  }

  function RStrip(s: string): (r: string)
    ensures r <= s
    ensures r != [] ==> !IsSpace(r[|r| - 1])
  {
    if s == [] || !IsSpace(s[|s| - 1]) then s else RStrip(s[..|s| - 1])
  }

  /** All characters are blank. */
  predicate Blank(s: string) {
    forall c :: c in s ==> IsSpace(c)
  }

  /** Stripping removes exactly the blanks at the end. */
  lemma {:induction false} RStripIs(s: string, blanks: string)
    requires s == [] || !IsSpace(s[|s| - 1])
    requires Blank(blanks)
    ensures RStrip(s + blanks) == s
  {
    if blanks == [] {
      assert s + blanks == s;
    } else {
      var all := s + blanks;
      assert all[|all| - 1] == blanks[|blanks| - 1] && all[..|all| - 1] == s + blanks[..|blanks| - 1];
      RStripIs(s, blanks[..|blanks| - 1]);
    }
  }

  lemma {:induction false} RStripLeavesBlanks(s: string)
    ensures Blank(s[|RStrip(s)|..])
  {
    if s == [] || !IsSpace(s[|s| - 1]) {
    } else {
      RStripLeavesBlanks(s[..|s| - 1]);
      assert s[|RStrip(s)|..] == s[..|s| - 1][|RStrip(s)|..] + [s[|s| - 1]];
    }
  }

  lemma {:induction false} RStripKeeps(s: string, i: nat)
    requires i < |s| && !IsSpace(s[i])
    ensures i < |RStrip(s)|
  {
    if !IsSpace(s[|s| - 1]) {
    } else {
      RStripKeeps(s[..|s| - 1], i);
    }
  }

  /** The value of 'c' as a digit in the given base. */
  function DigitValue(c: char, base: nat): Option<nat> {
    var v := if '0' <= c <= '9' then c as int - '0' as int
             else if 'a' <= c <= 'z' then c as int - 'a' as int + 10
             else if 'A' <= c <= 'Z' then c as int - 'A' as int + 10
             else 36;
    if v < base then Some(v) else None
  }

  function DigitChar(d: nat): (c: char)
    requires d < 16
    ensures !IsSpace(c) && c != '_' && c != '-' && c != '+' && c != 'x' && c != 'X'
    ensures d < 10 ==> DigitValue(c, 10) == Some(d)
    ensures DigitValue(c, 16) == Some(d)
  {
    if d < 10 then '0' + d as char else 'a' + (d - 10) as char
  }

  /** A non-empty run of digits, in which single underscores may separate digits. */
  function Digits(s: string, base: nat): Option<nat> {
    if s == [] then None else
    var last := DigitValue(s[|s| - 1], base);
    if last.None? then None else
    if |s| == 1 then last else
    var rest := if s[|s| - 2] == '_' then s[..|s| - 2] else s[..|s| - 1];
    var high := Digits(rest, base);
    if high.None? then None else Some(high.value * base + last.value)
  }

  /** Drops one underscore, which may follow a base prefix. */
  function AfterPrefix(s: string): string {
    if s != [] && s[0] == '_' then s[1..] else s
  }

  predicate HasPrefix(s: string, lower: char, upper: char) {
    |s| >= 2 && s[0] == '0' && (s[1] == lower || s[1] == upper)
  }

  /** The unsigned part of an integer literal. Base 0 means that the base is
      inferred from the prefix, and that decimal literals other than zero must not
      have leading zeros. */
  function Magnitude(s: string, base: nat): Option<nat> {
    if base == 16 then
      Digits(if HasPrefix(s, 'x', 'X') then AfterPrefix(s[2..]) else s, 16)
    else if base == 0 then
      if HasPrefix(s, 'x', 'X') then Digits(AfterPrefix(s[2..]), 16)
      else if HasPrefix(s, 'o', 'O') then Digits(AfterPrefix(s[2..]), 8)
      else if HasPrefix(s, 'b', 'B') then Digits(AfterPrefix(s[2..]), 2)
      else
        var v := Digits(s, 10);
        if s != [] && s[0] == '0' && v != Some(0) then None else v
    else
      Digits(s, base)
  }

  /** int(s, base); None stands for ValueError. */
  function ParseInt(s: string, base: nat): Option<int> {
    var t := LStrip(RStrip(s));
    if t == [] then None
    else if t[0] == '-' then
      var v := Magnitude(t[1..], base);
      if v.None? then None else Some(0 - v.value as int)
    else if t[0] == '+' then Magnitude(t[1..], base)
    else Magnitude(t, base)
  }

  /** _is_base_n() */
  predicate IsBaseN(s: string, base: nat) {
    ParseInt(s, base).Some?
  }

  /** 'int(s, base) if _is_base_n(s, base) else 0' */
  function NumOrZero(s: string, base: nat): int {
    var v := ParseInt(s, base);
    if v.Some? then v.value else 0
  }

  function NatText(n: nat, base: nat): (s: string)
    requires base == 10 || base == 16
    ensures s != []
  {
    if n < base then [DigitChar(n)] else NatText(n / base, base) + [DigitChar(n % base)]
  }

  function Prefix(base: nat): string {
    if base == 16 then "0x" else ""
  }

  /** str(n) for base 10, hex(n) for base 16. */
  function IntText(n: int, base: nat): string
    requires base == 10 || base == 16
  {
    if n < 0 then "-" + (Prefix(base) + NatText(-n, base)) else Prefix(base) + NatText(n, base)
  }

  /** A character that int() reads as nothing but a digit. */
  predicate PlainDigit(c: char) {
    !IsSpace(c) && c != '_' && c != '-' && c != '+' && c != 'x' && c != 'X'
  }

  lemma DigitsSnoc(high: string, d: nat, base: nat)
    requires (base == 10 || base == 16) && d < base
    requires high != [] && high[|high| - 1] != '_' && Digits(high, base).Some?
    ensures Digits(high + [DigitChar(d)], base) == Some(Digits(high, base).value * base + d)
  {
    var s := high + [DigitChar(d)];
    assert s[..|s| - 1] == high;
    assert s[|s| - 2] == high[|high| - 1];
    assert s[|s| - 1] == DigitChar(d);
  }

  lemma DivMod(n: nat, base: nat)
    requires base == 10 || base == 16
    ensures n / base * base + n % base == n
  {
  }

  lemma {:induction false} NatTextDigits(n: nat, base: nat)
    requires base == 10 || base == 16
    ensures Digits(NatText(n, base), base) == Some(n)
    ensures forall c :: c in NatText(n, base) ==> PlainDigit(c)
  {
    if n < base {
    } else {
      var high := NatText(n / base, base);
      NatTextDigits(n / base, base);
      assert high[|high| - 1] in high;
      DigitsSnoc(high, n % base, base);
      assert n / base * base + n % base == n by { DivMod(n, base); }
    }
  }

  lemma StripsNothing(s: string)
    requires s != [] && !IsSpace(s[0]) && !IsSpace(s[|s| - 1])
    ensures LStrip(RStrip(s)) == s
  {
  }

  lemma PrefixedMagnitude(digits: string, base: nat)
    requires base == 10 || base == 16
    requires digits != [] && forall c :: c in digits ==> PlainDigit(c)
    ensures Magnitude(Prefix(base) + digits, base) == Digits(digits, base)
  {
    assert digits[0] in digits;
    assert (Prefix(base) + digits)[|Prefix(base)|..] == digits;
  }

  /** int() of an optional minus sign, an optional 0x prefix and plain digits. */
  lemma SignedMagnitude(minus: bool, unsigned: string, base: nat)
    requires unsigned != [] && PlainDigit(unsigned[0]) && PlainDigit(unsigned[|unsigned| - 1])
    requires Magnitude(unsigned, base).Some?
    ensures ParseInt(if minus then "-" + unsigned else unsigned, base)
            == Some(if minus then 0 - Magnitude(unsigned, base).value else Magnitude(unsigned, base).value)
  {
    var text := if minus then "-" + unsigned else unsigned;
    assert text[|text| - 1] == unsigned[|unsigned| - 1];
    StripsNothing(text);
    if minus { assert text[1..] == unsigned; }
  }

  /** Writing a number and reading it back gives the number, in both bases. */
  lemma IntTextRoundTrip(n: int, base: nat)
    requires base == 10 || base == 16
    ensures ParseInt(IntText(n, base), base) == Some(n)
  {
    hide Digits, Magnitude, ParseInt, NatText;
    var m := if n < 0 then -n else n;
    var digits := NatText(m, base);
    NatTextDigits(m, base);
    PrefixedMagnitude(digits, base);
    var unsigned := Prefix(base) + digits;
    assert digits[0] in digits && digits[|digits| - 1] in digits;
    assert unsigned[|unsigned| - 1] == digits[|digits| - 1];
    SignedMagnitude(n < 0, unsigned, base);
    assert IntText(n, base) == if n < 0 then "-" + unsigned else unsigned;
  }

  /** Digits without a needless zero in front, in lower case. */
  predicate Canonical(digits: string) {
    digits != [] && (digits[0] == '0' ==> |digits| == 1) && forall c :: c in digits ==> '0' <= c <= '9' || 'a' <= c <= 'f'
  }

  lemma {:induction false} NatTextIs(n: nat, base: nat)
    requires base == 10 || base == 16
    ensures Canonical(NatText(n, base)) && (NatText(n, base)[0] == '0' ==> n == 0)
  {
    if n < base {
    } else {
      NatTextIs(n / base, base);
      assert n / base > 0;
    }
  }

  /** Numbers are written with a minus sign if need be, 0x in base 16, and canonical digits. */
  lemma IntTextIs(n: int, base: nat)
    requires base == 10 || base == 16
    ensures exists digits :: Canonical(digits) && Digits(digits, base) == Some(if n < 0 then -n else n)
                             && IntText(n, base) == (if n < 0 then "-" else "") + ((if base == 16 then "0x" else "") + digits)
  {
    hide Digits;
    var m := if n < 0 then -n else n;
    NatTextIs(m, base);
    NatTextDigits(m, base);
    assert "" + (Prefix(base) + NatText(m, base)) == Prefix(base) + NatText(m, base);
    assert Canonical(NatText(m, base));
  }

  // What texts are numbers

  /** Digits, with single underscores between them. */
  ghost predicate Numeral(s: string, base: nat) {
    && s != [] && s[0] != '_' && s[|s| - 1] != '_'
    && (forall c :: c in s ==> c == '_' || DigitValue(c, base).Some?)
    && (forall i :: 0 < i < |s| ==> !(s[i - 1] == '_' && s[i] == '_'))
  }

  /** The digits in their places; underscores do not count. */
  function PlaceValue(s: string, base: nat): nat {
    if s == [] then 0 else
    var high, last := PlaceValue(s[..|s| - 1], base), DigitValue(s[|s| - 1], base);
    if last.None? then high else high * base + last.value
  }

  lemma {:induction false} DigitsAre(s: string, base: nat)
    requires base <= 36
    ensures Digits(s, base) == if Numeral(s, base) then Some(PlaceValue(s, base)) else None
  {
    if s == [] || DigitValue(s[|s| - 1], base).None? {
      assert s != [] ==> s[|s| - 1] in s;
    } else if |s| == 1 {
      assert s[..0] == [] && PlaceValue(s[..0], base) == 0;
    } else {
      var n := |s| - 1;
      var rest := if s[n - 1] == '_' then s[..n - 1] else s[..n];
      DigitsAre(rest, base);
      NumeralSnoc(s, base);
      if s[n - 1] == '_' { assert s[..n][..n - 1] == rest; }
    }
  }

  /** One digit less. */
  lemma NumeralSnoc(s: string, base: nat)
    requires |s| > 1 && DigitValue(s[|s| - 1], base).Some? && base <= 36
    ensures var n := |s| - 1;
            Numeral(s, base) <==> Numeral(if s[n - 1] == '_' then s[..n - 1] else s[..n], base)
  {
    var n := |s| - 1;
    var rest := if s[n - 1] == '_' then s[..n - 1] else s[..n];
    assert s == rest + s[|rest|..];
    assert forall c :: c in s <==> c in rest || c in s[|rest|..];
    if Numeral(rest, base) {
      assert rest[|rest| - 1] != '_';
    }
    if Numeral(s, base) && s[n - 1] == '_' { assert n - 1 > 0 && s[n - 2] != '_'; }
  }

  /** Letters stand for the same digits in both cases. */
  lemma DigitIs(c: char)
    ensures '0' <= c <= '9' ==> DigitValue(c, 10) == DigitValue(c, 16) == Some((c - '0') as nat)
    ensures 'a' <= c <= 'f' ==> DigitValue(c, 16) == DigitValue(c - 'a' + 'A', 16) == Some((c - 'a') as nat + 10)
    ensures DigitValue(c, 10).Some? ==> '0' <= c <= '9'
    ensures DigitValue(c, 16).Some? ==> '0' <= c <= '9' || 'a' <= c <= 'f' || 'A' <= c <= 'F'
  {
  }

  lemma {:induction false} LStripIs(blanks: string, s: string)
    requires Blank(blanks) && (s == [] || !IsSpace(s[0]))
    ensures LStrip(blanks + s) == s
  {
    if blanks == [] {
      assert blanks + s == s;
    } else {
      assert (blanks + s)[1..] == blanks[1..] + s;
      LStripIs(blanks[1..], s);
    }
  }

  /** int() ignores blanks on both sides, takes one sign, and then an unsigned number. */
  lemma SignedIs(before: string, sign: string, unsigned: string, after: string, base: nat)
    requires Blank(before) && Blank(after) && sign in ["", "+", "-"]
    requires unsigned != [] && unsigned[0] != '+' && unsigned[0] != '-'
    requires !IsSpace(unsigned[0]) && !IsSpace(unsigned[|unsigned| - 1])
    ensures var v := Magnitude(unsigned, base);
            ParseInt(before + (sign + unsigned) + after, base) ==
            if v.None? then None else Some(if sign == "-" then 0 - v.value as int else v.value)
  {
    hide Magnitude, LStrip, RStrip;
    var s := before + (sign + unsigned);
    assert s[|s| - 1] == unsigned[|unsigned| - 1];
    RStripIs(s, after);
    assert (sign + unsigned)[0] == if sign == "" then unsigned[0] else sign[0];
    LStripIs(before, sign + unsigned);
    assert sign != "" ==> (sign + unsigned)[1..] == unsigned;
    assert sign == "" ==> sign + unsigned == unsigned;
  }

  /** Unsigned numbers are numerals; base 16 allows a prefix before them, and with base 0 it is the
      prefix that tells the base. An underscore may follow the prefix. Then, numerals without
      prefix do not start with 0, unless they are zero. */
  lemma UnsignedIs(prefix: string, digits: string, base: nat)
    requires digits != [] && digits[0] != '_'
    requires prefix in ["", "0x", "0X", "0o", "0O", "0b", "0B"]
    requires prefix == "" && digits[0] == '0' && |digits| > 1 ==> digits[1] !in "xXoObB"
    ensures prefix == "" && base != 0 ==> Magnitude(digits, base) == Digits(digits, base)
    ensures prefix == "" && base == 0 ==>
              Magnitude(digits, 0) == if digits[0] == '0' && Digits(digits, 10) != Some(0) then None else Digits(digits, 10)
    ensures prefix in ["0x", "0X"] && base in [0, 16] ==>
              Magnitude(prefix + digits, base) == Magnitude(prefix + ("_" + digits), base) == Digits(digits, 16)
    ensures prefix in ["0o", "0O"] ==> Magnitude(prefix + digits, 0) == Magnitude(prefix + ("_" + digits), 0) == Digits(digits, 8)
    ensures prefix in ["0b", "0B"] ==> Magnitude(prefix + digits, 0) == Magnitude(prefix + ("_" + digits), 0) == Digits(digits, 2)
  {
    hide Digits;
    if prefix != "" {
      assert (prefix + digits)[2..] == digits && (prefix + ("_" + digits))[2..] == "_" + digits && ("_" + digits)[1..] == digits;
    }
  }

  /** _strcmp(): -1, 0 or 1. */
  function StrCmp(a: string, b: string): int {
    if a == [] then (if b == [] then 0 else -1)
    else if b == [] then 1
    else if a[0] < b[0] then -1
    else if a[0] > b[0] then 1
    else StrCmp(a[1..], b[1..])
  }

  /** The order of texts: the first one is a proper prefix of the second, or has the smaller
      character where they first differ. */
  ghost predicate TextBelow(a: string, b: string) {
    exists i :: 0 <= i <= |a| && i < |b| && a[..i] == b[..i] && (i == |a| || a[i] < b[i])
  }

  /** _strcmp() compares in this order. */
  lemma {:induction false} StrCmpIs(a: string, b: string)
    ensures (StrCmp(a, b) < 0 <==> TextBelow(a, b)) && (StrCmp(a, b) == 0 <==> a == b) && (StrCmp(a, b) > 0 <==> TextBelow(b, a))
    ensures -1 <= StrCmp(a, b) <= 1
  {
    if a == [] {
      assert b != [] ==> a[..0] == b[..0];
    } else if b == [] || a[0] != b[0] {
      assert a[..0] == b[..0];
    } else {
      StrCmpIs(a[1..], b[1..]);
      BelowTail(a, b);
      BelowTail(b, a);
      assert a == [a[0]] + a[1..] && b == [b[0]] + b[1..];
    }
  }

  lemma BelowTail(a: string, b: string)
    requires a != [] && b != [] && a[0] == b[0]
    ensures TextBelow(a, b) <==> TextBelow(a[1..], b[1..])
  {
    if i :| 0 <= i <= |a| && i < |b| && a[..i] == b[..i] && (i == |a| || a[i] < b[i]) {
      assert a[1..][..i - 1] == a[..i][1..] == b[..i][1..] == b[1..][..i - 1];
    }
    if i :| 0 <= i <= |a[1..]| && i < |b[1..]| && a[1..][..i] == b[1..][..i] && (i == |a[1..]| || a[1..][i] < b[1..][i]) {
      assert a[..i + 1] == [a[0]] + a[1..][..i] == [b[0]] + b[1..][..i] == b[..i + 1];
    }
  }

  /** Any two texts are related in exactly one way, and the order is transitive. */
  lemma TextOrder(a: string, b: string, c: string)
    ensures a == b || TextBelow(a, b) || TextBelow(b, a)
    ensures !TextBelow(a, a) && !(TextBelow(a, b) && TextBelow(b, a))
    ensures TextBelow(a, b) && TextBelow(b, c) ==> TextBelow(a, c)
  {
    hide StrCmp;
    StrCmpIs(a, b);
    StrCmpIs(a, a);
    if TextBelow(a, b) && TextBelow(b, c) {
      var i :| 0 <= i <= |a| && i < |b| && a[..i] == b[..i] && (i == |a| || a[i] < b[i]);
      var j :| 0 <= j <= |b| && j < |c| && b[..j] == c[..j] && (j == |b| || b[j] < c[j]);
      BelowAt(a, b, c, i, j);
    }
  }

  lemma BelowAt(a: string, b: string, c: string, i: nat, j: nat)
    requires i <= |a| && i < |b| && a[..i] == b[..i] && (i == |a| || a[i] < b[i])
    requires j <= |b| && j < |c| && b[..j] == c[..j] && (j == |b| || b[j] < c[j])
    ensures TextBelow(a, c)
  {
    var n := if i < j then i else j;
    assert a[..n] == c[..n] by {
      assert a[..n] == a[..i][..n] && b[..n] == b[..i][..n] && b[..n] == b[..j][..n] && c[..n] == c[..j][..n];
    }
    if i < j {
      assert b[i] == b[..j][i] && c[i] == c[..j][i];
    } else if j < i {
      assert a[j] == a[..i][j] && b[j] == b[..i][j];
    }
  }
}
