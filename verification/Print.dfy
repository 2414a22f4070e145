/** The number printers of printf.c. The characters sent to the UART are the result. */
module Print {
  import opened Bits

  datatype Outcome = Text(s: string) | Panic

  const DIGITS := "0123456789abcdef"

  function DigitChar(d: nat): char
    requires d < 16
  {
    DIGITS[d]
  }

  // ---- reading numbers back ----

  function DigitValue(c: char): int {
    if '0' <= c <= '9' then c as int - '0' as int
    else if 'a' <= c <= 'f' then c as int - 'a' as int + 10
    else -1
  }

  /** All characters are digits of the base. */
  predicate Numeral(s: string, base: nat) {
    forall i :: 0 <= i < |s| ==> 0 <= DigitValue(s[i]) < base
  }

  /** The number a digit string denotes. */
  function Parse(s: string, base: nat): (v: int) {
    if s == "" then 0 else Parse(s[..|s| - 1], base) * base + DigitValue(s[|s| - 1])
  }

  lemma DigitInverse(d: nat)
    requires d < 16
    ensures DigitValue(DigitChar(d)) == d && DigitChar(d) != '_' && DigitChar(d) != '-'
  {
    assert d in [0, 1, 2, 3, 4, 5, 6, 7, 8, 9, 10, 11, 12, 13, 14, 15];
  }

  lemma CharInverse(c: char)
    requires 0 <= DigitValue(c) < 16
    ensures DigitChar(DigitValue(c)) == c
  {
    DigitInverse(DigitValue(c));
  }

  // ---- print_uint ----

  /** The digits of num without leading zeros. */
  function Digits(num: nat, base: nat): (s: string)
    requires 2 <= base <= 16
    ensures s != ""
    decreases num
  {
    if num < base then [DigitChar(num)]
    else DivSmaller(num, base); Digits(num / base, base) + [DigitChar(num % base)]
  }

  lemma DivSmaller(x: nat, d: nat)
    requires d >= 2
    ensures 0 <= x / d && 0 <= x % d < d && (x > 0 ==> x / d < x) && x == d * (x / d) + x % d
    ensures 2 * (x / d) <= x && (x < d <==> x / d == 0)
  {
    var q := x / d;
    MulNonNegative(d - 2, if q >= 0 then q else 0);
    if q < 0 {
      MulAtLeast(d, q);
      assert false;
    }
    assert d * q == 2 * q + (d - 2) * q;
    if q > 0 {
      MulAtLeast(d, q);
    }
  }

  /** No superfluous leading zero. */
  predicate Canonical(s: string, base: nat) {
    s != "" && Numeral(s, base) && (|s| > 1 ==> s[0] != '0')
  }

  /** print_uint's text is a canonical numeral of num ... */
  lemma {:induction false} DigitsParse(num: nat, base: nat)
    requires 2 <= base <= 16
    ensures Canonical(Digits(num, base), base) && Parse(Digits(num, base), base) == num
    ensures num > 0 ==> Digits(num, base)[0] != '0'
    decreases num
  {
    hide DigitChar, DigitValue, Parse, Numeral, Digits;
    DivSmaller(num, base);
    DigitsUnfold(num, base);
    var q, d := num / base, num % base;
    if num < base {
      DigitInverse(num);
      ZeroChar(num);
      NoDigits(base);
      Append("", num, base);
      assert Digits(num, base) == "" + [DigitChar(num)];
    } else {
      DigitsParse(q, base);
      Append(Digits(q, base), d, base);
    }
  }

  lemma DigitsUnfold(num: nat, base: nat)
    requires 2 <= base <= 16
    ensures num < base ==> Digits(num, base) == [DigitChar(num)]
    ensures num >= base ==>
              0 < num / base < num && 0 <= num % base < base
              && Digits(num, base) == Digits(num / base, base) + [DigitChar(num % base)]
  {
    DivSmaller(num, base);
  }

  /** What one more digit does. */
  lemma Append(s: string, d: nat, base: nat)
    requires d < base <= 16 && Numeral(s, base)
    ensures Numeral(s + [DigitChar(d)], base)
    ensures Parse(s + [DigitChar(d)], base) == Parse(s, base) * base + d
  {
    hide DigitChar, DigitValue;
    DigitInverse(d);
    assert (s + [DigitChar(d)])[..|s|] == s;
  }

  lemma NoDigits(base: nat)
    ensures Parse("", base) == 0 && Numeral("", base)
  {
  }

  lemma ZeroChar(d: nat)
    requires d < 16
    ensures DigitChar(d) == '0' <==> d == 0
  {
    assert d in [0, 1, 2, 3, 4, 5, 6, 7, 8, 9, 10, 11, 12, 13, 14, 15];
  }

  lemma {:induction false} ParseBounds(s: string, base: nat)
    requires base >= 2 && Numeral(s, base)
    ensures Parse(s, base) >= 0
    ensures s != "" && DigitValue(s[0]) > 0 ==> Parse(s, base) > 0
  {
    hide DigitValue;
    if s != "" {
      ParseBounds(s[..|s| - 1], base);
      var v := Parse(s[..|s| - 1], base);
      MulAtLeast(base, v);
    }
  }

  /** ... and the only one. */
  lemma {:induction false} DigitsUnique(s: string, base: nat)
    requires 2 <= base <= 16 && Canonical(s, base)
    ensures Parse(s, base) >= 0 && s == Digits(Parse(s, base), base)
    decreases |s|
  {
    hide DigitValue, DigitChar;
    ParseBounds(s, base);
    var n := |s| - 1;
    var rest, d := s[..n], DigitValue(s[n]);
    CharInverse(s[n]);
    if n == 0 {
      assert s == [s[0]];
    } else {
      LeadingDigit(s[0]);
      DigitsUnique(rest, base);
      ParseBounds(rest, base);
      var v := Parse(rest, base);
      assert v > 0;
      MulAtLeast(base, v);
      ModUnique(v * base + d, base, v, d);
      assert s == rest + [s[n]];
    }
  }

  lemma LeadingDigit(c: char)
    requires 0 <= DigitValue(c) && c != '0'
    ensures DigitValue(c) > 0
  {
  }

  /** print_uint. Its buf has 64 characters, and every write is within bounds. */
  method PrintUint(num: Word, base: int) returns (r: Outcome)
    requires base <= 16
    ensures base < 2 ==> r.Panic?
    ensures base >= 2 ==> r == Text(Digits(num, base)) && |r.s| <= 64
  {
    hide Digits, DigitChar;
    if base < 2 {
      return Panic;
    }
    var buf := new char[64];
    var size := Fill(buf, num, base);
    var out := "";
    ghost var s := buf[..size];
    Backwards0(s);
    while size > 0
      invariant 0 <= size <= |s| <= buf.Length && s == buf[..|s|]
      invariant out + Backwards(s[..size]) == Backwards(s)
    {
      size := size - 1;
      assert s[..size + 1][..size] == s[..size];
      out := out + [buf[size]];
    }
    r := Text(out);
  }

  /** The do-while loop of print_uint: the digits of num, least significant first. */
  method Fill(buf: array<char>, num: Word, base: nat) returns (size: nat)
    requires 2 <= base <= 16 && buf.Length == 64
    modifies buf
    ensures size <= 64 && Backwards(buf[..size]) == Digits(num, base)
  {
    hide DigitChar, Pow2;
    var tmp := num;
    size := 0;
    Pow2Values();
    var more := true;
    assert buf[..0] == "";
    while more
      invariant 0 <= size <= 64 && 0 <= tmp < Pow2(64 - size)
      invariant more ==> size < 64 && Digits(num, base) == Digits(tmp, base) + Backwards(buf[..size])
      invariant !more ==> Digits(num, base) == Backwards(buf[..size])
      decreases more, 64 - size
    {
      DivSmaller(tmp, base);
      var c := DigitChar(tmp % base);
      FillStep(tmp, base, buf[..size]);
      HalfRoom(tmp, tmp / base, 64 - size);
      ghost var was := buf[..size];
      buf[size] := c;
      size := size + 1;
      assert buf[..size] == was + [c];
      tmp := tmp / base;
      more := tmp > 0;
    }
  }

  /** Dividing by the base at least halves what is left, so 64 places are enough. */
  lemma HalfRoom(x: nat, y: nat, n: nat)
    requires 0 < n && x < Pow2(n) && 2 * y <= x
    ensures y < Pow2(n - 1) && (y > 0 ==> n > 1)
  {
  }

  lemma FillStep(tmp: nat, base: nat, s: string)
    requires 2 <= base <= 16
    ensures 0 <= tmp / base && 0 <= tmp % base < base
    ensures var q, c := tmp / base, DigitChar(tmp % base);
            Digits(tmp, base) + Backwards(s) == (if q > 0 then Digits(q, base) else "") + Backwards(s + [c])
  {
    hide DigitChar, Backwards;
    DivSmaller(tmp, base);
    BackwardsSnoc(s, DigitChar(tmp % base));
  }

  lemma Backwards0(s: string)
    ensures s[..|s|] == s && Backwards(s[..0]) == ""
  {
  }

  function Backwards(s: string): (r: string)
    ensures |r| == |s|
  {
    if s == "" then "" else [s[|s| - 1]] + Backwards(s[..|s| - 1])
  }

  lemma BackwardsSnoc(s: string, c: char)
    ensures Backwards(s + [c]) == [c] + Backwards(s)
  {
    assert (s + [c])[..|s|] == s;
  }

  // ---- print_padded ----

  /** The last n digits of v, with leading zeros. */
  function Fixed(v: nat, base: nat, n: nat): (s: string)
    requires 2 <= base <= 16
    ensures |s| == n
    decreases n
  {
    if n == 0 then "" else DivSmaller(v, base); Fixed(v / base, base, n - 1) + [DigitChar(v % base)]
  }

  /** An underscore before every eighth character but the first. */
  function Separate(s: string): string {
    if s == "" then ""
    else var n := |s| - 1;
      Separate(s[..n]) + (if n != 0 && n % 8 == 0 then "_" else "") + [s[n]]
  }

  function Strip(s: string): string {
    if s == "" then ""
    else Strip(s[..|s| - 1]) + if s[|s| - 1] == '_' then "" else [s[|s| - 1]]
  }

  /** print_padded's text. */
  function Padded(num: nat, base: nat, bytes: nat): string
    requires base == 2 || base == 16
  {
    if base == 2 then Separate(Fixed(num, base, 8 * bytes)) else Fixed(num, base, 2 * bytes)
  }

  lemma {:induction false} StripSnoc(s: string, c: char)
    ensures Strip(s + [c]) == Strip(s) + if c == '_' then "" else [c]
  {
    assert (s + [c])[..|s|] == s;
  }

  lemma {:induction false} StripSeparate(s: string)
    requires '_' !in s
    ensures Strip(Separate(s)) == s
  {
    hide Strip;
    if s == "" {
      StripPlain(s);
    } else {
      var n := |s| - 1;
      StripSeparate(s[..n]);
      StripSnoc(Separate(s[..n]), '_');
      var sep := if n != 0 && n % 8 == 0 then "_" else "";
      assert Separate(s[..n]) + "" == Separate(s[..n]);
      StripSnoc(Separate(s[..n]) + sep, s[n]);
      assert s == s[..n] + [s[n]];
    }
  }

  /** Where the separators are: character j of s comes at j + j / 8, and in front of every eighth
  one but the first there is an underscore. */
  lemma {:induction false} SeparateAt(s: string, j: nat)
    requires j < |s|
    ensures |Separate(s)| == |s| + (|s| - 1) / 8
    ensures Separate(s)[j + j / 8] == s[j]
    ensures j > 0 && j % 8 == 0 ==> Separate(s)[j + j / 8 - 1] == '_'
    decreases |s|
  {
    var n := |s| - 1;
    if n > 0 {
      var front := s[..n];
      SeparateAt(front, if j < n then j else 0);
      SeparatorCount(n);
    }
  }

  lemma SeparatorCount(n: nat)
    requires n > 0
    ensures n / 8 == (n - 1) / 8 + if n % 8 == 0 then 1 else 0
  {
  }

  lemma {:induction false} StripPlain(s: string)
    requires '_' !in s
    ensures Strip(s) == s
  {
    if s != "" {
      StripPlain(s[..|s| - 1]);
      assert s == s[..|s| - 1] + [s[|s| - 1]];
    }
  }

  /** n digits of base 2^bits denote the remainder modulo 2^(bits * n). */
  lemma {:induction false} FixedParse(v: nat, bits: nat, base: nat, n: nat)
    requires 2 <= base <= 16 && base == Pow2(bits)
    ensures Numeral(Fixed(v, base, n), base) && '_' !in Fixed(v, base, n)
    ensures Parse(Fixed(v, base, n), base) == v % Pow2(bits * n)
    decreases n
  {
    hide DigitChar, DigitValue, Parse, Numeral, Pow2;
    NoDigits(base);
    if n == 0 {
      Pow2Sum(0, 0);
    } else {
      DivSmaller(v, base);
      var q, d := v / base, v % base;
      FixedParse(q, bits, base, n - 1);
      Append(Fixed(q, base, n - 1), d, base);
      DigitInverse(d);
      Pow2Sum(bits * (n - 1), bits);
      ModAppend(v, base, Pow2(bits * (n - 1)));
      assert bits * n == bits * (n - 1) + bits;
    }
  }

  lemma ModAppend(v: nat, b: nat, m: nat)
    requires b >= 2 && m > 0
    ensures v % (m * b) == ((v / b) % m) * b + v % b
  {
    DivSmaller(v, b);
    var q, d := v / b, v % b;
    var e, r := q / m, q % m;
    assert v == b * (m * e + r) + d;
    assert b * (m * e + r) == (m * b) * e + r * b;
    MulLess(r, m, b);
    ModUnique(v, m * b, e, r * b + d);
  }

  lemma MulLess(r: nat, m: nat, b: nat)
    requires r < m
    ensures 0 <= r * b && r * b + b <= m * b
  {
    assert m * b == r * b + b + (m - r - 1) * b;
    MulNonNegative(m - r - 1, b);
    MulNonNegative(r, b);
  }

  /** print_padded's text without separators has bytes * chars_for_byte digits and denotes the
  number's low bytes. */
  lemma PaddedParses(num: Word, base: nat, bytes: nat)
    requires base == 2 || base == 16
    ensures var s := Strip(Padded(num, base, bytes));
            Numeral(s, base) && |s| == bytes * (if base == 2 then 8 else 2) && Parse(s, base) == num % Pow2(8 * bytes)
  {
    hide Fixed, Separate, Strip, Parse, Numeral;
    var bits := if base == 2 then 1 else 4;
    assert Pow2(1) == 2 && Pow2(4) == 16;
    var n := if base == 2 then 8 * bytes else 2 * bytes;
    assert bits * n == 8 * bytes;
    FixedParse(num, bits, base, n);
    if base == 2 {
      StripSeparate(Fixed(num, base, n));
    } else {
      StripPlain(Fixed(num, base, n));
    }
  }

  /** One shift of the 64-bit word: num holds the remaining number r shifted up by m places'
  worth; its top digit comes out and the rest moves up. */
  lemma ShiftStep(num: nat, r: nat, base: nat, p: nat, m: nat)
    requires num == r * m && r < base * p && p > 0 && m > 0 && base >= 2 && WORD == base * (p * m)
    ensures r / p < base && num / (p * m) == r / p && (num * base) % WORD == (r % p) * (m * base)
  {
    ShiftTop(r, p, m);
    ShiftRest(r, base, p, m);
    DigitBelow(r, p, base);
  }

  /** The top digit of a shifted number. */
  lemma ShiftTop(r: nat, p: nat, m: nat)
    requires p > 0 && m > 0
    ensures p * m > 0 && (r * m) / (p * m) == r / p
  {
    var d, x := r / p, r % p;
    MulLess(x, p, m);
    Scaled(p, d, x, m);
    ModUnique(r * m, p * m, d, x * m);
  }

  /** What stays of it when that digit is shifted out. */
  lemma ShiftRest(r: nat, base: nat, p: nat, m: nat)
    requires p > 0 && m > 0 && base >= 2 && WORD == base * (p * m)
    ensures ((r * m) * base) % WORD == (r % p) * (m * base)
  {
    var d, x := r / p, r % p;
    var q, mb := p * m, m * base;
    Scaled(p, d, x, m);
    ScaledTwice(q, d, x, m, base);
    Regrouped(p, m, base);
    MulLess(x, p, mb);
    Exact((r * m) * base, d, x * mb);
  }

  lemma Exact(n: nat, d: nat, z: nat)
    requires n == WORD * d + z && z < WORD
    ensures n % WORD == z
  {
    ModUnique(n, WORD, d, z);
  }

  lemma Scaled(p: nat, d: nat, x: nat, m: nat)
    ensures (p * d + x) * m == (p * m) * d + x * m
  {
  }

  lemma ScaledTwice(q: nat, d: nat, x: nat, m: nat, base: nat)
    ensures (q * d + x * m) * base == (base * q) * d + x * (m * base)
  {
  }

  lemma Regrouped(p: nat, m: nat, base: nat)
    ensures p * (m * base) == base * (p * m)
  {
  }

  lemma DigitBelow(r: nat, p: nat, base: nat)
    requires p > 0 && r < base * p
    ensures 0 <= r / p < base
  {
    var d, x := r / p, r % p;
    assert r == p * d + x;
    assert base * p - p * d == p * (base - d);
    MulAtLeast(p, base - d);
    MulAtLeast(p, d);
  }

  /** After i of the 64 / bits digits of `whole` have been shifted out, they form `top`. */
  ghost predicate Shifted(whole: nat, num: nat, top: nat, bits: nat, i: nat) {
    bits * i <= 64 && exists r: nat :: Split(whole, num, top, r, bits * i)
  }

  ghost predicate Split(whole: nat, num: nat, top: nat, r: nat, at: nat) {
    at <= 64 && whole == top * Pow2(64 - at) + r && r < Pow2(64 - at) && num == r * Pow2(at)
  }

  lemma ShiftDigit(whole: nat, num: Word, top: nat, bits: nat, base: nat, i: nat) returns (d: nat)
    requires Shifted(whole, num, top, bits, i) && bits * i + bits <= 64 && base == Pow2(bits) && bits > 0
    ensures d < base && num / Pow2(64 - bits) == d
    ensures Shifted(whole, (num * base) % WORD, top * base + d, bits, i + 1)
  {
    hide Pow2, Split;
    var r: nat :| Split(whole, num, top, r, bits * i);
    var r': nat;
    d, r' := SplitDigit(whole, num, top, r, bits * i, bits, base);
    assert bits * (i + 1) == bits * i + bits;
  }

  lemma SplitDigit(whole: nat, num: Word, top: nat, r: nat, at: nat, bits: nat, base: nat) returns (d: nat, r': nat)
    requires Split(whole, num, top, r, at) && at + bits <= 64 && base == Pow2(bits) && bits > 0
    ensures d < base && num / Pow2(64 - bits) == d
    ensures Split(whole, (num * base) % WORD, top * base + d, r', at + bits)
  {
    hide Pow2;
    var p, m := Pow2(64 - at - bits), Pow2(at);
    Powers(at, bits);
    ShiftStep(num, r, base, p, m);
    d := r / p;
    r' := r % p;
    Regroup(top, base, p, r, d);
  }

  lemma Regroup(top: nat, base: nat, p: nat, r: nat, d: nat)
    requires p > 0 && d == r / p
    ensures top * (base * p) + r == (top * base + d) * p + r % p
  {
    var x := r % p;
    assert r == p * d + x;
    assert (top * base + d) * p == top * (base * p) + p * d;
  }

  lemma Powers(at: nat, bits: nat)
    requires at + bits <= 64 && bits > 0
    ensures var p, m, base := Pow2(64 - at - bits), Pow2(at), Pow2(bits);
            && Pow2(64 - at) == base * p && Pow2(64 - bits) == p * m && WORD == base * (p * m)
            && Pow2(at + bits) == m * base && base >= 2
  {
    hide Pow2;
    Pow2Sum(64 - at - bits, bits);
    Pow2Sum(64 - at - bits, at);
    Pow2Sum(64 - bits, bits);
    Pow2Sum(at, bits);
    Pow2Values();
    BaseAtLeastTwo(bits);
  }

  lemma BaseAtLeastTwo(bits: nat)
    requires bits > 0
    ensures Pow2(bits) >= 2
  {
  }

  lemma ShiftStart(num: Word, bits: nat)
    ensures Shifted(num, num, 0, bits, 0)
  {
    Pow2Values();
    assert Split(num, num, 0, num, bits * 0);
  }

  /** All digits are out. */
  lemma ShiftEnd(whole: nat, num: nat, top: nat, bits: nat, i: nat)
    requires Shifted(whole, num, top, bits, i) && bits * i == 64
    ensures top == whole
  {
    var r: nat :| Split(whole, num, top, r, 64);
    assert Pow2(0) == 1;
  }

  /** One more digit of the text. */
  lemma FixedSnoc(top: nat, base: nat, n: nat, d: nat)
    requires 2 <= base <= 16 && d < base
    ensures Fixed(top * base + d, base, n + 1) == Fixed(top, base, n) + [DigitChar(d)]
  {
    hide DigitChar;
    ModUnique(top * base + d, base, top, d);
  }

  lemma SeparateSnoc(s: string, c: char)
    ensures Separate(s + [c]) == Separate(s) + (if |s| != 0 && |s| % 8 == 0 then "_" else "") + [c]
  {
    assert (s + [c])[..|s|] == s;
  }

  /** The first loop of print_padded. */
  method BitsInChar(base: int) returns (bits: nat)
    requires base == 2 || base == 16
    ensures base == 2 ==> bits == 1
    ensures base == 16 ==> bits == 4
  {
    bits := 0;
    var b := base;
    while b > 1
      invariant b > 0 && b * Pow2(bits) == base
      invariant b in {1, 2, 4, 8, 16} && bits <= 4
      decreases b
    {
      b := b / 2;
      bits := bits + 1;
    }
  }

  /** The text of the lowest n digits, as print_padded separates them. */
  function Laid(top: nat, base: nat, bits: nat, n: nat): string
    requires 2 <= base <= 16
  {
    if bits == 1 then Separate(Fixed(top, base, n)) else Fixed(top, base, n)
  }

  lemma LaidSnoc(top: nat, base: nat, bits: nat, n: nat, d: nat)
    requires 2 <= base <= 16 && d < base
    ensures Laid(top * base + d, base, bits, n + 1) ==
            Laid(top, base, bits, n) + (if bits == 1 && n != 0 && n % 8 == 0 then "_" else "") + [DigitChar(d)]
  {
    hide DigitChar, Separate, Fixed;
    FixedSnoc(top, base, n, d);
    SeparateSnoc(Fixed(top, base, n), DigitChar(d));
  }

  /** `num << bits` in 64 bits, for base == 2^bits. */
  function Shl(num: Word, base: nat): Word {
    (num * base) % WORD
  }

  /** `num >> (64 - bits)`. */
  function TopDigit(num: Word, bits: nat): int
    requires bits <= 64
  {
    num / Pow2(64 - bits)
  }

  lemma Shift(whole: nat, num: Word, top: nat, bits: nat, base: nat, i: nat) returns (d: nat)
    requires Shifted(whole, num, top, bits, i) && bits * i + bits <= 64 && base == Pow2(bits) && bits > 0
    ensures d < base && TopDigit(num, bits) == d
    ensures Shifted(whole, Shl(num, base), top * base + d, bits, i + 1)
  {
    hide Shifted, Pow2;
    d := ShiftDigit(whole, num, top, bits, base, i);
  }

  /** print_padded: `num <<= bits_in_char` drops what leaves the 64 bits. */
  method PrintPadded(num: Word, base: int, bytes: nat) returns (r: Outcome)
    requires bytes <= 8
    ensures base != 2 && base != 16 ==> r.Panic?
    ensures base == 2 || base == 16 ==> r == Text(Padded(num, base, bytes))
  {
    if base != 2 && base != 16 {
      return Panic;
    }
    hide Shifted, Laid, Pow2, Padded, CharsPerByte;
    var bits := BitsInChar(base);
    var chars := CharsPerByte(bits);
    PaddedBounds(bits, bytes);
    PowerOf();
    var start, end := (8 - bytes) * chars, 8 * chars;
    var w, top := Skip(num, bits, base, start);
    var out := Emit(num, w, top, bits, base, chars, start, end);
    LaidPadded(num, base, bits, bytes, end - start);
    r := Text(out);
  }

  /** Where the digits of the low bytes start and end. */
  lemma PaddedBounds(bits: nat, bytes: nat)
    requires (bits == 1 || bits == 4) && bytes <= 8
    ensures var chars := CharsPerByte(bits);
            && chars > 0 && 0 <= (8 - bytes) * chars <= 8 * chars
            && bits * (8 * chars) == 64 && bits * ((8 - bytes) * chars) <= 64
            && 8 * chars - (8 - bytes) * chars == (if bits == 1 then 8 else 2) * bytes
            && (bits == 1 ==> chars == 8 && ((8 - bytes) * chars) % 8 == 0)
  {
    CharsValues();
    if bits == 1 {
      ModUnique((8 - bytes) * 8, 8, 8 - bytes, 0);
    }
  }

  /** chars_for_byte */
  function CharsPerByte(bits: nat): int
    requires bits > 0
  {
    8 / bits
  }

  lemma CharsValues()
    ensures CharsPerByte(1) == 8 && CharsPerByte(4) == 2
  {
  }

  /** The second loop of print_padded; `top` is what has left the word. */
  method Skip(num: Word, bits: nat, base: nat, start: nat) returns (w: Word, ghost top: nat)
    requires bits > 0 && base == Pow2(bits) && bits * start <= 64
    ensures Shifted(num, w, top, bits, start)
  {
    hide Shifted, Pow2, Shl, TopDigit;
    w, top := num, 0;
    ShiftStart(num, bits);
    var i := 0;
    while i < start
      invariant 0 <= i <= start
      invariant Shifted(num, w, top, bits, i)
    {
      Room(bits, i, start);
      var d := Shift(num, w, top, bits, base, i);
      w, top := Shl(w, base), top * base + d;
      i := i + 1;
    }
  }

  lemma Room(bits: nat, i: nat, n: nat)
    requires i < n
    ensures bits * i + bits <= bits * n
  {
    assert bits * n == bits * i + bits + bits * (n - i - 1);
    MulNonNegative(bits, n - i - 1);
  }

  /** Its last loop. */
  method Emit(num: Word, w0: Word, ghost top0: nat, bits: nat, base: nat, chars: nat, start: nat, end: nat)
    returns (out: string)
    requires bits > 0 && 2 <= base <= 16 && base == Pow2(bits) && bits * end == 64 && start <= end
    requires chars > 0 && (bits == 1 ==> chars == 8 && start % 8 == 0)
    requires Shifted(num, w0, top0, bits, start)
    ensures out == Laid(num, base, bits, end - start)
  {
    hide Shifted, Laid, DigitChar, Pow2, Shl, TopDigit;
    ghost var top: nat := top0;
    var w: Word := w0;
    out := "";
    LaidNone(top, base, bits);
    var i := start;
    while i < end
      invariant start <= i <= end
      invariant Shifted(num, w, top, bits, i)
      invariant out == Laid(top, base, bits, i - start)
    {
      Room(bits, i, end);
      ghost var d := Shift(num, w, top, bits, base, i);
      LaidSnoc(top, base, bits, i - start, d);
      SameOctet(i, start);
      if i != start && bits == 1 && i % chars == 0 {
        out := out + "_";
      }
      out := out + [DigitChar(TopDigit(w, bits))];
      w, top := Shl(w, base), top * base + d;
      i := i + 1;
    }
    ShiftEnd(num, w, top, bits, i);
  }

  lemma PowerOf()
    ensures Pow2(1) == 2 && Pow2(4) == 16
  {
  }

  lemma LaidNone(top: nat, base: nat, bits: nat)
    requires 2 <= base <= 16
    ensures Laid(top, base, bits, 0) == ""
  {
  }

  lemma LaidPadded(num: nat, base: nat, bits: nat, bytes: nat, n: nat)
    requires (base == 2 && bits == 1 && n == 8 * bytes) || (base == 16 && bits == 4 && n == 2 * bytes)
    ensures Laid(num, base, bits, n) == Padded(num, base, bytes)
  {
  }

  lemma SameOctet(i: nat, start: nat)
    ensures start % 8 == 0 ==> (i % 8 == 0 <==> (i - start) % 8 == 0)
  {
  }

  // ---- PRINT_INT ----

  /** The least value of a signed type of so many bytes. */
  function Least(bytes: nat): int
    requires bytes > 0
  {
    -(Pow2(8 * bytes - 1) as int)
  }

  /** `-var` stored back into the type: the least value stays what it is. */
  function Negate(v: int, bytes: nat): int
    requires bytes > 0
  {
    if v == Least(bytes) then v else -v
  }

  predicate Fits(v: int, bytes: nat) {
    (bytes == 1 || bytes == 2 || bytes == 4 || bytes == 8) && Least(bytes) <= v < -Least(bytes)
  }

  /** The word a signed value is converted to. */
  function Magnitude(v: int, bytes: nat): int
    requires bytes > 0
  {
    if v < 0 then (if v == Least(bytes) then WORD + v else -v) else v
  }

  /** PRINT_INT for a value of so many bytes, after the sign: which printer gets what. */
  function IntText(v: int, base: nat, bytes: nat): (s: string)
    requires Fits(v, bytes) && 2 <= base <= 16
  {
    MagnitudeWord(v, bytes);
    (if v < 0 then "-" else "") +
    if base == 2 || base == 16 then Padded(Magnitude(v, bytes), base, bytes) else Digits(Magnitude(v, bytes), base)
  }

  lemma MagnitudeWord(v: int, bytes: nat)
    requires Fits(v, bytes)
    ensures 0 <= Magnitude(v, bytes) < WORD && Least(bytes) >= -0x8000_0000_0000_0000
    ensures bytes == 8 ==> Least(bytes) == -0x8000_0000_0000_0000
    ensures bytes < 8 ==> Least(bytes) >= -0x8000_0000
    ensures Pow2(8 * bytes) == -2 * Least(bytes)
  {
    Pow2Values();
    assert Pow2(7) == 128 && Pow2(15) == 32768;
    assert Pow2(64) == 2 * Pow2(63);
  }

  method PrintInt(v: int, base: int, bytes: nat) returns (r: Outcome)
    requires Fits(v, bytes) && base <= 16
    ensures base < 2 ==> r.Panic?
    ensures base >= 2 ==> r == Text(IntText(v, base, bytes))
  {
    hide Least, Padded, Digits;
    MagnitudeWord(v, bytes);
    var x := v;
    var sign := "";
    if x < 0 {
      sign := "-";
      x := Negate(x, bytes);
    }
    var word: Word := if x < 0 then WORD + x else x;
    if base == 2 || base == 16 {
      r := PrintPadded(word, base, bytes);
    } else {
      r := PrintUint(word, base);
    }
    if r.Text? {
      r := Text(sign + r.s);
    }
  }

  /** Read a signed numeral. */
  function ParseSigned(s: string, base: nat): int {
    if s != "" && s[0] == '-' then -Parse(s[1..], base) else Parse(s, base)
  }

  /** Signed decimal output reads back as the value, except exactly for the least values of the
  1-, 2- and 4-byte types. */
  lemma SignedRoundTrip(v: int, base: nat, bytes: nat)
    requires Fits(v, bytes) && 2 < base < 16
    ensures ParseSigned(IntText(v, base, bytes), base) == v <==> !(v == Least(bytes) && bytes < 8)
    ensures v == Least(bytes) && bytes < 8 ==> ParseSigned(IntText(v, base, bytes), base) == -(WORD + v)
  {
    hide Least, Digits, Parse, Canonical;
    MagnitudeWord(v, bytes);
    var m := Magnitude(v, bytes);
    DigitsParse(m, base);
    NoSign(Digits(m, base), base);
    if v < 0 {
      assert IntText(v, base, bytes)[1..] == Digits(m, base);
    } else {
      assert IntText(v, base, bytes) == Digits(m, base);
    }
  }

  lemma NoSign(s: string, base: nat)
    requires Canonical(s, base)
    ensures s != "" && s[0] != '-'
  {
    assert DigitValue(s[0]) >= 0;
  }

  /** Binary and hexadecimal output does so for every value. */
  lemma SignedPaddedRoundTrip(v: int, base: nat, bytes: nat)
    requires Fits(v, bytes) && (base == 2 || base == 16)
    ensures ParseSigned(Strip(IntText(v, base, bytes)), base) == v
  {
    hide Padded, Parse, Pow2, Numeral, Strip, Least;
    MagnitudeWord(v, bytes);
    var m := Magnitude(v, bytes);
    PaddedParses(m, base, bytes);
    var p := Padded(m, base, bytes);
    LowMagnitude(v, bytes);
    StripSign(p, base);
    if v < 0 {
      assert IntText(v, base, bytes) == "-" + p;
      assert ("-" + Strip(p))[1..] == Strip(p);
    } else {
      assert IntText(v, base, bytes) == p;
    }
  }

  /** The low bytes of the magnitude are the absolute value. */
  lemma LowMagnitude(v: int, bytes: nat)
    requires Fits(v, bytes)
    ensures Magnitude(v, bytes) >= 0 && Magnitude(v, bytes) % Pow2(8 * bytes) == if v < 0 then -v else v
  {
    hide Pow2;
    MagnitudeWord(v, bytes);
    var m, p := Magnitude(v, bytes), Pow2(8 * bytes);
    if v < 0 && v == Least(bytes) {
      Pow2Sum(64 - 8 * bytes, 8 * bytes);
      Pow2Values();
      var q := Pow2(64 - 8 * bytes);
      assert m == p * (q - 1) + (p + v);
      ModUnique(m, p, q - 1, p + v);
    } else {
      ModUnique(m, p, 0, m);
    }
  }

  lemma {:induction false} StripSign(s: string, base: nat)
    ensures Strip("-" + s) == "-" + Strip(s)
    ensures Numeral(Strip(s), base) && Strip(s) != "" ==> Strip(s)[0] != '-'
  {
    if s == "" {
      assert ("-" + s) == "" + "-";
      StripSnoc("", '-');
    } else {
      var n := |s| - 1;
      StripSign(s[..n], base);
      assert "-" + s == ("-" + s[..n]) + [s[n]] && s == s[..n] + [s[n]];
      StripSnoc("-" + s[..n], s[n]);
      StripSnoc(s[..n], s[n]);
    }
    assert Numeral(Strip(s), base) && Strip(s) != "" ==> DigitValue(Strip(s)[0]) >= 0;
  }
}
