/** Number formatting (vsprintf.c): number and skip_atoi. */
module Numbers {
  import opened Options
  import opened Arith

  /** The bits of the type argument: ZEROPAD, SIGN, PLUS, SPACE, LEFT, SPECIAL, SMALL. */
  datatype Flags = Flags(zeropad: bool, sign: bool, plus: bool, space: bool, left: bool, special: bool, small: bool)

  // ---------- digits and what they mean ----------

  /** digits[d]. */
  function DigitOf(d: nat, small: bool): (c: char)
    requires d < 36
    ensures ValueOf(c) == d && c != ' '
  {
    if d < 10 then (48 + d) as char else if small then (87 + d) as char else (55 + d) as char
  }

  /** The value of a digit character, or 36 for any other. */
  function ValueOf(c: char): nat {
    if '0' <= c <= '9' then c as nat - 48
    else if 'A' <= c <= 'Z' then c as nat - 55
    else if 'a' <= c <= 'z' then c as nat - 87
    else 36
  }

  predicate AllDigits(s: string, base: nat) {
    forall i :: 0 <= i < |s| ==> ValueOf(s[i]) < base
  }

  /** The number a digit string denotes. */
  function Read(s: string, base: nat): nat {
    if s == [] then 0 else Read(s[..|s| - 1], base) * base + ValueOf(s[|s| - 1])
  }

  /** The digits of n, most significant first. */
  function Digits(n: nat, base: nat, small: bool): (s: string)
    requires 2 <= base <= 36
    ensures |s| > 0 && AllDigits(s, base)
    decreases n
  {
    if n < base then [DigitOf(n, small)] else
      Quotient(n, base);
      Digits(Quot(n, base), base, small) + [DigitOf(Rem(n, base), small)]
  }

  /** Digits and Read are inverse, and no digit is wasted. */
  lemma {:induction false} DigitsRead(n: nat, base: nat, small: bool)
    requires 2 <= base <= 36
    ensures Read(Digits(n, base, small), base) == n
    ensures |Digits(n, base, small)| > 1 ==> ValueOf(Digits(n, base, small)[0]) > 0
    decreases n
  {
    var s := Digits(n, base, small);
    if n < base {
      assert s[..0] == [] && Read([], base) == 0;
    } else {
      Quotient(n, base);
      DigitsRead(Quot(n, base), base, small);
      assert s[..|s| - 1] == Digits(Quot(n, base), base, small);
      if Quot(n, base) < base { assert Digits(Quot(n, base), base, small) == [DigitOf(Quot(n, base), small)]; }
    }
  }

  /** The two results of do_div. */
  function Quot(n: nat, base: nat): nat
    requires base > 0
  {
    n / base
  }

  function Rem(n: nat, base: nat): (r: nat)
    requires base > 0
    ensures r < base
  {
    n % base
  }

  lemma {:induction false} Quotient(n: nat, base: nat)
    requires base >= 2
    ensures n == (Quot(n, base)) * base + Rem(n, base) && 2 * (Quot(n, base)) <= n
    ensures n >= base ==> 0 < Quot(n, base) < n
  {
    var q := Quot(n, base);
    assert n == base * q + Rem(n, base);
    assert base * q == 2 * q + (base - 2) * q;
    assert (base - 2) * q >= 0;
  }

  function Zeros(k: int): string { if k <= 0 then [] else Zeros(k - 1) + ['0'] }

  function Spaces(k: int): string { if k <= 0 then [] else Spaces(k - 1) + [' '] }

  function Max(a: int, b: int): int { if a > b then a else b }

  // ---------- what number prints ----------

  predicate Int32(n: int) { -0x8000_0000 <= n < 0x8000_0000 }

  /** The value do_div works on: the magnitude of a negative number to be shown with its sign, or the
      argument read as unsigned. */
  function Magnitude(num: int, f: Flags): nat
    requires Int32(num)
  {
    if f.sign && num < 0 then -num else if num < 0 then num + 0x1_0000_0000 else num
  }

  function SignOf(num: int, f: Flags): string {
    if f.sign && num < 0 then "-" else if f.plus then "+" else if f.space then " " else ""
  }

  function Prefix(base: nat, f: Flags): string {
    if !f.special then "" else if base == 8 then "0" else if base == 16 then (if f.small then "0x" else "0X") else ""
  }

  /** Precision zeros and digits. */
  function Core(num: int, base: nat, precision: int, f: Flags): string
    requires Int32(num) && 2 <= base <= 36
  {
    var s := Digits(Magnitude(num, f), base, f.small);
    Zeros(precision - |s|) + s
  }

  /** The whole field, padded on the left, inside or on the right. */
  function Field(num: int, base: nat, width: int, precision: int, f: Flags): string
    requires Int32(num) && 2 <= base <= 36
  {
    var head := SignOf(num, f) + Prefix(base, f);
    var core := Core(num, base, precision, f);
    var pad := width - |head| - |core|;
    if f.left then head + core + Spaces(pad)
    else if f.zeropad then head + Zeros(pad) + core
    else Spaces(pad) + head + core
  }

  lemma {:induction false} PaddingLength(k: int)
    ensures |Zeros(k)| == |Spaces(k)| == Max(k, 0)
  {
    if k > 0 { PaddingLength(k - 1); }
  }

  /** The field is as long as its width, or as long as it has to be. */
  lemma {:induction false} FieldLength(num: int, base: nat, width: int, precision: int, f: Flags)
    requires Int32(num) && 2 <= base <= 36
    ensures |Field(num, base, width, precision, f)| ==
              Max(width, |SignOf(num, f)| + |Prefix(base, f)| +
                         Max(precision, |Digits(Magnitude(num, f), base, f.small)|))
  {
    var s := Digits(Magnitude(num, f), base, f.small);
    PaddingLength(precision - |s|);
    PaddingLength(width - |SignOf(num, f)| - |Prefix(base, f)| - |Core(num, base, precision, f)|);
  }

  // ---------- what a printed number looks like ----------

  /** digits[d], as the two tables have it. */
  lemma {:induction false} DigitTable(d: nat, small: bool)
    requires d < 36
    ensures DigitOf(d, small) ==
              if small then "0123456789abcdefghijklmnopqrstuvwxyz"[d] else "0123456789ABCDEFGHIJKLMNOPQRSTUVWXYZ"[d]
  {
  }

  /** Where the parts of a printed number begin: sign, prefix, zeros, digits, and what comes after them. */
  datatype Parts = Parts(sign: nat, prefix: nat, zeros: nat, digits: nat, end: nat)

  predicate Only(s: string, c: char) { forall i :: 0 <= i < |s| ==> s[i] == c }

  /** A digit of the base, its letters in the case asked for. */
  predicate ProperDigit(c: char, base: nat, small: bool) {
    ValueOf(c) < base && ('0' <= c <= '9' || if small then 'a' <= c <= 'z' else 'A' <= c <= 'Z')
  }

  /** The number to be shown, without its sign. */
  predicate Denotes(digits: string, base: nat, num: int, signed: bool) {
    Read(digits, base) == if num >= 0 then num else if signed then -num else num + 0x1_0000_0000
  }

  /** What number has to print: blanks on the left unless LEFT or ZEROPAD, the sign, the prefix, zeros up to the
      precision and under ZEROPAD without LEFT up to the width, the digits, and blanks on the right under LEFT. */
  predicate Looks(r: string, p: Parts, num: int, base: nat, width: int, precision: int, f: Flags) {
    && p.sign <= p.prefix <= p.zeros <= p.digits < p.end <= |r|
    && Only(r[..p.sign], ' ') && (p.sign > 0 ==> !f.left && !f.zeropad)
    && r[p.sign..p.prefix] == (if f.sign && num < 0 then "-" else if f.plus then "+" else if f.space then " " else "")
    && r[p.prefix..p.zeros] == (if !f.special then "" else if base == 8 then "0" else if base != 16 then "" else
                                if f.small then "0x" else "0X")
    && Only(r[p.zeros..p.digits], '0')
    && (f.left || !f.zeropad ==> p.digits - p.zeros == Max(precision - (p.end - p.digits), 0))
    && (forall i :: p.digits <= i < p.end ==> ProperDigit(r[i], base, f.small))
    && Denotes(r[p.digits..p.end], base, num, f.sign) && (p.end - p.digits > 1 ==> r[p.digits] != '0')
    && Only(r[p.end..], ' ') && (p.end < |r| ==> f.left)
    && |r| == Max(width, p.zeros - p.sign + Max(precision, p.end - p.digits))
  }

  lemma {:induction false} DigitsProper(n: nat, base: nat, small: bool)
    requires 2 <= base <= 36
    ensures forall i :: 0 <= i < |Digits(n, base, small)| ==> ProperDigit(Digits(n, base, small)[i], base, small)
    decreases n
  {
    if n >= base {
      Quotient(n, base);
      DigitsProper(Quot(n, base), base, small);
    }
  }

  lemma {:induction false} PaddingOnly(k: int)
    ensures Only(Zeros(k), '0') && Only(Spaces(k), ' ')
  {
    if k > 0 { PaddingOnly(k - 1); }
  }

  lemma {:induction false} OnlyMore(s: string, t: string, c: char)
    requires Only(s, c) && Only(t, c)
    ensures Only(s + t, c)
  {
  }

  /** The parts, put together. */
  function Joined(blanks: string, sign: string, prefix: string, zeros: string, digits: string, tail: string): string {
    blanks + (sign + (prefix + (zeros + (digits + tail))))
  }

  lemma {:induction false} JoinedParts(blanks: string, sign: string, prefix: string, zeros: string, digits: string,
                                       tail: string) returns (p: Parts)
    requires digits != []
    ensures var r := Joined(blanks, sign, prefix, zeros, digits, tail);
            && p.sign == |blanks| && p.prefix == p.sign + |sign| && p.zeros == p.prefix + |prefix|
            && p.digits == p.zeros + |zeros| && p.end == p.digits + |digits| && |r| == p.end + |tail|
            && r[..p.sign] == blanks && r[p.sign..p.prefix] == sign && r[p.prefix..p.zeros] == prefix
            && r[p.zeros..p.digits] == zeros && r[p.digits..p.end] == digits && r[p.end..] == tail
  {
    var a := |blanks|;
    var b, c := a + |sign|, a + |sign| + |prefix|;
    p := Parts(a, b, c, c + |zeros|, c + |zeros| + |digits|);
  }

  /** The field is that. */
  lemma {:induction false} FieldLooks(num: int, base: nat, width: int, precision: int, f: Flags) returns (p: Parts)
    requires Int32(num) && 2 <= base <= 36
    ensures Looks(Field(num, base, width, precision, f), p, num, base, width, precision, f)
  {
    hide Read, Digits, Spaces, Zeros, AllDigits, Only, ProperDigit, Joined, Field, Looks;
    var n := Magnitude(num, f);
    var s := Digits(n, base, f.small);
    var sign, prefix, zeros := SignOf(num, f), Prefix(base, f), Zeros(precision - |s|);
    var pad := width - |sign + prefix| - |zeros + s|;
    DigitsRead(n, base, f.small);
    DigitsProper(n, base, f.small);
    PaddingLength(precision - |s|);
    PaddingLength(pad);
    PaddingOnly(precision - |s|);
    PaddingOnly(pad);
    NothingOnly();
    var blanks, all, tail := "", zeros, "";
    if f.left {
      tail := Spaces(pad);
    } else if f.zeropad {
      OnlyMore(Zeros(pad), zeros, '0');
      all := Zeros(pad) + zeros;
    } else {
      blanks := Spaces(pad);
    }
    JoinedField(num, base, width, precision, f, blanks, all, tail);
    p := JoinedLooks(blanks, all, s, tail, num, base, width, precision, f);
  }

  lemma {:induction false} JoinedLooks(blanks: string, zeros: string, digits: string, tail: string, num: int, base: nat,
                                       width: int, precision: int, f: Flags) returns (p: Parts)
    requires digits != [] && forall i :: 0 <= i < |digits| ==> ProperDigit(digits[i], base, f.small)
    requires Denotes(digits, base, num, f.sign) && (|digits| > 1 ==> digits[0] != '0')
    requires Only(blanks, ' ') && Only(zeros, '0') && Only(tail, ' ')
    requires (blanks != "" ==> !f.left && !f.zeropad) && (tail != "" ==> f.left)
    requires f.left || !f.zeropad ==> |zeros| == Max(precision - |digits|, 0)
    requires |blanks| + |SignOf(num, f)| + |Prefix(base, f)| + |zeros| + |digits| + |tail| ==
               Max(width, |SignOf(num, f)| + |Prefix(base, f)| + Max(precision, |digits|))
    ensures Looks(Joined(blanks, SignOf(num, f), Prefix(base, f), zeros, digits, tail), p, num, base, width,
                  precision, f)
  {
    hide Read, Only, ProperDigit, Joined, Denotes;
    var r := Joined(blanks, SignOf(num, f), Prefix(base, f), zeros, digits, tail);
    p := JoinedParts(blanks, SignOf(num, f), Prefix(base, f), zeros, digits, tail);
    forall i | p.digits <= i < p.end
      ensures ProperDigit(r[i], base, f.small)
    {
      assert r[i] == r[p.digits..p.end][i - p.digits];
    }
    assert r[p.digits] == r[p.digits..p.end][0];
  }

  lemma {:induction false} NothingOnly()
    ensures Only("", ' ')
  {
  }

  lemma {:induction false} JoinedField(num: int, base: nat, width: int, precision: int, f: Flags, blanks: string,
                                       zeros: string, tail: string)
    requires Int32(num) && 2 <= base <= 36
    requires var s := Digits(Magnitude(num, f), base, f.small);
             var inner := Zeros(precision - |s|);
             var pad := width - |SignOf(num, f) + Prefix(base, f)| - |inner + s|;
             if f.left then blanks == "" && zeros == inner && tail == Spaces(pad)
             else if f.zeropad then blanks == "" && zeros == Zeros(pad) + inner && tail == ""
             else blanks == Spaces(pad) && zeros == inner && tail == ""
    ensures Field(num, base, width, precision, f) ==
              Joined(blanks, SignOf(num, f), Prefix(base, f), zeros, Digits(Magnitude(num, f), base, f.small), tail)
  {
    hide Digits, Spaces, Zeros, SignOf, Prefix, Magnitude;
  }

  lemma {:induction false} ProperValue(c: char, d: char, base: nat, small: bool)
    requires base <= 36 && ProperDigit(c, base, small) && ProperDigit(d, base, small) && ValueOf(c) == ValueOf(d)
    ensures c == d
  {
  }

  lemma {:induction false} ReadPositive(s: string, base: nat)
    requires s != [] && base >= 2 && ValueOf(s[0]) > 0
    ensures Read(s, base) > 0
  {
    if |s| > 1 {
      ReadPositive(s[..|s| - 1], base);
      assert Read(s[..|s| - 1], base) * base > 0;
    }
  }

  /** Equal numbers have equal last digits and equal rests. */
  lemma {:induction false} LastDigit(a: nat, x: nat, b: nat, y: nat, base: nat)
    requires base >= 2 && x < base && y < base && a * base + x == b * base + y
    ensures a == b && x == y
  {
    Arith.Quotient(a * base + x, base, a, x);
    Arith.Quotient(b * base + y, base, b, y);
  }

  /** No other digits without a needless zero denote the same number. */
  lemma {:induction false} DigitsUnique(s: string, t: string, base: nat, small: bool)
    requires 2 <= base <= 36 && s != [] && t != [] && Read(s, base) == Read(t, base)
    requires forall i :: 0 <= i < |s| ==> ProperDigit(s[i], base, small)
    requires forall i :: 0 <= i < |t| ==> ProperDigit(t[i], base, small)
    requires (|s| > 1 ==> s[0] != '0') && (|t| > 1 ==> t[0] != '0')
    ensures s == t
    decreases |s|
  {
    hide ProperDigit, ValueOf;
    var u, v := s[..|s| - 1], t[..|t| - 1];
    var c, d := s[|s| - 1], t[|t| - 1];
    DigitsProperValues(s, base, small);
    DigitsProperValues(t, base, small);
    LastDigit(Read(u, base), ValueOf(c), Read(v, base), ValueOf(d), base);
    ProperValue(c, d, base, small);
    assert s == u + [c] && t == v + [d];
    if u != [] { ReadPositive(u, base); }
    if v != [] { ReadPositive(v, base); }
    if u != [] && v != [] { DigitsUnique(u, v, base, small); }
  }

  lemma {:induction false} DigitsProperValues(s: string, base: nat, small: bool)
    requires s != [] && forall i :: 0 <= i < |s| ==> ProperDigit(s[i], base, small)
    ensures ValueOf(s[|s| - 1]) < base && (s[0] != '0' ==> ValueOf(s[0]) > 0)
  {
  }

  lemma {:induction false} OnlySame(s: string, t: string, c: char)
    requires Only(s, c) && Only(t, c) && |s| == |t|
    ensures s == t
  {
  }

  /** Nothing else looks like that: number has no choice. */
  lemma {:induction false} LooksUnique(r: string, p: Parts, t: string, q: Parts, num: int, base: nat, width: int,
                                       precision: int, f: Flags)
    requires 2 <= base <= 36
    requires Looks(r, p, num, base, width, precision, f) && Looks(t, q, num, base, width, precision, f)
    ensures r == t && p == q
  {
    hide ProperDigit, Only, Read;
    var a, b := r[p.digits..p.end], t[q.digits..q.end];
    DigitsUnique(a, b, base, f.small);
    assert |a| == p.end - p.digits && |b| == q.end - q.digits;
    assert |r[p.sign..p.prefix]| == p.prefix - p.sign && |t[q.sign..q.prefix]| == q.prefix - q.sign;
    assert |r[p.prefix..p.zeros]| == p.zeros - p.prefix && |t[q.prefix..q.zeros]| == q.zeros - q.prefix;
    assert p == q;
    OnlySame(r[..p.sign], t[..p.sign], ' ');
    OnlySame(r[p.zeros..p.digits], t[p.zeros..p.digits], '0');
    OnlySame(r[p.end..], t[p.end..], ' ');
    SameParts(r, t, p);
  }

  lemma {:induction false} PrefixMore(r: string, t: string, a: nat, b: nat)
    requires a <= b <= |r| == |t| && r[..a] == t[..a] && r[a..b] == t[a..b]
    ensures r[..b] == t[..b] && (b == |r| ==> r == t)
  {
    assert r[..b] == r[..a] + r[a..b] && t[..b] == t[..a] + t[a..b];
  }

  lemma {:induction false} SameParts(r: string, t: string, p: Parts)
    requires p.sign <= p.prefix <= p.zeros <= p.digits <= p.end <= |r| == |t|
    requires r[..p.sign] == t[..p.sign] && r[p.sign..p.prefix] == t[p.sign..p.prefix]
    requires r[p.prefix..p.zeros] == t[p.prefix..p.zeros] && r[p.zeros..p.digits] == t[p.zeros..p.digits]
    requires r[p.digits..p.end] == t[p.digits..p.end] && r[p.end..] == t[p.end..]
    ensures r == t
  {
    PrefixMore(r, t, p.sign, p.prefix);
    PrefixMore(r, t, p.prefix, p.zeros);
    PrefixMore(r, t, p.zeros, p.digits);
    PrefixMore(r, t, p.digits, p.end);
    assert r[p.end..|r|] == t[p.end..|t|];
    PrefixMore(r, t, p.end, |r|);
  }

  // ---------- reading a field back ----------

  function SkipSpaces(s: string): string {
    if s != [] && s[0] == ' ' then SkipSpaces(s[1..]) else s
  }

  /** The digits a string starts with. */
  function DigitRun(s: string, base: nat): (r: string)
    ensures AllDigits(r, base) && |r| <= |s| && s[..|r|] == r
    ensures |r| < |s| ==> ValueOf(s[|r|]) >= base
  {
    if s != [] && ValueOf(s[0]) < base then [s[0]] + DigitRun(s[1..], base) else []
  }

  /** The number after the sign: the prefix, then digits up to the first other character. */
  function ScanBody(b: string, base: nat, special: bool): nat {
    Read(DigitRun(if special && base == 16 && |b| >= 2 then b[2..] else b, base), base)
  }

  /** A reader that knows only the base and whether hexadecimals carry a prefix: spaces, a sign, the
      prefix, digits. */
  function Scan(s: string, base: nat, special: bool): int {
    var a := SkipSpaces(s);
    if a != [] && a[0] == '-' then 0 - ScanBody(a[1..], base, special)
    else if a != [] && a[0] == '+' then ScanBody(a[1..], base, special)
    else ScanBody(a, base, special)
  }

  lemma {:induction false} SkipPadding(k: int, s: string)
    ensures SkipSpaces(Spaces(k) + s) == SkipSpaces(s)
  {
    if k > 0 {
      SkipPadding(k - 1, [' '] + s);
      assert Spaces(k) + s == Spaces(k - 1) + ([' '] + s);
      assert ([' '] + s)[1..] == s;
    } else {
      assert Spaces(k) + s == s;
    }
  }

  lemma {:induction false} RunOf(a: string, b: string, base: nat)
    requires AllDigits(a, base) && (b == [] || ValueOf(b[0]) >= base)
    ensures DigitRun(a + b, base) == a
    decreases |a|
  {
    if a == [] {
      assert a + b == b;
    } else {
      RunOf(a[1..], b, base);
      assert (a + b)[1..] == a[1..] + b;
    }
  }

  lemma {:induction false} ZerosRead(k: int, s: string, base: nat)
    requires AllDigits(s, base) && base >= 2
    ensures AllDigits(Zeros(k) + s, base) && Read(Zeros(k) + s, base) == Read(s, base)
    decreases Max(k, 0), |s|
  {
    var t := Zeros(k) + s;
    if s == [] {
      assert t == Zeros(k);
      if k > 0 {
        ZerosRead(k - 1, [], base);
        assert Zeros(k - 1) + [] == Zeros(k - 1) && t[..|t| - 1] == Zeros(k - 1);
      }
    } else {
      ZerosRead(k, s[..|s| - 1], base);
      assert t[..|t| - 1] == Zeros(k) + s[..|s| - 1];
      assert t == Zeros(k) + s[..|s| - 1] + [s[|s| - 1]];
    }
  }

  /** The value a field shows. */
  function Shown(num: int, f: Flags): int
    requires Int32(num)
  {
    if f.sign then num else if num < 0 then num + 0x1_0000_0000 else num
  }

  lemma {:induction false} BodyScanned(base: nat, f: Flags, digits: string, tail: string)
    requires 2 <= base <= 36 && digits != [] && AllDigits(digits, base) && (tail == [] || tail[0] == ' ')
    ensures ScanBody(Prefix(base, f) + (digits + tail), base, f.special) == Read(digits, base)
  {
    hide DigitRun, Read;
    var rest := digits + tail;
    var body := Prefix(base, f) + rest;
    RunOf(digits, tail, base);
    if f.special && base == 16 {
      assert body[2..] == rest;
    } else if f.special && base == 8 {
      PrefixZero(digits, base);
      RunOf("0" + digits, tail, base);
      assert body == "0" + digits + tail;
    } else {
      assert body == rest;
    }
  }

  lemma {:induction false} BodyStarts(base: nat, f: Flags, digits: string, tail: string)
    requires 2 <= base <= 36 && digits != [] && AllDigits(digits, base)
    ensures var body := Prefix(base, f) + (digits + tail);
            body != [] && body[0] != ' ' && body[0] != '-' && body[0] != '+'
  {
  }

  /** A field made of these parts reads back as its digits, with the sign. */
  lemma {:induction false} ScanField(k: int, num: int, base: nat, f: Flags, digits: string, tail: string)
    requires 2 <= base <= 36 && digits != [] && AllDigits(digits, base) && (tail == [] || tail[0] == ' ')
    ensures Scan(Spaces(k) + (SignOf(num, f) + (Prefix(base, f) + (digits + tail))), base, f.special) ==
              if f.sign && num < 0 then 0 - Read(digits, base) else Read(digits, base)
  {
    hide SkipSpaces, ScanBody, Read, Spaces, Prefix;
    var body := Prefix(base, f) + (digits + tail);
    BodyScanned(base, f, digits, tail);
    BodyStarts(base, f, digits, tail);
    SkipPadding(k, SignOf(num, f) + body);
    SkipSign(SignOf(num, f), body);
  }

  lemma {:induction false} PrefixZero(digits: string, base: nat)
    requires base >= 2 && AllDigits(digits, base)
    ensures AllDigits("0" + digits, base) && Read("0" + digits, base) == Read(digits, base)
  {
    ZerosRead(1, digits, base);
    assert Zeros(1) == Zeros(0) + ['0'] == "0";
  }

  lemma {:induction false} SkipSign(sign: string, body: string)
    requires sign == "" || sign == " " || sign == "-" || sign == "+"
    requires body != [] && body[0] != ' ' && body[0] != '-' && body[0] != '+'
    ensures SkipSpaces(sign + body) == if sign == "-" || sign == "+" then sign + body else body
    ensures sign == "-" || sign == "+" ==> (sign + body)[0] == sign[0] && (sign + body)[1..] == body
  {
    if sign == "" {
      assert sign + body == body;
    } else {
      assert (sign + body)[1..] == body;
    }
  }

  /** What is printed reads back, in the given base, to the value that was to be shown: for every width,
      precision and set of flags. */
  lemma {:induction false} FieldReadsBack(num: int, base: nat, width: int, precision: int, f: Flags)
    requires Int32(num) && 2 <= base <= 36
    ensures Scan(Field(num, base, width, precision, f), base, f.special) == Shown(num, f)
  {
    hide Scan, Read, Digits, Spaces, Zeros, SignOf, Prefix, AllDigits;
    var s := Digits(Magnitude(num, f), base, f.small);
    var sign, prefix, core := SignOf(num, f), Prefix(base, f), Core(num, base, precision, f);
    var pad := width - |sign + prefix| - |core|;
    DigitsRead(Magnitude(num, f), base, f.small);
    ZerosRead(precision - |s|, s, base);
    PaddingLength(pad);
    NoPadding();
    if f.left {
      SpacesStart(pad);
      ScanField(0, num, base, f, core, Spaces(pad));
      assert Field(num, base, width, precision, f) == Spaces(0) + (sign + (prefix + (core + Spaces(pad))));
    } else if f.zeropad {
      ZerosRead(pad, core, base);
      ScanField(0, num, base, f, Zeros(pad) + core, []);
      assert Field(num, base, width, precision, f) == Spaces(0) + (sign + (prefix + (Zeros(pad) + core + [])));
    } else {
      ScanField(pad, num, base, f, core, []);
      assert Field(num, base, width, precision, f) == Spaces(pad) + (sign + (prefix + (core + [])));
    }
  }

  lemma {:induction false} NoPadding()
    ensures Spaces(0) == [] && Zeros(0) == []
  {
  }

  lemma {:induction false} SpacesStart(k: int)
    ensures Spaces(k) == [] || Spaces(k)[0] == ' '
  {
    if k > 0 { SpacesStart(k - 1); }
  }

  // ---------- the code ----------

  /** Several equal characters. */
  function Fill(c: char, k: int): string { if k <= 0 then [] else Fill(c, k - 1) + [c] }

  lemma {:induction false} Fills(k: int)
    ensures Fill(' ', k) == Spaces(k) && Fill('0', k) == Zeros(k)
  {
    if k > 0 { Fills(k - 1); }
  }

  /** while (size-- > 0) *str++ = c. */
  method PadWith(str: string, size: int, c: char) returns (out: string, left: int)
    ensures out == str + Fill(c, size)
    ensures left < 0
  {
    out, left := str, size;
    while left > 0
      invariant out == str + Fill(c, size - Max(left, 0)) && left <= size
      decreases left
    {
      assert size - left + 1 > 0;
      left := left - 1;
      out := out + [c];
    }
    left := if left < 0 then left - 1 else -1;
  }

  function Backwards(s: string): string { if s == [] then [] else [s[|s| - 1]] + Backwards(s[..|s| - 1]) }

  /** The digit loop of number: tmp holds the digits, least significant first, and never overflows. */
  method FillDigits(num: nat, base: nat, small: bool, tmp: array<char>) returns (i: nat)
    requires num < 0x1_0000_0000 && 2 <= base <= 36 && tmp.Length == 36
    modifies tmp
    ensures 0 < i <= 32 && Backwards(tmp[..i]) == Digits(num, base, small) && i == |Digits(num, base, small)|
  {
    hide Backwards, Digits, Pow2, Quot, Rem;
    i := 0;
    if num == 0 {
      tmp[0] := '0';
      i := 1;
      ZeroDigits(base, small, tmp[..1]);
      BackwardsLength(tmp[..1]);
      return;
    }
    var rest: nat := num;
    NoDigitsYet(num, tmp[..0]);
    while rest != 0
      invariant i <= 32 && rest < Pow2(32 - i)
      invariant rest == 0 ==> i > 0 && Backwards(tmp[..i]) == Digits(num, base, small)
      invariant rest != 0 ==> Digits(rest, base, small) + Backwards(tmp[..i]) == Digits(num, base, small)
      decreases rest
    {
      Halved(rest, base, 32 - i);
      DigitStep(rest, base, small, tmp[..i]);
      tmp[i] := DigitOf(Rem(rest, base), small);
      assert tmp[..i + 1] == tmp[..i] + [DigitOf(Rem(rest, base), small)];
      rest := Quot(rest, base);
      i := i + 1;
    }
    BackwardsLength(tmp[..i]);
  }

  lemma {:induction false} BackwardsLength(s: string)
    ensures |Backwards(s)| == |s|
  {
    if s != [] { BackwardsLength(s[..|s| - 1]); }
  }

  lemma {:induction false} Halved(n: nat, base: nat, k: nat)
    requires 0 < n < Pow2(k) && base >= 2
    ensures k > 0 && Quot(n, base) < n && Quot(n, base) < Pow2(k - 1)
  {
    Quotient(n, base);
  }

  lemma {:induction false} NoDigitsYet(num: nat, s: string)
    requires num < 0x1_0000_0000 && s == []
    ensures num < Pow2(32) && Backwards(s) == []
  {
    Pow2Constants();
  }

  lemma {:induction false} ZeroDigits(base: nat, small: bool, s: string)
    requires 2 <= base <= 36 && s == "0"
    ensures Backwards(s) == Digits(0, base, small)
  {
    assert s[..0] == [];
  }

  lemma {:induction false} DigitStep(n: nat, base: nat, small: bool, s: string)
    requires n > 0 && 2 <= base <= 36
    ensures var t := s + [DigitOf(Rem(n, base), small)];
            if Quot(n, base) == 0 then Backwards(t) == Digits(n, base, small) + Backwards(s)
            else Digits(Quot(n, base), base, small) + Backwards(t) == Digits(n, base, small) + Backwards(s)
  {
    var t := s + [DigitOf(Rem(n, base), small)];
    Quotient(n, base);
    assert t[..|t| - 1] == s;
    if n < base { SmallQuotient(n, base); }
  }

  lemma {:induction false} SmallQuotient(n: nat, base: nat)
    requires n < base
    ensures Quot(n, base) == 0 && Rem(n, base) == n
  {
  }

  /** The last but one loops of number: precision zeros, then the buffer backwards. */
  method CopyDigits(str: string, precision: int, tmp: array<char>, count: nat) returns (out: string)
    requires count <= tmp.Length
    ensures out == str + Fill('0', precision - count) + Backwards(tmp[..count])
  {
    hide Fill, Backwards;
    out := str;
    var p := precision;
    FillNone('0', Max(precision, count) - Max(p, count));
    while count < p
      invariant p <= precision && out == str + Fill('0', Max(precision, count) - Max(p, count))
      decreases p
    {
      FillOne('0', Max(precision, count) - p + 1);
      p := p - 1;
      out := out + ['0'];
    }
    FillNone('0', precision - count);
    ghost var zeros := out;
    var i: nat := count;
    BackwardsDone(tmp[..count]);
    while i > 0
      invariant i <= count && out + Backwards(tmp[..i]) == zeros + Backwards(tmp[..count])
    {
      BackwardsStep(tmp[..i]);
      assert tmp[..i][..i - 1] == tmp[..i - 1];
      i := i - 1;
      out := out + [tmp[i]];
    }
    BackwardsDone(tmp[..0]);
  }

  lemma {:induction false} FillOne(c: char, k: int)
    requires k > 0
    ensures Fill(c, k) == Fill(c, k - 1) + [c]
  {
  }

  lemma {:induction false} FillNone(c: char, k: int)
    ensures k <= 0 ==> Fill(c, k) == []
  {
  }

  lemma {:induction false} BackwardsStep(s: string)
    requires s != []
    ensures Backwards(s) == [s[|s| - 1]] + Backwards(s[..|s| - 1])
  {
  }

  lemma {:induction false} BackwardsDone(s: string)
    ensures s == [] ==> Backwards(s) == []
  {
  }

  /** The first part of number: the sign, the prefix, the value to print and the width left for it. */
  method Head(num: int, base: nat, width: int, f: Flags) returns (sign: string, prefix: string, value: nat, size: int)
    requires Int32(num) && 2 <= base <= 36
    ensures sign == SignOf(num, f) && prefix == Prefix(base, f) && value == Magnitude(num, f)
    ensures value < 0x1_0000_0000 && size == width - |sign + prefix|
  {
    if f.sign && num < 0 {
      sign, value := "-", 0 - num;
    } else {
      sign, value := if f.plus then "+" else if f.space then " " else "", num % 0x1_0000_0000;
    }
    size := if sign != "" then width - 1 else width;
    prefix := "";
    if f.special {
      if base == 16 {
        size := size - 2;
        prefix := ['0', DigitOf(33, f.small)];
      } else if base == 8 {
        size := size - 1;
        prefix := "0";
      }
    }
  }

  /** number: None stands for the NULL returned for a base out of range. */
  method Number(num: int, base: int, width: int, precision: int, flags: Flags) returns (r: Option<string>)
    requires Int32(num)
    ensures r == if 2 <= base <= 36 then Some(Field(num, base, width, precision, flags)) else None
    ensures r.Some? ==> exists p: Parts :: Looks(r.value, p, num, base, width, precision, flags)
  {
    hide Field, Looks, Fill, Spaces, Zeros, Digits, Backwards, SignOf, Prefix, Magnitude;
    var f := if flags.left then flags.(zeropad := false) else flags;
    if base < 2 || base > 36 {
      return None;
    }
    SameHead(num, base, flags, f);
    var sign, prefix, value, size := Head(num, base, width, f);
    var tmp := new char[36];
    var i := FillDigits(value, base, f.small, tmp);
    var prec := if i > precision then i else precision;
    var str := Lay(sign, prefix, size - prec, prec, f, tmp, i);
    Assembled(num, base, width, precision, flags, i);
    ghost var p := FieldLooks(num, base, width, precision, flags);
    r := Some(str);
  }

  lemma {:induction false} SameHead(num: int, base: nat, f: Flags, g: Flags)
    requires Int32(num) && g == f.(zeropad := g.zeropad)
    ensures SignOf(num, g) == SignOf(num, f) && Prefix(base, g) == Prefix(base, f)
    ensures Magnitude(num, g) == Magnitude(num, f)
  {
  }

  /** The output half of number. */
  method Lay(sign: string, prefix: string, pad: int, prec: int, f: Flags, tmp: array<char>, i: nat)
    returns (str: string)
    requires i <= tmp.Length && !(f.left && f.zeropad)
    ensures var core := Fill('0', prec - i) + Backwards(tmp[..i]);
            str == if f.left then sign + prefix + core + Fill(' ', pad)
                   else if f.zeropad then sign + prefix + Fill('0', pad) + core
                   else Fill(' ', pad) + (sign + prefix) + core
  {
    hide Fill, Backwards;
    var c := if f.zeropad then '0' else ' ';
    var size := pad;
    str := "";
    ghost var core := Fill('0', prec - i) + Backwards(tmp[..i]);
    if !f.zeropad && !f.left {
      str, size := PadWith(str, size, ' ');
      assert str == Fill(' ', pad);
    }
    str := str + sign + prefix;
    ghost var head := str;
    if !f.left {
      FillNone(c, size);
      str, size := PadWith(str, size, c);
      assert str == if f.zeropad then head + Fill('0', pad) else head;
    }
    ghost var front := str;
    str := CopyDigits(str, prec, tmp, i);
    assert str == front + core;
    FillNone(' ', size);
    str, size := PadWith(str, size, ' ');
    assert str == if f.left then front + core + Fill(' ', pad) else front + core;
    assert !f.left && !f.zeropad ==> front == Fill(' ', pad) + (sign + prefix);
  }

  lemma {:induction false} Assembled(num: int, base: nat, width: int, precision: int, f: Flags, i: nat)
    requires Int32(num) && 2 <= base <= 36 && i == |Digits(Magnitude(num, f), base, f.small)|
    ensures var s := Digits(Magnitude(num, f), base, f.small);
            var head := SignOf(num, f) + Prefix(base, f);
            var prec := if i > precision then i else precision;
            var core := Fill('0', prec - i) + s;
            var pad := width - |head| - prec;
            Field(num, base, width, precision, f) ==
              if f.left then head + core + Fill(' ', pad)
              else if f.zeropad then head + Fill('0', pad) + core
              else Fill(' ', pad) + head + core
  {
    hide Digits, Fill, Spaces, Zeros;
    var prec := if i > precision then i else precision;
    var pad := width - |SignOf(num, f) + Prefix(base, f)| - prec;
    Fills(pad);
    Fills(prec - i);
    PaddingLength(prec - i);
    PaddingLength(precision - i);
    FillsNothing(precision - i);
  }

  lemma {:induction false} FillsNothing(k: int)
    ensures Zeros(k) == Zeros(Max(k, 0))
  {
  }

  // ---------- skip_atoi ----------

  /** A number as a 32-bit int holds it. */
  function Wrap(n: int): (r: int)
    ensures Int32(r)
  {
    (n + 0x8000_0000) % 0x1_0000_0000 - 0x8000_0000
  }

  lemma {:induction false} WrapIff(n: int)
    ensures Wrap(n) == n <==> Int32(n)
  {
  }

  lemma {:induction false} WrapStep(n: int, d: int)
    ensures Wrap(Wrap(n) * 10 + d) == Wrap(n * 10 + d)
  {
    var k := (n + 0x8000_0000) / 0x1_0000_0000;
    assert n == Wrap(n) + k * 0x1_0000_0000;
    Turns(Wrap(n) * 10 + d, 10 * k);
  }

  lemma {:induction false} Turns(n: int, k: int)
    ensures Wrap(n + k * 0x1_0000_0000) == Wrap(n)
  {
    var m := n + 0x8000_0000;
    assert (m + k * 0x1_0000_0000) / 0x1_0000_0000 == m / 0x1_0000_0000 + k;
  }

  /** skip_atoi from position at: the digits there are consumed, and their value, as a 32-bit int, is
      returned. */
  method SkipAtoi(s: string, at: nat) returns (i: int, end: nat)
    requires at <= |s|
    ensures at <= end <= |s| && s[at..end] == DigitRun(s[at..], 10)
    ensures i == Wrap(Read(DigitRun(s[at..], 10), 10))
  {
    hide Wrap, Read, DigitRun;
    i, end := 0, at;
    ReadNone(s[at..at]);
    while end < |s| && '0' <= s[end] <= '9'
      invariant at <= end <= |s| && AllDigits(s[at..end], 10)
      invariant i == Wrap(Read(s[at..end], 10))
    {
      ReadMore(s[at..end], s[end]);
      assert s[at..end + 1] == s[at..end] + [s[end]];
      WrapStep(Read(s[at..end], 10), s[end] as int - 48);
      i := Wrap(i * 10 + s[end] as int - 48);
      end := end + 1;
    }
    assert s[at..] == s[at..end] + s[end..];
    RunOf(s[at..end], s[end..], 10);
  }

  lemma {:induction false} ReadNone(s: string)
    requires s == []
    ensures Read(s, 10) == 0 && Wrap(0) == 0
  {
  }

  lemma {:induction false} ReadMore(s: string, c: char)
    requires AllDigits(s, 10) && '0' <= c <= '9'
    ensures AllDigits(s + [c], 10) && Read(s + [c], 10) == Read(s, 10) * 10 + (c as nat - 48)
  {
    assert (s + [c])[..|s|] == s;
  }

  /** Every decimal that fits an int comes back through skip_atoi, whatever follows it, and no other
      does. */
  method DecimalRoundTrip(num: int, tail: string) returns (i: int, end: nat)
    requires Int32(num) && (tail == [] || ValueOf(tail[0]) >= 10)
    ensures var s := Field(num, 10, -1, -1, Flags(false, false, false, false, false, false, false));
            end == |s| && (i == Shown(num, Flags(false, false, false, false, false, false, false)) <==> num >= 0)
  {
    hide Field, Digits, Read, DigitRun, Wrap, AllDigits, ValueOf;
    var plain := Flags(false, false, false, false, false, false, false);
    var r := Number(num, 10, -1, -1, plain);
    PlainField(num, plain);
    DigitsRead(Magnitude(num, plain), 10, false);
    RunOf(r.value, tail, 10);
    WrapIff(Magnitude(num, plain));
    var s := r.value + tail;
    assert s[0..] == s;
    i, end := SkipAtoi(s, 0);
    assert |s[0..end]| == end;
  }

  lemma {:induction false} PlainField(num: int, f: Flags)
    requires Int32(num) && f == Flags(false, false, false, false, false, false, false)
    ensures Field(num, 10, -1, -1, f) == Digits(Magnitude(num, f), 10, false)
  {
    PaddingLength(-2);
    var s := Digits(Magnitude(num, f), 10, false);
    assert Zeros(-1 - |s|) == [] && Spaces(-1 - |s|) == [];
  }
}
