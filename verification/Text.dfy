/** Values the whole model shares: optional results, and the string helpers of Go's standard
    library that the modelled code calls. A string is a sequence of characters; bytes and
    characters coincide for the ASCII texts the rules below are about. */
module Text {

  datatype Option<+T> = None | Some(value: T)

  datatype Result<+T, +E> = Ok(value: T) | Err(error: E)

  // ---------- prefixes and suffixes (strings.HasPrefix, TrimPrefix, HasSuffix, TrimSuffix)

  predicate HasPrefix(s: string, p: string) {
    p <= s
  }

  function TrimPrefix(s: string, p: string): string {
    if HasPrefix(s, p) then s[|p|..] else s
  }

  predicate HasSuffix(s: string, x: string) {
    |x| <= |s| && s[|s| - |x|..] == x
  }

  function TrimSuffix(s: string, x: string): string {
    if HasSuffix(s, x) then s[..|s| - |x|] else s
  }

  /** A text has suffix x exactly when it is some text followed by x. */
  lemma SuffixOfConcat(a: string, x: string)
    ensures HasSuffix(a + x, x) && (a + x)[..|a|] == a && TrimSuffix(a + x, x) == a
  {
    assert (a + x)[|a|..] == x;
  }

  lemma SuffixSplits(s: string, x: string)
    requires HasSuffix(s, x)
    ensures s == s[..|s| - |x|] + x
  {
  }

  // ---------- trimming and case

  /** The characters unicode.IsSpace accepts. */
  predicate IsSpace(c: char) {
    || '\t' <= c <= '\r' || c == ' ' || c == '\U{0085}' || c == '\U{00A0}' || c == '\U{1680}'
    || '\U{2000}' <= c <= '\U{200A}' || c == '\U{2028}' || c == '\U{2029}' || c == '\U{202F}'
    || c == '\U{205F}' || c == '\U{3000}'
  }

  function TrimLeft(s: string): string {
    if s != "" && IsSpace(s[0]) then TrimLeft(s[1..]) else s
  }

  function TrimRight(s: string): string {
    if s != "" && IsSpace(s[|s| - 1]) then TrimRight(s[..|s| - 1]) else s
  }

  function TrimSpace(s: string): string {
    TrimRight(TrimLeft(s))
  }

  lemma {:induction false} TrimRightKeeps(s: string)
    ensures TrimRight(s) <= s
    ensures TrimRight(s) != "" ==> !IsSpace(TrimRight(s)[|TrimRight(s)| - 1])
  {
    if s != "" && IsSpace(s[|s| - 1]) {
      TrimRightKeeps(s[..|s| - 1]);
    }
  }

  lemma {:induction false} TrimLeftStops(s: string)
    ensures TrimLeft(s) != "" ==> !IsSpace(TrimLeft(s)[0])
  {
    if s != "" && IsSpace(s[0]) {
      TrimLeftStops(s[1..]);
    }
  }

  /** Trimming twice is trimming once. */
  lemma TrimSpaceIdempotent(s: string)
    ensures TrimSpace(TrimSpace(s)) == TrimSpace(s)
  {
    TrimLeftStops(s);
    TrimRightKeeps(TrimLeft(s));
    TrimRightKeeps(TrimSpace(s));
  }

  /** A text that neither starts nor ends with a space is its own trimming. */
  lemma TrimmedAlready(s: string)
    requires s != "" && !IsSpace(s[0]) && !IsSpace(s[|s| - 1])
    ensures TrimSpace(s) == s
  {
  }

  predicate Spaces(s: string) {
    forall i :: 0 <= i < |s| ==> IsSpace(s[i])
  }

  predicate Trimmed(s: string) {
    s != "" ==> !IsSpace(s[0]) && !IsSpace(s[|s| - 1])
  }

  /** Trimming takes away spaces at both ends and stops at other characters, so it gives the one text
      of which that is true. */
  lemma TrimsExactly(s: string, t: string)
    ensures TrimSpace(s) == t <==> Trimmed(t) && exists a, b :: Spaces(a) && Spaces(b) && s == a + t + b
  {
    var a, b := TrimParts(s);
    if Trimmed(t) && exists a, b :: Spaces(a) && Spaces(b) && s == a + t + b {
      var front, back :| Spaces(front) && Spaces(back) && s == front + t + back;
      TrimsSpaces(front, t, back);
    }
  }

  lemma TrimParts(s: string) returns (a: string, b: string)
    ensures Spaces(a) && Spaces(b) && s == a + TrimSpace(s) + b && Trimmed(TrimSpace(s))
  {
    a := LeftPart(s);
    b := RightPart(TrimLeft(s));
    TrimLeftStops(s);
    TrimRightKeeps(TrimLeft(s));
  }

  lemma {:induction false} LeftPart(s: string) returns (a: string)
    ensures Spaces(a) && s == a + TrimLeft(s)
  {
    if s != "" && IsSpace(s[0]) {
      var rest := LeftPart(s[1..]);
      a := [s[0]] + rest;
    } else {
      a := "";
    }
  }

  lemma {:induction false} RightPart(s: string) returns (b: string)
    ensures Spaces(b) && s == TrimRight(s) + b
  {
    if s != "" && IsSpace(s[|s| - 1]) {
      var rest := RightPart(s[..|s| - 1]);
      b := rest + [s[|s| - 1]];
    } else {
      b := "";
    }
  }

  lemma {:induction false} TrimsSpaces(a: string, t: string, b: string)
    requires Spaces(a) && Spaces(b) && Trimmed(t)
    ensures TrimSpace(a + t + b) == t
    decreases |a| + |b|
  {
    var s := a + t + b;
    if a != "" {
      assert s[1..] == a[1..] + t + b;
      TrimsSpaces(a[1..], t, b);
    } else if t == "" && b != "" {
      assert s[1..] == "" + t + b[1..];
      TrimsSpaces("", t, b[1..]);
    } else if b != "" {
      assert s[..|s| - 1] == "" + t + b[..|b| - 1];
      TrimsSpaces("", t, b[..|b| - 1]);
      assert TrimLeft(s) == s && TrimLeft(s[..|s| - 1]) == s[..|s| - 1];
    } else {
      assert s == t;
    }
  }

  function LowerChar(c: char): char {
    if 'A' <= c <= 'Z' then (c as int + 32) as char else c
  }

  /** strings.ToLower on ASCII letters. */
  function ToLower(s: string): string {
    if s == "" then "" else [LowerChar(s[0])] + ToLower(s[1..])
  }

  lemma {:induction false} ToLowerConcat(a: string, b: string)
    ensures ToLower(a + b) == ToLower(a) + ToLower(b)
  {
    if a == "" {
      assert a + b == b;
    } else {
      assert (a + b)[1..] == a[1..] + b;
      ToLowerConcat(a[1..], b);
    }
  }

  const CAPITALS := "ABCDEFGHIJKLMNOPQRSTUVWXYZ"
  const SMALLS := "abcdefghijklmnopqrstuvwxyz"

  /** Each capital becomes its small letter, and nothing else changes. */
  lemma {:induction false} LoweredExactly(s: string)
    ensures |ToLower(s)| == |s|
    ensures forall i :: 0 <= i < |s| ==>
              && (forall k :: 0 <= k < 26 && s[i] == CAPITALS[k] ==> ToLower(s)[i] == SMALLS[k])
              && (s[i] !in CAPITALS ==> ToLower(s)[i] == s[i])
  {
    if s != "" {
      CapitalsInOrder(s[0]);
      LoweredExactly(s[1..]);
    }
  }

  lemma CapitalsInOrder(c: char)
    ensures forall k :: 0 <= k < 26 && c == CAPITALS[k] ==> LowerChar(c) == SMALLS[k]
    ensures c !in CAPITALS ==> LowerChar(c) == c
  {
    if 'A' <= c <= 'Z' {
      var k := c as int - 'A' as int;
      assert CAPITALS[k] == c;
    }
  }

  // ---------- strings.Split and strings.Join on a one-character separator

  predicate Free(s: string, c: char) {
    forall i :: 0 <= i < |s| ==> s[i] != c
  }

  function Split(s: string, c: char): (parts: seq<string>)
    ensures |parts| >= 1
  {
    if s == "" then [""]
    else
      var rest := Split(s[1..], c);
      if s[0] == c then [""] + rest else [[s[0]] + rest[0]] + rest[1..]
  }

  function Join(parts: seq<string>, c: char): string {
    if |parts| == 0 then ""
    else if |parts| == 1 then parts[0]
    else parts[0] + [c] + Join(parts[1..], c)
  }

  lemma {:induction false} JoinSplit(s: string, c: char)
    ensures Join(Split(s, c), c) == s
  {
    if s != "" {
      JoinSplit(s[1..], c);
      var rest := Split(s[1..], c);
      if s[0] == c {
        assert ([""] + rest)[1..] == rest;
      } else if |rest| > 1 {
        assert ([[s[0]] + rest[0]] + rest[1..])[1..] == rest[1..];
      }
    }
  }

  lemma {:induction false} SplitFree(s: string, c: char)
    ensures forall k :: 0 <= k < |Split(s, c)| ==> Free(Split(s, c)[k], c)
  {
    if s != "" {
      SplitFree(s[1..], c);
    }
  }

  lemma {:induction false} SplitOfFree(s: string, c: char)
    requires Free(s, c)
    ensures Split(s, c) == [s]
  {
    if s != "" {
      SplitOfFree(s[1..], c);
      assert s[0] != c && Split(s[1..], c) == [s[1..]];
      assert [s[0]] + s[1..] == s;
    }
  }

  lemma {:induction false} SplitAtSeparator(a: string, b: string, c: char)
    requires Free(a, c)
    ensures Split(a + [c] + b, c) == [a] + Split(b, c)
  {
    var s := a + [c] + b;
    if a == "" {
      assert s[1..] == b;
    } else {
      assert s[1..] == a[1..] + [c] + b;
      SplitAtSeparator(a[1..], b, c);
      assert s[0] == a[0] != c && Split(s[1..], c) == [a[1..]] + Split(b, c);
      assert [a[0]] + a[1..] == a;
    }
  }

  lemma {:induction false} SplitJoin(parts: seq<string>, c: char)
    requires |parts| >= 1
    requires forall k :: 0 <= k < |parts| ==> Free(parts[k], c)
    ensures Split(Join(parts, c), c) == parts
  {
    if |parts| == 1 {
      SplitOfFree(parts[0], c);
    } else {
      SplitAtSeparator(parts[0], Join(parts[1..], c), c);
      SplitJoin(parts[1..], c);
    }
  }

  lemma {:induction false} SplitConcat(a: string, b: string, c: char)
    ensures Split(a + [c] + b, c) == Split(a, c) + Split(b, c)
  {
    var s := a + [c] + b;
    if a == "" {
      assert s[1..] == b;
    } else {
      assert s[1..] == a[1..] + [c] + b;
      SplitConcat(a[1..], b, c);
      if a[0] == c {
        assert Split(s, c) == [""] + Split(s[1..], c);
      } else {
        var rest := Split(a[1..], c);
        assert (rest + Split(b, c))[0] == rest[0] && (rest + Split(b, c))[1..] == rest[1..] + Split(b, c);
      }
    }
  }

  /** Joining a list appends its last part behind one separator. */
  lemma {:induction false} JoinSnoc(parts: seq<string>, last: string, c: char)
    requires |parts| >= 1
    ensures Join(parts + [last], c) == Join(parts, c) + [c] + last
  {
    if |parts| > 1 {
      assert (parts + [last])[1..] == parts[1..] + [last];
      JoinSnoc(parts[1..], last, c);
    }
  }

  // ---------- strings.IndexByte

  /** The first position of c; the length when there is none. */
  function IndexOf(s: string, c: char): nat {
    if s == "" || s[0] == c then 0 else 1 + IndexOf(s[1..], c)
  }

  lemma {:induction false} IndexInside(s: string, c: char)
    ensures IndexOf(s, c) <= |s|
    ensures IndexOf(s, c) < |s| ==> s[IndexOf(s, c)] == c
    ensures forall i :: 0 <= i < IndexOf(s, c) ==> s[i] != c
  {
    if s != "" && s[0] != c {
      IndexInside(s[1..], c);
    }
  }

  // ---------- DNS-1123 labels (section 2.1 of RFC 1123)

  predicate LowerAlnum(c: char) {
    'a' <= c <= 'z' || '0' <= c <= '9'
  }

  /** One part of a domain name, of any length. */
  predicate LabelShape(s: string) {
    && s != "" && LowerAlnum(s[0]) && LowerAlnum(s[|s| - 1])
    && forall i :: 0 <= i < |s| ==> LowerAlnum(s[i]) || s[i] == '-'
  }

  /** The test of utilvalidation.IsDNS1123Label. */
  predicate IsDNS1123Label(s: string) {
    |s| <= 63 && LabelShape(s)
  }

  /** The parts between the dots are shaped as labels. */
  predicate LabelParts(s: string) {
    forall k :: 0 <= k < |Split(s, '.')| ==> LabelShape(Split(s, '.')[k])
  }

  lemma LabelIsTrimmed(s: string)
    requires IsDNS1123Label(s)
    ensures TrimSpace(s) == s && s != ""
  {
  }

  // ---------- decimal numerals (strconv.Atoi, %d)

  predicate IsDigit(c: char) {
    '0' <= c <= '9'
  }

  /** The decimal numeral of a natural number. */
  function Decimal(n: nat): (s: string)
    ensures |s| >= 1 && forall i :: 0 <= i < |s| ==> IsDigit(s[i])
  {
    if n < 10 then [('0' as int + n) as char] else Decimal(n / 10) + [('0' as int + n % 10) as char]
  }

  function DigitsValue(s: string): nat
    requires forall i :: 0 <= i < |s| ==> IsDigit(s[i])
  {
    if s == "" then 0
    else assert IsDigit(s[|s| - 1]); 10 * DigitsValue(s[..|s| - 1]) + (s[|s| - 1] as int - '0' as int)
  }

  lemma {:induction false} DecimalValue(n: nat)
    ensures DigitsValue(Decimal(n)) == n
  {
    var s := Decimal(n);
    if n < 10 {
      assert s[..0] == "";
    } else {
      DecimalValue(n / 10);
      assert s[..|s| - 1] == Decimal(n / 10);
    }
  }

  function Tens(k: nat): nat {
    if k == 0 then 1 else 10 * Tens(k - 1)
  }

  lemma {:induction false} DecimalLength(n: nat, k: nat)
    requires k >= 1 && n < Tens(k)
    ensures |Decimal(n)| <= k
  {
    if n >= 10 {
      assert k > 1;
      DecimalLength(n / 10, k - 1);
    }
  }

  lemma DecimalInjective(a: nat, b: nat)
    ensures Decimal(a) == Decimal(b) ==> a == b
  {
    DecimalValue(a);
    DecimalValue(b);
  }

  /** The %d form of an integer. */
  function Itoa(n: int): string {
    if n < 0 then "-" + Decimal(-n) else Decimal(n)
  }

  lemma ItoaInjective(a: int, b: int)
    ensures Itoa(a) == Itoa(b) ==> a == b
  {
    ItoaSign(a);
    ItoaSign(b);
    if a < 0 && b < 0 {
      assert Itoa(a)[1..] == Decimal(-a) && Itoa(b)[1..] == Decimal(-b);
      DecimalInjective(-a, -b);
    } else if a >= 0 && b >= 0 {
      DecimalInjective(a, b);
    }
  }

  lemma ItoaSign(n: int)
    ensures Itoa(n) != "" && (Itoa(n)[0] == '-' <==> n < 0)
  {
    if n >= 0 {
      assert IsDigit(Decimal(n)[0]);
    }
  }

  const MAX_INT64: int := 0x7FFF_FFFF_FFFF_FFFF

  function Unsigned(s: string): string {
    if s != "" && (s[0] == '+' || s[0] == '-') then s[1..] else s
  }

  predicate AllDigits(s: string) {
    s != "" && forall i :: 0 <= i < |s| ==> IsDigit(s[i])
  }

  /** strconv.Atoi on a 64-bit platform: an optional sign, digits, and the range of int. */
  function Atoi(s: string): (r: Option<int>)
    ensures r.Some? ==> -MAX_INT64 - 1 <= r.value <= MAX_INT64
  {
    if !AllDigits(Unsigned(s)) then None
    else
      var v: int := DigitsValue(Unsigned(s));
      if s[0] == '-' then (if v <= MAX_INT64 + 1 then Some(-v) else None)
      else (if v <= MAX_INT64 then Some(v) else None)
  }

  function Zeros(k: nat): (s: string)
    ensures |s| == k && forall i :: 0 <= i < k ==> s[i] == '0'
  {
    seq(k, i => '0')
  }

  /** The text says n: a sign or none, zeros or none, and the numeral of its absolute value. */
  ghost predicate Reads(s: string, n: int) {
    exists zeros: nat ::
      || (n >= 0 && s == Zeros(zeros) + Decimal(n))
      || (n >= 0 && s == "+" + (Zeros(zeros) + Decimal(n)))
      || (n <= 0 && s == "-" + (Zeros(zeros) + Decimal(-n)))
  }

  lemma {:induction false} ZerosAddNothing(k: nat, s: string)
    requires forall i :: 0 <= i < |s| ==> IsDigit(s[i])
    ensures forall i :: 0 <= i < |Zeros(k) + s| ==> IsDigit((Zeros(k) + s)[i])
    ensures s != "" ==> AllDigits(Zeros(k) + s)
    ensures DigitsValue(Zeros(k) + s) == DigitsValue(s)
    decreases k + |s|
  {
    var all := Zeros(k) + s;
    assert forall i :: 0 <= i < |all| ==> IsDigit(all[i]);
    if s != "" {
      var front := s[..|s| - 1];
      assert all[..|all| - 1] == Zeros(k) + front;
      ZerosAddNothing(k, front);
    } else if k > 0 {
      assert all[..|all| - 1] == Zeros(k - 1) + "";
      ZerosAddNothing(k - 1, "");
    }
  }

  /** Every text of digits is zeros in front of a numeral. */
  lemma {:induction false} ZerosBefore(s: string) returns (k: nat)
    requires AllDigits(s)
    ensures s == Zeros(k) + Decimal(DigitsValue(s))
  {
    var front, last := s[..|s| - 1], s[|s| - 1];
    var d := last as int - '0' as int;
    assert IsDigit(last) && s == front + [last];
    if front == "" {
      assert DigitsValue(front) == 0 && DigitsValue(s) == d && Decimal(d) == [last];
      return 0;
    }
    k := ZerosBefore(front);
    var v := DigitsValue(front);
    if v == 0 {
      assert front == Zeros(k + 1) && Decimal(d) == [last];
      k := k + 1;
    } else {
      assert (10 * v + d) / 10 == v && (10 * v + d) % 10 == d;
      assert Decimal(10 * v + d) == Decimal(v) + [last];
    }
  }

  /** Exactly the texts that say a number of 64 bits are read, and as that number. */
  lemma AtoiExactly(s: string, n: int)
    ensures Atoi(s) == Some(n) <==> Reads(s, n) && -MAX_INT64 - 1 <= n <= MAX_INT64
  {
    hide Decimal, DigitsValue, Zeros, AllDigits;
    if Atoi(s) == Some(n) {
      SignOf(s);
      var k := ZerosBefore(Unsigned(s));
    }
    if Reads(s, n) && -MAX_INT64 - 1 <= n <= MAX_INT64 {
      var m: nat := if n < 0 then -n else n;
      var k: nat :| s == Zeros(k) + Decimal(m)
                    || s == "+" + (Zeros(k) + Decimal(m)) || s == "-" + (Zeros(k) + Decimal(m));
      var digits := Zeros(k) + Decimal(m);
      ZerosAddNothing(k, Decimal(m));
      DecimalValue(m);
      AtoiOfDigits(s, digits);
    }
  }

  lemma SignOf(s: string)
    requires AllDigits(Unsigned(s))
    ensures s == if s[0] == '+' then "+" + Unsigned(s) else if s[0] == '-' then "-" + Unsigned(s) else Unsigned(s)
  {
  }

  lemma AtoiOfDigits(s: string, digits: string)
    requires digits != "" && AllDigits(digits)
    requires s == digits || s == "+" + digits || s == "-" + digits
    ensures Unsigned(s) == digits && (s[0] == '-' <==> s == "-" + digits)
  {
    assert IsDigit(digits[0]);
    assert s != digits ==> s[1..] == digits;
  }

  lemma AtoiItoa(n: int)
    requires -MAX_INT64 - 1 <= n <= MAX_INT64
    ensures Atoi(Itoa(n)) == Some(n)
  {
    hide Decimal;
    AtoiExactly(Itoa(n), n);
    assert Zeros(0) + Decimal(if n < 0 then -n else n) == Decimal(if n < 0 then -n else n);
  }

  /** Two's-complement truncation to 32 bits, Go's int32(x). */
  function Int32(x: int): (r: int)
    ensures -0x8000_0000 <= r < 0x8000_0000
    ensures -0x8000_0000 <= x < 0x8000_0000 ==> r == x
  {
    var m := x % 0x1_0000_0000;
    if m < 0x8000_0000 then m else m - 0x1_0000_0000
  }

  /** Truncation keeps the residue. */
  lemma Int32Congruent(x: int)
    ensures (x - Int32(x)) % 0x1_0000_0000 == 0
  {
    var q, m := x / 0x1_0000_0000, x % 0x1_0000_0000;
    assert x == q * 0x1_0000_0000 + m;
  }

  /** Truncation loses nothing on the range of an unsigned 32-bit number. */
  lemma Int32Injective(a: nat, b: nat)
    requires a < 0x1_0000_0000 && b < 0x1_0000_0000
    ensures Int32(a) == Int32(b) ==> a == b
  {
  }
}
