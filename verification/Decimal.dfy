/** The text layer of the stats files: Go's decimal printing and parsing, and splitting on a separator. */
module Decimal {
  import opened Base

  const UINT64_MAX := 0xffff_ffff_ffff_ffff
  const INT64_MAX := 0x7fff_ffff_ffff_ffff

  predicate IsDigit(c: char) { '0' <= c <= '9' }

  function DigitOf(d: nat): char
    requires d < 10
  {
    ('0' as int + d) as char
  }

  function ValueOf(c: char): nat
    requires IsDigit(c)
  {
    c as int - '0' as int
  }

  /** strconv.FormatUint(n, 10). */
  function FormatUint(n: nat): (s: string)
    ensures |s| > 0
    ensures forall i :: 0 <= i < |s| ==> IsDigit(s[i])
  {
    if n < 10 then [DigitOf(n)] else FormatUint(n / 10) + [DigitOf(n % 10)]
  }

  /** strconv.FormatInt(i, 10). */
  function FormatInt(i: int): string {
    if i < 0 then "-" + FormatUint(-i) else FormatUint(i)
  }

  /** The outcome of strconv.ParseUint in base 10 at 64 bits. */
  datatype Parsed = Value(n: nat) | SyntaxError | RangeError

  /** The digit loop of strconv.ParseUint, which stops at the first bad character or overflow. */
  function ParseDigits(s: string, acc: nat): Parsed {
    if s == [] then Value(acc)
    else if !IsDigit(s[0]) then SyntaxError
    else if 10 * acc + ValueOf(s[0]) > UINT64_MAX then RangeError
    else ParseDigits(s[1..], 10 * acc + ValueOf(s[0]))
  }

  /** strconv.Atoi with the error dropped, as the caller does: 0 for bad syntax, the nearest limit when out of range. */
  function Atoi(s: string): (i: int64)
  {
    var negative := s != [] && s[0] == '-';
    var digits := if s != [] && (s[0] == '-' || s[0] == '+') then s[1..] else s;
    if digits == [] then 0
    else match ParseDigits(digits, 0)
      case SyntaxError => 0
      case RangeError => if negative then -INT64_MAX - 1 else INT64_MAX
      case Value(n) =>
        if negative then (if n > INT64_MAX + 1 then -INT64_MAX - 1 else 0 - n as int)
        else if n > INT64_MAX then INT64_MAX
        else n
  }

  lemma {:induction false} ParseAppend(s: string, c: char, acc: nat)
    requires IsDigit(c)
    requires ParseDigits(s, acc).Value?
    requires 10 * ParseDigits(s, acc).n + ValueOf(c) <= UINT64_MAX
    ensures ParseDigits(s + [c], acc) == Value(10 * ParseDigits(s, acc).n + ValueOf(c))
  {
    if s == [] {
      assert (s + [c])[1..] == [];
    } else {
      ParseAppend(s[1..], c, 10 * acc + ValueOf(s[0]));
      assert (s + [c])[1..] == s[1..] + [c];
    }
  }

  lemma {:induction false} ParseFormat(n: nat)
    requires n <= UINT64_MAX
    ensures ParseDigits(FormatUint(n), 0) == Value(n)
  {
    if n < 10 {
      var s := FormatUint(n);
      assert ParseDigits(s[1..], n) == Value(n);
    } else {
      ParseFormat(n / 10);
      ParseAppend(FormatUint(n / 10), DigitOf(n % 10), 0);
    }
  }

  /** Printing then parsing gives back every counter, negative ones and zero included. */
  lemma AtoiFormatInt(i: int64)
    ensures Atoi(FormatInt(i)) == i
  {
    var n: int := i;
    if n < 0 {
      ParseFormat(-n);
      assert FormatInt(n)[1..] == FormatUint(-n);
    } else {
      ParseFormat(i);
      assert IsDigit(FormatInt(i)[0]);
    }
  }

  /** A printed key is read back exactly up to 2^63 - 1; every larger key is read as 2^63 - 1. */
  lemma AtoiFormatUint(k: uint64)
    ensures Atoi(FormatUint(k)) == Min(k, INT64_MAX)
  {
    ParseFormat(k);
    assert IsDigit(FormatUint(k)[0]);
  }

  lemma FormatUintInjective(a: uint64, b: uint64)
    requires FormatUint(a) == FormatUint(b)
    ensures a == b
  {
    ParseFormat(a);
    ParseFormat(b);
  }

  /** strings.Split with a one-character separator. */
  function Split(s: string, sep: char): (parts: seq<string>)
    ensures |parts| > 0
  {
    if s == [] then [""]
    else
      var rest := Split(s[1..], sep);
      if s[0] == sep then [""] + rest
      else [[s[0]] + rest[0]] + rest[1..]
  }

  lemma {:induction false} SplitFirst(a: string, sep: char, b: string)
    requires sep !in a
    ensures Split(a + [sep] + b, sep) == [a] + Split(b, sep)
  {
    var s := a + [sep] + b;
    if a == [] {
      assert s[1..] == b;
    } else {
      SplitFirst(a[1..], sep, b);
      assert s[1..] == a[1..] + [sep] + b;
      assert [s[0]] + a[1..] == a;
    }
  }

  /** Go's order of strings, strictly. */
  predicate Before(s: string, t: string) {
    t != [] && (s == [] || s[0] < t[0] || (s[0] == t[0] && Before(s[1..], t[1..])))
  }

  lemma {:induction false} BeforeTransitive(s: string, t: string, u: string)
    requires Before(s, t) && Before(t, u)
    ensures Before(s, u)
  {
    if s != [] && s[0] == t[0] == u[0] {
      BeforeTransitive(s[1..], t[1..], u[1..]);
    }
  }

  lemma {:induction false} BeforeTotal(s: string, t: string)
    requires s != t
    ensures Before(s, t) || Before(t, s)
  {
    if s != [] && t != [] && s[0] == t[0] {
      assert s == [s[0]] + s[1..] && t == [t[0]] + t[1..];
      BeforeTotal(s[1..], t[1..]);
    }
  }

  lemma {:induction false} BeforeAsymmetric(s: string, t: string)
    requires Before(s, t)
    ensures s != t && !Before(t, s)
  {
    if s != [] && s[0] == t[0] {
      BeforeAsymmetric(s[1..], t[1..]);
    }
  }

  /** The first of the names in that order. */
  ghost predicate IsFirst(names: set<string>, first: string) {
    first in names && forall other :: other in names && other != first ==> Before(first, other)
  }

  lemma {:induction false} FirstExists(names: set<string>)
    requires names != {}
    ensures exists first :: IsFirst(names, first)
    decreases |names|
  {
    var x :| x in names;
    var rest := names - {x};
    if rest == {} {
      assert names == {x};
      assert IsFirst(names, x);
    } else {
      FirstExists(rest);
      var f :| IsFirst(rest, f);
      BeforeTotal(x, f);
      if Before(f, x) {
        forall other | other in names && other != f ensures Before(f, other) {
          assert other == x || other in rest;
        }
        assert IsFirst(names, f);
      } else {
        forall other | other in names && other != x ensures Before(x, other) {
          if other != f {
            BeforeTransitive(x, f, other);
          }
        }
        assert IsFirst(names, x);
      }
    }
  }

  lemma {:induction false} BeforeExtended(s: string, t: string, x: string, y: string)
    requires |s| == |t| && Before(s, t)
    ensures Before(s + x, t + y)
  {
    assert (s + x)[0] == s[0] && (t + y)[0] == t[0];
    if s[0] == t[0] {
      BeforeExtended(s[1..], t[1..], x, y);
      assert (s + x)[1..] == s[1..] + x && (t + y)[1..] == t[1..] + y;
    }
  }

  lemma {:induction false} BeforeAppended(s: string, x: string, y: string)
    requires Before(x, y)
    ensures Before(s + x, s + y)
  {
    if s == [] {
      assert s + x == x && s + y == y;
    } else {
      BeforeAppended(s[1..], x, y);
      assert (s + x)[1..] == s[1..] + x && (s + y)[1..] == s[1..] + y;
    }
  }

  /** Among numbers with as many digits the order of the texts is that of the numbers. */
  lemma {:induction false} FormatOrder(a: nat, b: nat)
    requires a < b && |FormatUint(a)| == |FormatUint(b)|
    ensures Before(FormatUint(a), FormatUint(b))
  {
    if b < 10 {
      assert Before([DigitOf(a)], [DigitOf(b)]);
    } else if a >= 10 {
      var c, d: string := [DigitOf(a % 10)], [DigitOf(b % 10)];
      if a / 10 == b / 10 {
        assert Before(c, d);
        BeforeAppended(FormatUint(a / 10), c, d);
      } else {
        FormatOrder(a / 10, b / 10);
        BeforeExtended(FormatUint(a / 10), FormatUint(b / 10), c, d);
      }
    }
  }

  /** d followed by k - 1 zeros. */
  function Lead(d: nat, k: nat): nat
    requires k > 0
  {
    if k == 1 then d else 10 * Lead(d, k - 1)
  }

  /** The numbers between have k digits, the first of which is d. */
  lemma {:induction false} FormatLead(n: nat, d: nat, k: nat)
    requires 1 <= d <= 9 && k > 0 && Lead(d, k) <= n < Lead(d + 1, k)
    ensures |FormatUint(n)| == k && FormatUint(n)[0] == DigitOf(d)
  {
    if k > 1 {
      LeadPositive(d, k - 1);
      FormatLead(n / 10, d, k - 1);
    }
  }

  lemma {:induction false} LeadPositive(d: nat, k: nat)
    requires d >= 1 && k > 0
    ensures Lead(d, k) >= 1
  {
    if k > 1 {
      LeadPositive(d, k - 1);
    }
  }

  const TEN_TO_19 := 10_000_000_000_000_000_000

  lemma LeadThree(d: nat, k: nat)
    requires k > 0
    ensures Lead(d, k + 3) == 1000 * Lead(d, k)
  {
    assert Lead(d, k + 3) == 10 * Lead(d, k + 2);
    assert Lead(d, k + 2) == 10 * Lead(d, k + 1);
  }

  lemma LeadNineteen(d: nat)
    ensures Lead(d, 19) == d * 1_000_000_000_000_000_000
  {
    LeadThree(d, 1);
    LeadThree(d, 4);
    LeadThree(d, 7);
    LeadThree(d, 10);
    LeadThree(d, 13);
    LeadThree(d, 16);
  }

  lemma LeadValues()
    ensures Lead(9, 19) == 9_000_000_000_000_000_000 && Lead(10, 19) == TEN_TO_19
    ensures Lead(1, 20) == TEN_TO_19 && Lead(2, 20) == 2 * TEN_TO_19
  {
    LeadNineteen(9);
    LeadNineteen(10);
    LeadNineteen(1);
    LeadNineteen(2);
    assert Lead(1, 20) == 10 * Lead(1, 19) && Lead(2, 20) == 10 * Lead(2, 19);
  }

  /** The texts of the largest counters and keys: 19 digits from a nine on, or 20 from a one on. */
  lemma LargeFormat(n: nat)
    requires INT64_MAX <= n <= UINT64_MAX
    ensures if n < TEN_TO_19 then |FormatUint(n)| == 19 && FormatUint(n)[0] == '9'
            else |FormatUint(n)| == 20 && FormatUint(n)[0] == '1'
  {
    LeadValues();
    if n < TEN_TO_19 {
      FormatLead(n, 9, 19);
    } else {
      FormatLead(n, 1, 20);
    }
  }

  predicate AllDigits(s: string) { forall i :: 0 <= i < |s| ==> '0' <= s[i] <= '9' }

  /** The number that a text of decimal digits stands for. */
  function Number(s: string): nat
    requires AllDigits(s)
  {
    if s == [] then 0 else 10 * Number(s[..|s| - 1]) + (s[|s| - 1] as int - 48)
  }

  function TenTo(k: nat): nat { if k == 0 then 1 else 10 * TenTo(k - 1) }

  lemma {:induction false} NumberBelow(s: string)
    requires AllDigits(s)
    ensures Number(s) < TenTo(|s|)
  {
    if s != [] {
      NumberBelow(s[..|s| - 1]);
    }
  }

  lemma {:induction false} TenToMonotone(j: nat, k: nat)
    requires j <= k
    ensures TenTo(j) <= TenTo(k)
  {
    if j < k {
      TenToMonotone(j, k - 1);
    }
  }

  lemma TenToFive(k: nat)
    ensures TenTo(k + 5) == 100_000 * TenTo(k)
  {
    assert TenTo(k + 5) == 10 * TenTo(k + 4);
    assert TenTo(k + 4) == 10 * TenTo(k + 3);
    assert TenTo(k + 3) == 10 * TenTo(k + 2);
    assert TenTo(k + 2) == 10 * TenTo(k + 1);
  }

  lemma NineteenDigits(s: string)
    requires AllDigits(s) && |s| <= 19
    ensures Number(s) <= UINT64_MAX
  {
    NumberBelow(s);
    TenToMonotone(|s|, 20);
    TenToMonotone(|s|, 19);
    TenToFive(15);
    TenToFive(10);
    TenToFive(5);
    TenToFive(0);
    assert TenTo(20) == 10 * TenTo(19);
  }

  lemma {:induction false} ParseNumber(s: string)
    requires AllDigits(s) && |s| <= 19
    ensures ParseDigits(s, 0) == Value(Number(s))
  {
    NineteenDigits(s);
    if s != [] {
      var init, c := s[..|s| - 1], s[|s| - 1];
      ParseNumber(init);
      ParseAppend(init, c, 0);
      assert s == init + [c];
    }
  }

  lemma {:induction false} ParseStops(s: string, t: string, acc: nat)
    requires ParseDigits(s, acc).Value? && t != [] && !IsDigit(t[0])
    ensures ParseDigits(s + t, acc) == SyntaxError
  {
    if s == [] {
      assert s + t == t;
    } else {
      assert (s + t)[0] == s[0] && (s + t)[1..] == s[1..] + t;
      ParseStops(s[1..], t, 10 * acc + ValueOf(s[0]));
    }
  }

  lemma {:induction false} FirstNonDigit(s: string) returns (i: nat)
    requires !AllDigits(s)
    ensures i < |s| && !IsDigit(s[i]) && AllDigits(s[..i])
  {
    var init := s[..|s| - 1];
    if AllDigits(init) {
      i := |s| - 1;
    } else {
      i := FirstNonDigit(init);
      assert s[..i] == init[..i];
    }
  }

  lemma ParseShort(s: string)
    requires |s| <= 19
    ensures ParseDigits(s, 0) == if AllDigits(s) then Value(Number(s)) else SyntaxError
  {
    if AllDigits(s) {
      ParseNumber(s);
    } else {
      var i := FirstNonDigit(s);
      ParseNumber(s[..i]);
      ParseStops(s[..i], s[i..], 0);
      assert s == s[..i] + s[i..];
    }
  }

  lemma AtoiIs(s: string, negative: bool, body: string)
    requires negative <==> s != [] && s[0] == '-'
    requires body == if s != [] && (s[0] == '-' || s[0] == '+') then s[1..] else s
    requires |body| <= 19
    ensures Atoi(s) == if body == "" || !AllDigits(body) then 0
                       else if negative then Max(-INT64_MAX - 1, 0 - Number(body) as int)
                       else Min(INT64_MAX, Number(body))
  {
    ParseShort(body);
  }

  /** What the parser makes of any text with at most 19 characters after a sign: the number that the digits stand for,
      as far as it is in range, and zero for anything else. */
  lemma AtoiOfShortText(sign: string, body: string, s: string)
    requires sign in {"", "+", "-"} && |body| <= 19 && s == sign + body
    requires sign == "" ==> body == "" || (body[0] != '+' && body[0] != '-')
    ensures Atoi(s) == if body == "" || !AllDigits(body) then 0
                       else if sign == "-" then Max(-INT64_MAX - 1, 0 - Number(body) as int)
                       else Min(INT64_MAX, Number(body))
  {
    if sign == "" {
      assert s == body;
    } else {
      assert s[0] == sign[0] && s[1..] == body;
    }
    AtoiIs(s, sign == "-", body);
  }
}
