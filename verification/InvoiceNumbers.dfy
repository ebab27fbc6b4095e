/** Daily invoice numbers: a prefix for the day, then a zero-padded sequence number found by
    taking the greatest number so far, as text, and adding one. */
module InvoiceNumbers {
  import opened Prelude
  import opened Decimals
  import opened Strings

  /** The code pads to four characters. */
  const WIDTH: nat := 4

  /** Texts of the same length compare by their beginnings, then by their last characters. */
  lemma {:induction false} LessAtEnd(s: string, c: char, t: string, d: char)
    requires |s| == |t|
    ensures TextLess(s + [c], t + [d]) <==> TextLess(s, t) || (s == t && c < d)
  {
    if s != "" {
      assert (s + [c])[1..] == s[1..] + [c] && (t + [d])[1..] == t[1..] + [d];
      assert s == [s[0]] + s[1..] && t == [t[0]] + t[1..];
      LessAtEnd(s[1..], c, t[1..], d);
    }
  }

  lemma {:induction false} LessAfterPrefix(p: string, s: string, t: string)
    ensures TextLess(p + s, p + t) <==> TextLess(s, t)
  {
    if p == "" {
      assert p + s == s && p + t == t;
    } else {
      assert (p + s)[1..] == p[1..] + s && (p + t)[1..] == p[1..] + t;
      LessAfterPrefix(p[1..], s, t);
    }
  }

  lemma DigitOrder(m: nat, n: nat)
    requires m < 10 && n < 10
    ensures (Digit(m) < Digit(n) <==> m < n) && (Digit(m) == Digit(n) <==> m == n)
  {
    assert Digit(m) as int == '0' as int + m && Digit(n) as int == '0' as int + n;
  }

  /** Main result: below ten to the width, text order of padded numbers is number order. */
  lemma {:induction false} PaddedOrder(w: nat, m: nat, n: nat)
    requires w >= 1 && m < Pow10(w) && n < Pow10(w)
    ensures TextLess(Padded(w, m), Padded(w, n)) <==> m < n
    decreases w
  {
    PaddedLength(w, m);
    PaddedLength(w, n);
    if w == 1 {
      DigitOrder(m, n);
    } else {
      PaddedStep(w, m);
      PaddedStep(w, n);
      PaddedLength(w - 1, m / 10);
      PaddedLength(w - 1, n / 10);
      PaddedOrder(w - 1, m / 10, n / 10);
      LessAtEnd(Padded(w - 1, m / 10), Digit(m % 10), Padded(w - 1, n / 10), Digit(n % 10));
      DigitOrder(m % 10, n % 10);
      PaddedInjective(w - 1, m / 10, n / 10);
    }
  }

  lemma PaddedInjective(w: nat, m: nat, n: nat)
    requires w >= 1
    ensures Padded(w, m) == Padded(w, n) <==> m == n
  {
    PaddedReadsBack(w, m);
    PaddedReadsBack(w, n);
  }

  // ----- The query and the next number --------------------------------------

  /** SELECT ... WHERE number LIKE prefix% ORDER BY number DESC LIMIT 1 */
  function Last(numbers: seq<string>, prefix: string): (last: Option<string>)
    ensures last.Some? ==> StartsWith(last.value, prefix)
  {
    if numbers == [] then None
    else
      var best := Last(numbers[..|numbers| - 1], prefix);
      var s := numbers[|numbers| - 1];
      if !StartsWith(s, prefix) then best
      else if best.None? || TextLess(best.value, s) then Some(s)
      else best
  }

  lemma {:induction false} LastIsGreatest(numbers: seq<string>, prefix: string)
    ensures var last := Last(numbers, prefix);
            && (last.None? ==> forall s :: s in numbers ==> !StartsWith(s, prefix))
            && (last.Some? ==>
                  last.value in numbers && forall s :: s in numbers && StartsWith(s, prefix) ==> AtMost(s, last.value))
  {
    if numbers != [] {
      var rest := numbers[..|numbers| - 1];
      var s := numbers[|numbers| - 1];
      assert numbers == rest + [s];
      LastIsGreatest(rest, prefix);
      var best := Last(rest, prefix);
      if best.Some? {
        LessTotal(s, best.value);
        forall t | t in rest && StartsWith(t, prefix) && TextLess(best.value, s)
          ensures AtMost(t, s)
        {
          if t != best.value {
            LessTransitive(t, best.value, s);
          }
        }
      }
    }
  }

  /** Reading an unsigned 32-bit number; a leading plus is allowed. */
  function ParseU32(s: string): Option<nat> {
    var digits := if s != "" && s[0] == '+' then s[1..] else s;
    if digits != "" && AllDigits(digits) && ValueOf(digits) < 0x1_0000_0000 then Some(ValueOf(digits)) else None
  }

  function NextNumber(numbers: seq<string>, prefix: string, w: nat): string {
    match Last(numbers, prefix)
    case None => prefix + Padded(w, 1)
    case Some(last) =>
      var parsed := ParseU32(last[|prefix|..]);
      prefix + Padded(w, (if parsed.Some? then parsed.value else 0) + 1)
  }

  /** One request: the unique column refuses a number that is already there. */
  function Create(numbers: seq<string>, prefix: string, w: nat): seq<string> {
    var next := NextNumber(numbers, prefix, w);
    if next in numbers then numbers else numbers + [next]
  }

  /** The table after `k` requests, one after another, on the day of `prefix`. */
  function AfterRequests(earlier: seq<string>, prefix: string, w: nat, k: nat): seq<string> {
    if k == 0 then earlier else Create(AfterRequests(earlier, prefix, w, k - 1), prefix, w)
  }

  function Number(prefix: string, w: nat, n: nat): string {
    prefix + Padded(w, n)
  }

  function Issued(prefix: string, w: nat, k: nat): seq<string> {
    seq(k, i requires 0 <= i < k => Number(prefix, w, i + 1))
  }

  /** No number of the day yet. */
  ghost predicate FreshDay(earlier: seq<string>, prefix: string) {
    forall s :: s in earlier ==> !StartsWith(s, prefix)
  }

  lemma NumbersDistinct(prefix: string, w: nat, m: nat, n: nat)
    requires w >= 1
    ensures Number(prefix, w, m) == Number(prefix, w, n) <==> m == n
  {
    PaddedInjective(w, m, n);
    assert Number(prefix, w, m)[|prefix|..] == Padded(w, m) && Number(prefix, w, n)[|prefix|..] == Padded(w, n);
  }

  lemma IssuedMembers(earlier: seq<string>, prefix: string, w: nat, k: nat, s: string)
    requires FreshDay(earlier, prefix) && s in Table(earlier, prefix, w, k) && StartsWith(s, prefix)
    ensures exists n: nat :: 1 <= n <= k && s == Number(prefix, w, n)
  {
    var issued := Issued(prefix, w, k);
    assert s in issued;
    var i :| 0 <= i < k && issued[i] == s;
    assert s == Number(prefix, w, i + 1);
  }

  lemma IssuedHas(prefix: string, w: nat, k: nat, n: nat)
    requires 1 <= n <= k
    ensures Number(prefix, w, n) in Issued(prefix, w, k) && StartsWith(Number(prefix, w, n), prefix)
  {
    assert Issued(prefix, w, k)[n - 1] == Number(prefix, w, n);
  }

  /** Ten to the width, padded, sorts below the greatest number of that width. */
  lemma {:induction false} RoundNumberSortsLow(w: nat)
    requires w >= 1
    ensures TextLess(Padded(w, Pow10(w)), Padded(w, Pow10(w) - 1))
  {
    RoundNumberText(w);
    NinesText(w);
  }

  lemma {:induction false} RoundNumberText(w: nat)
    requires w >= 1
    ensures Padded(w, Pow10(w))[0] == '1'
  {
    if w >= 2 {
      RoundNumberText(w - 1);
      PaddedStep(w, Pow10(w));
    } else {
      assert Decimal(10) == [Digit(1)] + [Digit(0)];
    }
  }

  lemma {:induction false} NinesText(w: nat)
    requires w >= 1
    ensures Padded(w, Pow10(w) - 1)[0] == '9'
  {
    if w >= 2 {
      NinesText(w - 1);
      PaddedStep(w, Pow10(w) - 1);
      assert (Pow10(w) - 1) / 10 == Pow10(w - 1) - 1;
    }
  }

  /** The greatest text among the numbers 1 to k, up to and at the turning point. */
  function Greatest(w: nat, k: nat): nat {
    if k < Pow10(w) then k else Pow10(w) - 1
  }

  lemma {:induction false} GreatestIsAbove(prefix: string, w: nat, k: nat, n: nat)
    requires w >= 1 && 1 <= n <= k <= Pow10(w)
    ensures AtMost(Number(prefix, w, n), Number(prefix, w, Greatest(w, k)))
  {
    LessAfterPrefix(prefix, Padded(w, n), Padded(w, Greatest(w, k)));
    if n == Pow10(w) {
      RoundNumberSortsLow(w);
    } else {
      PaddedOrder(w, n, Greatest(w, k));
    }
  }

  lemma {:induction false} GreatestIsLast(earlier: seq<string>, prefix: string, w: nat, k: nat)
    requires w >= 1 && 1 <= k <= Pow10(w) && FreshDay(earlier, prefix)
    ensures Last(Table(earlier, prefix, w, k), prefix) == Some(Number(prefix, w, Greatest(w, k)))
  {
    var numbers := Table(earlier, prefix, w, k);
    var top := Number(prefix, w, Greatest(w, k));
    IssuedHas(prefix, w, k, Greatest(w, k));
    assert top in numbers;
    LastIsGreatest(numbers, prefix);
    var last := Last(numbers, prefix);
    IssuedMembers(earlier, prefix, w, k, last.value);
    var n: nat :| 1 <= n <= k && last.value == Number(prefix, w, n);
    GreatestIsAbove(prefix, w, k, n);
    LessAsymmetric(last.value, top);
  }

  /** The day's table after `k` numbers have been given out. */
  function Table(earlier: seq<string>, prefix: string, w: nat, k: nat): seq<string> {
    earlier + Issued(prefix, w, k)
  }

  lemma FirstNumber(earlier: seq<string>, prefix: string, w: nat)
    requires FreshDay(earlier, prefix)
    ensures Table(earlier, prefix, w, 0) == earlier && NextNumber(earlier, prefix, w) == Number(prefix, w, 1)
  {
    LastIsGreatest(earlier, prefix);
  }

  lemma {:induction false} LaterNumber(numbers: seq<string>, prefix: string, w: nat, n: nat)
    requires w >= 1 && n < 0x1_0000_0000 && Last(numbers, prefix) == Some(Number(prefix, w, n))
    ensures NextNumber(numbers, prefix, w) == Number(prefix, w, n + 1)
  {
    NumberReadsBack(prefix, w, n);
  }

  function Next(w: nat, k: nat): nat {
    if k < Pow10(w) then k + 1 else k
  }

  lemma {:induction false} GreatestThenNext(w: nat, k: nat)
    requires 1 <= k <= Pow10(w) < 0x1_0000_0000
    ensures Greatest(w, k) + 1 == Next(w, k) && Greatest(w, k) < 0x1_0000_0000
  {
  }

  lemma {:induction false} NumberedNext(numbers: seq<string>, prefix: string, w: nat, k: nat)
    requires w >= 1 && 1 <= k <= Pow10(w) < 0x1_0000_0000
    requires Last(numbers, prefix) == Some(Number(prefix, w, Greatest(w, k)))
    ensures NextNumber(numbers, prefix, w) == Number(prefix, w, Next(w, k))
  {
    GreatestThenNext(w, k);
    LaterNumber(numbers, prefix, w, Greatest(w, k));
  }

  lemma {:induction false} NextAfter(earlier: seq<string>, prefix: string, w: nat, k: nat)
    requires w >= 1 && k <= Pow10(w) < 0x1_0000_0000 && FreshDay(earlier, prefix)
    ensures NextNumber(Table(earlier, prefix, w, k), prefix, w) == Number(prefix, w, Next(w, k))
  {
    if k == 0 {
      FirstNumber(earlier, prefix, w);
    } else {
      GreatestIsLast(earlier, prefix, w, k);
      NumberedNext(Table(earlier, prefix, w, k), prefix, w, k);
    }
  }

  lemma NumberReadsBack(prefix: string, w: nat, n: nat)
    requires w >= 1 && n < 0x1_0000_0000
    ensures ParseU32(Number(prefix, w, n)[|prefix|..]) == Some(n)
  {
    var text := Padded(w, n);
    assert Number(prefix, w, n)[|prefix|..] == text;
    PaddedReadsBack(w, n);
    assert text[0] in text;
  }

  lemma NextIsNew(earlier: seq<string>, prefix: string, w: nat, k: nat, n: nat)
    requires w >= 1 && FreshDay(earlier, prefix) && n >= 1
    ensures Number(prefix, w, n) in Table(earlier, prefix, w, k) <==> n <= k
  {
    var s := Number(prefix, w, n);
    assert StartsWith(s, prefix);
    if n <= k {
      IssuedHas(prefix, w, k, n);
    }
    if s in Table(earlier, prefix, w, k) {
      IssuedMembers(earlier, prefix, w, k, s);
      var m: nat :| 1 <= m <= k && s == Number(prefix, w, m);
      NumbersDistinct(prefix, w, m, n);
    }
  }

  lemma {:induction false} CreateOneMore(earlier: seq<string>, prefix: string, w: nat, k: nat)
    requires w >= 1 && k <= Pow10(w) < 0x1_0000_0000 && FreshDay(earlier, prefix)
    ensures Create(Table(earlier, prefix, w, k), prefix, w) == Table(earlier, prefix, w, Next(w, k))
  {
    NextAfter(earlier, prefix, w, k);
    NextIsNew(earlier, prefix, w, k, Next(w, k));
    if k < Pow10(w) {
      TableGrows(earlier, prefix, w, k);
    }
  }

  lemma TableGrows(earlier: seq<string>, prefix: string, w: nat, k: nat)
    ensures Table(earlier, prefix, w, k + 1) == Table(earlier, prefix, w, k) + [Number(prefix, w, k + 1)]
  {
    assert Issued(prefix, w, k + 1) == Issued(prefix, w, k) + [Number(prefix, w, k + 1)];
  }

  function Capped(w: nat, k: nat): nat {
    if k <= Pow10(w) then k else Pow10(w)
  }

  /** After `k` requests the day's table holds the first numbers, up to the cap. */
  ghost predicate CountedTo(earlier: seq<string>, prefix: string, w: nat, k: nat) {
    AfterRequests(earlier, prefix, w, k) == Table(earlier, prefix, w, Capped(w, k))
  }

  lemma {:induction false} NoRequests(earlier: seq<string>, prefix: string, w: nat)
    requires FreshDay(earlier, prefix)
    ensures CountedTo(earlier, prefix, w, 0)
  {
    FirstNumber(earlier, prefix, w);
  }

  lemma {:induction false} OneMoreRequest(earlier: seq<string>, prefix: string, w: nat, k: nat)
    requires w >= 1 && Pow10(w) < 0x1_0000_0000 && FreshDay(earlier, prefix) && CountedTo(earlier, prefix, w, k)
    ensures CountedTo(earlier, prefix, w, k + 1)
  {
    CreateOneMore(earlier, prefix, w, Capped(w, k));
    assert Next(w, Capped(w, k)) == Capped(w, k + 1);
  }

  /** Main result: the k-th request of a day gets number k as long as k is at most ten to the
      width; every later request proposes that last number again and is refused. */
  lemma {:induction false} KthRequestGetsK(earlier: seq<string>, prefix: string, w: nat, k: nat)
    requires w >= 1 && Pow10(w) < 0x1_0000_0000 && FreshDay(earlier, prefix)
    ensures AfterRequests(earlier, prefix, w, k) == Table(earlier, prefix, w, Capped(w, k))
  {
    NoRequests(earlier, prefix, w);
    for n := 0 to k
      invariant CountedTo(earlier, prefix, w, n)
    {
      OneMoreRequest(earlier, prefix, w, n);
    }
  }

  /** At the code's width: ten thousand invoices a day, and no more. */
  lemma {:induction false} TenThousandADay(earlier: seq<string>, prefix: string, k: nat)
    requires FreshDay(earlier, prefix)
    ensures |AfterRequests(earlier, prefix, WIDTH, k)| == |earlier| + if k <= 10000 then k else 10000
    ensures k >= 10000 ==>
              NextNumber(AfterRequests(earlier, prefix, WIDTH, k), prefix, WIDTH) == prefix + Padded(4, 10000)
  {
    assert Pow10(WIDTH) == 10000;
    KthRequestGetsK(earlier, prefix, WIDTH, k);
    if k >= 10000 {
      NextAfter(earlier, prefix, WIDTH, 10000);
    }
  }
}
