/** LogIdTool: log ids from a time in milliseconds and a random seed, by way of decimal strings. */
module LogId {
  import opened Wrappers

  const CMD_LOG_FLAG: int := 1
  const SYS_LOG_FLAG: int := 2
  const SECRET_LOG_FLAG: int := 3

  const TEN_TO_12: int := 1_000_000_000_000
  const TEN_TO_13: int := 10_000_000_000_000
  const TWO_TO_59: int := 0x0800_0000_0000_0000
  const TWO_TO_63: int := 0x8000_0000_0000_0000
  const TWO_TO_64: int := 0x1_0000_0000_0000_0000

  predicate IsLong(x: int) {
    -TWO_TO_63 <= x < TWO_TO_63
  }

  /** 64-bit arithmetic wraps around. */
  function Wrap(x: int): (r: int)
    ensures IsLong(r) && (IsLong(x) ==> r == x)
  {
    (x + TWO_TO_63) % TWO_TO_64 - TWO_TO_63
  }

  // ----- decimal strings -----

  predicate IsDigit(c: char) {
    '0' <= c <= '9'
  }

  predicate AllDigits(s: string) {
    forall c :: c in s ==> IsDigit(c)
  }

  function DigitChar(d: nat): (c: char)
    requires d < 10
    ensures IsDigit(c) && c as int - '0' as int == d
  {
    '0' + d as char
  }

  function Digits(n: nat): (s: string)
    ensures s != [] && AllDigits(s)
  {
    if n < 10 then [DigitChar(n)] else Digits(n / 10) + [DigitChar(n % 10)]
  }

  /** `"" + x`. */
  function Decimal(x: int): string {
    if x < 0 then "-" + Digits(-x) else Digits(x)
  }

  function Value(s: string): nat
    requires AllDigits(s)
  {
    if s == [] then 0
    else
      assert s[|s| - 1] in s;
      Value(s[..|s| - 1]) * 10 + (s[|s| - 1] as int - '0' as int)
  }

  function Pow10(k: nat): (r: nat)
    ensures r >= 1
  {
    if k == 0 then 1 else 10 * Pow10(k - 1)
  }

  /** `Long.parseLong`; None is a NumberFormatException. */
  function ParseLong(s: string): Option<int> {
    if s != [] && s[0] == '-' then
      if s[1..] != [] && AllDigits(s[1..]) then InLong(-(Value(s[1..]) as int)) else None
    else if s != [] && AllDigits(s) then InLong(Value(s))
    else None
  }

  function InLong(x: int): Option<int> {
    if IsLong(x) then Some(x) else None
  }

  // ----- the ids -----

  /** The id as a number: times with up to 13 characters keep all of them, longer ones their last 13. */
  function IdOf(t: int, seed: nat): int {
    if t >= 0 then t % TEN_TO_13 * 100000 + seed
    else if t > -TEN_TO_12 then t * 100000 - seed
    else -t % TEN_TO_13 * 100000 + seed
  }

  method GetRandomID(logType: int, startDate: int, seed1: nat) returns (id: int)
    requires IsLong(startDate) && seed1 < 100000
    ensures id == if logType in {1, 2, 3} then IdOf(startDate, seed1) else 0
    ensures IsLong(id)
  {
    var strCtime := Decimal(startDate);
    if |strCtime| > 13 {
      strCtime := strCtime[|strCtime| - 13..];
    }
    if logType !in {CMD_LOG_FLAG, SYS_LOG_FLAG, SECRET_LOG_FLAG} {
      return 0;
    }
    var seed2 := Digits(seed1);
    ghost var short := seed2;
    SeedIsShort(seed1);
    var shouldFillLen := 5 - |seed2|;
    var i := 0;
    while i < shouldFillLen
      invariant 0 <= i <= shouldFillLen
      invariant |seed2| == |short| + i && AllDigits(seed2) && Value(seed2) == seed1
    {
      ZeroInFront(seed2);
      seed2 := "0" + seed2;
      i := i + 1;
    }
    JoinedId(startDate, strCtime, seed1, seed2);
    return ParseLong(strCtime + seed2).value;
  }

  function TransTimeCond2ID(time: int, isStart: bool): int {
    if isStart then Wrap(time * 100000) else Wrap(Wrap(time * 100000) + 99999)
  }

  // ----- strings and numbers -----

  lemma {:induction false} ValueOfDigits(n: nat)
    ensures Value(Digits(n)) == n
  {
    var s := Digits(n);
    if n < 10 {
      assert s[..|s| - 1] == [];
    } else {
      ValueOfDigits(n / 10);
      assert s[..|s| - 1] == Digits(n / 10);
    }
  }

  lemma Distribute(x: int, p: int, y: int, d: int)
    ensures (x * p + y) * 10 + d == x * (10 * p) + (y * 10 + d)
  {
  }

  lemma {:induction false} ValueConcat(a: string, b: string)
    requires AllDigits(a) && AllDigits(b)
    ensures AllDigits(a + b) && Value(a + b) == Value(a) * Pow10(|b|) + Value(b)
    decreases |b|
  {
    if b == [] {
      assert a + b == a;
    } else {
      var front := b[..|b| - 1];
      ValueConcat(a, front);
      assert (a + b)[..|a + b| - 1] == a + front;
      Distribute(Value(a), Pow10(|front|), Value(front), b[|b| - 1] as int - '0' as int);
    }
  }

  lemma ZeroInFront(s: string)
    requires AllDigits(s)
    ensures AllDigits("0" + s) && Value("0" + s) == Value(s)
  {
    assert "0"[..0] == [] && Value("0") == 0;
    ValueConcat("0", s);
  }

  lemma {:induction false} ValueBound(s: string)
    requires AllDigits(s)
    ensures Value(s) < Pow10(|s|)
  {
    if s != [] {
      ValueBound(s[..|s| - 1]);
      assert s[|s| - 1] in s;
    }
  }

  lemma {:induction false} DigitsSize(n: nat)
    ensures n < Pow10(|Digits(n)|) && (n > 0 ==> Pow10(|Digits(n)| - 1) <= n)
  {
    if n >= 10 {
      DigitsSize(n / 10);
      assert |Digits(n)| == |Digits(n / 10)| + 1;
      assert Pow10(|Digits(n)| - 1) == 10 * Pow10(|Digits(n / 10)| - 1);
    } else {
      assert Pow10(1) == 10 * Pow10(0);
    }
  }

  lemma {:induction false} Pow10Grows(a: nat, b: nat)
    requires a <= b
    ensures Pow10(a) <= Pow10(b)
    decreases b
  {
    if a < b {
      Pow10Grows(a, b - 1);
    }
  }

  /** A number below a power of ten has that many digits at most, and the others more. */
  lemma DigitsFit(n: nat, k: nat)
    requires k >= 1
    ensures |Digits(n)| <= k <==> n < Pow10(k)
  {
    DigitsSize(n);
    if |Digits(n)| <= k {
      Pow10Grows(|Digits(n)|, k);
    } else {
      assert n > 0;
      Pow10Grows(k, |Digits(n)| - 1);
    }
  }

  lemma SeedIsShort(seed: nat)
    requires seed < 100000
    ensures |Digits(seed)| <= 5 && Value(Digits(seed)) == seed
  {
    DigitsFit(seed, 5);
    ValueOfDigits(seed);
  }

  lemma RemainderUnique(q: int, r: int)
    requires 0 <= r < TEN_TO_13
    ensures (q * TEN_TO_13 + r) % TEN_TO_13 == r
  {
  }

  /** The last 13 digits are the remainder by 10^13. */
  lemma LastThirteen(n: nat)
    requires |Digits(n)| >= 13
    ensures var s := Digits(n)[|Digits(n)| - 13..]; AllDigits(s) && Value(s) == n % TEN_TO_13
  {
    var a, s := Digits(n)[..|Digits(n)| - 13], Digits(n)[|Digits(n)| - 13..];
    assert Digits(n) == a + s;
    ValueConcat(a, s);
    ValueOfDigits(n);
    ValueBound(s);
    RemainderUnique(Value(a), Value(s));
  }

  function TimeText(t: int): string {
    var s := Decimal(t);
    if |s| > 13 then s[|s| - 13..] else s
  }

  predicate Reads(s: string, negative: bool, n: nat) {
    if negative then s != [] && s[0] == '-' && s[1..] != [] && AllDigits(s[1..]) && Value(s[1..]) == n
    else s != [] && AllDigits(s) && Value(s) == n
  }

  lemma LateTimeReads(t: nat)
    ensures Reads(TimeText(t), false, t % TEN_TO_13)
  {
    DigitsFit(t, 13);
    if t < TEN_TO_13 {
      ValueOfDigits(t);
    } else {
      LastThirteen(t);
    }
  }

  /** Before the epoch the sign is one of the 13 characters. */
  lemma EarlyTimeReads(n: int)
    requires n > 0
    ensures if n < TEN_TO_12 then Reads(TimeText(-n), true, n) else Reads(TimeText(-n), false, n % TEN_TO_13)
  {
    var s := Decimal(-n);
    assert s[1..] == Digits(n);
    DigitsFit(n, 12);
    if n < TEN_TO_12 {
      ValueOfDigits(n);
    } else {
      LastThirteen(n);
      assert s[|s| - 13..] == Digits(n)[|Digits(n)| - 13..];
    }
  }

  lemma TimeTextReads(t: int)
    ensures if t >= 0 then Reads(TimeText(t), false, t % TEN_TO_13)
            else if t > -TEN_TO_12 then Reads(TimeText(t), true, -t)
            else Reads(TimeText(t), false, -t % TEN_TO_13)
  {
    if t >= 0 {
      LateTimeReads(t);
    } else {
      EarlyTimeReads(-t);
    }
  }

  lemma JoinedReads(s: string, negative: bool, n: nat, seed2: string)
    requires Reads(s, negative, n) && |seed2| == 5 && AllDigits(seed2)
    ensures Reads(s + seed2, negative, n * 100000 + Value(seed2))
  {
    if negative {
      ValueConcat(s[1..], seed2);
      assert (s + seed2)[1..] == s[1..] + seed2;
    } else {
      ValueConcat(s, seed2);
    }
  }

  lemma JoinedId(t: int, strCtime: string, seed: nat, seed2: string)
    requires strCtime == TimeText(t)
    requires seed < 100000 && |seed2| == 5 && AllDigits(seed2) && Value(seed2) == seed
    ensures IsLong(IdOf(t, seed)) && ParseLong(strCtime + seed2) == Some(IdOf(t, seed))
  {
    TimeTextReads(t);
    var negative := -TEN_TO_12 < t < 0;
    var n := if t >= 0 then t % TEN_TO_13 else if negative then -t else -t % TEN_TO_13;
    JoinedReads(strCtime, negative, n, seed2);
    assert 0 <= n * 100000 + seed < TEN_TO_13 * 100000;
    ReadsParse(strCtime + seed2, negative, n * 100000 + seed);
  }

  lemma ReadsParse(s: string, negative: bool, n: int)
    requires 0 <= n && Reads(s, negative, n) && n < TEN_TO_13 * 100000
    ensures ParseLong(s) == Some(if negative then -n else n)
  {
    assert s[0] in s;
  }

  // ----- what the ids promise -----

  predicate Between(t: int, seed: nat) {
    TransTimeCond2ID(t, true) <= IdOf(t, seed) <= TransTimeCond2ID(t, false)
  }

  /** 5^18 and 2^46 have no common factor, so no multiple of 10^18 this small is one of 2^64. */
  lemma NoMultiple(k: int, j: int)
    requires 1 <= k < 0x4000_0000_0000
    ensures k * 1_000_000_000_000_000_000 != j * TWO_TO_64
  {
    var z := 65498163250793 * j - 3550662544516 * k;
    assert k * 3814697265625 == j * 70368744177664 ==> k == 70368744177664 * z;
  }

  lemma WrapBy(x: int) returns (j: int)
    ensures Wrap(x) == x - j * TWO_TO_64
  {
    j := (x + TWO_TO_63) / TWO_TO_64;
  }

  lemma LateTimesMiss(t: int)
    requires TEN_TO_13 <= t < TWO_TO_63
    ensures !Between(t, 0) || !Between(t, 99999)
  {
    if Between(t, 0) && Between(t, 99999) {
      var m, k := t % TEN_TO_13, t / TEN_TO_13;
      var j := WrapBy(t * 100000);
      assert Wrap(t * 100000) == m * 100000;
      NoMultiple(k, j);
    }
  }

  lemma EarlyTimesMiss(t: int)
    requires -TEN_TO_12 < t < 0
    ensures !Between(t, 1)
  {
  }

  /** 10^5 holds 2^5 and otherwise only odd factors. */
  lemma MultipleOf59(k: int, j: int)
    requires k * 100000 == j * TWO_TO_64
    ensures k % TWO_TO_59 == 0
  {
    assert k * 3125 == j * TWO_TO_59;
    var z := 382401004647999005 * j - 2073 * k;
    assert k == TWO_TO_59 * z;
  }

  lemma WrapUnique(x: int, r: int, j: int)
    requires IsLong(r) && x == r + j * TWO_TO_64
    ensures Wrap(x) == r
  {
    assert (x + TWO_TO_63) / TWO_TO_64 == j;
  }

  /** With the sign cut off, the search bound has to wrap around to the very id. */
  lemma SignlessTimes(t: int)
    requires -TWO_TO_63 <= t <= -TEN_TO_12
    ensures (Between(t, 0) && Between(t, 99999) <==> Wrap(t * 100000) == -t % TEN_TO_13 * 100000)
    ensures Wrap(t * 100000) == -t % TEN_TO_13 * 100000 ==> forall seed: nat :: seed < 100000 ==> Between(t, seed)
  {
  }

  lemma SignlessWraps(t: int)
    ensures Wrap(t * 100000) == -t % TEN_TO_13 * 100000 <==> (-t + -t % TEN_TO_13) % TWO_TO_59 == 0
  {
    var m := -t % TEN_TO_13;
    if Wrap(t * 100000) == m * 100000 {
      var j := WrapBy(t * 100000);
      MultipleOf59(-t + m, -j);
    } else if (-t + m) % TWO_TO_59 == 0 {
      var q := (-t + m) / TWO_TO_59;
      assert -t + m == q * TWO_TO_59;
      assert t * 100000 == m * 100000 + (-3125 * q) * TWO_TO_64;
      WrapUnique(t * 100000, m * 100000, -3125 * q);
      assert false;
    }
  }

  /** For every long time: a search by it finds all its ids, whatever the seed, exactly when it has up to 13 digits, or when
      it is so early that its sign is cut off and 2^59 happens to divide the sum of its size and its last 13 digits. */
  lemma SearchFindsExactly(t: int)
    requires IsLong(t)
    ensures (forall seed: nat :: seed < 100000 ==> Between(t, seed)) <==>
            0 <= t < TEN_TO_13 || (t <= -TEN_TO_12 && (-t + -t % TEN_TO_13) % TWO_TO_59 == 0)
  {
    if t >= TEN_TO_13 {
      LateTimesMiss(t);
    } else if t <= -TEN_TO_12 {
      SignlessTimes(t);
      SignlessWraps(t);
    } else if t < 0 {
      EarlyTimesMiss(t);
    }
  }

  /** Up to 13 digits a search from one time to another finds just the ids of the times between them. */
  lemma SearchFindsOnly(from: int, to: int, t: int, seed: nat)
    requires 0 <= from < TEN_TO_13 && 0 <= to < TEN_TO_13 && 0 <= t < TEN_TO_13 && seed < 100000
    ensures TransTimeCond2ID(from, true) <= IdOf(t, seed) <= TransTimeCond2ID(to, false) <==> from <= t <= to
  {
  }

  /** Ids of earlier times are smaller, and an id gives back its time and seed. */
  lemma IdsAreOrdered(t: int, seed: nat, later: int, other: nat)
    requires 0 <= t < TEN_TO_13 && 0 <= later < TEN_TO_13 && seed < 100000 && other < 100000
    ensures t < later ==> IdOf(t, seed) < IdOf(later, other)
    ensures IdOf(t, seed) / 100000 == t && IdOf(t, seed) % 100000 == seed
    ensures IdOf(t, seed) == IdOf(later, other) <==> t == later && seed == other
  {
  }
}
