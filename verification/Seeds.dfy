/** Trait indexes from a block hash: cutting 48-bit windows out of a number's hexadecimal text. */
module Seeds {
  import opened Options
  import opened Hex

  function Pow2(n: nat): nat
    ensures Pow2(n) >= 1
  {
    if n == 0 then 1 else 2 * Pow2(n - 1)
  }

  function Pow16(n: nat): nat
    ensures Pow16(n) >= 1
  {
    if n == 0 then 1 else 16 * Pow16(n - 1)
  }

  // ----- BigNumber -----

  /** `toHexString()`: an even number of digits after the prefix. */
  function EvenDigits(n: nat): string {
    if |Digits16(n)| % 2 == 1 then ['0'] + Digits16(n) else Digits16(n)
  }

  function ToHexString(n: nat): string {
    "0x" + EvenDigits(n)
  }

  /** `BigNumber.from` of a text: only a prefix with at least one hex digit after it is a number. */
  function BigFrom(text: string): Option<nat> {
    if |text| > 2 && text[0] == '0' && text[1] == 'x' && (forall i :: 2 <= i < |text| ==> IsHexDigit(text[i]))
    then Some(ReadDigits(text[2..], 0))
    else None
  }

  function Div(n: nat, d: nat): nat
    requires d > 0
  {
    n / d
  }

  /** `shr(amount)` */
  function ShiftRight(n: nat, amount: nat): nat {
    Div(n, Pow2(amount))
  }

  // ----- utils.ts -----

  function LastOf(text: string, n: nat): string {
    if |text| >= n then text[|text| - n..] else text
  }

  /** How many characters `substring` leaves: it rounds a fractional start down. */
  function WindowLength(uintSize: nat): nat {
    (uintSize + 3) / 4
  }

  /** The last `uintSize / 4` characters of the text; a start before the text counts as 0. */
  function ShiftRightAndCast(value: nat, shiftAmount: nat, uintSize: nat): string {
    var shifted := ToHexString(ShiftRight(value, shiftAmount));
    "0x" + LastOf(shifted, WindowLength(uintSize))
  }

  /** None where reading the window back fails. */
  function GetPseudorandomPart(pseudorandomness: nat, partCount: nat, shiftAmount: nat, uintSize: nat := 48): Option<nat>
    requires partCount > 0
  {
    var window := BigFrom(ShiftRightAndCast(pseudorandomness, shiftAmount, uintSize));
    if window.Some? then Some(window.value % partCount) else None
  }

  datatype PartCounts = PartCounts(backgrounds: nat, bodies: nat, accessories: nat, heads: nat, glasses: nat) {
    predicate AllPositive() {
      backgrounds > 0 && bodies > 0 && accessories > 0 && heads > 0 && glasses > 0
    }
  }

  datatype NounSeed = NounSeed(background: Option<nat>, body: Option<nat>, accessory: Option<nat>, head: Option<nat>,
                               glasses: Option<nat>)

  /** The hash of block hash and token id is a parameter. */
  function GetNounSeed(pseudorandomness: nat, counts: PartCounts): NounSeed
    requires counts.AllPositive()
  {
    NounSeed(
      GetPseudorandomPart(pseudorandomness, counts.backgrounds, 0),
      GetPseudorandomPart(pseudorandomness, counts.bodies, 48),
      GetPseudorandomPart(pseudorandomness, counts.accessories, 192),
      GetPseudorandomPart(pseudorandomness, counts.heads, 144),
      GetPseudorandomPart(pseudorandomness, counts.glasses, 192))
  }

  // ----- windows of digits -----

  lemma ModSplits(x: nat, m: nat)
    requires m > 0
    ensures 16 * m > 0 && x % (16 * m) == 16 * ((x / 16) % m) + x % 16
  {
    var y, r := x / 16, x % 16;
    var q, s := y / m, y % m;
    assert x == 16 * y + r && y == q * m + s;
    assert x == q * (16 * m) + (16 * s + r) by {
      assert 16 * (q * m) == q * (16 * m);
    }
    ModUnique(x, 16 * m, q, 16 * s + r);
  }

  lemma NoMultiple(k: int, d: int, e: int)
    requires d > 0 && k * d == e && -d < e < d
    ensures k == 0
  {
    if k >= 1 {
      Product(k - 1, d);
    } else if k <= -1 {
      Product(-k - 1, d);
    }
  }

  lemma Product(a: int, b: int)
    requires a >= 0 && b >= 0
    ensures (a + 1) * b == a * b + b && a * b >= 0 && (-a - 1) * b == -(a * b) - b
  {
  }

  lemma ModUnique(x: nat, d: nat, q: nat, r: nat)
    requires d > 0 && x == q * d + r && r < d
    ensures x % d == r
  {
    var q', r' := x / d, x % d;
    assert x == d * q' + r';
    var k := q' - q;
    assert k * d == d * q' - q * d;
    NoMultiple(k, d, r - r');
  }

  lemma AppendDigit(digits: string, k: nat)
    requires AllDigits(digits) && k < 16
    ensures ReadDigits(digits + [HEX_DIGITS[k]], 0) == 16 * ReadDigits(digits, 0) + k
  {
    PrintedDigit(k);
    ReadDigitsAppend(digits, HEX_DIGITS[k], 0);
  }

  lemma SuffixOfAppend(front: string, c: char, n: nat)
    requires 1 <= n <= |front| + 1
    ensures (front + [c])[|front| + 1 - n..] == front[|front| - (n - 1)..] + [c]
  {
  }

  lemma DigitsStep(x: nat)
    requires x >= 16
    ensures Digits16(x) == Digits16(x / 16) + [HEX_DIGITS[x % 16]]
  {
  }

  /** The last n digits end in the last one, and the others are those of x / 16. */
  lemma ReadSuffix(front: string, k: nat, n: nat)
    requires AllDigits(front) && k < 16 && 1 <= n <= |front| + 1
    ensures ReadDigits((front + [HEX_DIGITS[k]])[|front| + 1 - n..], 0)
         == 16 * ReadDigits(front[|front| - (n - 1)..], 0) + k
  {
    SuffixOfAppend(front, HEX_DIGITS[k], n);
    SuffixDigits(front, |front| - (n - 1));
    AppendDigit(front[|front| - (n - 1)..], k);
  }

  lemma PowStep(n: nat)
    requires n >= 1
    ensures Pow16(n) == 16 * Pow16(n - 1)
  {
  }

  /** The last n digits of a number's text denote the number modulo 16^n. */
  lemma {:induction false} LastDigits(x: nat, n: nat)
    requires n <= |Digits16(x)|
    ensures ReadDigits(Digits16(x)[|Digits16(x)| - n..], 0) == x % Pow16(n)
    decreases n
  {
    if n == 0 || x < 16 {
      FewDigits(x, n);
    } else {
      hide ReadDigits, Digits16, AllDigits, Pow16;
      var front := Digits16(x / 16);
      Digits16AreDigits(x / 16);
      DigitsStep(x);
      LastDigits(x / 16, n - 1);
      ReadSuffix(front, x % 16, n);
      PowStep(n);
      ModSplits(x, Pow16(n - 1));
    }
  }

  lemma SuffixDigits(digits: string, k: nat)
    requires k <= |digits| && AllDigits(digits)
    ensures AllDigits(digits[k..])
  {
  }

  lemma FewDigits(x: nat, n: nat)
    requires n <= |Digits16(x)| && (n == 0 || x < 16)
    ensures ReadDigits(Digits16(x)[|Digits16(x)| - n..], 0) == x % Pow16(n)
  {
    var d := Digits16(x);
    if n == 0 {
      assert d[|d|..] == [];
    } else {
      ReadPrinted(x);
      assert d[|d| - n..] == d;
      assert Pow16(1) == 16;
    }
  }

  lemma {:induction false} DigitCount(x: nat, n: nat)
    requires n >= 1
    ensures |Digits16(x)| > n <==> x >= Pow16(n)
    decreases n
  {
    if n == 1 {
      assert Pow16(1) == 16;
      if x >= 16 { Digits16AreDigits(x / 16); }
    } else if x >= 16 {
      DigitCount(x / 16, n - 1);
      assert x / 16 >= Pow16(n - 1) <==> x >= 16 * Pow16(n - 1);
    } else {
      assert Pow16(n) >= 16;
    }
  }

  lemma EvenDigitsAre(x: nat)
    ensures EvenDigits(x) == Digits16(x) || EvenDigits(x) == ['0'] + Digits16(x)
    ensures AllDigits(EvenDigits(x))
  {
    Digits16AreDigits(x);
  }

  lemma WindowDenotes(x: nat, n: nat)
    requires 1 <= n <= |EvenDigits(x)|
    ensures ReadDigits(EvenDigits(x)[|EvenDigits(x)| - n..], 0) == x % Pow16(n)
    ensures AllDigits(EvenDigits(x)[|EvenDigits(x)| - n..])
  {
    var d, e := Digits16(x), EvenDigits(x);
    EvenDigitsAre(x);
    SuffixDigits(e, |e| - n);
    if n <= |d| {
      LastDigits(x, n);
      assert e[|e| - n..] == d[|d| - n..];
    } else {
      // One digit short: the window starts with the padding zero.
      assert n == |d| + 1 && e[|e| - n..] == ['0'] + d;
      ReadZeros(d);
      ReadPrinted(x);
      DigitCount(x, n);
      SmallMod(x, Pow16(n));
    }
  }

  lemma SmallMod(x: nat, m: nat)
    requires x < m
    ensures x % m == x
  {
  }

  /** The text of x, padded to an even number of digits, has at least n of them. */
  predicate HasDigits(x: nat, n: nat) {
    n <= 2 || x >= Pow16(n + n % 2 - 2)
  }

  /**
   * A window of any size is defined if and only if it has a digit and the shifted number's text has as many: that is,
   * for n > 2 digits, if the number is at least 16^(n - 2), or 16^(n - 1) for odd n. It then denotes the number
   * modulo 16^n.
   */
  lemma CastDenotesIff(value: nat, shiftAmount: nat, uintSize: nat)
    ensures var x, n := ShiftRight(value, shiftAmount), WindowLength(uintSize);
      BigFrom(ShiftRightAndCast(value, shiftAmount, uintSize))
      == if n >= 1 && HasDigits(x, n) then Some(x % Pow16(n)) else None
  {
    hide Pow16, ShiftRight, Digits16, EvenDigits, ReadDigits, BigFrom, LastOf, HasDigits, WindowLength;
    var x, n := ShiftRight(value, shiftAmount), WindowLength(uintSize);
    EvenLength(x, n);
    if n == 0 {
      EmptyText(EvenDigits(x));
    } else if HasDigits(x, n) {
      WindowDenotes(x, n);
      LongText(EvenDigits(x), n);
    } else {
      ShortText(EvenDigits(x), n);
    }
  }

  lemma EvenUp(length: nat, n: nat)
    requires length >= 1
    ensures length + length % 2 >= n <==> n <= 2 || length > n + n % 2 - 2
  {
  }

  lemma EvenDigitsLength(x: nat)
    ensures |EvenDigits(x)| == |Digits16(x)| + |Digits16(x)| % 2
  {
    hide Digits16;
  }

  lemma EvenLength(x: nat, n: nat)
    ensures |EvenDigits(x)| >= n <==> HasDigits(x, n)
  {
    Digits16AreDigits(x);
    hide Digits16, EvenDigits, Pow16;
    if n > 2 {
      DigitCount(x, n + n % 2 - 2);
    }
    EvenDigitsLength(x);
    EvenUp(|Digits16(x)|, n);
  }

  lemma EmptyText(digits: string)
    ensures BigFrom("0x" + LastOf("0x" + digits, 0)) == None
  {
    var text := "0x" + digits;
    assert text[|text|..] == "";
  }

  lemma LongText(digits: string, n: nat)
    requires 1 <= n <= |digits| && AllDigits(digits[|digits| - n..])
    ensures BigFrom("0x" + LastOf("0x" + digits, n)) == Some(ReadDigits(digits[|digits| - n..], 0))
  {
    var text := "0x" + digits;
    assert text[|text| - n..] == digits[|digits| - n..];
    WindowIsNumber(digits[|digits| - n..]);
  }

  /** The text taken still has the x of its own prefix. */
  lemma ShortText(digits: string, n: nat)
    requires |digits| < n
    ensures BigFrom("0x" + LastOf("0x" + digits, n)) == None
  {
    var text := "0x" + digits;
    if n == |digits| + 1 {
      assert LastOf(text, n)[0] == 'x';
      assert ("0x" + LastOf(text, n))[2] == 'x';
    } else {
      assert LastOf(text, n) == text;
      assert ("0x" + text)[3] == 'x';
    }
  }

  lemma WindowIsNumber(digits: string)
    requires AllDigits(digits) && digits != []
    ensures BigFrom("0x" + digits) == Some(ReadDigits(digits, 0))
  {
    var text := "0x" + digits;
    assert text[2..] == digits;
    forall i | 2 <= i < |text| ensures IsHexDigit(text[i]) {
      assert text[i] == digits[i - 2];
    }
  }

  lemma Pow16Is48Bits()
    ensures Pow16(12) == 0x1_0000_0000_0000 && Pow16(10) == 0x100_0000_0000
  {
    assert Pow16(2) == 0x100;
    assert Pow16(4) == 0x1_0000;
    assert Pow16(6) == 0x100_0000;
    assert Pow16(8) == 0x1_0000_0000;
    assert Pow16(10) == 0x100_0000_0000;
  }

  /** A trait index is defined if and only if the shifted hash is at least 2^40, and is then the 48-bit window reduced. */
  lemma PartIsWindow(hash: nat, partCount: nat, shiftAmount: nat)
    requires partCount > 0
    ensures var x := ShiftRight(hash, shiftAmount);
      GetPseudorandomPart(hash, partCount, shiftAmount)
      == if x >= 0x100_0000_0000 then Some(x % 0x1_0000_0000_0000 % partCount) else None
  {
    Pow16Is48Bits();
    CastDenotesIff(hash, shiftAmount, 48);
    hide ShiftRight, BigFrom, ShiftRightAndCast, Pow16;
  }

  // ----- whole seeds -----

  predicate IsDefined(seed: NounSeed) {
    && seed.background.Some? && seed.body.Some? && seed.accessory.Some? && seed.head.Some? && seed.glasses.Some?
  }

  predicate IsWithin(seed: NounSeed, counts: PartCounts)
    requires IsDefined(seed)
  {
    && seed.background.value < counts.backgrounds && seed.body.value < counts.bodies
    && seed.accessory.value < counts.accessories && seed.head.value < counts.heads
    && seed.glasses.value < counts.glasses
  }

  lemma {:induction false} PowSum(a: nat, b: nat)
    ensures Pow2(a + b) == Pow2(a) * Pow2(b)
    decreases a
  {
    if a > 0 {
      PowSum(a - 1, b);
      assert 2 * (Pow2(a - 1) * Pow2(b)) == 2 * Pow2(a - 1) * Pow2(b);
    }
  }

  lemma DivAtLeast(n: nat, d: nat, k: nat)
    requires d > 0
    ensures Div(n, d) >= k <==> n >= k * d
  {
    var q, r := n / d, n % d;
    assert n == q * d + r;
    if q >= k {
      Product(q - k, d);
      assert q * d == (q - k) * d + k * d;
    } else {
      Product(k - q - 1, d);
      assert k * d == (k - q - 1) * d + q * d + d;
    }
  }

  /** The window from bit `shiftAmount` on is defined if and only if some bit from `shiftAmount` + 40 on is set. */
  lemma ShiftedAtLeast(hash: nat, shiftAmount: nat)
    ensures ShiftRight(hash, shiftAmount) >= 0x100_0000_0000 <==> hash >= Pow2(shiftAmount + 40)
  {
    hide Pow2;
    Pow2Of40();
    PowSum(40, shiftAmount);
    DivAtLeast(hash, Pow2(shiftAmount), 0x100_0000_0000);
  }

  lemma Pow2Of40()
    ensures Pow2(40) == 0x100_0000_0000
  {
    assert Pow2(10) == 0x400;
    assert Pow2(20) == 0x10_0000;
    assert Pow2(30) == 0x4000_0000;
  }

  lemma {:induction false} PowMonotone(a: nat, b: nat)
    requires a <= b
    ensures Pow2(a) <= Pow2(b)
    decreases b
  {
    if a < b {
      PowMonotone(a, b - 1);
    }
  }

  /** The highest window decides: all trait indexes are defined if the last is, and each is within its trait's array. */
  lemma SeedIsDefinedIff(hash: nat, counts: PartCounts)
    requires counts.AllPositive()
    ensures var seed := GetNounSeed(hash, counts);
      && (IsDefined(seed) <==> hash >= Pow2(192 + 40))
      && (IsDefined(seed) <==> seed.glasses.Some?)
      && (IsDefined(seed) ==> IsWithin(seed, counts))
  {
    hide Pow2, ShiftRight, GetPseudorandomPart;
    PartIsDefined(hash, counts.backgrounds, 0);
    PartIsDefined(hash, counts.bodies, 48);
    PartIsDefined(hash, counts.accessories, 192);
    PartIsDefined(hash, counts.heads, 144);
    PartIsDefined(hash, counts.glasses, 192);
  }

  lemma PartIsDefined(hash: nat, partCount: nat, shiftAmount: nat)
    requires partCount > 0 && shiftAmount <= 192
    ensures var part := GetPseudorandomPart(hash, partCount, shiftAmount);
      && (part.Some? <==> hash >= Pow2(shiftAmount + 40))
      && (part.Some? ==> part.value < partCount)
      && (hash >= Pow2(192 + 40) ==> part.Some?)
  {
    hide Pow2, ShiftRight, GetPseudorandomPart;
    PartIsWindow(hash, partCount, shiftAmount);
    ShiftedAtLeast(hash, shiftAmount);
    PowMonotone(shiftAmount + 40, 192 + 40);
  }

  /** A seed that is defined: which bits of the hash choose which trait. Accessory and glasses share theirs. */
  lemma SeedWindows(hash: nat, counts: PartCounts)
    requires counts.AllPositive() && hash >= Pow2(192 + 40)
    ensures var window := 0x1_0000_0000_0000;
      GetNounSeed(hash, counts) == NounSeed(
        Some(hash % window % counts.backgrounds),
        Some(Div(hash, Pow2(48)) % window % counts.bodies),
        Some(Div(hash, Pow2(192)) % window % counts.accessories),
        Some(Div(hash, Pow2(144)) % window % counts.heads),
        Some(Div(hash, Pow2(192)) % window % counts.glasses))
  {
    SeedIsDefinedIff(hash, counts);
    assert ShiftRight(hash, 0) == hash;
    hide GetPseudorandomPart, Pow2, Div;
    PartIsWindow(hash, counts.backgrounds, 0);
    PartIsWindow(hash, counts.bodies, 48);
    PartIsWindow(hash, counts.accessories, 192);
    PartIsWindow(hash, counts.heads, 144);
    PartIsWindow(hash, counts.glasses, 192);
  }
}
