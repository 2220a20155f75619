/** `stableHash`: a 32-bit xor-and-multiply loop over UTF-16 code units, printed as eight hex digits. */
module StableHash {

  /** A JavaScript string is its sequence of UTF-16 code units. */
  type Text = seq<bv16>

  const OFFSET_BASIS: bv32 := 2166136261

  /** `hash ^= unit` */
  function Xor(hash: bv32, unit: bv16): bv32 {
    hash ^ (unit as bv32)
  }

  /** `Math.imul(hash, 16777619)` */
  function Times(hash: bv32): bv32 {
    hash * 16777619
  }

  function Mix(hash: bv32, unit: bv16): bv32 {
    Times(Xor(hash, unit))
  }

  /** The loop state after reading `value` from state `hash`. */
  function Digest(hash: bv32, value: Text): bv32
    decreases |value|
  {
    if value == [] then hash else Digest(Mix(hash, value[0]), value[1..])
  }

  // ----- Printing: toString(16), toUpperCase, padStart(8, "0")

  function HexDigit(d: bv32): char {
    if d == 0 then '0' else if d == 1 then '1' else if d == 2 then '2' else if d == 3 then '3'
    else if d == 4 then '4' else if d == 5 then '5' else if d == 6 then '6' else if d == 7 then '7'
    else if d == 8 then '8' else if d == 9 then '9' else if d == 10 then 'A' else if d == 11 then 'B'
    else if d == 12 then 'C' else if d == 13 then 'D' else if d == 14 then 'E' else 'F'
  }

  function High(hash: bv32): bv32 {
    hash >> 4
  }

  function Low(hash: bv32): bv32 {
    hash & 15
  }

  function ToHex(hash: bv32): (r: string)
    ensures r != ""
    decreases hash
  {
    if hash < 16 then [HexDigit(hash)] else ToHex(High(hash)) + [HexDigit(Low(hash))]
  }

  function PadStart(s: string, width: nat): string {
    seq(if |s| < width then width - |s| else 0, _ => '0') + s
  }

  function StableHash(value: Text): string {
    "LB-" + PadStart(ToHex(Digest(OFFSET_BASIS, value)), 8)
  }

  /** The `width` lowest hex digits, leading zeros included. */
  function Digits(hash: bv32, width: nat): (r: string)
    ensures |r| == width
  {
    if width == 0 then "" else Digits(High(hash), width - 1) + [HexDigit(Low(hash))]
  }

  /** Nothing is left above the lowest `width` hex digits. */
  predicate FitsIn(hash: bv32, width: nat) {
    if width == 0 then hash == 0 else FitsIn(High(hash), width - 1)
  }

  lemma FitsStep(hash: bv32, width: nat)
    requires FitsIn(High(hash), width)
    ensures FitsIn(hash, width + 1)
  {
  }

  lemma ShiftedOut(hash: bv32)
    ensures (((((((hash >> 4) >> 4) >> 4) >> 4) >> 4) >> 4) >> 4) >> 4 == 0
  {
  }

  lemma EightDigits(hash: bv32)
    ensures FitsIn(hash, 8)
  {
    var h1 := High(hash);
    var h2 := High(h1);
    var h3 := High(h2);
    var h4 := High(h3);
    var h5 := High(h4);
    var h6 := High(h5);
    var h7 := High(h6);
    ShiftedOut(hash);
    assert FitsIn(High(h7), 0);
    hide FitsIn;
    FitsStep(h7, 0);
    FitsStep(h6, 1);
    FitsStep(h5, 2);
    FitsStep(h4, 3);
    FitsStep(h3, 4);
    FitsStep(h2, 5);
    FitsStep(h1, 6);
    FitsStep(hash, 7);
  }

  lemma {:induction false} DigitsOfZero(width: nat)
    ensures Digits(0, width) == seq(width, _ => '0')
  {
    if width > 0 {
      DigitsOfZero(width - 1);
    }
  }

  lemma {:induction false} PaddedHex(hash: bv32, width: nat)
    requires width > 0 && FitsIn(hash, width)
    ensures |ToHex(hash)| <= width
    decreases width
    ensures PadStart(ToHex(hash), width) == Digits(hash, width)
  {
    hide HexDigit;
    if hash < 16 {
      assert High(hash) == 0 && Low(hash) == hash;
      DigitsOfZero(width - 1);
    } else {
      assert High(hash) != 0;
      PaddedHex(High(hash), width - 1);
    }
  }

  lemma HexDigitInjective(a: bv32, b: bv32)
    requires HexDigit(Low(a)) == HexDigit(Low(b))
    ensures Low(a) == Low(b)
  {
  }

  lemma {:induction false} DigitsInjective(a: bv32, b: bv32, width: nat)
    requires FitsIn(a, width) && FitsIn(b, width)
    requires Digits(a, width) == Digits(b, width)
    ensures a == b
    decreases width
  {
    hide HexDigit, High, Low;
    if width > 0 {
      var x, y := Digits(a, width), Digits(b, width);
      assert x[width - 1] == y[width - 1];
      assert x[..width - 1] == y[..width - 1];
      HexDigitInjective(a, b);
      DigitsInjective(High(a), High(b), width - 1);
      HighAndLow(a, b);
    }
  }

  lemma HighAndLow(a: bv32, b: bv32)
    requires High(a) == High(b) && Low(a) == Low(b)
    ensures a == b
  {
  }

  /** Printing is injective: two texts have the same hash exactly when the loop ends in the same state. */
  lemma HashIsDigest(a: Text, b: Text)
    ensures StableHash(a) == StableHash(b) <==> Digest(OFFSET_BASIS, a) == Digest(OFFSET_BASIS, b)
  {
    var x, y := Digest(OFFSET_BASIS, a), Digest(OFFSET_BASIS, b);
    EightDigits(x);
    EightDigits(y);
    PaddedHex(x, 8);
    PaddedHex(y, 8);
    if StableHash(a) == StableHash(b) {
      assert StableHash(a)[3..] == StableHash(b)[3..];
      DigitsInjective(x, y, 8);
    }
  }

  // ----- The loop is injective in its state and in each unit

  /** Multiplication by the inverse of the odd multiplier modulo 2^32. */
  function Untimes(hash: bv32): bv32 {
    hash * 899433627
  }

  lemma UntimesProduct(a: bv32)
    ensures Untimes(a * 16777619) == a
  {
  }

  lemma UntimesTimes(a: bv32)
    ensures Untimes(Times(a)) == a
  {
    hide Untimes;
    UntimesProduct(a);
  }

  lemma TimesInjective(a: bv32, b: bv32)
    requires Times(a) == Times(b)
    ensures a == b
  {
    hide Times, Untimes;
    UntimesTimes(a);
    UntimesTimes(b);
  }

  lemma XorCancels(a: bv32, b: bv32, unit: bv16)
    requires Xor(a, unit) == Xor(b, unit)
    ensures a == b
  {
  }

  lemma XorDistinguishes(hash: bv32, x: bv16, y: bv16)
    requires Xor(hash, x) == Xor(hash, y)
    ensures x == y
  {
  }

  lemma MixInjective(a: bv32, b: bv32, unit: bv16)
    requires Mix(a, unit) == Mix(b, unit)
    ensures a == b
  {
    hide Times, Xor;
    TimesInjective(Xor(a, unit), Xor(b, unit));
    XorCancels(a, b, unit);
  }

  lemma MixDistinguishes(hash: bv32, x: bv16, y: bv16)
    requires Mix(hash, x) == Mix(hash, y)
    ensures x == y
  {
    hide Times, Xor;
    TimesInjective(Xor(hash, x), Xor(hash, y));
    XorDistinguishes(hash, x, y);
  }

  /** Reading the same suffix neither merges nor separates states. */
  lemma {:induction false} SuffixCancels(a: bv32, b: bv32, suffix: Text)
    ensures Digest(a, suffix) == Digest(b, suffix) <==> a == b
    decreases |suffix|
  {
    if suffix != [] {
      SuffixCancels(Mix(a, suffix[0]), Mix(b, suffix[0]), suffix[1..]);
      if Mix(a, suffix[0]) == Mix(b, suffix[0]) {
        MixInjective(a, b, suffix[0]);
      }
    }
  }

  lemma {:induction false} DigestConcat(hash: bv32, a: Text, b: Text)
    ensures Digest(hash, a + b) == Digest(Digest(hash, a), b)
    decreases |a|
  {
    if a == [] {
      assert a + b == b;
    } else {
      assert (a + b)[1..] == a[1..] + b;
      DigestConcat(Mix(hash, a[0]), a[1..], b);
    }
  }

  /** A common suffix never changes whether two texts collide. */
  lemma CommonSuffix(a: Text, b: Text, suffix: Text)
    ensures StableHash(a + suffix) == StableHash(b + suffix) <==> StableHash(a) == StableHash(b)
  {
    hide StableHash;
    DigestConcat(OFFSET_BASIS, a, suffix);
    DigestConcat(OFFSET_BASIS, b, suffix);
    SuffixCancels(Digest(OFFSET_BASIS, a), Digest(OFFSET_BASIS, b), suffix);
    HashIsDigest(a, b);
    HashIsDigest(a + suffix, b + suffix);
  }

  /** Two texts of one length that differ in exactly one code unit never collide. */
  lemma OneUnitNeverCollides(a: Text, b: Text, i: nat)
    requires i < |a| == |b| && a[i] != b[i]
    requires forall k :: 0 <= k < |a| && k != i ==> a[k] == b[k]
    ensures StableHash(a) != StableHash(b)
  {
    hide StableHash;
    var prefix, suffix := a[..i], a[i + 1..];
    assert a == prefix + [a[i]] + suffix;
    assert b == prefix + [b[i]] + suffix;
    CommonSuffix(prefix + [a[i]], prefix + [b[i]], suffix);
    DigestConcat(OFFSET_BASIS, prefix, [a[i]]);
    DigestConcat(OFFSET_BASIS, prefix, [b[i]]);
    HashIsDigest(prefix + [a[i]], prefix + [b[i]]);
    var state := Digest(OFFSET_BASIS, prefix);
    assert Digest(state, [a[i]]) == Mix(state, a[i]) && Digest(state, [b[i]]) == Mix(state, b[i]) by {
      assert [a[i]][1..] == [] && [b[i]][1..] == [];
    }
    if Mix(state, a[i]) == Mix(state, b[i]) {
      MixDistinguishes(state, a[i], b[i]);
    }
  }

  /** The loop itself. */
  method ComputeStableHash(value: Text) returns (r: string)
    ensures r == StableHash(value)
  {
    hide ToHex, PadStart, Times, Xor;
    var hash := OFFSET_BASIS;
    assert value[0..] == value;
    for index := 0 to |value|
      invariant Digest(hash, value[index..]) == Digest(OFFSET_BASIS, value)
    {
      assert value[index..][1..] == value[index + 1..];
      hash := Xor(hash, value[index]);
      hash := Times(hash);
    }
    r := "LB-" + PadStart(ToHex(hash), 8);
  }

  // ----- Motion hashes

  function Decimal(n: nat): Text {
    (if n < 10 then [] else Decimal(n / 10)) + [(48 + n % 10) as bv16]
  }

  /** What is hashed for a motion version: the body, a bar and the version number. */
  function MotionText(body: Text, version: nat): Text {
    body + ([124] + Decimal(version))
  }

  function MotionHash(body: Text, version: nat): string {
    StableHash(MotionText(body, version))
  }

  /** Substituting one unit of a body at the same version always changes its saved hash. */
  lemma OneUnitChangesMotionHash(a: Text, b: Text, i: nat, version: nat)
    requires i < |a| == |b| && a[i] != b[i]
    requires forall k :: 0 <= k < |a| && k != i ==> a[k] == b[k]
    ensures MotionHash(a, version) != MotionHash(b, version)
  {
    OneUnitNeverCollides(a, b, i);
    CommonSuffix(a, b, [124] + Decimal(version));
  }

  function Digit(n: nat): bv16 {
    (48 + n % 10) as bv16
  }

  function DigitTable(d: nat): (u: bv16)
    requires d < 10
    ensures 48 <= u <= 57
  {
    if d == 0 then 48 else if d == 1 then 49 else if d == 2 then 50 else if d == 3 then 51 else if d == 4 then 52
    else if d == 5 then 53 else if d == 6 then 54 else if d == 7 then 55 else if d == 8 then 56 else 57
  }

  lemma DigitUnit(d: nat)
    requires d < 10
    ensures ((48 + d) as bv16) == DigitTable(d)
  {
  }

  lemma TableDiffers(a: nat, b: nat)
    requires a < 10 && b < 10 && DigitTable(a) == DigitTable(b)
    ensures a == b
  {
  }

  lemma DigitIs(n: nat)
    ensures Digit(n) == DigitTable(n % 10)
  {
    DigitUnit(n % 10);
  }

  lemma DigitsDiffer(a: nat, b: nat)
    ensures Digit(a) == Digit(b) <==> a % 10 == b % 10
    ensures 48 <= Digit(a) <= 57
  {
    hide Digit;
    DigitIs(a);
    DigitIs(b);
    if Digit(a) == Digit(b) {
      TableDiffers(a % 10, b % 10);
    }
  }

  lemma LastDigit(n: nat)
    ensures Decimal(n) == (if n < 10 then [] else Decimal(n / 10)) + [Digit(n)]
  {
  }

  /** The same body has different hashes under version numbers that differ in the last digit only, such as 1 and 2. */
  lemma VersionChangesMotionHash(body: Text, v: nat, w: nat)
    requires v / 10 == w / 10 && v != w
    ensures MotionHash(body, v) != MotionHash(body, w)
  {
    hide StableHash, Digit, Decimal;
    var head := body + ([124] + if v < 10 then [] else Decimal(v / 10));
    assert v % 10 != w % 10;
    DigitsDiffer(v, w);
    LastDigit(v);
    LastDigit(w);
    assert MotionText(body, v) == head + [Digit(v)];
    assert MotionText(body, w) == head + [Digit(w)];
    OneUnitNeverCollides(head + [Digit(v)], head + [Digit(w)], |head|);
  }

  lemma {:induction false} DecimalDigits(n: nat)
    ensures Decimal(n) != [] && forall u :: u in Decimal(n) ==> 48 <= u <= 57
  {
    hide Digit;
    LastDigit(n);
    DigitsDiffer(n, n);
    if n >= 10 {
      DecimalDigits(n / 10);
    }
  }

  lemma {:induction false} DecimalInjective(v: nat, w: nat)
    requires Decimal(v) == Decimal(w)
    ensures v == w
  {
    hide Digit, Decimal;
    LastDigit(v);
    LastDigit(w);
    var a, b := if v < 10 then [] else Decimal(v / 10), if w < 10 then [] else Decimal(w / 10);
    assert Decimal(v)[|Decimal(v)| - 1] == Digit(v) && Decimal(w)[|Decimal(w)| - 1] == Digit(w);
    assert a == Decimal(v)[..|Decimal(v)| - 1] && b == Decimal(w)[..|Decimal(w)| - 1];
    DigitsDiffer(v, w);
    DecimalDigits(v / 10);
    DecimalDigits(w / 10);
    if v >= 10 && w >= 10 {
      DecimalInjective(v / 10, w / 10);
    }
  }

  /** No two versions have the same text to hash: the last bar tells where the number begins. */
  lemma MotionTextInjective(a: Text, v: nat, b: Text, w: nat)
    requires MotionText(a, v) == MotionText(b, w)
    ensures a == b && v == w
  {
    hide Decimal;
    DecimalDigits(v);
    DecimalDigits(w);
    var text, x, y := MotionText(a, v), Decimal(v), Decimal(w);
    assert text[|a|] == 124 && text[|b|] == 124;
    assert forall k :: |a| < k < |text| ==> text[k] == x[k - |a| - 1] && x[k - |a| - 1] in x;
    assert forall k :: |b| < k < |text| ==> text[k] == y[k - |b| - 1] && y[k - |b| - 1] in y;
    assert |a| == |b|;
    assert text[..|a|] == a && text[..|b|] == b;
    assert text[|a| + 1..] == x && text[|b| + 1..] == y;
    DecimalInjective(v, w);
  }

  /** Published values of the 32-bit FNV-1a hash: of the empty string and of "a". */
  lemma PublishedValues()
    ensures StableHash([]) == "LB-811C9DC5"
    ensures Digest(OFFSET_BASIS, [97]) == 0xE40C292C
  {
    EmptyPrinted();
    assert PadStart("811C9DC5", 8) == "811C9DC5";
    assert [97][1..] == [];
    assert Mix(OFFSET_BASIS, 97) == 0xE40C292C;
    assert Digest(OFFSET_BASIS, [97]) == Digest(Mix(OFFSET_BASIS, 97), []);
  }

  lemma NextDigit(h: bv32, high: bv32, low: bv32, printed: string)
    requires h >= 16 && High(h) == high && Low(h) == low && ToHex(high) == printed
    ensures ToHex(h) == printed + [HexDigit(low)]
  {
  }

  lemma EmptyPrinted()
    ensures ToHex(0x811C9DC5) == "811C9DC5"
  {
    assert ToHex(0x8) == "8";
    NextDigit(0x81, 0x8, 1, "8");
    NextDigit(0x811, 0x81, 1, "81");
    NextDigit(0x811C, 0x811, 12, "811");
    NextDigit(0x811C9, 0x811C, 9, "811C");
    NextDigit(0x811C9D, 0x811C9, 13, "811C9");
    NextDigit(0x811C9DC, 0x811C9D, 12, "811C9D");
    NextDigit(0x811C9DC5, 0x811C9DC, 5, "811C9DC");
  }
}
