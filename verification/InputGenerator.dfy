/** Generation of inputs, and their extension by inputs that keep the tainted words. */
module InputGenerator {
  import opened Arithmetic
  import opened Lcg

  datatype Input = Input(seed: int, words: seq<int>)

  function Xor(a: nat, b: nat): nat {
    if a == 0 && b == 0 then 0 else 2 * Xor(a / 2, b / 2) + (a % 2 + b % 2) % 2
  }

  /** The value taken from one draw: its halves mixed, cut to the entropy, shifted by six bits. */
  function Masked(draw: nat, entropy: nat): (r: nat)
    ensures r <= (Pow2(entropy) - 1) * 64
  {
    Xor(draw, draw / 65536) % Pow2(entropy) * 64
  }

  function DrawAt(seed: int, n: nat): (r: nat)
    requires n > 0
    ensures r == Draws(seed, n) && r < POW32
  {
    assert Draws(seed, n) == Next(Draws(seed, n - 1));
    Draws(seed, n)
  }

  /** Word i of the input with this seed takes its upper half from draw 2i + 1, its lower from the next. */
  function WordOf(seed: int, entropy: nat, i: nat): nat {
    Masked(DrawAt(seed, 2 * i + 1), entropy) * POW32 + Masked(DrawAt(seed, 2 * i + 2), entropy)
  }

  function WordsOf(seed: int, entropy: nat, size: nat): (r: seq<int>)
    ensures |r| == size && forall i :: 0 <= i < size ==> r[i] == WordOf(seed, entropy, i)
  {
    seq(size, i requires 0 <= i < size => WordOf(seed, entropy, i))
  }

  function InputOf(seed: int, entropy: nat, size: nat): Input {
    Input(seed, WordsOf(seed, entropy, size))
  }

  /** The configured number of bits, as the mask is made from it. */
  function EntropyOf(bits: int): (e: nat)
    ensures e <= 32
  {
    bits % 33
  }

  // ----- Words in a 64-bit array -----

  const WORD_LIMIT: int := 0x1_0000_0000_0000_0000

  lemma SmallPowers()
    ensures Pow2(10) == 0x400 && Pow2(16) == 0x1_0000
    ensures Pow2(26) == 0x400_0000 && Pow2(27) == 0x800_0000 && Pow2(32) == POW32
  {
    assert Pow2(8) == 256;
    assert Pow2(16) == 65536 by { assert Pow2(12) == 4096; }
    assert Pow2(24) == 65536 * 256 by { assert Pow2(20) == 65536 * 16; }
    assert Pow2(28) == 65536 * 256 * 16;
  }

  /** A word fits the array exactly when the value for its upper half has at most 32 bits. */
  lemma UpperHalfDecides(seed: int, entropy: nat, i: nat)
    requires entropy <= 32
    ensures 0 <= WordOf(seed, entropy, i)
    ensures WordOf(seed, entropy, i) < WORD_LIMIT <==> Masked(DrawAt(seed, 2 * i + 1), entropy) < POW32
  {
    MaskedBounds(DrawAt(seed, 2 * i + 1), entropy);
    MaskedBounds(DrawAt(seed, 2 * i + 2), entropy);
    TwoHalves(Masked(DrawAt(seed, 2 * i + 1), entropy), Masked(DrawAt(seed, 2 * i + 2), entropy));
  }

  lemma MaskedBounds(draw: nat, entropy: nat)
    requires entropy <= 32
    ensures Masked(draw, entropy) % 64 == 0 && Masked(draw, entropy) <= (POW32 - 1) * 64
  {
    Pow2Grows(entropy, 32);
    SmallPowers();
    CutAndShifted(Xor(draw, draw / 65536), Pow2(entropy));
  }

  lemma CutAndShifted(x: nat, p: nat)
    requires 0 < p <= POW32
    ensures x % p * 64 % 64 == 0 && x % p * 64 <= (POW32 - 1) * 64
  {
    assert x % p <= POW32 - 1;
  }

  lemma TwoHalves(hi: nat, lo: nat)
    requires hi % 64 == 0 && lo <= (POW32 - 1) * 64
    ensures hi * POW32 + lo < WORD_LIMIT <==> hi < POW32
  {
  }

  /** Up to 26 bits of entropy, every word fits the 64-bit element of the input array. */
  lemma WordsFit(seed: int, entropy: nat, i: nat)
    requires entropy <= 26
    ensures 0 <= WordOf(seed, entropy, i) < WORD_LIMIT
  {
    Pow2Grows(entropy, 26);
    SmallPowers();
    UpperHalfDecides(seed, entropy, i);
  }

  lemma {:induction false} XorZero(a: nat)
    ensures Xor(a, 0) == a
  {
    if a > 0 {
      XorZero(a / 2);
    }
  }

  lemma XorDoubled(a: nat, b: nat)
    ensures Xor(2 * a, 2 * b) == 2 * Xor(a, b)
    ensures Xor(2 * a, 2 * b + 1) == 2 * Xor(a, b) + 1
  {
  }

  lemma {:induction false} XorOfPowers(j: nat, k: nat)
    requires k < j
    ensures Xor(Pow2(j), Pow2(k)) == Pow2(j) + Pow2(k)
    decreases k
  {
    if k == 0 {
      XorDoubled(Pow2(j - 1), 0);
      XorZero(Pow2(j - 1));
    } else {
      XorDoubled(Pow2(j - 1), Pow2(k - 1));
      XorOfPowers(j - 1, k - 1);
    }
  }

  // ----- The bits of a value -----

  lemma {:induction false} ZeroBits(n: nat)
    ensures !Bit(0, n)
  {
    if n > 0 {
      ZeroBits(n - 1);
    }
  }

  lemma {:induction false} XorBits(a: nat, b: nat, n: nat)
    ensures Bit(Xor(a, b), n) <==> Bit(a, n) != Bit(b, n)
    decreases n
  {
    if a == 0 && b == 0 {
      ZeroBits(n);
    } else if n > 0 {
      XorBits(a / 2, b / 2, n - 1);
    }
  }

  lemma {:induction false} ShiftedBits(x: nat, k: nat, n: nat)
    ensures x / Pow2(k) >= 0 && Bit(x / Pow2(k), n) == Bit(x, n + k)
    decreases k
  {
    if k > 0 {
      DivideTwice(x, 2, Pow2(k - 1));
      ShiftedBits(x / 2, k - 1, n);
    }
  }

  lemma {:induction false} LowBits(x: nat, e: nat, n: nat)
    ensures Bit(x % Pow2(e), n) <==> n < e && Bit(x, n)
    decreases e
  {
    if e == 0 {
      assert x % 1 == 0;
      ZeroBits(n);
    } else {
      DivideTwice(x, 2, Pow2(e - 1));
      var low := x / 2 % Pow2(e - 1);
      assert x % Pow2(e) == x % 2 + 2 * low;
      if n > 0 {
        LowBits(x / 2, e - 1, n - 1);
        assert (x % 2 + 2 * low) / 2 == low;
      }
    }
  }

  lemma {:induction false} ScaledBits(y: nat, k: nat, n: nat)
    ensures y * Pow2(k) >= 0 && (Bit(y * Pow2(k), n) <==> n >= k && Bit(y, n - k))
    decreases k
  {
    if k > 0 {
      var half := y * Pow2(k - 1);
      assert y * Pow2(k) == 2 * half;
      if n > 0 {
        ScaledBits(y, k - 1, n - 1);
      }
    }
  }

  /** What a draw gives: its lowest six bits are clear, and as many bits as there is entropy follow, each the exclusive
      or of a bit of the draw and the one sixteen places above. */
  lemma MaskedBits(draw: nat, entropy: nat, n: nat)
    ensures Bit(Masked(draw, entropy), n) <==> 6 <= n < entropy + 6 && Bit(draw, n - 6) != Bit(draw, n + 10)
  {
    var mixed := Xor(draw, draw / 65536);
    assert Pow2(6) == 64;
    ScaledBits(mixed % Pow2(entropy), 6, n);
    if n >= 6 {
      LowBits(mixed, entropy, n - 6);
      XorBits(draw, draw / 65536, n - 6);
      SmallPowers();
      ShiftedBits(draw, 16, n - 6);
    }
  }

  lemma MaskedBelow(draw: nat, entropy: nat)
    requires Xor(draw, draw / 65536) < Pow2(entropy)
    ensures Masked(draw, entropy) == Xor(draw, draw / 65536) * 64
  {
    SmallRemainder(Xor(draw, draw / 65536), Pow2(entropy));
  }

  lemma SmallRemainder(x: nat, p: nat)
    requires x < p
    ensures x % p == x
  {
  }

  /** A seed whose first draw is 2^26. */
  const OVERFLOWING_SEED: int := 720935875

  lemma FirstDraw()
    ensures DrawAt(OVERFLOWING_SEED, 1) == 0x400_0000
  {
    assert Draws(OVERFLOWING_SEED, 1) == Next(Draws(OVERFLOWING_SEED, 0));
  }

  lemma MixedDraw(draw: nat, j: nat, k: nat)
    requires draw == Pow2(j) && draw / 65536 == Pow2(k) && k < j
    ensures Xor(draw, draw / 65536) == Pow2(j) + Pow2(k)
  {
    XorOfPowers(j, k);
  }

  /** From 27 bits on, the first word made from that seed does not fit. */
  lemma WordOverflows(entropy: nat)
    requires entropy >= 27
    ensures WordOf(OVERFLOWING_SEED, entropy, 0) >= WORD_LIMIT
  {
    FirstDraw();
    SmallPowers();
    MixedDraw(DrawAt(OVERFLOWING_SEED, 1), 26, 10);
    Pow2Grows(27, entropy);
    MaskedBelow(DrawAt(OVERFLOWING_SEED, 1), entropy);
  }

  /** So exactly up to 26 bits every word of every seed fits. */
  lemma EntropyFits(entropy: nat)
    ensures (forall seed, i: nat {:trigger WordOf(seed, entropy, i)} :: 0 <= WordOf(seed, entropy, i) < WORD_LIMIT)
            <==> entropy <= 26
  {
    if entropy <= 26 {
      forall seed, i: nat ensures 0 <= WordOf(seed, entropy, i) < WORD_LIMIT {
        WordsFit(seed, entropy, i);
      }
    } else {
      WordOverflows(entropy);
      assert WordOf(OVERFLOWING_SEED, entropy, 0) >= WORD_LIMIT;
    }
  }

  /** All words made from a seed fit. */
  ghost predicate Fits(seed: int, entropy: nat, size: nat) {
    forall i :: 0 <= i < size ==> WordOf(seed, entropy, i) < WORD_LIMIT
  }

  /** An input array has the data words and then words that only align it to a page. */
  const REGISTER_WORDS := 8
  const TAIL_WORDS := 504

  /** Fill the data words from the seed; a word that does not fit raises an overflow. The array is not
      initialised, and the truncation that is meant for the register words counts from the end of the array:
      it reaches the tail alone. */
  method GenerateOne(seed: int, entropy: nat, size: nat) returns (ok: bool, words: array<int>, next: int)
    requires entropy <= 32
    ensures ok <==> Fits(seed, entropy, size)
    ensures fresh(words) && words.Length == size + TAIL_WORDS
    ensures ok ==> words[..size] == WordsOf(seed, entropy, size) && next == Draws(seed, 2 * size)
    ensures ok ==> forall j :: words.Length - REGISTER_WORDS <= j < words.Length ==> 0 <= words[j] < POW32
  {
    words := new int[size + TAIL_WORDS];
    next := seed;
    for i := 0 to size
      invariant next == Draws(seed, 2 * i)
      invariant forall j :: 0 <= j < i ==> words[j] == WordOf(seed, entropy, j) < WORD_LIMIT
    {
      UpperHalfDecides(seed, entropy, i);
      next := Next(next);
      assert next == DrawAt(seed, 2 * i + 1);
      var upper := Masked(next, entropy) * POW32;
      if upper >= WORD_LIMIT {
        return false, words, next;
      }
      words[i] := upper;
      next := Next(next);
      words[i] := words[i] + Masked(next, entropy);
      assert next == Draws(seed, 2 * i + 2) && words[i] == WordOf(seed, entropy, i);
    }
    Truncate(words, size);
    assert words[..size] == WordsOf(seed, entropy, size);
    ok := true;
  }

  method Truncate(words: array<int>, size: nat)
    requires words.Length == size + TAIL_WORDS
    modifies words
    ensures forall j :: 0 <= j < size ==> words[j] == old(words[j])
    ensures forall j :: words.Length - REGISTER_WORDS <= j < words.Length ==> 0 <= words[j] < POW32
  {
    for i := 0 to REGISTER_WORDS
      invariant forall j :: 0 <= j < size ==> words[j] == old(words[j])
      invariant forall j :: words.Length - i <= j < words.Length ==> 0 <= words[j] < POW32
    {
      words[words.Length - i - 1] := words[words.Length - i - 1] % POW32;
    }
  }

  /** The number of draws before input i of a sequence. */
  function Before(size: nat, i: nat): nat {
    2 * size * i
  }

  lemma BeforeNext(seed: int, size: nat, i: nat)
    ensures Draws(Draws(seed, Before(size, i)), 2 * size) == Draws(seed, Before(size, i + 1))
  {
    DrawsAdd(seed, Before(size, i), 2 * size);
    assert 2 * size * i + 2 * size == 2 * size * (i + 1);
  }

  datatype Generated = Overflow | Generated(inputs: seq<Input>)

  /** A seed of 0 asks for a random one. */
  method Generate(seed: int, random: int, count: nat, bits: int, size: nat) returns (r: Generated)
    ensures var s := if seed == 0 then random else seed;
            && (r.Generated? <==> forall i :: 0 <= i < count ==> Fits(Draws(s, Before(size, i)), EntropyOf(bits), size))
            && (r.Generated? ==>
                  && |r.inputs| == count
                  && forall i :: 0 <= i < count ==>
                       r.inputs[i] == InputOf(Draws(s, Before(size, i)), EntropyOf(bits), size))
  {
    var entropy := EntropyOf(bits);
    var s := if seed == 0 then random else seed;
    var current := s;
    var inputs: seq<Input> := [];
    for i := 0 to count
      invariant current == Draws(s, Before(size, i))
      invariant |inputs| == i
      invariant forall j :: 0 <= j < i ==> inputs[j] == InputOf(Draws(s, Before(size, j)), entropy, size)
      invariant forall j :: 0 <= j < i ==> Fits(Draws(s, Before(size, j)), entropy, size)
    {
      var ok, words, next := GenerateOne(current, entropy, size);
      if !ok {
        return Overflow;
      }
      inputs := inputs + [Input(current, words[..size])];
      BeforeNext(s, size, i);
      current := next;
    }
    r := Generated(inputs);
  }

  /** A new input: its own random words, except where the taint keeps a word of the old one. */
  function Kept(taint: seq<bool>, original: seq<int>, drawn: seq<int>): (r: seq<int>)
    requires |taint| == |original| == |drawn|
    ensures |r| == |taint|
    ensures forall j :: 0 <= j < |r| ==> r[j] == if taint[j] then original[j] else drawn[j]
  {
    seq(|taint|, j requires 0 <= j < |taint| => if taint[j] then original[j] else drawn[j])
  }

  datatype Extension = LengthMismatch | NoInputs | Overflowed | Extended(inputs: seq<Input>)

  /** New input i continues the seed sequence after the last input and keeps the tainted words of
      input i. */
  ghost predicate IsExtension(inputs: seq<Input>, taints: seq<seq<bool>>, entropy: nat, size: nat, extra: seq<Input>)
    requires |inputs| == |taints| > 0
    requires forall i :: 0 <= i < |inputs| ==> |inputs[i].words| == |taints[i]| == size
  {
    var s := Draws(inputs[|inputs| - 1].seed, 2 * size);
    && |extra| == |inputs|
    && forall i :: 0 <= i < |inputs| ==>
         && Fits(Draws(s, Before(size, i)), entropy, size)
         && extra[i] == ExtendedInput(inputs[i], taints[i], entropy, Draws(s, Before(size, i)))
  }

  /** All words that an extension draws fit, those of the last input among them, which it draws again. */
  ghost predicate ExtensionFits(inputs: seq<Input>, entropy: nat, size: nat)
    requires inputs != []
  {
    var last := inputs[|inputs| - 1].seed;
    && Fits(last, entropy, size)
    && forall i :: 0 <= i < |inputs| ==> Fits(Draws(Draws(last, 2 * size), Before(size, i)), entropy, size)
  }

  function ExtendedInput(input: Input, taint: seq<bool>, entropy: nat, seed: int): Input
    requires |input.words| == |taint|
  {
    Input(seed, Kept(taint, input.words, WordsOf(seed, entropy, |taint|)))
  }

  /** The tainted words of an input over those of a new array. */
  method Overwrite(words: array<int>, taint: seq<bool>, original: seq<int>)
    requires |taint| == |original| <= words.Length
    modifies words
    ensures words[..|taint|] == Kept(taint, original, old(words[..|taint|]))
  {
    for j := 0 to |taint|
      invariant forall m :: 0 <= m < |taint| ==>
                  words[m] == if m < j && taint[m] then original[m] else old(words[m])
    {
      if taint[j] {
        words[j] := original[j];
      }
    }
  }

  method ExtendEquivalenceClasses(inputs: seq<Input>, taints: seq<seq<bool>>, bits: int, size: nat)
    returns (r: Extension)
    requires forall i :: 0 <= i < |inputs| ==> |inputs[i].words| == size
    requires forall i :: 0 <= i < |taints| ==> |taints[i]| == size
    ensures r.LengthMismatch? <==> |inputs| != |taints|
    ensures r.NoInputs? <==> |inputs| == |taints| == 0
    ensures r.Extended? <==> |inputs| == |taints| > 0 && ExtensionFits(inputs, EntropyOf(bits), size)
    ensures r.Extended? ==> IsExtension(inputs, taints, EntropyOf(bits), size, r.inputs)
  {
    var entropy := EntropyOf(bits);
    if |inputs| != |taints| {
      return LengthMismatch;
    }
    if inputs == [] {
      return NoInputs;
    }
    var first, _, s := GenerateOne(inputs[|inputs| - 1].seed, entropy, size);
    if !first {
      return Overflowed;
    }
    var current := s;
    var extra := [];
    for i := 0 to |inputs|
      invariant current == Draws(s, Before(size, i))
      invariant |extra| == i
      invariant forall j :: 0 <= j < i ==>
                  && Fits(Draws(s, Before(size, j)), entropy, size)
                  && extra[j] == ExtendedInput(inputs[j], taints[j], entropy, Draws(s, Before(size, j)))
    {
      var ok, words, next := GenerateOne(current, entropy, size);
      if !ok {
        return Overflowed;
      }
      Overwrite(words, taints[i], inputs[i].words);
      extra := extra + [Input(current, words[..size])];
      BeforeNext(s, size, i);
      current := next;
    }
    r := Extended(extra);
  }

  /** Extensions start over from the last of the original inputs, so any two of them are the same. */
  lemma ExtensionsRepeat(inputs: seq<Input>, taints: seq<seq<bool>>, entropy: nat, size: nat,
                         a: seq<Input>, b: seq<Input>)
    requires |inputs| == |taints| > 0
    requires forall i :: 0 <= i < |inputs| ==> |inputs[i].words| == |taints[i]| == size
    requires IsExtension(inputs, taints, entropy, size, a) && IsExtension(inputs, taints, entropy, size, b)
    ensures a == b
  {
  }

  function Repeated(s: seq<Input>, n: nat): seq<Input> {
    if n == 0 then [] else Repeated(s, n - 1) + s
  }

  /** Boosting extends once for every further input of a class; from the second time on, it adds nothing
      but copies of the inputs it has added. */
  method BoostInputs(inputs: seq<Input>, taints: seq<seq<bool>>, bits: int, size: nat, perClass: nat)
    returns (ok: bool, boosted: seq<Input>, ghost extra: seq<Input>)
    requires |inputs| == |taints| > 0 && perClass > 0
    requires forall i :: 0 <= i < |inputs| ==> |inputs[i].words| == |taints[i]| == size
    ensures ok <==> perClass == 1 || ExtensionFits(inputs, EntropyOf(bits), size)
    ensures ok ==> boosted == inputs + Repeated(extra, perClass - 1)
    ensures ok && perClass > 1 ==> IsExtension(inputs, taints, EntropyOf(bits), size, extra)
  {
    boosted, extra := inputs, [];
    for n := 0 to perClass - 1
      invariant boosted == inputs + Repeated(extra, n)
      invariant n > 0 ==> ExtensionFits(inputs, EntropyOf(bits), size)
      invariant n > 0 ==> IsExtension(inputs, taints, EntropyOf(bits), size, extra)
    {
      var r := ExtendEquivalenceClasses(inputs, taints, bits, size);
      if !r.Extended? {
        return false, boosted, extra;
      }
      if n == 0 {
        extra := r.inputs;
      } else {
        ExtensionsRepeat(inputs, taints, EntropyOf(bits), size, extra, r.inputs);
      }
      boosted := boosted + r.inputs;
    }
    ok := true;
  }

  // ----- Seeds -----

  /** The inputs of one boosted round: a generated sequence and one extension of it. */
  ghost predicate BoostedRound(seed: int, size: nat, inputs: seq<Input>, extra: seq<Input>) {
    && |extra| == |inputs| > 0
    && (forall i :: 0 <= i < |inputs| ==> inputs[i].seed == Draws(seed, Before(size, i)))
    && var s := Draws(inputs[|inputs| - 1].seed, 2 * size);
       forall i :: 0 <= i < |extra| ==> extra[i].seed == Draws(s, Before(size, i))
  }

  lemma BeforeAdds(size: nat, i: nat, j: nat)
    ensures Before(size, i) + Before(size, j) == Before(size, i + j)
  {
    assert 2 * size * i + 2 * size * j == 2 * size * (i + j);
  }

  lemma BeforeBound(size: nat, d: nat, n: nat)
    requires size > 0 && 0 < d <= n && n * (2 * size) < POW32
    ensures 0 < Before(size, d) < POW32
  {
    assert 2 * size * d == d * (2 * size) <= n * (2 * size);
  }

  lemma SeedOf(seed: int, size: nat, inputs: seq<Input>, extra: seq<Input>, i: nat)
    requires BoostedRound(seed, size, inputs, extra) && i < |inputs + extra|
    ensures (inputs + extra)[i].seed == Draws(seed, Before(size, i))
  {
    var n := |inputs|;
    if i >= n {
      BeforeNext(seed, size, n - 1);
      DrawsAdd(seed, Before(size, n), Before(size, i - n));
      BeforeAdds(size, n, i - n);
    }
  }

  /** No two inputs of a boosted round have the same seed, as long as the round draws less than a
      whole period. */
  lemma SeedsAreDistinct(seed: int, size: nat, inputs: seq<Input>, extra: seq<Input>, i: nat, j: nat)
    requires 0 <= seed < POW32 && size > 0 && BoostedRound(seed, size, inputs, extra)
    requires (2 * |inputs| - 1) * (2 * size) < POW32
    requires i < j < |inputs + extra|
    ensures (inputs + extra)[i].seed != (inputs + extra)[j].seed
  {
    SeedOf(seed, size, inputs, extra, i);
    SeedOf(seed, size, inputs, extra, j);
    BeforeAdds(size, i, j - i);
    BeforeBound(size, j - i, 2 * |inputs| - 1);
    NearDrawsDiffer(seed, Before(size, i), Before(size, j));
  }
}
