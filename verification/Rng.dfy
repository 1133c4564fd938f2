/** The random number generator of the mutators: four 64-bit words updated in place. */
module Rng {

  datatype Words = Words(s0: bv64, s1: bv64, s2: bv64, s3: bv64)

  // The machine operations have names of their own so that proofs about states need not look inside them.

  function Xor(x: bv64, y: bv64): bv64 {
    x ^ y
  }

  function Shl(x: bv64, k: bv7): bv64
    requires k < 64
  {
    x << k
  }

  function Times(x: bv64, k: bv64): bv64 {
    x * k
  }

  /** `xoroshiro256_rotl`. */
  function Rotl(x: bv64, k: bv7): bv64
    requires 0 < k < 64
  {
    (x << k) | (x >> (64 - k))
  }

  /** The number a state yields. */
  function Scramble(w: Words): bv64 {
    Times(Rotl(Times(w.s1, 5), 7), 9)
  }

  /** The word a number was made of: 5 and 9 are odd, and so have inverses modulo 2^64. */
  function Unscramble(r: bv64): bv64 {
    Times(Rotl(Times(r, 0x8E38E38E38E38E39), 57), 0xCCCCCCCCCCCCCCCD)
  }

  lemma FiveBack(x: bv64, five: bv64)
    requires five == Times(x, 5)
    ensures Times(five, 0xCCCCCCCCCCCCCCCD) == x
  {
    assert Times(x * 5, 0xCCCCCCCCCCCCCCCD) == x && five == x * 5;
  }

  lemma NineBack(x: bv64, nine: bv64)
    requires nine == Times(x, 9)
    ensures Times(nine, 0x8E38E38E38E38E39) == x
  {
    assert Times(x * 9, 0x8E38E38E38E38E39) == x && nine == x * 9;
  }

  lemma RotateSeven(x: bv64)
    ensures Rotl(Rotl(x, 7), 57) == x && Rotl(Rotl(x, 57), 7) == x
  {
  }

  lemma Unscrambled(x: bv64, five: bv64, turned: bv64, nine: bv64)
    requires five == Times(x, 5) && turned == Rotl(five, 7) && nine == Times(turned, 9)
    ensures Unscramble(nine) == x
  {
    NineBack(turned, nine);
    RotateSeven(five);
    FiveBack(x, five);
  }

  /** Every number tells the word `s1` of the state it came from, and no other word matters. */
  lemma UnscrambleScramble(w: Words)
    ensures Unscramble(Scramble(w)) == w.s1
  {
    Unscrambled(w.s1, Times(w.s1, 5), Rotl(Times(w.s1, 5), 7), Scramble(w));
  }

  /** The state after one number. */
  function Step(w: Words): Words {
    var s2, s3 := Xor(w.s2, w.s0), Xor(w.s3, w.s1);
    Words(Xor(w.s0, s3), Xor(w.s1, s2), Xor(s2, Shl(w.s1, 17)), Rotl(s3, 45))
  }

  function Steps(w: Words, n: nat): Words {
    if n == 0 then w else Step(Steps(w, n - 1))
  }

  class Generator {
    var s0: bv64
    var s1: bv64
    var s2: bv64
    var s3: bv64

    function State(): Words
      reads this
    {
      Words(s0, s1, s2, s3)
    }

    constructor (seed: Words)
      ensures State() == seed
    {
      s0, s1, s2, s3 := seed.s0, seed.s1, seed.s2, seed.s3;
    }

    /** `xoroshiro256_next`, one assignment after the other. */
    method Next() returns (result: bv64)
      modifies this
      ensures State() == Step(old(State())) && result == Scramble(old(State())) && Unscramble(result) == old(s1)
    {
      result := Times(Rotl(Times(s1, 5), 7), 9);
      UnscrambleScramble(State());
      var t := Shl(s1, 17);
      s2 := Xor(s2, s0);
      s3 := Xor(s3, s1);
      s1 := Xor(s1, s2);
      s0 := Xor(s0, s3);
      s2 := Xor(s2, t);
      s3 := Rotl(s3, 45);
    }
  }

  // ----- the inverse -----

  /** Undoes `x ^ (x << 17)`. */
  function Unshift(y: bv64): bv64 {
    Xor(Xor(y, Shl(y, 17)), Xor(Shl(y, 34), Shl(y, 51)))
  }

  /** The state before. */
  function Back(w: Words): Words {
    var sum31 := Rotl(w.s3, 19);
    var s0, s1 := Xor(w.s0, sum31), Unshift(Xor(w.s1, w.s2));
    Words(s0, s1, Xor(Xor(w.s1, s1), s0), Xor(sum31, s1))
  }

  function Rewind(w: Words, n: nat): Words
    decreases n
  {
    if n == 0 then w else Rewind(Back(w), n - 1)
  }

  lemma RotateBack(x: bv64)
    ensures Rotl(Rotl(x, 45), 19) == x && Rotl(Rotl(x, 19), 45) == x
  {
  }

  lemma Cancel(x: bv64, y: bv64)
    ensures Xor(Xor(x, y), y) == x && Xor(Xor(x, y), x) == y && Xor(x, Xor(x, y)) == y
  {
  }

  lemma CancelMiddle(x: bv64, y: bv64, z: bv64)
    ensures Xor(Xor(x, y), Xor(y, z)) == Xor(x, z)
  {
  }

  lemma ShiftOfSum(x: bv64, y: bv64)
    ensures Shl(Xor(x, y), 17) == Xor(Shl(x, 17), Shl(y, 17))
  {
  }

  lemma ShiftTwice(x: bv64)
    ensures Shl(Shl(x, 17), 17) == Shl(x, 34) && Shl(Shl(x, 34), 17) == Shl(x, 51) && Shl(Shl(x, 51), 17) == 0
  {
  }

  lemma ShiftOfSum34(x: bv64)
    ensures Shl(Xor(x, Shl(x, 17)), 34) == Xor(Shl(x, 34), Shl(x, 51))
  {
  }

  lemma ShiftOfSum51(x: bv64)
    ensures Shl(Xor(x, Shl(x, 17)), 51) == Shl(x, 51)
  {
  }

  lemma UnshiftLeft(x: bv64)
    ensures Unshift(Xor(x, Shl(x, 17))) == x
  {
    ShiftOfSum(x, Shl(x, 17));
    ShiftTwice(x);
    ShiftOfSum34(x);
    ShiftOfSum51(x);
    CancelMiddle(x, Shl(x, 17), Shl(x, 34));
    Cancel(Shl(x, 34), Shl(x, 51));
    Cancel(x, Shl(x, 34));
  }

  lemma Interchange(p: bv64, q: bv64, r: bv64, c: bv64)
    ensures Xor(Xor(p, q), Xor(r, c)) == Xor(Xor(p, r), Xor(q, c)) && Xor(c, 0) == c
  {
  }

  lemma Telescope(y: bv64, a: bv64, b: bv64, c: bv64)
    ensures Xor(Xor(Xor(y, a), Xor(b, c)), Xor(Xor(a, b), Xor(c, 0))) == y
  {
    Interchange(Xor(y, a), Xor(b, c), Xor(a, b), c);
    CancelMiddle(y, a, b);
    Cancel(b, c);
    Cancel(y, b);
  }

  lemma ShiftOfUnshift(y: bv64)
    ensures Xor(Unshift(y), Shl(Unshift(y), 17)) == y
  {
    ShiftOfSum(Xor(y, Shl(y, 17)), Xor(Shl(y, 34), Shl(y, 51)));
    ShiftOfSum(y, Shl(y, 17));
    ShiftOfSum(Shl(y, 34), Shl(y, 51));
    ShiftTwice(y);
    Telescope(y, Shl(y, 17), Shl(y, 34), Shl(y, 51));
  }

  /** The state update is a bijection: `Back` undoes it, on either side. */
  lemma BackOfStep(w: Words)
    ensures Back(Step(w)) == w
  {
    var s2, s3 := Xor(w.s2, w.s0), Xor(w.s3, w.s1);
    RotateBack(s3);
    Cancel(w.s0, s3);
    CancelMiddle(w.s1, s2, Shl(w.s1, 17));
    UnshiftLeft(w.s1);
    Cancel(w.s1, s2);
    Cancel(w.s2, w.s0);
    Cancel(w.s3, w.s1);
  }

  lemma StepOfBack(w: Words)
    ensures Step(Back(w)) == w
  {
    var sum31 := Rotl(w.s3, 19);
    var s0, s1 := Xor(w.s0, sum31), Unshift(Xor(w.s1, w.s2));
    var x := Xor(w.s1, s1);
    RotateBack(w.s3);
    Cancel(x, s0);             // s2 ^ s0 is x again
    Cancel(sum31, s1);         // s3 ^ s1 is sum31 again
    Cancel(w.s0, sum31);
    Cancel(w.s1, s1);
    ShiftOfUnshift(Xor(w.s1, w.s2));
    StepThirdWord(w.s1, w.s2, s1, Shl(s1, 17));
  }

  lemma StepThirdWord(a: bv64, b: bv64, s: bv64, t: bv64)
    requires Xor(s, t) == Xor(a, b)
    ensures Xor(Xor(a, s), t) == b && Xor(s, Xor(a, s)) == a
  {
  }

  /** Any number of steps can be rewound. */
  lemma {:induction false} RewindSteps(w: Words, n: nat)
    ensures Rewind(Steps(w, n), n) == w
  {
    if n > 0 {
      BackOfStep(Steps(w, n - 1));
      RewindSteps(w, n - 1);
    }
  }

  lemma {:induction false} StepsOfRewind(w: Words, n: nat)
    ensures Steps(Rewind(w, n), n) == w
    decreases n
  {
    if n > 0 {
      StepsOfRewind(Back(w), n - 1);
      StepOfBack(w);
    }
  }

  const ZERO: Words := Words(0, 0, 0, 0)

  lemma StepOfZero()
    ensures Step(ZERO) == ZERO
  {
  }

  /** The all-zero state is reached from itself only. */
  lemma {:induction false} NeverZero(w: Words, n: nat)
    ensures Steps(w, n) == ZERO <==> w == ZERO
  {
    if n > 0 {
      NeverZero(w, n - 1);
      StepOfZero();
      BackOfStep(Steps(w, n - 1));
      BackOfStep(ZERO);
    }
  }
}
