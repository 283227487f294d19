/**
 Dividing a stream of bits by a polynomial over the two-element field, for any register that can
 be shifted, tested and added to. Only the register's laws are used, not how it is represented.
 */
module Division {

  /** Addition, multiplication by x without its carry, whether there is a carry, and the terms of highest and lowest degree. */
  datatype Register<!T> = Register(xor: (T, T) -> T, shift: T -> T, top: T -> bool, zero: T, topTerm: T, one: T)

  /** These mark the instances of the laws that a proof needs. */
  ghost predicate Three<T>(a: T, b: T, c: T) { true }
  ghost predicate Two<T>(a: T, b: T) { true }

  ghost predicate Laws<T(!new)>(r: Register<T>) {
    && (forall a, b, c {:trigger Three(a, b, c)} :: Three(a, b, c) ==>
        && r.xor(r.xor(a, c), b) == r.xor(r.xor(a, b), c)
        && r.xor(a, r.xor(b, c)) == r.xor(r.xor(a, b), c))
    && (forall a, b {:trigger Two(a, b)} :: Two(a, b) ==>
        && r.xor(a, b) == r.xor(b, a)
        && r.xor(r.xor(a, b), b) == a
        && r.xor(a, r.zero) == a
        && r.shift(r.xor(a, b)) == r.xor(r.shift(a), r.shift(b))
        && (r.top(r.xor(a, b)) <==> (r.top(a) != r.top(b))))
    && r.top(r.topTerm) && r.shift(r.topTerm) == r.zero
    && !r.top(r.zero) && r.shift(r.zero) == r.zero
  }

  /** c times x, modulo the polynomial whose terms below the register's width are p. */
  function TimesX<T>(r: Register<T>, p: T, c: T): T {
    if r.top(c) then r.xor(r.shift(c), p) else r.shift(c)
  }

  /** c times x^n. */
  ghost function TimesXPow<T>(r: Register<T>, p: T, c: T, n: nat): T
    decreases n
  {
    if n == 0 then c else TimesXPow(r, p, TimesX(r, p, c), n - 1)
  }

  /** The remainder of the polynomial with these coefficients, highest first. */
  ghost function Remainder<T>(r: Register<T>, p: T, bits: seq<bool>): T {
    if bits == [] then r.zero else
      var c := TimesX(r, p, Remainder(r, p, bits[..|bits| - 1]));
      if bits[|bits| - 1] then r.xor(c, r.one) else c
  }

  /** The register with a bit added to its highest term. */
  ghost function AddTop<T>(r: Register<T>, c: T, bit: bool): T {
    if bit then r.xor(c, r.topTerm) else c
  }

  /** The shift register that divides as the bits come in. */
  ghost function Feed<T>(r: Register<T>, p: T, c: T, bits: seq<bool>): T
    decreases |bits|
  {
    if bits == [] then c else Feed(r, p, TimesX(r, p, AddTop(r, c, bits[0])), bits[1..])
  }

  /** The first n coefficients of w, highest first. */
  ghost function BitsOf<T>(r: Register<T>, w: T, n: nat): (bits: seq<bool>)
    ensures |bits| == n
    decreases n
  {
    if n == 0 then [] else [r.top(w)] + BitsOf(r, r.shift(w), n - 1)
  }

  ghost function ShiftN<T>(r: Register<T>, w: T, n: nat): T
    decreases n
  {
    if n == 0 then w else ShiftN(r, r.shift(w), n - 1)
  }

  // ---------------------------------------------------------------- Multiplying

  lemma TimesXLinear<T(!new)>(r: Register<T>, p: T, a: T, b: T)
    requires Laws(r)
    ensures TimesX(r, p, r.xor(a, b)) == r.xor(TimesX(r, p, a), TimesX(r, p, b))
  {
    var s, t := r.shift(a), r.shift(b);
    assert Two(a, b);
    assert Three(s, t, p);
    if r.top(a) && r.top(b) {
      assert Three(r.xor(s, p), t, p);
      assert Two(r.xor(s, t), p);
    }
  }

  lemma {:induction false} TimesXPowLinear<T(!new)>(r: Register<T>, p: T, a: T, b: T, n: nat)
    requires Laws(r)
    ensures TimesXPow(r, p, r.xor(a, b), n) == r.xor(TimesXPow(r, p, a, n), TimesXPow(r, p, b, n))
    decreases n
  {
    if n > 0 {
      TimesXLinear(r, p, a, b);
      TimesXPowLinear(r, p, TimesX(r, p, a), TimesX(r, p, b), n - 1);
    }
  }

  lemma {:induction false} TimesXPowAdds<T>(r: Register<T>, p: T, c: T, n: nat, m: nat)
    ensures TimesXPow(r, p, c, n + m) == TimesXPow(r, p, TimesXPow(r, p, c, n), m)
    decreases n
  {
    if n > 0 {
      TimesXPowAdds(r, p, TimesX(r, p, c), n - 1, m);
    }
  }

  lemma TimesXPowNext<T>(r: Register<T>, p: T, c: T, n: nat)
    ensures TimesXPow(r, p, c, n + 1) == TimesX(r, p, TimesXPow(r, p, c, n))
  {
    TimesXPowAdds(r, p, c, n, 1);
    assert TimesXPow(r, p, TimesX(r, p, TimesXPow(r, p, c, n)), 0) == TimesX(r, p, TimesXPow(r, p, c, n));
  }

  lemma {:induction false} TimesXPowZero<T(!new)>(r: Register<T>, p: T, n: nat)
    requires Laws(r)
    ensures TimesXPow(r, p, r.zero, n) == r.zero
  {
    if n > 0 {
      TimesXPowZero(r, p, n - 1);
    }
  }

  // ---------------------------------------------------------------- Feeding bits

  /** One bit fed to the register, or the word that starts with it added beforehand. */
  lemma FeedOne<T(!new)>(r: Register<T>, p: T, c: T, w: T)
    requires Laws(r)
    ensures TimesX(r, p, r.xor(c, w)) == r.xor(TimesX(r, p, AddTop(r, c, r.top(w))), r.shift(w))
  {
    assert Two(c, w);
    assert Three(r.shift(c), r.shift(w), p);
    if r.top(w) {
      assert Two(c, r.topTerm);
      assert Two(r.shift(c), r.shift(w));
    }
  }

  lemma {:induction false} FeedWord<T(!new)>(r: Register<T>, p: T, c: T, w: T, n: nat)
    requires Laws(r)
    ensures r.xor(Feed(r, p, c, BitsOf(r, w, n)), ShiftN(r, w, n)) == TimesXPow(r, p, r.xor(c, w), n)
    decreases n
  {
    if n > 0 {
      FeedOne(r, p, c, w);
      FeedWord(r, p, TimesX(r, p, AddTop(r, c, r.top(w))), r.shift(w), n - 1);
      var bits := BitsOf(r, w, n);
      assert bits[0] == r.top(w) && bits[1..] == BitsOf(r, r.shift(w), n - 1);
    }
  }

  lemma {:induction false} FeedConcat<T>(r: Register<T>, p: T, c: T, a: seq<bool>, b: seq<bool>)
    ensures Feed(r, p, c, a + b) == Feed(r, p, Feed(r, p, c, a), b)
    decreases |a|
  {
    if a == [] {
      assert a + b == b;
    } else {
      assert (a + b)[1..] == a[1..] + b;
      FeedConcat(r, p, TimesX(r, p, AddTop(r, c, a[0])), a[1..], b);
    }
  }

  lemma {:induction false} ShiftNNext<T>(r: Register<T>, w: T, n: nat)
    ensures ShiftN(r, w, n + 1) == r.shift(ShiftN(r, w, n))
    decreases n
  {
    if n > 0 {
      ShiftNNext(r, r.shift(w), n - 1);
    }
  }

  // ---------------------------------------------------------------- Messages

  /** A message's bits in the order of their transmission; a byte's are the first eight of its lane. */
  ghost function MessageBits<B, T>(r: Register<T>, lane: B -> T, data: seq<B>): (bits: seq<bool>)
    ensures |bits| == 8 * |data|
  {
    if data == [] then [] else BitsOf(r, lane(data[0]), 8) + MessageBits(r, lane, data[1..])
  }

  lemma {:induction false} MessageConcat<B, T>(r: Register<T>, lane: B -> T, a: seq<B>, b: seq<B>)
    ensures MessageBits(r, lane, a + b) == MessageBits(r, lane, a) + MessageBits(r, lane, b)
  {
    if a == [] {
      assert a + b == b;
    } else {
      assert (a + b)[1..] == a[1..] + b;
      MessageConcat(r, lane, a[1..], b);
    }
  }

  lemma OneByte<B, T>(r: Register<T>, lane: B -> T, b: B)
    ensures MessageBits(r, lane, [b]) == BitsOf(r, lane(b), 8)
  {
    assert MessageBits(r, lane, []) == [];
    assert [b][1..] == [];
  }

  /** Feeding a message byte by byte. */
  lemma FeedLastByte<B, T(!new)>(r: Register<T>, p: T, lane: B -> T, c: T, data: seq<B>, i: nat)
    requires Laws(r) && i < |data| && ShiftN(r, lane(data[i]), 8) == r.zero
    ensures Feed(r, p, c, MessageBits(r, lane, data[..i + 1]))
      == TimesXPow(r, p, r.xor(Feed(r, p, c, MessageBits(r, lane, data[..i])), lane(data[i])), 8)
  {
    var f := Feed(r, p, c, MessageBits(r, lane, data[..i]));
    var bits := BitsOf(r, lane(data[i]), 8);
    assert data[..i + 1] == data[..i] + [data[i]];
    MessageConcat(r, lane, data[..i], [data[i]]);
    OneByte(r, lane, data[i]);
    FeedConcat(r, p, c, MessageBits(r, lane, data[..i]), bits);
    FeedWord(r, p, f, lane(data[i]), 8);
    assert Two(Feed(r, p, f, bits), f);
  }

  /** A message in two pieces. */
  lemma FeedMessages<B, T>(r: Register<T>, p: T, lane: B -> T, c: T, a: seq<B>, b: seq<B>)
    ensures Feed(r, p, c, MessageBits(r, lane, a + b))
      == Feed(r, p, Feed(r, p, c, MessageBits(r, lane, a)), MessageBits(r, lane, b))
  {
    MessageConcat(r, lane, a, b);
    FeedConcat(r, p, c, MessageBits(r, lane, a), MessageBits(r, lane, b));
  }

  // ---------------------------------------------------------------- Seeds

  /** The bits with those of the mask added to the first of them. */
  ghost function Masked(bits: seq<bool>, mask: seq<bool>): (masked: seq<bool>)
    requires |mask| <= |bits|
    ensures |masked| == |bits|
  {
    seq(|bits|, i requires 0 <= i < |bits| => if i < |mask| then bits[i] != mask[i] else bits[i])
  }

  lemma AddTopTwice<T(!new)>(r: Register<T>, x: T, c: T, b: bool)
    requires Laws(r)
    ensures AddTop(r, r.xor(x, c), b) == r.xor(AddTop(r, x, b), c)
    ensures AddTop(r, AddTop(r, x, b), r.top(c)) == AddTop(r, x, b != r.top(c))
  {
    assert Three(x, r.topTerm, c) && Two(x, r.topTerm);
  }

  /** What the register holds at first has the effect of adding its bits to the first ones fed. */
  lemma {:induction false} SeedIsMask<T(!new)>(r: Register<T>, p: T, x: T, c: T, k: nat, bits: seq<bool>)
    requires Laws(r) && ShiftN(r, c, k) == r.zero && k <= |bits|
    ensures Feed(r, p, r.xor(x, c), bits) == Feed(r, p, x, Masked(bits, BitsOf(r, c, k)))
    decreases k
  {
    var masked := Masked(bits, BitsOf(r, c, k));
    if k == 0 {
      assert masked == bits;
      assert Two(x, c);
    } else {
      var b, t := bits[0], r.top(c);
      AddTopTwice(r, x, c, b);
      FeedOne(r, p, AddTop(r, x, b), c);
      SeedIsMask(r, p, TimesX(r, p, AddTop(r, x, b != t)), r.shift(c), k - 1, bits[1..]);
      assert masked[0] == (b != t);
      assert masked[1..] == Masked(bits[1..], BitsOf(r, r.shift(c), k - 1));
    }
  }

  /** The bits with the first n inverted. */
  ghost function Inverted(bits: seq<bool>, n: nat): seq<bool> {
    seq(|bits|, i requires 0 <= i < |bits| => if i < n then !bits[i] else bits[i])
  }

  /** The first n coefficients of c are all one, and there are no others. */
  ghost predicate AllOnes<T>(r: Register<T>, c: T, n: nat) {
    if n == 0 then c == r.zero else r.top(c) && AllOnes(r, r.shift(c), n - 1)
  }

  lemma {:induction false} AllOnesBits<T>(r: Register<T>, c: T, n: nat)
    requires AllOnes(r, c, n)
    ensures ShiftN(r, c, n) == r.zero && forall i :: 0 <= i < n ==> BitsOf(r, c, n)[i]
    decreases n
  {
    if n > 0 {
      AllOnesBits(r, r.shift(c), n - 1);
      assert BitsOf(r, c, n)[1..] == BitsOf(r, r.shift(c), n - 1);
    }
  }

  /** A register of ones divides the message with its first bits inverted. */
  lemma OnesInvert<T(!new)>(r: Register<T>, p: T, c: T, bits: seq<bool>, d: nat)
    requires Laws(r) && TimesXPow(r, p, r.one, d) == r.topTerm && AllOnes(r, c, d + 1) && d < |bits|
    ensures Feed(r, p, c, bits) == Remainder(r, p, Inverted(bits, d + 1) + Zeros(d + 1))
  {
    var inverted := Inverted(bits, d + 1);
    FeedOnes(r, p, c, bits, d + 1);
    FeedIsDivision(r, p, r.zero, inverted, d);
    TimesXPowZero(r, p, |inverted|);
    ZeroPlus(r, Remainder(r, p, inverted + Zeros(d + 1)));
  }

  lemma ZeroPlus<T(!new)>(r: Register<T>, c: T)
    requires Laws(r)
    ensures r.xor(r.zero, c) == c
  {
    assert Two(r.zero, c) && Two(c, r.zero);
  }

  lemma FeedOnes<T(!new)>(r: Register<T>, p: T, c: T, bits: seq<bool>, n: nat)
    requires Laws(r) && AllOnes(r, c, n) && n <= |bits|
    ensures Feed(r, p, c, bits) == Feed(r, p, r.zero, Inverted(bits, n))
  {
    AllOnesBits(r, c, n);
    SeedIsMask(r, p, r.zero, c, n, bits);
    assert Masked(bits, BitsOf(r, c, n)) == Inverted(bits, n);
    ZeroPlus(r, c);
  }

  // ---------------------------------------------------------------- Eight steps without a carry

  ghost predicate NoCarries<T>(r: Register<T>, c: T, n: nat) {
    n == 0 || (!r.top(c) && NoCarries(r, r.shift(c), n - 1))
  }

  lemma {:induction false} JustShifts<T>(r: Register<T>, p: T, c: T, n: nat)
    requires NoCarries(r, c, n)
    ensures TimesXPow(r, p, c, n) == ShiftN(r, c, n)
    decreases n
  {
    if n > 0 {
      JustShifts(r, p, r.shift(c), n - 1);
    }
  }

  /** Adding two registers' steps: the carry is that of the sum. */
  lemma CarryOfSum<T(!new)>(r: Register<T>, p: T, c: T, w: T)
    requires Laws(r)
    ensures TimesX(r, p, r.xor(c, w))
      == r.xor(if r.top(r.xor(c, w)) then r.xor(r.shift(c), p) else r.shift(c), r.shift(w))
  {
    assert Two(c, w) && Three(r.shift(c), r.shift(w), p);
  }

  // ---------------------------------------------------------------- Feeding is dividing

  ghost function Zeros(n: nat): seq<bool> {
    seq(n, _ => false)
  }

  lemma {:induction false} RemainderShifted<T>(r: Register<T>, p: T, bits: seq<bool>, n: nat)
    ensures Remainder(r, p, bits + Zeros(n)) == TimesXPow(r, p, Remainder(r, p, bits), n)
    decreases n
  {
    if n == 0 {
      assert bits + Zeros(0) == bits;
    } else {
      var all := bits + Zeros(n);
      assert all[..|all| - 1] == bits + Zeros(n - 1) && !all[|all| - 1];
      RemainderShifted(r, p, bits, n - 1);
      TimesXPowNext(r, p, Remainder(r, p, bits), n - 1);
    }
  }

  /**
   What a register whose lowest term takes d + 1 steps to carry holds in the end: the remainder of the
   bits times x^(d + 1), plus what is left of its first value after a step for every bit.
   */
  lemma {:induction false} FeedIsDivision<T(!new)>(r: Register<T>, p: T, c: T, bits: seq<bool>, d: nat)
    requires Laws(r) && TimesXPow(r, p, r.one, d) == r.topTerm
    ensures Feed(r, p, c, bits) == r.xor(TimesXPow(r, p, c, |bits|), Remainder(r, p, bits + Zeros(d + 1)))
    decreases |bits|
  {
    RemainderShifted(r, p, bits, d + 1);
    if bits == [] {
      TimesXPowZero(r, p, d + 1);
      assert Two(c, c);
    } else {
      var n := |bits| - 1;
      var front, b := bits[..n], bits[n];
      FeedIsDivision(r, p, c, front, d);
      RemainderShifted(r, p, front, d + 1);
      assert bits == front + [b];
      FeedConcat(r, p, c, front, [b]);
      assert Feed(r, p, Feed(r, p, c, front), [b]) == TimesX(r, p, AddTop(r, Feed(r, p, c, front), b));
      TimesXPowNext(r, p, c, n);
      OneMoreBit(r, p, TimesXPow(r, p, c, n), Remainder(r, p, front), b, d);
    }
  }

  lemma OneMoreBit<T(!new)>(r: Register<T>, p: T, m: T, q: T, b: bool, d: nat)
    requires Laws(r) && TimesXPow(r, p, r.one, d) == r.topTerm
    ensures var next := TimesX(r, p, q);
      TimesX(r, p, AddTop(r, r.xor(m, TimesXPow(r, p, q, d + 1)), b))
        == r.xor(TimesX(r, p, m), TimesXPow(r, p, if b then r.xor(next, r.one) else next, d + 1))
  {
    var f, next := r.xor(m, TimesXPow(r, p, q, d + 1)), TimesX(r, p, q);
    TimesXLinear(r, p, m, TimesXPow(r, p, q, d + 1));
    TimesXPowNext(r, p, q, d + 1);
    assert TimesXPow(r, p, q, d + 2) == TimesXPow(r, p, next, d + 1);
    if b {
      TimesXLinear(r, p, f, r.topTerm);
      TimesXPowNext(r, p, r.one, d);
      TimesXPowLinear(r, p, next, r.one, d + 1);
      assert Three(TimesX(r, p, m), TimesXPow(r, p, next, d + 1), TimesXPow(r, p, r.one, d + 1));
    }
  }
}
