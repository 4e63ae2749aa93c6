/** Shift registers with linear feedback, over any vector space on two elements.

    src/mb_crc.c is one instance (CrcAlgebra.dfy). What a linear register computes, which
    bit errors it can miss, and after how many shifts it repeats is proved here once, from
    the algebra alone. */
module Registers {
  function Iter<T>(f: T -> T, n: nat, x: T): T {
    if n == 0 then x else f(Iter(f, n - 1, x))
  }

  lemma {:induction false} IterAdd<T>(f: T -> T, m: nat, n: nat, x: T)
    ensures Iter(f, m + n, x) == Iter(f, n, Iter(f, m, x))
  {
    if n > 0 {
      IterAdd(f, m, n - 1, x);
    }
  }

  /** A register: its states under exclusive or, the state a set input bit adds, and the
      shift that follows every input bit. */
  datatype Register<!T> = Register(zero: T, one: T, xor: (T, T) -> T, step: T -> T)

  /** The laws of exclusive or that are needed. */
  ghost predicate Group<T(!new)>(r: Register<T>) {
    && (forall a :: r.xor(a, r.zero) == a)
    && (forall a :: r.xor(r.zero, a) == a)
    && (forall a :: r.xor(a, a) == r.zero)
    && (forall a, b :: r.xor(r.xor(a, b), b) == a)
  }

  ghost predicate MedialAt<T(!new)>(r: Register<T>, a: T, b: T, c: T, d: T) {
    r.xor(r.xor(a, b), r.xor(c, d)) == r.xor(r.xor(a, c), r.xor(b, d))
  }

  ghost predicate Medial<T(!new)>(r: Register<T>) {
    forall a, b, c, d :: MedialAt(r, a, b, c, d)
  }

  ghost predicate Additive<T(!new)>(r: Register<T>) {
    forall a, b :: r.step(r.xor(a, b)) == r.xor(r.step(a), r.step(b))
  }

  ghost predicate Linear<T(!new)>(r: Register<T>) {
    && Group(r) && Medial(r) && Additive(r)
    && r.step(r.zero) == r.zero
    && (forall a :: r.step(a) == r.zero ==> a == r.zero)
  }

  lemma CancelXor<T(!new)>(r: Register<T>, a: T, b: T)
    requires Group(r)
    ensures r.xor(a, b) == r.zero <==> a == b
  {
    assert r.xor(r.xor(a, b), b) == a;
  }

  lemma {:induction false} IterXor<T(!new)>(r: Register<T>, n: nat, a: T, b: T)
    requires Additive(r)
    ensures Iter(r.step, n, r.xor(a, b)) == r.xor(Iter(r.step, n, a), Iter(r.step, n, b))
  {
    if n > 0 {
      IterXor(r, n - 1, a, b);
    }
  }

  lemma {:induction false} IterZero<T(!new)>(r: Register<T>, n: nat, a: T)
    requires Linear(r)
    ensures Iter(r.step, n, a) == r.zero <==> a == r.zero
  {
    if n > 0 {
      IterZero(r, n - 1, a);
    }
  }

  lemma IterInjective<T(!new)>(r: Register<T>, n: nat, a: T, b: T)
    requires Linear(r)
    ensures Iter(r.step, n, a) == Iter(r.step, n, b) <==> a == b
  {
    IterXor(r, n, a, b);
    IterZero(r, n, r.xor(a, b));
    CancelXor(r, a, b);
    CancelXor(r, Iter(r.step, n, a), Iter(r.step, n, b));
  }

  // ---- input ------------------------------------------------------------------------

  function AddBit<T>(r: Register<T>, c: T, bit: bool): T {
    if bit then r.xor(c, r.one) else c
  }

  /** The register after a string of input bits. */
  function Feed<T>(r: Register<T>, c: T, bits: seq<bool>): T {
    if bits == [] then c else r.step(AddBit(r, Feed(r, c, bits[..|bits| - 1]), bits[|bits| - 1]))
  }

  lemma {:induction false} FeedConcat<T>(r: Register<T>, c: T, xs: seq<bool>, ys: seq<bool>)
    ensures Feed(r, c, xs + ys) == Feed(r, Feed(r, c, xs), ys)
    decreases |ys|
  {
    if ys == [] {
      assert xs + ys == xs;
    } else {
      var n := |ys| - 1;
      assert (xs + ys)[..|xs + ys| - 1] == xs + ys[..n];
      FeedConcat(r, c, xs, ys[..n]);
    }
  }

  lemma FeedOne<T>(r: Register<T>, c: T, bit: bool)
    ensures Feed(r, c, [bit]) == r.step(AddBit(r, c, bit))
  {
    assert [bit][..0] == [];
    assert Feed(r, c, [bit][..0]) == c;
  }

  lemma FeedCons<T>(r: Register<T>, c: T, bit: bool, rest: seq<bool>)
    ensures Feed(r, c, [bit] + rest) == Feed(r, r.step(AddBit(r, c, bit)), rest)
  {
    FeedConcat(r, c, [bit], rest);
    FeedOne(r, c, bit);
  }

  /** Bit-by-bit exclusive or: the positions where two strings differ. */
  function Differ(xs: seq<bool>, ys: seq<bool>): (d: seq<bool>)
    requires |xs| == |ys|
    ensures |d| == |xs|
    ensures forall i :: 0 <= i < |d| ==> (d[i] <==> xs[i] != ys[i])
  {
    seq(|xs|, i requires 0 <= i < |xs| => xs[i] != ys[i])
  }

  /** The register reads the difference of two inputs as the difference of its readings. */
  lemma {:induction false} FeedXor<T(!new)>(r: Register<T>, c: T, d: T, xs: seq<bool>, ys: seq<bool>)
    requires Linear(r) && |xs| == |ys|
    ensures Feed(r, r.xor(c, d), Differ(xs, ys)) == r.xor(Feed(r, c, xs), Feed(r, d, ys))
    decreases |xs|
  {
    if xs != [] {
      var n := |xs| - 1;
      var p, q := Feed(r, c, xs[..n]), Feed(r, d, ys[..n]);
      FeedXor(r, c, d, xs[..n], ys[..n]);
      assert Differ(xs, ys)[..n] == Differ(xs[..n], ys[..n]);
      AddBitXor(r, p, q, xs[n], ys[n]);
    }
  }

  lemma AddBitXor<T(!new)>(r: Register<T>, p: T, q: T, x: bool, y: bool)
    requires Linear(r)
    ensures AddBit(r, r.xor(p, q), x != y) == r.xor(AddBit(r, p, x), AddBit(r, q, y))
  {
    var u, v := if x then r.one else r.zero, if y then r.one else r.zero;
    assert MedialAt(r, p, q, u, v);
    assert r.xor(u, v) == if x != y then r.one else r.zero;
    assert AddBit(r, p, x) == r.xor(p, u) && AddBit(r, q, y) == r.xor(q, v);
  }

  ghost predicate Clear(bits: seq<bool>) {
    forall i :: 0 <= i < |bits| ==> !bits[i]
  }

  lemma {:induction false} FeedClear<T>(r: Register<T>, c: T, bits: seq<bool>)
    requires Clear(bits)
    ensures Feed(r, c, bits) == Iter(r.step, |bits|, c)
    decreases |bits|
  {
    if bits != [] {
      FeedClear(r, c, bits[..|bits| - 1]);
    }
  }

  /** Clear bits before the first set one and after the last change nothing: what the
      register makes of them is zero exactly when it is zero for the part between. */
  lemma FeedPadded<T(!new)>(r: Register<T>, before: seq<bool>, bits: seq<bool>, after: seq<bool>)
    requires Linear(r) && Clear(before) && Clear(after)
    ensures Feed(r, r.zero, before + bits + after) == r.zero <==> Feed(r, r.zero, bits) == r.zero
  {
    FeedConcat(r, r.zero, before + bits, after);
    FeedConcat(r, r.zero, before, bits);
    FeedClear(r, r.zero, before);
    IterZero(r, |before|, r.zero);
    FeedClear(r, Feed(r, r.zero, bits), after);
    IterZero(r, |after|, Feed(r, r.zero, bits));
  }

  lemma FeedInjective<T(!new)>(r: Register<T>, c: T, d: T, bits: seq<bool>)
    requires Linear(r)
    ensures Feed(r, c, bits) == Feed(r, d, bits) <==> c == d
  {
    FeedXor(r, c, d, bits, bits);
    FeedClear(r, r.xor(c, d), Differ(bits, bits));
    IterZero(r, |bits|, r.xor(c, d));
    CancelXor(r, c, d);
    CancelXor(r, Feed(r, c, bits), Feed(r, d, bits));
  }

  // ---- one, two and an odd number of set bits ---------------------------------------

  function Weight(bits: seq<bool>): nat {
    if bits == [] then 0 else Weight(bits[..|bits| - 1]) + if bits[|bits| - 1] then 1 else 0
  }

  /** Two set bits d places apart are invisible exactly when d shifts bring the register
      back to where a set bit puts it. */
  lemma TwoBits<T(!new)>(r: Register<T>, bits: seq<bool>)
    requires Linear(r) && |bits| >= 2
    requires bits[0] && bits[|bits| - 1] && Clear(bits[1..|bits| - 1])
    ensures Feed(r, r.zero, bits) == r.zero <==> Iter(r.step, |bits| - 1, r.one) == r.one
  {
    var d := |bits| - 1;
    var middle := bits[1..d];
    assert bits == [true] + middle + [true];
    FeedConcat(r, r.zero, [true] + middle, [true]);
    FeedConcat(r, r.zero, [true], middle);
    FeedOne(r, r.zero, true);
    FeedClear(r, r.step(r.one), middle);
    IterAdd(r.step, 1, d - 1, r.one);
    assert Iter(r.step, 1, r.one) == r.step(Iter(r.step, 0, r.one));
    var x := Iter(r.step, d, r.one);
    assert Feed(r, r.zero, [true] + middle) == x;
    FeedOne(r, x, true);
    CancelXor(r, x, r.one);
  }

  /** A parity the shift keeps and an input bit flips counts the set bits modulo two. */
  lemma {:induction false} FeedParity<T(!new)>(r: Register<T>, odd: T -> bool, c: T, bits: seq<bool>)
    requires forall a :: odd(r.step(a)) == odd(a)
    requires forall a :: odd(r.xor(a, r.one)) != odd(a)
    ensures odd(Feed(r, c, bits)) <==> (odd(c) != (Weight(bits) % 2 == 1))
    decreases |bits|
  {
    if bits != [] {
      FeedParity(r, odd, c, bits[..|bits| - 1]);
    }
  }

  /** Bursts. size bounds a state by how many more shifts can carry it to zero: if a shift
      leaves at most k, there were at most k + 1. A string that ends in zero within the bound
      began within it. */
  lemma {:induction false} FeedSize<T(!new)>(r: Register<T>, within: (T, nat) -> bool, c: T, bits: seq<bool>)
    requires within(r.zero, 0)
    requires forall a, k: nat :: within(r.step(a), k) && k < 16 ==> within(a, k + 1)
    requires forall a, k: nat :: k > 0 && within(a, k) ==> within(r.xor(a, r.one), k)
    requires Group(r)
    requires |bits| <= 16 && Feed(r, c, bits) == r.zero
    ensures within(c, |bits|)
    decreases |bits|
  {
    if bits != [] {
      var b, rest := bits[0], bits[1..];
      assert bits == [b] + rest;
      FeedCons(r, c, b, rest);
      var a := AddBit(r, c, b);
      FeedSize(r, within, r.step(a), rest);
      assert within(a, |rest| + 1);
      if b {
        assert r.xor(r.xor(c, r.one), r.one) == c;
      }
    }
  }
}
