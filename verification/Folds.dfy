/** Running a register over a string of symbols, for any register and any symbols. What is proved here uses only the
    algebra of the step, so that the bits of a concrete register never get in the way. */
module Folds {

  function Fold<S, B>(f: (S, B) -> S, s: S, bits: seq<B>): S
    decreases bits
  {
    if bits == [] then s else Fold(f, f(s, bits[0]), bits[1..])
  }

  function Iterate<S>(h: S -> S, n: nat, s: S): S
    decreases n, s
  {
    if n == 0 then s else Iterate(h, n - 1, h(s))
  }

  lemma {:induction false} FoldConcat<S, B>(f: (S, B) -> S, s: S, a: seq<B>, b: seq<B>)
    ensures Fold(f, s, a + b) == Fold(f, Fold(f, s, a), b)
    decreases a
  {
    if a == [] {
      assert a + b == b;
    } else {
      assert (a + b)[0] == a[0] && (a + b)[1..] == a[1..] + b;
      FoldConcat(f, f(s, a[0]), a[1..], b);
    }
  }

  lemma ElevenOf<T>(r: seq<T>)
    requires |r| == 11
    ensures r == [r[0], r[1], r[2], r[3], r[4], r[5], r[6], r[7], r[8], r[9], r[10]]
  {
  }

  /** The states that a run over eleven symbols goes through. */
  lemma FoldStates11<S, B>(f: (S, B) -> S, bits: seq<B>, p0: S, p1: S, p2: S, p3: S, p4: S, p5: S, p6: S, p7: S, p8: S,
      p9: S, p10: S, p11: S)
    requires |bits| == 11
    requires p1 == f(p0, bits[0]) && p2 == f(p1, bits[1]) && p3 == f(p2, bits[2]) && p4 == f(p3, bits[3])
    requires p5 == f(p4, bits[4]) && p6 == f(p5, bits[5]) && p7 == f(p6, bits[6]) && p8 == f(p7, bits[7])
    requires p9 == f(p8, bits[8]) && p10 == f(p9, bits[9]) && p11 == f(p10, bits[10])
    ensures Fold(f, p0, bits) == p11
  {
    ElevenOf(bits);
    Fold11(f, p0, bits[0], bits[1], bits[2], bits[3], bits[4], bits[5], bits[6], bits[7], bits[8], bits[9], bits[10]);
  }

  lemma Fold11<S, B>(f: (S, B) -> S, s: S, a: B, b: B, c: B, d: B, e: B, g: B, h: B, i: B, j: B, k: B, l: B)
    ensures Fold(f, s, [a, b, c, d, e, g, h, i, j, k, l])
         == f(f(f(f(f(f(f(f(f(f(f(s, a), b), c), d), e), g), h), i), j), k), l)
  {
    Fold4(f, s, a, b, c, d);
    var s4 := Fold(f, s, [a, b, c, d]);
    Fold4(f, s4, e, g, h, i);
    var s8 := Fold(f, s4, [e, g, h, i]);
    FoldConcat(f, s, [a, b, c, d], [e, g, h, i]);
    FoldConcat(f, s, [a, b, c, d] + [e, g, h, i], [j, k, l]);
    FoldConcat(f, s8, [j], [k, l]);
    FoldConcat(f, f(s8, j), [k], [l]);
    assert [j] + [k, l] == [j, k, l] && [k] + [l] == [k, l];
    assert [a, b, c, d] + [e, g, h, i] + [j, k, l] == [a, b, c, d, e, g, h, i, j, k, l];
  }

  lemma Fold4<S, B>(f: (S, B) -> S, s: S, a: B, b: B, c: B, d: B)
    ensures Fold(f, s, [a, b, c, d]) == f(f(f(f(s, a), b), c), d)
  {
    assert [a, b, c, d] == [a] + [b] + [c] + [d];
    FoldConcat(f, s, [a] + [b] + [c], [d]);
    FoldConcat(f, s, [a] + [b], [c]);
    FoldConcat(f, s, [a], [b]);
  }

  lemma Iterate8<S>(h: S -> S, s: S)
    ensures Iterate(h, 8, s) == h(h(h(h(h(h(h(h(s))))))))
  {
    var s2 := h(h(s));
    var s4 := h(h(s2));
    var s6 := h(h(s4));
    Iterate2(h, 6, s);
    Iterate2(h, 4, s2);
    Iterate2(h, 2, s4);
    Iterate2(h, 0, s6);
  }

  lemma Iterate2<S>(h: S -> S, n: nat, s: S)
    ensures Iterate(h, n + 2, s) == Iterate(h, n, h(h(s)))
    ensures Iterate(h, 0, s) == s
  {
    assert Iterate(h, n + 2, s) == Iterate(h, n + 1, h(s));
  }

  /** The symbols a system emits while it runs for n steps. */
  function Emitted<T, B>(out: T -> B, h: T -> T, n: nat, t: T): (r: seq<B>)
    ensures |r| == n
    decreases n, t
  {
    if n == 0 then [] else [out(t)] + Emitted(out, h, n - 1, h(t))
  }

  lemma Emitted8<T, B>(out: T -> B, h: T -> T, a: T, b: T, c: T, d: T, e: T, f: T, g: T, i: T)
    requires b == h(a) && c == h(b) && d == h(c) && e == h(d) && f == h(e) && g == h(f) && i == h(g)
    ensures Emitted(out, h, 8, a) == [out(a), out(b), out(c), out(d), out(e), out(f), out(g), out(i)]
  {
    assert Emitted(out, h, 2, g) == [out(g), out(i)];
    assert Emitted(out, h, 4, e) == [out(e), out(f)] + Emitted(out, h, 2, g);
    assert Emitted(out, h, 6, c) == [out(c), out(d)] + Emitted(out, h, 4, e);
    assert Emitted(out, h, 8, a) == [out(a), out(b)] + Emitted(out, h, 6, c);
  }

  /** If a step of z lets the next symbol of a waiting summand into the register and moves the rest of it up, then a run
      of z lets in all the symbols that the summand shows one after the other. */
  lemma {:induction false} IterateAbsorbs<S(!new), B>(
      z: S -> S, add: (S, S) -> S, f: (S, B) -> S, out: S -> B, left: S -> S, n: nat, s: S, r: S)
    requires forall s, r :: z(add(s, r)) == add(f(s, out(r)), left(r))
    ensures Iterate(z, n, add(s, r)) == add(Fold(f, s, Emitted(out, left, n, r)), Iterate(left, n, r))
    decreases n
  {
    if n == 0 {
    } else {
      var bits := Emitted(out, left, n, r);
      assert bits[0] == out(r) && bits[1..] == Emitted(out, left, n - 1, left(r));
      IterateAbsorbs(z, add, f, out, left, n - 1, f(s, out(r)), left(r));
    }
  }

  function Zip<B>(add: (B, B) -> B, x: seq<B>, y: seq<B>): (r: seq<B>)
    requires |x| == |y|
    ensures |r| == |x|
  {
    seq(|x|, i requires 0 <= i < |x| => add(x[i], y[i]))
  }

  /** A register whose step is linear is linear over whole strings. */
  lemma {:induction false} FoldLinear<S(!new), B(!new)>(
      f: (S, B) -> S, addS: (S, S) -> S, addB: (B, B) -> B, s: S, t: S, x: seq<B>, y: seq<B>)
    requires |x| == |y|
    requires forall s, t, p, q :: f(addS(s, t), addB(p, q)) == addS(f(s, p), f(t, q))
    ensures Fold(f, addS(s, t), Zip(addB, x, y)) == addS(Fold(f, s, x), Fold(f, t, y))
    decreases x
  {
    if x == [] {
    } else {
      assert Zip(addB, x, y)[1..] == Zip(addB, x[1..], y[1..]);
      FoldLinear(f, addS, addB, f(s, x[0]), f(t, y[0]), x[1..], y[1..]);
    }
  }

  /** Zeros neither make a zero register nonzero nor a nonzero one zero. */
  lemma {:induction false} FoldZeros<S(!new), B>(f: (S, B) -> S, zero: S, none: B, s: S, bits: seq<B>)
    requires forall s :: f(s, none) == zero <==> s == zero
    requires forall i :: 0 <= i < |bits| ==> bits[i] == none
    ensures Fold(f, s, bits) == zero <==> s == zero
    decreases bits
  {
    if bits == [] {
    } else {
      assert bits[0] == none;
      FoldZeros(f, zero, none, f(s, bits[0]), bits[1..]);
    }
  }

  lemma ZerosAround<S(!new), B>(f: (S, B) -> S, zero: S, none: B, before: seq<B>, window: seq<B>, after: seq<B>)
    requires forall s :: f(s, none) == zero <==> s == zero
    requires forall i :: 0 <= i < |before| ==> before[i] == none
    requires forall i :: 0 <= i < |after| ==> after[i] == none
    ensures Fold(f, zero, before + (window + after)) == zero <==> Fold(f, zero, window) == zero
  {
    FoldConcat(f, zero, before, window + after);
    FoldZeros(f, zero, none, zero, before);
    FoldConcat(f, zero, window, after);
    FoldZeros(f, zero, none, Fold(f, zero, window), after);
  }

  /** Zeros before and after a window leave it to the window whether a run from zero ends in zero. */
  lemma FoldWindow<S(!new), B>(f: (S, B) -> S, zero: S, none: B, bits: seq<B>, k: nat, n: nat)
    requires k <= n <= |bits|
    requires forall s :: f(s, none) == zero <==> s == zero
    requires forall i :: 0 <= i < |bits| && !(k <= i < n) ==> bits[i] == none
    ensures Fold(f, zero, bits) == zero <==> Fold(f, zero, bits[k..n]) == zero
  {
    assert bits == bits[..k] + (bits[k..n] + bits[n..]);
    ZerosAround(f, zero, none, bits[..k], bits[k..n], bits[n..]);
  }

  /** Reading a run backwards: if every step shows its symbol in the register before it, as long as the register after
      it is clear enough, then a clear end shows the first symbol in the start. */
  lemma {:induction false} FoldBackwards<S(!new), B(!new)>(
      f: (S, B) -> S, clear: (int, S) -> bool, top: S -> B, width: nat, s: S, bits: seq<B>)
    requires |bits| <= width
    requires forall n, s, b :: 0 <= n < width && clear(n, f(s, b)) ==> clear(n + 1, s) && top(s) == b
    requires clear(0, Fold(f, s, bits))
    ensures clear(|bits|, s) && (bits != [] ==> top(s) == bits[0])
    decreases bits
  {
    if bits == [] {
    } else {
      FoldBackwards(f, clear, top, width, f(s, bits[0]), bits[1..]);
    }
  }

  /** Hence a run of at most that many symbols from zero to a clear end reads nothing but zeros. */
  lemma {:induction false} ZeroWindow<S(!new), B(!new)>(
      f: (S, B) -> S, clear: (int, S) -> bool, top: S -> B, width: nat, zero: S, bits: seq<B>)
    requires |bits| <= width
    requires forall n, s, b :: 0 <= n < width && clear(n, f(s, b)) ==> clear(n + 1, s) && top(s) == b
    requires f(zero, top(zero)) == zero && clear(0, Fold(f, zero, bits))
    ensures forall i :: 0 <= i < |bits| ==> bits[i] == top(zero)
    decreases bits
  {
    if bits == [] {
    } else {
      FoldBackwards(f, clear, top, width, zero, bits);
      ZeroWindow(f, clear, top, width, zero, bits[1..]);
      assert forall i :: 1 <= i < |bits| ==> bits[i] == bits[1..][i - 1];
    }
  }
}
