/** Long division of polynomials over GF(2) by a monic polynomial, the algebra behind a cyclic redundancy check. */
module Gf2Division {
  // A polynomial is the sequence of its coefficients, highest power first. The divisor x^k + low is given by
  // the k coefficients of low.


  type Poly = seq<bool>

  function Zeros(n: nat): (r: Poly)
    ensures |r| == n && forall i :: 0 <= i < n ==> !r[i]
  {
    seq(n, _ => false)
  }

  function Complement(p: Poly): (r: Poly)
    ensures |r| == |p| && forall i {:trigger r[i]} :: 0 <= i < |r| ==> r[i] == !p[i]
  {
    seq(|p|, i requires 0 <= i < |p| => !p[i])
  }

  function Xor(p: Poly, q: Poly): (r: Poly)
    requires |p| == |q|
    ensures |r| == |p| && forall i {:trigger r[i]} :: 0 <= i < |r| ==> r[i] == (p[i] != q[i])
  {
    seq(|p|, i requires 0 <= i < |p| => p[i] != q[i])
  }

  /** A multiple of the divisor: x^n (x^k + low) if chosen, else zero. */
  function Multiple(chosen: bool, low: Poly, n: nat): (r: Poly)
    ensures |r| == n + 1 + |low|
  {
    if chosen then [true] + low + Zeros(n) else Zeros(n + 1 + |low|)
  }

  /** The product of q and the divisor, by shifted addition. */
  function Times(q: Poly, low: Poly): (r: Poly)
    ensures |r| == |q| + |low|
  {
    if q == [] then Zeros(|low|)
    else Xor(Multiple(q[0], low, |q| - 1), [false] + Times(q[1..], low))
  }

  /** The remainder: what is left of the dividend after subtracting some multiple of the divisor. */
  ghost predicate IsRemainder(dividend: Poly, low: Poly, remainder: Poly) {
    && |remainder| == |low| <= |dividend|
    && exists q: Poly :: |q| == |dividend| - |low| && dividend == Xor(Times(q, low), Zeros(|q|) + remainder)
  }

  /** What is still to be divided: the register on top of the rest of the message times x^k. */
  function Sum(state: Poly, message: Poly): (r: Poly)
    ensures |r| == |state| + |message|
  {
    Xor(state + Zeros(|message|), message + Zeros(|state|))
  }

  /** One step of long division: the leading coefficient selects the divisor. */
  function Step(low: Poly, state: Poly, bit: bool): (r: Poly)
    requires 0 < |low| == |state|
    ensures |r| == |low|
  {
    var shifted := state[1..] + [false];
    if state[0] != bit then Xor(shifted, low) else shifted
  }

  function Divide(low: Poly, state: Poly, message: Poly): (r: Poly)
    requires 0 < |low| == |state|
    ensures |r| == |low|
    decreases |message|
  {
    if message == [] then state else Divide(low, Step(low, state, message[0]), message[1..])
  }

  // ----- Long division computes the remainder, which is unique

  lemma SumStep(low: Poly, state: Poly, message: Poly)
    requires 0 < |low| == |state| && message != []
    ensures Sum(state, message) ==
      Xor(Multiple(state[0] != message[0], low, |message| - 1),
          [false] + Sum(Step(low, state, message[0]), message[1..]))
  {
    var k, n := |low|, |message| - 1;
    var d, d' := Sum(state, message), Sum(Step(low, state, message[0]), message[1..]);
    var top := Multiple(state[0] != message[0], low, n);
    forall i | 0 <= i <= n + k
      ensures d[i] == (top[i] != ([false] + d')[i])
    {
      if 0 < i < k && i <= n {
        assert (state + Zeros(n + 1))[i] == state[i] && (message + Zeros(k))[i] == message[i];
      }
    }
  }

  lemma TimesCons(lead: bool, rest: Poly, low: Poly)
    ensures Times([lead] + rest, low) == Xor(Multiple(lead, low, |rest|), [false] + Times(rest, low))
  {
    assert ([lead] + rest)[1..] == rest;
  }

  /** Adding r below a product: the leading coefficient of the product is dealt with first. */
  lemma RemainderCons(top: Poly, t: Poly, n: nat, r: Poly)
    requires |top| == |t| + 1 == n + |r| + 1
    ensures Xor(Xor(top, [false] + t), Zeros(n + 1) + r) == Xor(top, [false] + Xor(t, Zeros(n) + r))
  {
    Reassociate(top, t, Zeros(n) + r);
    assert [false] + (Zeros(n) + r) == Zeros(n + 1) + r;
  }

  lemma {:induction false} LongDivision(low: Poly, state: Poly, message: Poly) returns (q: Poly)
    requires 0 < |low| == |state|
    ensures |q| == |message|
    ensures Sum(state, message) == Xor(Times(q, low), Zeros(|q|) + Divide(low, state, message))
    decreases |message|
  {
    if message == [] {
      q := [];
      assert Sum(state, []) == Xor(Zeros(|low|), Zeros(0) + state);
    } else {
      var lead := state[0] != message[0];
      var rest := LongDivision(low, Step(low, state, message[0]), message[1..]);
      q := [lead] + rest;
      SumStep(low, state, message);
      TimesCons(lead, rest, low);
      RemainderCons(Multiple(lead, low, |rest|), Times(rest, low), |rest|, Divide(low, state, message));
    }
  }

  lemma Reassociate(top: Poly, p: Poly, q: Poly)
    requires |top| == |p| + 1 == |q| + 1
    ensures Xor(top, [false] + Xor(p, q)) == Xor(Xor(top, [false] + p), [false] + q)
  {
  }

  lemma XorCancel(top: Poly, p: Poly, q: Poly)
    requires |top| == |p| == |q| && Xor(top, p) == Xor(top, q)
    ensures p == q
  {
    assert forall i :: 0 <= i < |p| ==> p[i] == (Xor(top, p)[i] != top[i]) && q[i] == (Xor(top, q)[i] != top[i]);
  }

  /** Quotient and remainder are determined by the dividend. */
  lemma {:induction false} DivisionUnique(low: Poly, q: Poly, r: Poly, q': Poly, r': Poly)
    requires |q| == |q'| && |r| == |r'| == |low|
    requires Xor(Times(q, low), Zeros(|q|) + r) == Xor(Times(q', low), Zeros(|q|) + r')
    ensures q == q' && r == r'
    decreases |q|
  {
    var n := |q| - 1;
    if q == [] {
      assert Zeros(0) + r == r && Zeros(0) + r' == r';
      XorCancel(Zeros(|low|), r, r');
    } else {
      var e, e' := Xor(Times(q[1..], low), Zeros(n) + r), Xor(Times(q'[1..], low), Zeros(n) + r');
      RemainderCons(Multiple(q[0], low, n), Times(q[1..], low), n, r);
      RemainderCons(Multiple(q'[0], low, n), Times(q'[1..], low), n, r');
      ConsUnique(q[0], e, q'[0], e', low, n);
      DivisionUnique(low, q[1..], r, q'[1..], r');
    }
  }

  lemma ConsUnique(lead: bool, e: Poly, lead': bool, e': Poly, low: Poly, n: nat)
    requires |e| == |e'| == n + |low|
    requires Xor(Multiple(lead, low, n), [false] + e) == Xor(Multiple(lead', low, n), [false] + e')
    ensures lead == lead' && e == e'
  {
    assert lead == Xor(Multiple(lead, low, n), [false] + e)[0] == lead';
    XorCancel(Multiple(lead, low, n), [false] + e, [false] + e');
    assert e == ([false] + e)[1..] == ([false] + e')[1..] == e';
  }

  /** Dividing a message leaves exactly one remainder, the final register. */
  lemma DivideIsRemainder(low: Poly, state: Poly, message: Poly, r: Poly)
    requires 0 < |low| == |state|
    ensures IsRemainder(Sum(state, message), low, r) <==> r == Divide(low, state, message)
  {
    var q := LongDivision(low, state, message);
    if IsRemainder(Sum(state, message), low, r) {
      var q': Poly :| |q'| == |message| && Sum(state, message) == Xor(Times(q', low), Zeros(|q'|) + r);
      DivisionUnique(low, q, Divide(low, state, message), q', r);
    }
  }

  // ----- Division is linear, reversible, and injective on k message bits

  lemma StepLinear(low: Poly, s: Poly, b: bool, t: Poly, c: bool)
    requires 0 < |low| == |s| == |t|
    ensures Step(low, Xor(s, t), b != c) == Xor(Step(low, s, b), Step(low, t, c))
  {
  }

  lemma {:induction false} DivideLinear(low: Poly, s: Poly, m: Poly, t: Poly, n: Poly)
    requires 0 < |low| == |s| == |t| && |m| == |n|
    ensures Divide(low, Xor(s, t), Xor(m, n)) == Xor(Divide(low, s, m), Divide(low, t, n))
    decreases |m|
  {
    if m != [] {
      StepLinear(low, s, m[0], t, n[0]);
      DivideLinear(low, Step(low, s, m[0]), m[1..], Step(low, t, n[0]), n[1..]);
      assert Xor(m, n)[1..] == Xor(m[1..], n[1..]);
    }
  }

  /** The inverse step: the divisor's constant term reveals which branch was taken. */
  function Unstep(low: Poly, state: Poly, bit: bool): (r: Poly)
    requires 0 < |low| == |state|
    ensures |r| == |low|
  {
    var last := |low| - 1;
    var shifted := if state[last] then Xor(state, low) else state;
    [state[last] != bit] + shifted[..last]
  }

  lemma StepBijective(low: Poly, state: Poly, bit: bool)
    requires 0 < |low| == |state| && low[|low| - 1]
    ensures Unstep(low, Step(low, state, bit), bit) == state
    ensures Step(low, Unstep(low, state, bit), bit) == state
  {
    var last := |low| - 1;
    var next := Step(low, state, bit);
    assert next[last] == (state[0] != bit);
    var shifted := if next[last] then Xor(next, low) else next;
    assert shifted == state[1..] + [false];
    var back := Unstep(low, state, bit);
    assert back[1..] + [false] == if state[last] then Xor(state, low) else state;
    if state[last] {
      assert Xor(Xor(state, low), low) == state;
    }
  }

  lemma {:induction false} DivideInjective(low: Poly, s: Poly, t: Poly, m: Poly)
    requires 0 < |low| == |s| == |t| && low[|low| - 1]
    requires Divide(low, s, m) == Divide(low, t, m)
    ensures s == t
    decreases |m|
  {
    if m != [] {
      DivideInjective(low, Step(low, s, m[0]), Step(low, t, m[0]), m[1..]);
      StepBijective(low, s, m[0]);
      StepBijective(low, t, m[0]);
    }
  }

  lemma {:induction false} DivideConcat(low: Poly, state: Poly, m: Poly, n: Poly)
    requires 0 < |low| == |state|
    ensures Divide(low, state, m + n) == Divide(low, Divide(low, state, m), n)
    decreases |m|
  {
    if m == [] {
      assert m + n == n;
    } else {
      assert (m + n)[1..] == m[1..] + n;
      DivideConcat(low, Step(low, state, m[0]), m[1..], n);
    }
  }

  /** Up to k message bits may be added to the register at once and shifted through afterwards. */
  lemma {:induction false} AbsorbFirst(low: Poly, state: Poly, m: Poly)
    requires 0 < |low| == |state| && |m| <= |low|
    ensures Divide(low, state, m) == Divide(low, Xor(state, m + Zeros(|low| - |m|)), Zeros(|m|))
    decreases |m|
  {
    var sum := Xor(state, m + Zeros(|low| - |m|));
    if m == [] {
      assert sum == state;
    } else {
      var rest := m[1..] + Zeros(|low| + 1 - |m|);
      assert Step(low, sum, false) == Xor(Step(low, state, m[0]), rest);
      AbsorbFirst(low, Step(low, state, m[0]), m[1..]);
      assert Zeros(|m|)[1..] == Zeros(|m| - 1);
    }
  }

  lemma WindowInjective(low: Poly, state: Poly, m: Poly, n: Poly)
    requires 0 < |low| == |state| && low[|low| - 1] && |m| == |n| <= |low|
    requires Divide(low, state, m) == Divide(low, state, n)
    ensures m == n
  {
    var pad := Zeros(|low| - |m|);
    AbsorbFirst(low, state, m);
    AbsorbFirst(low, state, n);
    DivideInjective(low, Xor(state, m + pad), Xor(state, n + pad), Zeros(|m|));
    XorCancel(state, m + pad, n + pad);
    assert m == (m + pad)[..|m|] == (n + pad)[..|m|] == n;
  }

  /** Two messages that differ only inside k consecutive bits leave different remainders, whatever their length. */
  lemma BurstDetected(low: Poly, state: Poly, m: Poly, n: Poly, start: nat)
    requires 0 < |low| == |state| && low[|low| - 1] && |m| == |n| && m != n
    requires forall i :: 0 <= i < |m| && !(start <= i < start + |low|) ==> m[i] == n[i]
    ensures Divide(low, state, m) != Divide(low, state, n)
  {
    if Divide(low, state, m) == Divide(low, state, n) {
      var a := if start <= |m| then start else |m|;
      var b := if start + |low| <= |m| then start + |low| else |m|;
      assert m[..a] == n[..a];
      assert m[b..] == n[b..];
      Split(m, a, b);
      Split(n, a, b);
      BurstIsolated(low, state, m[..a], m[a..b], n[a..b], m[b..]);
    }
  }

  lemma Split(m: Poly, a: nat, b: nat)
    requires a <= b <= |m|
    ensures m == m[..a] + m[a..b] + m[b..]
  {
  }

  lemma BurstIsolated(low: Poly, state: Poly, before: Poly, m: Poly, n: Poly, after: Poly)
    requires 0 < |low| == |state| && low[|low| - 1] && |m| == |n| <= |low|
    requires Divide(low, state, before + m + after) == Divide(low, state, before + n + after)
    ensures m == n
  {
    var s := Divide(low, state, before);
    DivideConcat(low, state, before + m, after);
    DivideConcat(low, state, before + n, after);
    DivideConcat(low, state, before, m);
    DivideConcat(low, state, before, n);
    DivideInjective(low, Divide(low, s, m), Divide(low, s, n), after);
    WindowInjective(low, s, m, n);
  }
}
