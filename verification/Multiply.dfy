/** Double-word products and shifts by single words (multi3.c, muldi3.S, ashldi3.c), for any word width w. */
module Multiply {
  import opened Bits

  /** muldi3.S:36-48: the low word of x0 * y0, by shift and add. */
  method MulWord(x0: nat, y0: nat, w: nat) returns (acc: nat)
    requires w >= 1 && x0 < Pow2(w) && y0 < Pow2(w)
    ensures acc == (x0 * y0) % Pow2(w)
  {
    hide Pow2, And;
    var M := Pow2(w);
    var x, y := x0, y0;
    acc := 0;
    ghost var k: nat := 0;
    while true
      invariant acc < M && x < M && 0 <= x && 0 <= y
      invariant x0 * y0 == acc + x * y + k * M
      decreases y
    {
      AndBit(y);
      ghost var acc1 := if y % 2 == 1 then acc + x else acc;
      ProductStep(acc, x, y, k, M);
      k := k + acc1 / M + ((2 * x) / M) * (y / 2);
      if And(y, 1) != 0 {
        acc := (acc + x) % M;
      }
      y := y / 2;
      x := (x * 2) % M;
      if y == 0 {
        break;
      }
    }
    MulDivMod(x0 * y0, M, k, acc);
  }

  lemma AndBit(y: nat)
    ensures And(y, 1) == y % 2
  {
    assert Pow2(1) == 2;
    AndLowMask(y, 1, 2);
  }

  lemma ProductStep(acc: nat, x: nat, y: nat, k: nat, M: nat)
    requires M > 0 && acc < M && x < M
    ensures var acc1 := if y % 2 == 1 then acc + x else acc;
            && acc1 / M >= 0 && (2 * x) / M >= 0 && ((2 * x) / M) * (y / 2) >= 0
            && acc + x * y + k * M
            == acc1 % M + ((2 * x) % M) * (y / 2) + (k + acc1 / M + ((2 * x) / M) * (y / 2)) * M
            && acc1 % M < M
            && (y % 2 == 0 ==> acc1 % M == acc)
  {
    var acc1 := if y % 2 == 1 then acc + x else acc;
    var h, c, e := y / 2, (2 * x) / M, acc1 / M;
    DivModBound(acc1, M);
    DivModBound(2 * x, M);
    if y % 2 == 0 {
      MulDivMod(acc1, M, 0, acc1);
    }
    MulMono(0, c, h);
    HalfProduct(x, y);
    ProductSum(e, acc1 % M, c, (2 * x) % M, h, k, M);
  }

  lemma ProductSum(e: nat, a: nat, c: nat, b: nat, h: nat, k: nat, M: nat)
    ensures (e * M + a) + (c * M + b) * h + k * M == a + b * h + (k + e + c * h) * M
  {
    Three(k, e, c * h, M);
    assert (c * M + b) * h == (c * M) * h + b * h;
    assert (c * M) * h == (c * h) * M;
  }

  lemma HalfProduct(x: nat, y: nat)
    ensures x * y == (2 * x) * (y / 2) + if y % 2 == 1 then x else 0
  {
    var h := y / 2;
    if y % 2 == 1 {
      assert y == 2 * h + 1;
      assert x * (2 * h + 1) == x * (2 * h) + x;
    } else {
      assert y == 2 * h;
    }
    assert x * (2 * h) == (2 * x) * h;
  }

  lemma Three(a: nat, b: nat, c: nat, M: nat)
    ensures (a + b + c) * M == a * M + b * M + c * M
  {
    Distribute(1, a + b, c, M);
    Distribute(1, a, b, M);
  }

  /** One double-word addition with the carry recovered by comparison, multi3.c:60-68. */
  lemma AddPair(wh: nat, wl: nat, th: nat, ul: nat, M: nat)
    requires M > 0 && wl < M && ul < M && wh < M && th < M
    requires (wh * M + wl) + (th * M + ul) < M * M
    ensures var low := (wl + ul) % M;
            var high := ((if low < wl then 1 else 0) + (th + wh) % M) % M;
            high * M + low == (wh * M + wl) + (th * M + ul)
  {
    var c := if wl + ul >= M then 1 else 0;
    LowSum(wl, ul, M, c);
    HighSum(wh, wl, th, ul, M, c);
  }

  lemma LowSum(wl: nat, ul: nat, M: nat, c: nat)
    requires wl < M && ul < M && c == if wl + ul >= M then 1 else 0
    ensures wl + ul - c * M >= 0 && (wl + ul) % M == wl + ul - c * M && (wl + ul - c * M < wl <==> c == 1)
  {
    MulDivMod(wl + ul, M, c, wl + ul - c * M);
  }

  lemma HighSum(wh: nat, wl: nat, th: nat, ul: nat, M: nat, c: nat)
    requires M > 0 && wl < M && ul < M && c <= 1 && wl + ul - c * M >= 0
    requires (wh * M + wl) + (th * M + ul) < M * M
    ensures (c + (th + wh) % M) % M == wh + th + c
    ensures (wh + th + c) * M + (wl + ul - c * M) == (wh * M + wl) + (th * M + ul)
  {
    Three(wh, th, c, M);
    if wh + th + c >= M {
      MulMono(M, wh + th + c, M);
      assert false;
    }
    MulDivMod(th + wh, M, 0, th + wh);
    MulDivMod(c + th + wh, M, 0, c + th + wh);
  }

  /** One double-word shift, multi3.c:69-72. */
  lemma ShiftPair(th: nat, ul: nat, M: nat, w: nat)
    requires w >= 1 && M == Pow2(w) && th < M && ul < M
    ensures var msb := ul / Pow2(w - 1);
            && 0 <= msb <= 1 && Or(msb, (2 * th) % M) == (2 * th) % M + msb < M
            && ((2 * (th * M + ul)) < M * M ==>
                  ((2 * th) % M + msb) * M + (2 * ul) % M == 2 * (th * M + ul))
  {
    hide Or;
    var h := Pow2(w - 1);
    assert M == 2 * h;
    TopBitOf(ul, h);
    EvenRemainder(th, h);
    OrBit((2 * th) % M, ul / h);
    if 2 * (th * M + ul) < M * M {
      DoublePair(th, ul, ul / h, M);
    }
  }

  lemma TopBitOf(ul: nat, h: nat)
    requires h > 0 && ul < 2 * h
    ensures 0 <= ul / h <= 1 && (2 * ul) % (2 * h) == 2 * ul - (ul / h) * (2 * h)
  {
    var msb := if ul >= h then 1 else 0;
    MulDivMod(ul, h, msb, ul - msb * h);
    MulDivMod(2 * ul, 2 * h, msb, 2 * (ul - msb * h));
  }

  lemma DoublePair(th: nat, ul: nat, msb: nat, M: nat)
    requires 0 < M && (2 * (th * M + ul)) < M * M && (2 * ul) % M == 2 * ul - msb * M
    ensures ((2 * th) % M + msb) * M + (2 * ul) % M == 2 * (th * M + ul)
  {
    HighFits(th, ul, M);
    MulDivMod(2 * th, M, 0, 2 * th);
    Twice(th, msb, M);
  }

  lemma Twice(th: nat, msb: nat, M: nat)
    ensures (2 * th + msb) * M == 2 * (th * M) + msb * M
  {
  }

  lemma HighFits(th: nat, ul: nat, M: nat)
    requires 2 * (th * M + ul) < M * M
    ensures 2 * th < M
  {
    Twice(th, 0, M);
    if 2 * th >= M {
      MulMono(M, 2 * th, M);
      assert false;
    }
  }

  lemma EvenRemainder(t: nat, h: nat)
    requires h > 0 && t < 2 * h
    ensures ((2 * t) % (2 * h)) % 2 == 0 && (2 * t) % (2 * h) + 1 < 2 * h
  {
    MulDivMod(2 * t, 2 * h, if t >= h then 1 else 0, 2 * (if t >= h then t - h else t));
  }

  lemma OrBit(x: nat, b: nat)
    requires x % 2 == 0 && b <= 1
    ensures Or(b, x) == x + b
  {
    assert Pow2(1) == 2;
    OrDisjoint(x, b, 1, 2);
    OrCommutes(b, x);
  }

  /** multi3.c:56-77: the double-word product of two words. */
  method LowProduct(u: nat, v: nat, w: nat) returns (w_low: nat, w_high: nat)
    requires w >= 1 && u < Pow2(w) && v < Pow2(w)
    ensures w_low < Pow2(w) && w_high < Pow2(w) && w_high * Pow2(w) + w_low == u * v
  {
    hide Pow2, And, Or;
    var M := Pow2(w);
    var u_low, v_low := u, v;
    var w_high_tmp: nat := 0;
    w_low, w_high := 0, 0;
    ProductFits(u, v, M);
    while true
      invariant u_low < M && w_low < M && w_high < M && w_high_tmp < M && 0 <= u_low && 0 <= v_low
      invariant (w_high * M + w_low) + (w_high_tmp * M + u_low) * v_low == u * v < M * M
      decreases v_low
    {
      AndBit(v_low);
      ProductRound(w_high, w_low, w_high_tmp, u_low, v_low, u * v, M, w);
      var new_w_low := (w_low + u_low) % M;
      var w_high_tmp2x := (2 * w_high_tmp) % M;
      w_high_tmp := (w_high_tmp + w_high) % M;
      if And(v_low, 1) != 0 {
        var carry := if new_w_low < w_low then 1 else 0;
        w_low := new_w_low;
        w_high := (carry + w_high_tmp) % M;
      }
      var u_low_msb := u_low / Pow2(w - 1);
      v_low := v_low / 2;
      u_low := (2 * u_low) % M;
      w_high_tmp := Or(u_low_msb, w_high_tmp2x);
      if v_low == 0 {
        break;
      }
    }
  }

  lemma ProductFits(u: nat, v: nat, M: nat)
    requires u < M && v < M
    ensures 0 <= u * v < M * M
  {
    MulMono(u + 1, M, v);
    MulMono(v + 1, M, M);
    assert M * v == v * M && (u + 1) * v == u * v + v && (v + 1) * M == v * M + M;
  }

  function Pair(high: nat, low: nat, M: nat): nat {
    Nonneg(high, M);
    high * M + low
  }

  function Times(x: nat, v: nat): nat {
    Nonneg(x, v);
    x * v
  }

  /** The invariant of the shift-and-add loop survives one round; the addend stays exact while it is still needed. */
  lemma ProductRound(wh: nat, wl: nat, th: nat, ul: nat, v: nat, P: nat, M: nat, w: nat)
    requires w >= 1 && M == Pow2(w) && wh < M && wl < M && th < M && ul < M
    requires (wh * M + wl) + (th * M + ul) * v == P < M * M
    ensures var low := (wl + ul) % M;
            var high := ((if low < wl then 1 else 0) + (th + wh) % M) % M;
            var wh', wl' := if v % 2 == 1 then high else wh, if v % 2 == 1 then low else wl;
            var msb, ul' := ul / Pow2(w - 1), (2 * ul) % M;
            && 0 <= msb && 0 <= ul' && low >= 0 && Or(msb, (2 * th) % M) < M
            && (wh' * M + wl') + (Or(msb, (2 * th) % M) * M + ul') * (v / 2) == P
  {
    hide Or, Pow2;
    RoundPairs(wh, wl, th, ul, v, P, M, w);
  }

  lemma RoundPairs(wh: nat, wl: nat, th: nat, ul: nat, v: nat, P: nat, M: nat, w: nat)
    requires w >= 1 && M == Pow2(w) && wh < M && wl < M && th < M && ul < M
    requires Pair(wh, wl, M) + Times(Pair(th, ul, M), v) == P < M * M
    ensures var low := (wl + ul) % M;
            var high := ((if low < wl then 1 else 0) + (th + wh) % M) % M;
            var msb, ul' := ul / Pow2(w - 1), (2 * ul) % M;
            && 0 <= msb && 0 <= ul' && low >= 0 && Or(msb, (2 * th) % M) < M
            && Pair(if v % 2 == 1 then high else wh, if v % 2 == 1 then low else wl, M)
               + Times(Pair(Or(msb, (2 * th) % M), ul', M), v / 2) == P
  {
    hide Or, Pow2, Pair, Times;
    AddendPair(th, ul, v, M, w, P);
    if v % 2 == 1 {
      AddedPair(wh, wl, th, ul, v, P, M);
    }
  }

  lemma AddedPair(wh: nat, wl: nat, th: nat, ul: nat, v: nat, P: nat, M: nat)
    requires M > 0 && wh < M && wl < M && th < M && ul < M && v % 2 == 1
    requires Pair(wh, wl, M) + Times(Pair(th, ul, M), v) == P < M * M
    ensures (wl + ul) % M >= 0
    ensures var low := (wl + ul) % M;
            var high := ((if low < wl then 1 else 0) + (th + wh) % M) % M;
            Pair(high, low, M) + Times(2 * Pair(th, ul, M), v / 2) == P
  {
    Halved(Pair(th, ul, M), v);
    AddPair(wh, wl, th, ul, M);
  }

  lemma Halved(x: nat, v: nat)
    ensures Times(x, v) == Times(2 * x, v / 2) + if v % 2 == 1 then x else 0
  {
    HalfProduct(x, v);
  }

  lemma AddendPair(th: nat, ul: nat, v: nat, M: nat, w: nat, P: nat)
    requires w >= 1 && M == Pow2(w) && th < M && ul < M && Times(Pair(th, ul, M), v) <= P < M * M
    ensures var msb, ul' := ul / Pow2(w - 1), (2 * ul) % M;
            && 0 <= msb && 0 <= ul' && Or(msb, (2 * th) % M) < M
            && Times(Pair(Or(msb, (2 * th) % M), ul', M), v / 2) == Times(2 * Pair(th, ul, M), v / 2)
    ensures Times(Pair(th, ul, M), v) == Times(2 * Pair(th, ul, M), v / 2) + if v % 2 == 1 then Pair(th, ul, M) else 0
  {
    hide Or, Pow2;
    Halved(Pair(th, ul, M), v);
    Addend(th, ul, v, M, w);
  }

  lemma Addend(th: nat, ul: nat, v: nat, M: nat, w: nat)
    requires w >= 1 && M == Pow2(w) && th < M && ul < M && (2 * (th * M + ul)) * (v / 2) < M * M
    ensures (var msb, ul' := ul / Pow2(w - 1), (2 * ul) % M;
             && 0 <= msb && 0 <= ul' && Or(msb, (2 * th) % M) < M
             && (Or(msb, (2 * th) % M) * M + ul') * (v / 2) == (2 * (th * M + ul)) * (v / 2))
  {
    hide Or, Pow2;
    var X := th * M + ul;
    ShiftPair(th, ul, M, w);
    Nonneg(2 * X, v / 2);
    StillNeeded(X, v, (2 * X) * (v / 2), M);
  }

  /** While bits of v remain, doubling the addend loses nothing. */
  lemma StillNeeded(X: nat, v: nat, P: nat, M: nat)
    requires (2 * X) * (v / 2) <= P < M * M
    ensures v / 2 > 0 ==> 2 * X < M * M
    ensures v / 2 == 0 ==> forall y :: y * (v / 2) == 0
  {
    if v / 2 > 0 {
      MulMono(1, v / 2, 2 * X);
      assert (v / 2) * (2 * X) == (2 * X) * (v / 2);
    }
  }

  lemma Nonneg(x: nat, y: nat)
    ensures x * y >= 0
  {
  }

  /** multi3.c:79-83: a cross product is added to the high word, unless its high factor is zero. */
  method AddCross(high: nat, x: nat, y: nat, w: nat) returns (sum: nat)
    requires w >= 1 && high < Pow2(w) && x < Pow2(w) && y < Pow2(w)
    ensures x * y >= 0 && sum == (high + x * y) % Pow2(w)
  {
    hide Pow2;
    Nonneg(x, y);
    sum := high;
    if y != 0 {
      var p := MulWord(x, y, w);
      SumModulo(high, x * y, Pow2(w));
      sum := (high + p) % Pow2(w);
    } else {
      MulDivMod(high + x * y, Pow2(w), 0, high);
    }
  }

  lemma SumModulo(a: nat, b: nat, M: nat)
    requires M > 0
    ensures (a + b % M) % M == (a + b) % M
  {
    DivModBound(b, M);
    var t := a + b % M;
    DivModBound(t, M);
    Distribute(1, b / M, t / M, M);
    MulDivMod(a + b, M, b / M + t / M, t % M);
  }

  /** multi3.c:40-86: the low double word of u * v. */
  method Multi3(u: nat, v: nat, w: nat) returns (res: nat)
    requires w >= 1 && u < Pow2(2 * w) && v < Pow2(2 * w)
    ensures u * v >= 0 && res == (u * v) % Pow2(2 * w)
  {
    hide Pow2;
    var M := Pow2(w);
    DoubleWidth(u, w, M);
    DoubleWidth(v, w, M);
    var ul, uh, vl, vh := u % M, u / M, v % M, v / M;
    var low, high := LowProduct(ul, vl, w);
    var high1 := AddCross(high, vl, uh, w);
    var high2 := AddCross(high1, ul, vh, w);
    CrossTerms(ul, uh, vl, vh, low, high, high1, high2, M);
    res := high2 * M + low;
  }

  lemma DoubleWidth(u: nat, w: nat, M: nat)
    requires M == Pow2(w) && u < Pow2(2 * w)
    ensures Pow2(2 * w) == M * M && 0 <= u % M < M && 0 <= u / M < M && u == (u / M) * M + u % M
  {
    Pow2Add(w, w);
    DivModBound(u, M);
    if u / M >= M {
      MulMono(M, u / M, M);
      assert false;
    }
  }

  lemma CrossTerms(ul: nat, uh: nat, vl: nat, vh: nat, low: nat, high: nat, h1: nat, h2: nat, M: nat)
    requires M > 0 && low < M && high < M && high * M + low == ul * vl
    requires vl * uh >= 0 && h1 == (high + vl * uh) % M
    requires ul * vh >= 0 && h2 == (h1 + ul * vh) % M
    ensures M * M > 0 && 0 <= (uh * M + ul) * (vh * M + vl)
    ensures h2 * M + low == ((uh * M + ul) * (vh * M + vl)) % (M * M)
  {
    var x, y, z := vl * uh, ul * vh, uh * vh;
    DivModBound(high + x, M);
    DivModBound(h1 + y, M);
    var c := (high + x) / M + (h1 + y) / M;
    Distribute(1, (high + x) / M, (h1 + y) / M, M);
    Nonneg(uh, vh);
    CrossProduct(uh, ul, vh, vl, M);
    CrossSum(high, low, x, y, z, h2, c, M);
    CrossFits(z + c, h2, low, M, (uh * M + ul) * (vh * M + vl));
  }

  lemma CrossFits(q: nat, h: nat, low: nat, M: nat, x: int)
    requires h < M && low < M && x == q * (M * M) + (h * M + low)
    ensures M * M > 0 && 0 <= x && x % (M * M) == h * M + low
  {
    MulMono(h + 1, M, M);
    Distribute(1, h, 1, M);
    Nonneg(q, M * M);
    MulDivMod(x, M * M, q, h * M + low);
  }

  lemma CrossProduct(uh: nat, ul: nat, vh: nat, vl: nat, M: nat)
    ensures (uh * M + ul) * (vh * M + vl) == (uh * vh) * (M * M) + (vl * uh + ul * vh) * M + ul * vl
  {
    var V := vh * M + vl;
    Distribute(uh, M, ul, V);
    RowProduct(M, vh, vl, M);
    RowProduct(ul, vh, vl, M);
    assert uh * (M * V) == (uh * M) * V;
    OuterRow(uh, vh, vl, M);
    Distribute(1, vl * uh, ul * vh, M);
  }

  lemma RowProduct(x: nat, vh: nat, vl: nat, M: nat)
    ensures x * (vh * M + vl) == (x * vh) * M + x * vl
  {
    assert x * (vh * M) == (x * vh) * M;
  }

  lemma OuterRow(uh: nat, vh: nat, vl: nat, M: nat)
    ensures uh * (M * (vh * M + vl)) == (uh * vh) * (M * M) + (vl * uh) * M
  {
    RowProduct(uh, vh, vl, M);
    assert uh * (M * (vh * M + vl)) == (uh * (vh * M + vl)) * M;
    Distribute(uh * vh, M, uh * vl, M);
  }

  lemma CrossSum(high: nat, low: nat, x: nat, y: nat, z: nat, h2: nat, c: nat, M: nat)
    requires high + x + y == h2 + c * M
    ensures z * (M * M) + (x + y) * M + (high * M + low) == (z + c) * (M * M) + (h2 * M + low)
  {
    Three(high, x, y, M);
    Distribute(c, M, h2, M);
    Distribute(1, z, c, M * M);
    Distribute(1, x, y, M);
  }

  // ---------------------------------------------------------------- ashldi3

  function Shl(x: nat, k: nat, M: nat): nat
    requires M > 0
  {
    Nonneg(x, Pow2(k));
    (x * Pow2(k)) % M
  }

  /** ashldi3.c:4-27 */
  function Ashldi3(u: nat, b: nat, w: nat): nat
    requires w >= 1 && u < Pow2(2 * w) && b < 2 * w
  {
    if b == 0 then u
    else
      var M := Pow2(w);
      var bm := w - b;
      DivModBound(u, M);
      var high, low := u / M, u % M;
      if bm <= 0 then
        Shl(low, -bm, M) * M + 0
      else
        var carries := Shr(low, bm);
        Or(Shl(high, b, M), carries) * M + Shl(low, b, M)
  }

  /** Shifting by words is multiplying by the power of two, modulo the double word. */
  lemma Ashldi3Shifts(u: nat, b: nat, w: nat)
    requires w >= 1 && u < Pow2(2 * w) && b < 2 * w
    ensures u * Pow2(b) >= 0 && Ashldi3(u, b, w) == (u * Pow2(b)) % Pow2(2 * w)
  {
    hide Shl, Or;
    var M := Pow2(w);
    DoubleWidth(u, w, M);
    if b == 0 {
      MulDivMod(u * 1, M * M, 0, u);
    } else if b >= w {
      ShiftWide(u / M, u % M, b, w, M, Pow2(b - w));
    } else {
      ShiftNarrow(u / M, u % M, b, w, M, Pow2(b), Pow2(w - b));
    }
  }

  /** By at least a word: only the low word survives, as the high word. */
  lemma ShiftWide(high: nat, low: nat, b: nat, w: nat, M: nat, p: nat)
    requires w <= b < 2 * w && M == Pow2(w) && p == Pow2(b - w) && high < M && low < M
    ensures Shl(low, b - w, M) * M == ((high * M + low) * Pow2(b)) % (M * M)
  {
    hide Pow2;
    Pow2Add(b - w, w);
    Nonneg(low, p);
    DivModBound(low * p, M);
    var s, c := (low * p) % M, (low * p) / M;
    WideProduct(high, low, p, c, s, M);
    Nonneg(high, p);
    CrossFits(high * p + c, s, 0, M, (high * M + low) * (p * M));
  }

  lemma WideProduct(high: nat, low: nat, p: nat, c: nat, s: nat, M: nat)
    requires low * p == c * M + s
    ensures (high * M + low) * (p * M) == (high * p + c) * (M * M) + s * M
  {
    Distribute(high, M, low, p * M);
    assert high * (M * (p * M)) == (high * p) * (M * M);
    assert low * (p * M) == (low * p) * M;
    Distribute(c, M, s, M);
    Distribute(1, high * p, c, M * M);
  }

  /** By less than a word: the low word's top bits move into the high word. */
  lemma ShiftNarrow(high: nat, low: nat, b: nat, w: nat, M: nat, p: nat, m: nat)
    requires 1 <= b < w && M == Pow2(w) && p == Pow2(b) && m == Pow2(w - b) && high < M && low < M
    ensures Or(Shl(high, b, M), Shr(low, w - b)) * M + Shl(low, b, M) == ((high * M + low) * p) % (M * M)
  {
    hide Pow2, Or;
    Pow2Add(w - b, b);
    WordShift(high, p, m, M);
    WordShift(low, p, m, M);
    var c, s := low / m, (low % m) * p;
    MulDivMod((high % m) * p, p, high % m, 0);
    OrDisjoint((high % m) * p, c, b, p);
    var h := (high % m) * p + c;
    NarrowProduct(high, low, p, high / m, (high % m) * p, c, s, M);
    ShiftedWordFits(high % m, c, m, p, M);
    CrossFits(high / m, h, s, M, (high * M + low) * p);
  }

  lemma ShiftedWordFits(x: nat, c: nat, m: nat, p: nat, M: nat)
    requires x < m && c < p && m * p == M
    ensures 0 <= x * p && x * p + c < M
  {
    MulMono(x + 1, m, p);
    Distribute(1, x, 1, p);
    Nonneg(x, p);
  }

  lemma NarrowProduct(high: nat, low: nat, p: nat, q: nat, r: nat, c: nat, s: nat, M: nat)
    requires high * p == q * M + r && low * p == c * M + s
    ensures (high * M + low) * p == q * (M * M) + ((r + c) * M + s)
  {
    Distribute(1, high * M, low, p);
    assert (high * M) * p == (high * p) * M;
    Distribute(q, M, r, M);
    Distribute(1, r, c, M);
  }

  lemma WordShift(x: nat, p: nat, m: nat, M: nat)
    requires p > 0 && m > 0 && m * p == M && x < M
    ensures 0 <= x * p && (x * p) % M == (x % m) * p < M && x * p == (x / m) * M + (x % m) * p && 0 <= x / m < p
  {
    DivModBound(x, m);
    Distribute(x / m, m, x % m, p);
    MulMono(x % m + 1, m, p);
    Distribute(1, x % m, 1, p);
    Nonneg(x, p);
    Nonneg(x % m, p);
    MulDivMod(x * p, M, x / m, (x % m) * p);
    assert p * m == m * p;
    if x / m >= p {
      MulMono(p, x / m, m);
      assert false;
    }
  }
}
