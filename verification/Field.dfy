/** Arithmetic of bytes as the polynomials over {0, 1} modulo t^8 + t^4 + t^3 + t + 1 (section 4 of FIPS 197). */
module Field {
  datatype Element = Element(byte: bv8)

  /** Addition is the exclusive or. */
  function Add(x: Element, y: Element): Element {
    Element(x.byte ^ y.byte)
  }

  function Add4(x: Element, y: Element, z: Element, w: Element): Element {
    Add(Add(x, y), Add(z, w))
  }

  /** Multiplication by t: a shift, reduced when the highest bit falls out. */
  function Xtime(x: Element): Element {
    Element(if x.byte & 0x80 != 0 then (x.byte << 1) ^ 0x1b else x.byte << 1)
  }

  function Half(c: Element): (h: Element)
    ensures h.byte as nat == c.byte as nat / 2
  {
    Element(c.byte >> 1)
  }

  predicate IsOdd(c: Element) {
    c.byte & 1 == 1
  }

  /** The product by a polynomial whose coefficients are bits, from the highest one. */
  function Times(c: Element, x: Element): Element
    decreases c.byte as nat
  {
    if c.byte == 0 then Element(0) else Add(Xtime(Times(Half(c), x)), if IsOdd(c) then x else Element(0))
  }

  function Mul2(x: bv8): bv8 {
    (x << 1) ^ (((x >> 7) & 1) * 0x1b)
  }

  function Mul3(x: bv8): bv8 {
    Mul2(x) ^ x
  }

  function Mul9(x: bv8): bv8 {
    Mul2(Mul2(Mul2(x))) ^ x
  }

  function Mul11(x: bv8): bv8 {
    Mul2(Mul2(Mul2(x)) ^ x) ^ x
  }

  function Mul13(x: bv8): bv8 {
    Mul2(Mul2(Mul2(x) ^ x)) ^ x
  }

  function Mul14(x: bv8): bv8 {
    Mul2(Mul2(Mul2(x) ^ x) ^ x)
  }

  lemma Commute(x: Element, y: Element)
    ensures Add(x, y) == Add(y, x)
  {
  }

  lemma Associate(x: Element, y: Element, z: Element)
    ensures Add(Add(x, y), z) == Add(x, Add(y, z))
  {
  }

  lemma Swap(a: Element, b: Element, c: Element, d: Element)
    ensures Add(Add(a, b), Add(c, d)) == Add(Add(a, c), Add(b, d))
  {
    hide Add;
    Associate(a, b, Add(c, d));
    Associate(b, c, d);
    Commute(b, c);
    Associate(c, b, d);
    Associate(a, c, Add(b, d));
  }

  lemma Mul2Xor(x: bv8, y: bv8)
    ensures Mul2(x ^ y) == Mul2(x) ^ Mul2(y)
  {
  }

  lemma Mul2IsXtime(x: bv8)
    ensures Element(Mul2(x)) == Xtime(Element(x))
  {
  }

  lemma XtimeAdd(x: Element, y: Element)
    ensures Xtime(Add(x, y)) == Add(Xtime(x), Xtime(y))
  {
    hide Xtime, Mul2;
    Mul2Xor(x.byte, y.byte);
    Mul2IsXtime(x.byte);
    Mul2IsXtime(y.byte);
    Mul2IsXtime(Add(x, y).byte);
  }

  lemma Unroll(c: Element, x: Element)
    ensures Times(c, x) == Add(Xtime(Times(Half(c), x)), if IsOdd(c) then x else Element(0))
  {
  }

  lemma HalfAdd(c: Element, d: Element)
    ensures Half(Add(c, d)) == Add(Half(c), Half(d))
    ensures IsOdd(Add(c, d)) <==> IsOdd(c) != IsOdd(d)
  {
  }

  lemma Last(p: bool, q: bool, x: Element)
    ensures Add(if p then x else Element(0), if q then x else Element(0)) == if p != q then x else Element(0)
  {
  }

  /** Multiplication distributes over the addition of bytes. */
  lemma {:induction false} TimesLinear(c: Element, x: Element, y: Element)
    ensures Times(c, Add(x, y)) == Add(Times(c, x), Times(c, y))
    decreases c.byte as nat
  {
    if c.byte != 0 {
      var d, odd := Half(c), IsOdd(c);
      TimesLinear(d, x, y);
      XtimeAdd(Times(d, x), Times(d, y));
      Swap(Xtime(Times(d, x)), Xtime(Times(d, y)), if odd then x else Element(0), if odd then y else Element(0));
      assert Add(Element(0), Element(0)) == Element(0);
      hide Xtime, Add;
    }
  }

  /** Multiplication distributes over the addition of polynomials. */
  lemma {:induction false} TimesSum(c: Element, d: Element, x: Element)
    ensures Times(Add(c, d), x) == Add(Times(c, x), Times(d, x))
    decreases c.byte as nat + d.byte as nat
  {
    if c.byte == 0 && d.byte == 0 {
    } else {
      hide Add, Xtime, Times, Half, IsOdd;
      var c', d' := Half(c), Half(d);
      var p, q := IsOdd(c), IsOdd(d);
      HalfAdd(c, d);
      TimesSum(c', d', x);
      XtimeAdd(Times(c', x), Times(d', x));
      Swap(Xtime(Times(c', x)), Xtime(Times(d', x)), if p then x else Element(0), if q then x else Element(0));
      Last(p, q, x);
      Unroll(c, x);
      Unroll(d, x);
      Unroll(Add(c, d), x);
    }
  }

  lemma {:induction false} TimesXtime(c: Element, x: Element)
    ensures Times(c, Xtime(x)) == Xtime(Times(c, x))
    decreases c.byte as nat
  {
    if c.byte == 0 {
      assert Xtime(Element(0)) == Element(0);
    } else {
      TimesXtime(Half(c), x);
      XtimeAdd(Xtime(Times(Half(c), x)), if IsOdd(c) then x else Element(0));
      assert Xtime(Element(0)) == Element(0);
      hide Add, Xtime;
    }
  }

  lemma Zero(x: Element)
    ensures Times(Element(0), x) == Element(0)
  {
  }

  lemma One(x: Element)
    ensures Times(Element(1), x) == x
  {
    Unroll(Element(1), x);
    Zero(x);
    assert Half(Element(1)) == Element(0);
    assert Xtime(Element(0)) == Element(0);
  }

  lemma Even(c: bv8, h: bv8, x: Element)
    ensures c == h << 1 && h < 128 ==> Times(Element(c), x) == Xtime(Times(Element(h), x))
  {
    Unroll(Element(c), x);
    assert c == h << 1 && h < 128 ==> Half(Element(c)) == Element(h) && !IsOdd(Element(c));
    hide Xtime, Times;
  }

  lemma Odd(c: bv8, h: bv8, x: Element)
    ensures c == (h << 1) | 1 && h < 128 ==> Times(Element(c), x) == Add(Xtime(Times(Element(h), x)), x)
  {
    Unroll(Element(c), x);
    assert c == (h << 1) | 1 && h < 128 ==> Half(Element(c)) == Element(h) && IsOdd(Element(c));
    hide Xtime, Times;
  }

  lemma AddZeros(x: Element)
    ensures Add4(x, Element(0), Element(0), Element(0)) == x
  {
  }

  /** A sum of products of one byte. */
  lemma Gather(a: Element, b: Element, c: Element, d: Element, x: Element)
    ensures Add4(Times(a, x), Times(b, x), Times(c, x), Times(d, x)) == Times(Add4(a, b, c, d), x)
  {
    hide Add, Times;
    TimesSum(a, b, x);
    TimesSum(c, d, x);
    TimesSum(Add(a, b), Add(c, d), x);
  }

  lemma TimesFour(c: Element, x: Element, y: Element, z: Element, w: Element)
    ensures Times(c, Add4(x, y, z, w)) == Add4(Times(c, x), Times(c, y), Times(c, z), Times(c, w))
  {
    hide Add, Times;
    TimesLinear(c, Add(x, y), Add(z, w));
    TimesLinear(c, x, y);
    TimesLinear(c, z, w);
  }

  /** The order of the terms of a sum does not matter. */
  lemma Rotate(x: Element, y: Element, z: Element, w: Element)
    ensures Add4(x, y, z, w) == Add4(w, x, y, z)
    ensures Add4(x, y, z, w) == Add4(z, w, x, y)
    ensures Add4(x, y, z, w) == Add4(y, z, w, x)
  {
    hide Add;
    Commute(Add(x, y), Add(z, w));
    Commute(y, x);
    Commute(z, w);
    Commute(x, w);
    Commute(y, z);
    Commute(Add(y, z), Add(w, x));
    Swap(x, y, w, z);
    Commute(Add(x, w), Add(y, z));
  }

  lemma SwapFour(a0: Element, a1: Element, a2: Element, a3: Element,
                 b0: Element, b1: Element, b2: Element, b3: Element)
    ensures Add(Add4(a0, a1, a2, a3), Add4(b0, b1, b2, b3)) == Add4(Add(a0, b0), Add(a1, b1), Add(a2, b2), Add(a3, b3))
  {
    hide Add;
    Swap(Add(a0, a1), Add(a2, a3), Add(b0, b1), Add(b2, b3));
    Swap(a0, a1, b0, b1);
    Swap(a2, a3, b2, b3);
  }

  /** Summing by rows is summing by columns. */
  lemma Transpose(a0: Element, a1: Element, a2: Element, a3: Element, b0: Element, b1: Element, b2: Element,
                  b3: Element,
                  c0: Element, c1: Element, c2: Element, c3: Element, d0: Element, d1: Element, d2: Element,
                    d3: Element)
    ensures Add4(Add4(a0, a1, a2, a3), Add4(b0, b1, b2, b3), Add4(c0, c1, c2, c3), Add4(d0, d1, d2, d3))
         == Add4(Add4(a0, b0, c0, d0), Add4(a1, b1, c1, d1), Add4(a2, b2, c2, d2), Add4(a3, b3, c3, d3))
  {
    hide Add;
    SwapFour(a0, a1, a2, a3, b0, b1, b2, b3);
    SwapFour(c0, c1, c2, c3, d0, d1, d2, d3);
    SwapFour(Add(a0, b0), Add(a1, b1), Add(a2, b2), Add(a3, b3), Add(c0, d0), Add(c1, d1), Add(c2, d2), Add(c3, d3));
  }

  /** One step of a multiplication as the cipher does it: doubling, or doubling and adding the byte. */
  lemma StepEven(y: bv8, x: bv8, c: bv8, h: bv8)
    requires Element(y) == Times(Element(h), Element(x))
    ensures c == h << 1 && h < 128 ==> Element(Mul2(y)) == Times(Element(c), Element(x))
  {
    Mul2IsXtime(y);
    Even(c, h, Element(x));
    hide Mul2, Xtime, Times;
  }

  lemma StepOdd(y: bv8, x: bv8, c: bv8, h: bv8)
    requires Element(y) == Times(Element(h), Element(x))
    ensures c == (h << 1) | 1 && h < 128 ==> Element(Mul2(y) ^ x) == Times(Element(c), Element(x))
  {
    Mul2IsXtime(y);
    Odd(c, h, Element(x));
    hide Mul2, Xtime, Times;
  }

  lemma Product2(x: bv8)
    ensures Element(Mul2(x)) == Times(Element(2), Element(x))
  {
    hide Mul2, Times;
    One(Element(x));
    StepEven(x, x, 2, 1);
  }

  lemma Product3(x: bv8)
    ensures Element(Mul3(x)) == Times(Element(3), Element(x))
  {
    hide Mul2, Times;
    One(Element(x));
    StepOdd(x, x, 3, 1);
  }

  lemma Product5(x: bv8)
    ensures Element(Mul2(Mul2(x)) ^ x) == Times(Element(5), Element(x))
  {
    hide Mul2, Times;
    Product2(x);
    StepOdd(Mul2(x), x, 5, 2);
  }

  lemma Product9(x: bv8)
    ensures Element(Mul9(x)) == Times(Element(9), Element(x))
  {
    hide Mul2, Times;
    Product2(x);
    StepEven(Mul2(x), x, 4, 2);
    StepOdd(Mul2(Mul2(x)), x, 9, 4);
  }

  lemma Product11(x: bv8)
    ensures Element(Mul11(x)) == Times(Element(11), Element(x))
  {
    hide Mul2, Times;
    Product5(x);
    StepOdd(Mul2(Mul2(x)) ^ x, x, 11, 5);
  }

  lemma Product13(x: bv8)
    ensures Element(Mul13(x)) == Times(Element(13), Element(x))
  {
    hide Mul2, Times;
    Product3(x);
    StepEven(Mul2(x) ^ x, x, 6, 3);
    StepOdd(Mul2(Mul2(x) ^ x), x, 13, 6);
  }

  lemma Product14(x: bv8)
    ensures Element(Mul14(x)) == Times(Element(14), Element(x))
  {
    hide Mul2, Times;
    Product3(x);
    StepOdd(Mul2(x) ^ x, x, 7, 3);
    StepEven(Mul2(Mul2(x) ^ x) ^ x, x, 14, 7);
  }
}
