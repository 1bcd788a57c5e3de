/** The bound of Bose, Chaudhuri and Hocquenghem: a polynomial with few terms does not vanish at as many consecutive
    powers, as long as its degree stays below the order of their ratio. */
module CodeBound {
  import opened BitWords
  import opened CodeField

  /** The value of the polynomial with the given coefficients, highest first. */
  function Horner(e: seq<Elem>, x: Elem): Elem {
    if e == [] then NIL else Xor(Times(x, Horner(e[..|e| - 1], x)), e[|e| - 1])
  }

  /** The number of terms. */
  function Terms(e: seq<Elem>): nat {
    if e == [] then 0 else Terms(e[..|e| - 1]) + if e[|e| - 1] == NIL then 0 else 1
  }

  function Nils(n: nat): seq<Elem> { seq(n, _ => NIL) }

  function Power(b: Elem, k: nat): Elem { if k == 0 then UNIT else Times(b, Power(b, k - 1)) }

  /** The polynomial vanishes at `x`, `b * x`, and so on, `m` points in all. */
  predicate Vanishes(e: seq<Elem>, b: Elem, x: Elem, m: nat)
    decreases m
  {
    m == 0 || (Horner(e, x) == NIL && Vanishes(e, b, Times(b, x), m - 1))
  }

  /** Powers of `b` below `n` differ from 1, and so much so that the difference can be cancelled. */
  ghost predicate Separates(b: Elem, n: nat) {
    IsUnit(b) && forall j: nat :: 0 < j < n ==> IsUnit(Xor(Power(b, j), UNIT))
  }

  // ---------------------------------------------------------------- substituting b * x

  function Scaled(b: Elem, e: seq<Elem>): (r: seq<Elem>)
    ensures |r| == |e| && forall k :: 0 <= k < |e| ==> r[k] == Times(b, e[k])
  {
    seq(|e|, k requires 0 <= k < |e| => Times(b, e[k]))
  }

  lemma {:induction false} HornerScaled(b: Elem, e: seq<Elem>, x: Elem)
    ensures Horner(Scaled(b, e), x) == Times(b, Horner(e, x))
  {
    hide Times, Xor;
    if e == [] {
      TimesNil(b);
    } else {
      var n := |e| - 1;
      HornerScaled(b, e[..n], x);
      assert Scaled(b, e)[..n] == Scaled(b, e[..n]);
      var h := Horner(e[..n], x);
      Distributes(b, Times(x, h), e[n]);
      Associates(b, x, h);
      Associates(x, b, h);
      Commutes(b, x);
    }
  }

  /** The polynomial with `b * x` for `x`. */
  function Twisted(b: Elem, e: seq<Elem>): (r: seq<Elem>)
    ensures |r| == |e|
  {
    if e == [] then [] else Scaled(b, Twisted(b, e[..|e| - 1])) + [e[|e| - 1]]
  }

  lemma {:induction false} HornerTwisted(b: Elem, e: seq<Elem>, x: Elem)
    ensures Horner(Twisted(b, e), x) == Horner(e, Times(b, x))
  {
    hide Times, Xor;
    if e != [] {
      var n := |e| - 1;
      var t := Twisted(b, e[..n]);
      HornerTwisted(b, e[..n], x);
      HornerScaled(b, t, x);
      assert Twisted(b, e)[..n] == Scaled(b, t);
      Associates(x, b, Horner(t, x));
      Commutes(b, x);
    }
  }

  lemma {:induction false} TwistedAt(b: Elem, e: seq<Elem>, k: nat)
    requires k < |e|
    ensures Twisted(b, e)[k] == Times(Power(b, |e| - 1 - k), e[k])
  {
    hide Times;
    var n := |e| - 1;
    if k == n {
      TimesUnit(e[k]);
    } else {
      TwistedAt(b, e[..n], k);
      Associates(b, Power(b, n - 1 - k), e[k]);
    }
  }

  // ---------------------------------------------------------------- the bound

  function Added(e: seq<Elem>, f: seq<Elem>): (r: seq<Elem>)
    requires |e| == |f|
    ensures |r| == |e| && forall k :: 0 <= k < |e| ==> r[k] == Xor(e[k], f[k])
  {
    seq(|e|, k requires 0 <= k < |e| => Xor(e[k], f[k]))
  }

  lemma {:induction false} HornerAdds(e: seq<Elem>, f: seq<Elem>, x: Elem)
    requires |e| == |f|
    ensures Horner(Added(e, f), x) == Xor(Horner(e, x), Horner(f, x))
  {
    hide Times, Xor;
    if e == [] {
      XorWithZero(NIL);
    } else {
      var n := |e| - 1;
      HornerAdds(e[..n], f[..n], x);
      assert Added(e, f)[..n] == Added(e[..n], f[..n]);
      Distributes(x, Horner(e[..n], x), Horner(f[..n], x));
      XorShuffle(Times(x, Horner(e[..n], x)), Times(x, Horner(f[..n], x)), e[n], f[n]);
    }
  }

  /** The difference of the polynomial at `b * x` and at `x`. */
  function Difference(b: Elem, e: seq<Elem>): (r: seq<Elem>)
    ensures |r| == |e|
  {
    Added(Twisted(b, e), e)
  }

  lemma DifferenceAt(b: Elem, e: seq<Elem>, k: nat)
    requires k < |e|
    ensures Difference(b, e)[k] == Times(Xor(Power(b, |e| - 1 - k), UNIT), e[k])
    ensures k == |e| - 1 || e[k] == NIL ==> Difference(b, e)[k] == NIL
  {
    hide Times, Xor, Twisted;
    TwistedAt(b, e, k);
    var p := Power(b, |e| - 1 - k);
    Distributes(p, UNIT, e[k]);
    TimesUnit(e[k]);
    TimesNil(p);
    XorWithZero(NIL);
    XorSelf(e[k], e[k]);
  }

  lemma {:induction false} DifferenceVanishes(b: Elem, e: seq<Elem>, x: Elem, m: nat)
    requires m >= 1 && Vanishes(e, b, x, m)
    ensures Vanishes(Difference(b, e), b, x, m - 1)
    decreases m
  {
    hide Times, Xor, Horner;
    if m > 1 {
      DifferenceVanishes(b, e, Times(b, x), m - 1);
      HornerTwisted(b, e, x);
      HornerAdds(Twisted(b, e), e, x);
      XorWithZero(NIL);
    }
  }

  /** Where one list has no term, the other has none: then it has no more terms. */
  lemma {:induction false} FewerTerms(e: seq<Elem>, f: seq<Elem>)
    requires |e| == |f| && forall k :: 0 <= k < |e| && e[k] == NIL ==> f[k] == NIL
    ensures Terms(f) <= Terms(e)
  {
    if e != [] { FewerTerms(e[..|e| - 1], f[..|f| - 1]); }
  }

  lemma OneTermLess(e: seq<Elem>, f: seq<Elem>)
    requires |e| == |f| > 0 && e[|e| - 1] != NIL && f[|f| - 1] == NIL
    requires forall k :: 0 <= k < |e| && e[k] == NIL ==> f[k] == NIL
    ensures Terms(f) <= Terms(e) - 1
  {
    FewerTerms(e[..|e| - 1], f[..|f| - 1]);
  }

  lemma {:induction false} NoTerms(e: seq<Elem>)
    requires Terms(e) == 0
    ensures e == Nils(|e|)
  {
    if e != [] {
      NoTerms(e[..|e| - 1]);
      assert e == e[..|e| - 1] + [e[|e| - 1]];
    }
  }

  lemma {:induction false} HornerNils(n: nat, x: Elem)
    ensures Horner(Nils(n), x) == NIL
  {
    hide Times, Xor;
    if n > 0 {
      HornerNils(n - 1, x);
      assert Nils(n)[..n - 1] == Nils(n - 1);
      TimesNil(x);
      XorWithZero(NIL);
    }
  }

  /** A last coefficient that is nil can be left out. */
  lemma {:induction false} VanishesWithout(e: seq<Elem>, b: Elem, x: Elem, m: nat)
    requires e != [] && e[|e| - 1] == NIL && IsUnit(b) && IsUnit(x) && Vanishes(e, b, x, m)
    ensures Vanishes(e[..|e| - 1], b, x, m)
    decreases m
  {
    hide Times, Xor, IsUnit;
    if m > 0 {
      UnitProduct(b, x);
      VanishesWithout(e, b, Times(b, x), m - 1);
      XorWithZero(Times(x, Horner(e[..|e| - 1], x)));
      Cancel(x, Horner(e[..|e| - 1], x));
    }
  }

  /** A polynomial with at most `m` terms and of a degree below `n` that vanishes at `m` consecutive points is nil. */
  lemma {:induction false} Bound(e: seq<Elem>, b: Elem, x: Elem, m: nat, n: nat)
    requires |e| <= n && Separates(b, n) && IsUnit(x) && Terms(e) <= m && Vanishes(e, b, x, m)
    ensures e == Nils(|e|)
    decreases m, |e|
  {
    hide Times, Xor, IsUnit, Horner, Difference, Vanishes, Separates;
    if Terms(e) == 0 {
      NoTerms(e);
    } else if e[|e| - 1] == NIL {
      var init := e[..|e| - 1];
      SeparatesMeans(b, n);
      VanishesWithout(e, b, x, m);
      Bound(init, b, x, m, n);
      assert e == init + [NIL];
    } else {
      var f := Difference(b, e);
      forall k: nat | k < |e| ensures (k == |e| - 1 || e[k] == NIL) ==> f[k] == NIL { DifferenceAt(b, e, k); }
      OneTermLess(e, f);
      DifferenceVanishes(b, e, x, m);
      Bound(f, b, x, m - 1, n);
      OnlyLast(e, b, x, n);
      FirstPoint(e, b, x, m);
    }
  }

  lemma SeparatesMeans(b: Elem, n: nat)
    requires Separates(b, n)
    ensures IsUnit(b)
  {
  }

  lemma FirstPoint(e: seq<Elem>, b: Elem, x: Elem, m: nat)
    requires m >= 1 && Vanishes(e, b, x, m)
    ensures Horner(e, x) == NIL
  {
  }

  /** If the difference is nil, only the last coefficient can be other than nil, and it is the value. */
  lemma OnlyLast(e: seq<Elem>, b: Elem, x: Elem, n: nat)
    requires 0 < |e| <= n && Separates(b, n) && Difference(b, e) == Nils(|e|)
    ensures Horner(e, x) == e[|e| - 1]
  {
    hide Times, Xor, IsUnit, Difference;
    var init := e[..|e| - 1];
    forall k: nat | k < |init| ensures init[k] == NIL {
      DifferenceAt(b, e, k);
      assert Difference(b, e)[k] == NIL;
      Cancel(Xor(Power(b, |e| - 1 - k), UNIT), e[k]);
    }
    assert init == Nils(|init|);
    HornerNils(|init|, x);
    TimesNil(x);
    XorWithZero(e[|e| - 1]);
  }
}
