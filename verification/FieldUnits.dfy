/** K is a field. Some power of any element is its own square, so it is 0 or 1; nothing nonzero has a
    power 0; so everything nonzero has an inverse, and then the power 2^64 - 1 is 1. */
module FieldUnits {
  import opened Rings
  import opened Multilinear
  import opened Polynomials
  import opened FieldBase
  import opened FieldRing
  import opened FieldInverse
  import opened FieldBits
  import opened Squares

  // ---- pigeons ---------------------------------------------------------------------------------

  ghost predicate Apart(f: nat -> nat, n: nat) {
    forall i: nat, j: nat :: i < j < n ==> f(i) != f(j)
  }

  ghost function Numbers(n: nat): (s: set<nat>)
    ensures |s| == n && forall k: nat :: k in s <==> k < n
  {
    if n == 0 then {} else Numbers(n - 1) + {n - 1}
  }

  ghost function Values(f: nat -> nat, n: nat): set<nat> {
    set i | i in Numbers(n) :: f(i)
  }

  lemma {:induction false} CountValues(f: nat -> nat, n: nat)
    requires Apart(f, n)
    ensures |Values(f, n)| == n
  {
    hide Apart, Values;
    if n == 0 {
      NoValues(f);
    } else {
      Fewer(f, n - 1);
      CountValues(f, n - 1);
      NextValue(f, n - 1);
    }
  }

  lemma NoValues(f: nat -> nat)
    ensures Values(f, 0) == {}
  {
  }

  lemma Fewer(f: nat -> nat, n: nat)
    requires Apart(f, n + 1)
    ensures Apart(f, n)
  {
  }

  lemma NextValue(f: nat -> nat, n: nat)
    requires Apart(f, n + 1)
    ensures Values(f, n + 1) == Values(f, n) + {f(n)} && f(n) !in Values(f, n)
  {
    hide Apart;
    assert Numbers(n + 1) == Numbers(n) + {n};
    if f(n) in Values(f, n) {
      var i :| i in Numbers(n) && f(i) == f(n);
      ApartAt(f, n + 1, i, n);
    }
  }

  lemma ApartAt(f: nat -> nat, n: nat, i: nat, j: nat)
    requires Apart(f, n) && i < j < n
    ensures f(i) != f(j)
  {
  }

  lemma {:induction false} Smaller<T>(a: set<T>, b: set<T>)
    requires a <= b
    ensures |a| <= |b| && (|a| == |b| ==> a == b)
    decreases b
  {
    if x :| x in b && x !in a {
      Smaller(a, b - {x});
    } else {
      assert a == b;
    }
  }

  /** More numbers than values: two agree. */
  lemma Pigeons(f: nat -> nat, n: nat) returns (i: nat, j: nat)
    requires forall k: nat :: f(k) < n
    ensures i < j && f(i) == f(j)
  {
    if Apart(f, n + 1) {
      CountValues(f, n + 1);
      assert Values(f, n + 1) <= Numbers(n);
      Smaller(Values(f, n + 1), Numbers(n));
      assert false;
    }
    i, j :| i < j < n + 1 && f(i) == f(j);
  }

  // ---- an element's powers -----------------------------------------------------------------------

  function In(c: Limb): Elem {
    Elem(c, 0, 0)
  }

  function Of(a: Elem, n: nat): Elem {
    Power(EField(), a, n)
  }

  lemma OfAdd(a: Elem, m: nat, n: nat)
    ensures EMul(Of(a, m), Of(a, n)) == Of(a, m + n)
    ensures Of(a, 0) == In(1) && Of(a, 1) == a && Of(a, n + 1) == EMul(a, Of(a, n))
  {
    hide EMul, Power;
    EFieldLaws();
    PowerAdd(EField(), a, m, n);
    FirstPowers(a, n);
  }

  lemma FirstPowers(a: Elem, n: nat)
    ensures Of(a, 0) == In(1) && Of(a, 1) == a && Of(a, n + 1) == EMul(a, Of(a, n))
  {
    hide EMul;
    EMulOne(a);
    EMulComm(a, Of(a, n));
    EMulComm(a, In(1));
    assert Of(a, 1) == EMul(Of(a, 0), a);
  }

  /** The powers of an element of K stay in K. */
  lemma {:induction false} InK(c: Limb, n: nat)
    ensures Of(In(c), n) == In(Of(In(c), n).c0)
  {
    hide EMul, Power, KMul;
    FirstPowers(In(c), n);
    if n > 0 {
      InK(c, n - 1);
      FirstPowers(In(c), n - 1);
      KInE(c, Of(In(c), n - 1).c0);
    }
  }

  /** From i on, the powers repeat every p. */
  lemma {:induction false} Repeats(a: Elem, i: nat, p: nat, m: nat)
    requires Of(a, i) == Of(a, i + p) && m >= i
    ensures Of(a, m) == Of(a, m + p)
    decreases m
  {
    hide *;
    if m > i {
      var k := m - 1;
      Repeats(a, i, p, k);
      OfAdd(a, 1, k);
      OfAdd(a, 1, k + p);
      assert k + 1 == m && k + p + 1 == m + p;
    }
  }

  lemma {:induction false} RepeatsOften(a: Elem, i: nat, p: nat, m: nat, t: nat, q: nat)
    requires Of(a, i) == Of(a, i + p) && m >= i && q == t * p
    ensures Of(a, m) == Of(a, m + q)
    decreases t
  {
    hide Of;
    if t > 0 {
      TimesNat(t - 1, p);
      assert q - p == (t - 1) * p;
      RepeatsOften(a, i, p, m, t - 1, q - p);
      Repeats(a, i, p, m + (q - p));
    }
  }

  /** An element as one number. */
  function Number(a: Elem): nat {
    a.c0 + 0x1_0000_0000_0000_0000 * (a.c1 + 0x1_0000_0000_0000_0000 * a.c2)
  }

  lemma NumberIs(a: Elem, b: Elem)
    ensures Number(a) < 0x1_0000_0000_0000_0000_0000_0000_0000_0000_0000_0000_0000_0000
    ensures Number(a) == Number(b) ==> a == b
  {
    if Number(a) == Number(b) {
      var x: int, y: int := a.c1 + 0x1_0000_0000_0000_0000 * a.c2, b.c1 + 0x1_0000_0000_0000_0000 * b.c2;
      TwoParts(a.c0, x, b.c0, y);
      TwoParts(a.c1, a.c2, b.c1, b.c2);
    }
  }

  lemma TwoParts(x: Limb, y: int, u: Limb, v: int)
    requires x + 0x1_0000_0000_0000_0000 * y == u + 0x1_0000_0000_0000_0000 * v
    ensures x == u && y == v
  {
  }

  function Code(a: Elem): nat -> nat {
    n => Number(Of(a, n))
  }

  /** Some power of any element is its own square. */
  lemma OwnSquare(a: Elem) returns (n: nat)
    ensures n >= 1 && EMul(Of(a, n), Of(a, n)) == Of(a, n)
  {
    hide Of, EMul, Number;
    forall k: nat
      ensures Code(a)(k) < 0x1_0000_0000_0000_0000_0000_0000_0000_0000_0000_0000_0000_0000
    {
      NumberIs(Of(a, k), a);
    }
    var i, j := Pigeons(Code(a), 0x1_0000_0000_0000_0000_0000_0000_0000_0000_0000_0000_0000_0000);
    NumberIs(Of(a, i), Of(a, j));
    var p := j - i;
    n := (i + 1) * p;
    assert n >= i + 1 by {
      TimesNat(i + 1, p - 1);
      assert (i + 1) * p == (i + 1) * (p - 1) + (i + 1);
    }
    RepeatsOften(a, i, p, n, i + 1, n);
    OfAdd(a, n, n);
  }

  /** Only zero has square zero. */
  lemma ZeroSquare(a: Elem)
    requires EMul(a, a) == In(0)
    ensures a == In(0)
  {
    hide EMul, KMul, KAdd, Reduce;
    ESquare(a);
    NoSquareZero(a.c0);
    NoSquareZero(a.c2);
    KAddLaws(KMul(a.c1, a.c1), 0, 0);
    NoSquareZero(a.c1);
  }

  /** Nothing nonzero has a power zero. */
  lemma {:induction false} NoPowerZero(a: Elem, n: nat)
    requires n >= 1 && Of(a, n) == In(0)
    ensures a == In(0)
    decreases n
  {
    hide Of, EMul;
    OfAdd(a, 0, 0);
    if n > 1 {
      var h := (n + 1) / 2;
      OfAdd(a, h, h);
      if 2 * h == n + 1 {
        OfAdd(a, 1, n);
        TimesZero(a);
      }
      ZeroSquare(Of(a, h));
      NoPowerZero(a, h);
    }
  }

  lemma TimesZero(a: Elem)
    ensures EMul(a, In(0)) == In(0) && EMul(In(0), a) == In(0)
  {
    EFieldLaws();
    EField().MulZero(a);
  }

  /** Every nonzero element of K has an inverse in K. */
  lemma HasInverse(c: Limb) returns (d: Limb)
    requires c != 0
    ensures KMul(c, d) == 1
  {
    hide Power, EMul, KMul;
    var n := OwnSquare(In(c));
    InK(c, n);
    var e := Of(In(c), n).c0;
    KInE(e, e);
    Idempotent(e);
    if e == 0 {
      NoPowerZero(In(c), n);
    }
    InK(c, n - 1);
    d := Of(In(c), n - 1).c0;
    OfAdd(In(c), 1, n - 1);
    KInE(c, d);
  }

  /** K has no zero divisors. */
  lemma NoDivisors(c: Limb, d: Limb)
    requires c != 0 && KMul(c, d) == 0
    ensures d == 0
  {
    hide KMul;
    var i := HasInverse(c);
    KAssoc(i, c, d);
    KComm(i, c);
    KComm(i, 0);
    KOne(d);
    KOne(i);
    KComm(1, d);
  }

  // ---- the product of everything nonzero -----------------------------------------------------------

  ghost function Times(s: set<Limb>): Elem
    decreases |s|
  {
    if s == {} then In(1) else
      var x :| x in s;
      EMul(In(x), Times(s - {x}))
  }

  lemma {:induction false} TimesOut(s: set<Limb>, x: Limb)
    requires x in s
    ensures Times(s) == EMul(In(x), Times(s - {x}))
    decreases |s|
  {
    hide EMul;
    var y :| y in s && Times(s) == EMul(In(y), Times(s - {y}));
    if x != y {
      TimesOut(s - {y}, x);
      TimesOut(s - {x}, y);
      assert s - {x} - {y} == s - {y} - {x};
      var t := Times(s - {y} - {x});
      EMulAssoc(In(x), In(y), t);
      EMulAssoc(In(y), In(x), t);
      EMulComm(In(x), In(y));
    }
  }

  ghost function Scaled(c: Limb, s: set<Limb>): set<Limb> {
    set x | x in s :: KMul(c, x)
  }

  lemma CancelLeft(c: Limb, x: Limb, y: Limb)
    requires c != 0 && KMul(c, x) == KMul(c, y)
    ensures x == y
  {
    hide KMul, KAdd;
    KDist(c, x, y);
    KAddLaws(KMul(c, x), 0, 0);
    NoDivisors(c, KAdd(x, y));
    KAddLaws(x, y, 0);
    KAddLaws(y, 0, 0);
  }

  /** Scaling every element scales the product once for each. */
  lemma {:induction false} ScaledTimes(c: Limb, s: set<Limb>)
    requires c != 0
    ensures |Scaled(c, s)| == |s| && Times(Scaled(c, s)) == EMul(Of(In(c), |s|), Times(s))
    decreases |s|
  {
    hide EMul, KMul, Power, Times;
    if s == {} {
      NoTimes();
      OfAdd(In(c), 0, 0);
      assert Scaled(c, s) == {};
      EMulOne(In(1));
    } else {
      var x :| x in s;
      var t, y := s - {x}, KMul(c, x);
      ScaledTimes(c, t);
      if y in Scaled(c, t) {
        var z :| z in t && KMul(c, z) == y;
        CancelLeft(c, x, z);
      }
      assert Scaled(c, s) == Scaled(c, t) + {y};
      assert Scaled(c, s) - {y} == Scaled(c, t);
      TimesOut(s, x);
      TimesOut(Scaled(c, s), y);
      KInE(c, x);
      OfAdd(In(c), 1, |t|);
      FourMix(In(c), In(x), Of(In(c), |t|), Times(t));
    }
  }

  lemma NoTimes()
    ensures Times({}) == In(1)
  {
  }

  lemma FourMix(a: Elem, b: Elem, c: Elem, d: Elem)
    ensures EMul(EMul(a, b), EMul(c, d)) == EMul(EMul(a, c), EMul(b, d))
  {
    hide EMul;
    EMulAssoc(a, b, EMul(c, d));
    EMulAssoc(b, c, d);
    EMulComm(b, c);
    EMulAssoc(c, b, d);
    EMulAssoc(a, c, EMul(b, d));
  }

  /** The nonzero words up to n. */
  ghost function Upto(n: nat): (s: set<Limb>)
    requires n < 0x1_0000_0000_0000_0000
    ensures |s| == n && forall x: Limb :: x in s <==> 1 <= x <= n
  {
    if n == 0 then {} else Upto(n - 1) + {n}
  }

  lemma {:induction false} TimesNonzero(s: set<Limb>) returns (t: Limb)
    requires 0 !in s
    ensures t != 0 && Times(s) == In(t)
    decreases |s|
  {
    hide EMul, KMul, Times;
    if s == {} {
      NoTimes();
      t := 1;
    } else {
      var x :| x in s;
      var r := TimesNonzero(s - {x});
      TimesOut(s, x);
      KInE(x, r);
      t := KMul(x, r);
      if t == 0 {
        NoDivisors(x, r);
      }
    }
  }

  /** Scaling moves the nonzero words around. */
  lemma Permuted(c: Limb, n: nat)
    requires c != 0 && n == 0xFFFF_FFFF_FFFF_FFFF
    ensures Scaled(c, Upto(n)) == Upto(n)
  {
    hide KMul, Upto;
    var s := Upto(n);
    ScaledTimes(c, s);
    forall x | x in s
      ensures KMul(c, x) in s
    {
      if KMul(c, x) == 0 {
        NoDivisors(c, x);
      }
    }
    Smaller(Scaled(c, s), s);
  }

  /** c^(2^64 - 1) = 1 for every c but 0. */
  lemma Fermat(c: Limb, n: nat)
    requires c != 0 && n == 0xFFFF_FFFF_FFFF_FFFF
    ensures Of(In(c), n) == In(1)
  {
    hide EMul, KMul, Power, Upto, Times, Scaled;
    var s := Upto(n);
    Permuted(c, n);
    ScaledTimes(c, s);
    var t := TimesNonzero(s);
    InK(c, n);
    var e := Of(In(c), n).c0;
    KInE(e, t);
    KOne(t);
    KComm(1, t);
    KComm(e, t);
    CancelLeft(t, e, 1);
  }

  /** c^(2^64) = c, for every c. */
  lemma Frobenius(c: Limb, n: nat)
    requires n == 0x1_0000_0000_0000_0000
    ensures Of(In(c), n) == In(c)
  {
    hide EMul, Power;
    OfAdd(In(c), 1, n - 1);
    if c == 0 {
      TimesZero(Of(In(c), n - 1));
    } else {
      Fermat(c, n - 1);
      EMulOne(In(c));
    }
  }

  /** `K::inv`'s power inverts every element but 0, which it keeps. */
  lemma InverseInverts(c: Limb, n: nat, v: Elem)
    requires n == 0xFFFF_FFFF_FFFF_FFFE && v == Of(In(c), n)
    ensures v == In(v.c0) && KMul(c, v.c0) == if c == 0 then 0 else 1
    ensures c == 0 ==> v == In(0)
  {
    hide EMul, KMul, Power;
    InK(c, n);
    OfAdd(In(c), 1, n);
    KInE(c, v.c0);
    if c == 0 {
      OfAdd(In(c), 1, n - 1);
      TimesZero(Of(In(c), n - 1));
      TimesZero(v);
    } else {
      Fermat(c, n + 1);
    }
  }
}
