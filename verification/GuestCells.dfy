/** The message cell of j, as the guest's nested loops put it together from j's bytes. */
module GuestCells {
  import opened Rings
  import opened Multilinear
  import opened Bits
  import opened GuestField
  import opened Guest

  /** The constant y x^s (YX40, YX48, YX56, YX60 in the guest). */
  function YX(F: Field, s: nat): Elem {
    F.R.mul(F.y, F.Pow(s))
  }

  function At(F: Field, s: nat, n: nat): Elem {
    F.R.mul(YX(F, s), F.Emb(n))
  }

  /** The number of bytes h, p and nibbles r, t. */
  function Number(h: nat, p: nat, r: nat, t: nat): nat {
    65536 * h + 256 * p + 16 * r + t
  }

  lemma HighByte(j: nat, b: nat)
    requires b < 29 && Shift(j, 16) < 256
    ensures MessageByte(j, b) == 0
  {
    Pow2Values();
    hide Low, Shift, Pow2;
    var d := 8 * (28 - b);
    assert 8 * (31 - b) == 24 + d;
    ShiftShift(j, 16, 8);
    ShiftShift(j, 24, d);
    LowSmall(Shift(j, 16), 8);
    ShiftZero(d);
    ShiftZero(8);
  }

  lemma Bytes(h: nat, p: nat, r: nat, t: nat)
    requires h < 256 && p < 256 && r < 16 && t < 16
    ensures var j := Number(h, p, r, t);
      MessageByte(j, 29) == h && MessageByte(j, 30) == p && MessageByte(j, 31) == 16 * r + t
    ensures forall b :: 0 <= b < 29 ==> MessageByte(Number(h, p, r, t), b) == 0
  {
    var j := Number(h, p, r, t);
    Pow2Values();
    hide Low, Shift, Pow2;
    Join(256 * p + 16 * r + t, 16, h);
    LowSmall(h, 8);
    Join(16 * r + t, 8, p + 256 * h);
    Join(p, 8, h);
    NoShift(j);
    forall b | 0 <= b < 29
      ensures MessageByte(j, b) == 0
    {
      HighByte(j, b);
    }
  }

  lemma NoShift(n: nat)
    ensures Shift(n, 0) == n
  {
  }

  lemma {:induction false} ZeroLane(j: nat, k: nat, n: nat)
    requires k < 4 && n <= 8 && forall b :: 8 * k + n <= b < 8 * k + 8 ==> MessageByte(j, b) == 0
    ensures LaneFrom(j, k, n) == 0
    decreases 8 - n
  {
    if n < 8 {
      ZeroLane(j, k, n + 1);
    }
  }

  lemma LastLane(j: nat, h: nat, p: nat, q: nat)
    requires MessageByte(j, 29) == h && MessageByte(j, 30) == p && MessageByte(j, 31) == q
    requires forall b :: 0 <= b < 29 ==> MessageByte(j, b) == 0
    ensures LaneFrom(j, 3, 5) == h + 256 * (p + 256 * q)
  {
    hide MessageByte;
    assert LaneFrom(j, 3, 8) == 0;
    assert LaneFrom(j, 3, 7) == q;
    assert LaneFrom(j, 3, 6) == p + 256 * q;
  }

  /** Five leading zero bytes are a factor x^40. */
  lemma {:induction false} ZeroBytes(F: Field, j: nat, n: nat)
    requires F.R.Laws() && n <= 5 && forall b :: 24 <= b < 29 ==> MessageByte(j, b) == 0
    ensures F.Emb(LaneFrom(j, 3, n)) == F.R.mul(F.Pow(8 * (5 - n)), F.Emb(LaneFrom(j, 3, 5)))
    decreases 5 - n
  {
    hide MessageByte, Field.Emb;
    var R := F.R;
    if n == 5 {
      R.MulOne(F.Emb(LaneFrom(j, 3, 5)));
    } else {
      ZeroBytes(F, j, n + 1);
      var m := LaneFrom(j, 3, n + 1);
      assert LaneFrom(j, 3, n) == 0 + 256 * m;
      TimesByte(F, 0, m);
      F.EmbSmall();
      R.AddZero(R.mul(F.Pow(8), F.Emb(m)));
      R.MulAssoc(F.Pow(8), F.Pow(8 * (4 - n)), F.Emb(LaneFrom(j, 3, 5)));
      F.PowAdd(8, 8 * (4 - n));
    }
  }

  lemma TimesByte(F: Field, a: nat, m: nat)
    requires F.R.Laws() && a < 256
    ensures F.Emb(a + 256 * m) == F.R.add(F.Emb(a), F.R.mul(F.Pow(8), F.Emb(m)))
  {
    Pow2Values();
    F.EmbSplit(a, 8, m);
  }

  lemma TimesNibble(F: Field, a: nat, m: nat)
    requires F.R.Laws() && a < 16
    ensures F.Emb(a + 16 * m) == F.R.add(F.Emb(a), F.R.mul(F.Pow(4), F.Emb(m)))
  {
    Pow2Values();
    F.EmbSplit(a, 4, m);
  }

  /** y x^s (a + x^u b) = y x^s a + y x^(s + u) b. */
  lemma Push(F: Field, s: nat, a: Elem, u: nat, b: Elem)
    requires F.R.Laws()
    ensures F.R.mul(YX(F, s), F.R.add(a, F.R.mul(F.Pow(u), b))) == F.R.add(F.R.mul(YX(F, s), a), F.R.mul(YX(F, s + u), b))
  {
    var R := F.R;
    R.Dist(YX(F, s), a, R.mul(F.Pow(u), b));
    R.MulAssoc(YX(F, s), F.Pow(u), b);
    R.MulAssoc(F.y, F.Pow(s), F.Pow(u));
    F.PowAdd(s, u);
  }

  function BytesElem(F: Field, h: nat, p: nat, r: nat, t: nat): Elem {
    var R := F.R;
    R.add(F.Emb(h), R.mul(F.Pow(8), R.add(F.Emb(p), R.mul(F.Pow(8), R.add(F.Emb(t), R.mul(F.Pow(4), F.Emb(r)))))))
  }

  lemma BytesSum(F: Field, h: nat, p: nat, r: nat, t: nat)
    requires F.R.Laws() && h < 256 && p < 256 && r < 16 && t < 16
    ensures F.Emb(h + 256 * (p + 256 * (16 * r + t))) == BytesElem(F, h, p, r, t)
  {
    hide Field.Emb, Field.Pow;
    TimesByte(F, h, p + 256 * (16 * r + t));
    TimesByte(F, p, 16 * r + t);
    TimesNibble(F, t, r);
  }

  lemma LaneThree(F: Field, h: nat, p: nat, r: nat, t: nat)
    requires F.R.Laws() && h < 256 && p < 256 && r < 16 && t < 16
    ensures F.Emb(Lane(Number(h, p, r, t), 3)) == F.R.mul(F.Pow(40), BytesElem(F, h, p, r, t))
  {
    hide MessageByte, LaneFrom, Number, Field.Emb, Field.Pow, BytesElem;
    var j := Number(h, p, r, t);
    Bytes(h, p, r, t);
    LastLane(j, h, p, 16 * r + t);
    ZeroBytes(F, j, 0);
    BytesSum(F, h, p, r, t);
  }

  lemma ZeroLanes(j: nat)
    requires forall b :: 0 <= b < 29 ==> MessageByte(j, b) == 0
    ensures Lane(j, 0) == 0 && Lane(j, 1) == 0 && Lane(j, 2) == 0
  {
    hide MessageByte, LaneFrom;
    ZeroLane(j, 0, 0);
    ZeroLane(j, 1, 0);
    ZeroLane(j, 2, 0);
  }

  /** The cell of j = 65536h + 256p + 16r + t, the terms in the order the loops add them. */
  lemma CellParts(M: Machine, h: nat, p: nat, r: nat, t: nat)
    requires M.F.R.Laws() && h < 256 && p < 256 && r < 16 && t < 16
    ensures var R, j := M.F.R, Number(h, p, r, t);
      && M.MessageCell(j, 0) == R.zero
      && M.MessageCell(j, 1) == R.add(R.add(R.add(At(M.F, 40, h), At(M.F, 48, p)), At(M.F, 60, r)), At(M.F, 56, t))
  {
    var F, R, j := M.F, M.F.R, Number(h, p, r, t);
    Bytes(h, p, r, t);
    ZeroLanes(j);
    F.EmbSmall();
    hide MessageByte, Lane, Number, YX, Field.Emb, Field.Pow;
    R.MulZero(F.y);
    R.AddZero(R.zero);
    LaneThree(F, h, p, r, t);
    var eh, ep, et, er := F.Emb(h), F.Emb(p), F.Emb(t), F.Emb(r);
    var eq := R.add(et, R.mul(F.Pow(4), er));
    var epq := R.add(ep, R.mul(F.Pow(8), eq));
    R.AddZero(R.mul(F.y, F.Emb(Lane(j, 3))));
    YXIs(F, 40, R.add(eh, R.mul(F.Pow(8), epq)));
    Push(F, 40, eh, 8, epq);
    Push(F, 48, ep, 8, eq);
    Push(F, 56, et, 4, er);
    Reorder(R, At(F, 40, h), At(F, 48, p), At(F, 60, r), At(F, 56, t));
  }

  lemma YXIs(F: Field, s: nat, a: Elem)
    requires F.R.Laws()
    ensures F.R.mul(YX(F, s), a) == F.R.mul(F.y, F.R.mul(F.Pow(s), a))
  {
    F.R.MulAssoc(F.y, F.Pow(s), a);
  }

  lemma Reorder(R: Ring, a: Elem, b: Elem, c: Elem, d: Elem)
    requires R.Laws()
    ensures R.add(a, R.add(b, R.add(d, c))) == R.add(R.add(R.add(a, b), c), d)
  {
    R.AddComm(d, c);
    R.AddAssoc(a, b, R.add(c, d));
    R.AddAssoc(R.add(a, b), c, d);
  }
}
