/** The guest's main program (pow.py): it accepts the public input i exactly when i is below 2^24
    and the smallest hit. */
module GuestProgram {
  import opened Rings
  import opened Multilinear
  import opened Bits
  import opened GuestField
  import opened Guest
  import opened GuestCells
  import opened GuestChunks
  import opened GuestBits
  import opened GuestBlocks
  import opened GuestMain

  // ---- the table -------------------------------------------------------------------------------

  ghost predicate EntryWritten(M: Machine, e: nat)
    requires M.Valid() && e < TABLE
  {
    M.Cell(TABLE_BASE + e) == M.F.Emb(e)
  }

  ghost predicate Written(M: Machine, n: nat) {
    && M.Valid()
    && n <= TABLE
    && forall e: nat :: e < n ==> EntryWritten(M, e)
  }

  lemma WrittenStep(M: Machine, n: nat, x: Elem)
    requires Written(M, n) && n < TABLE && x == M.F.Emb(n)
    ensures M.Cell(TABLE_BASE + n) == x ==> Written(M, n + 1)
    ensures Written(M, TABLE) ==> M.Cell(TABLE_BASE + n) == x
  {
    hide Field.Emb, Field.Pow, Machine.Cell;
    assert EntryWritten(M, n) <==> M.Cell(TABLE_BASE + n) == x;
  }

  /** A table write: the cell at the address of entry n holds x. */
  predicate Holds(M: Machine, a: Elem, x: Elem) {
    a in M.memory && M.memory[a] == x
  }

  lemma HoldsIsCell(M: Machine, n: nat, a: Elem, x: Elem)
    requires M.Valid() && n < TABLE && a == M.F.Pow(TABLE_BASE + n)
    ensures Holds(M, a, x) <==> M.Cell(TABLE_BASE + n) == x
  {
    hide Field.Emb, Field.Pow;
    assert Compare(TABLE_BASE + n, 0, 0, 0);
  }

  lemma RowEntry(F: Field, kk: nat, t: nat)
    requires F.R.Laws() && t < 16
    ensures F.R.mul(F.R.mul(F.Pow(TABLE_BASE), F.R.Frob(F.Pow(kk), 4)), F.Pow(t)) == F.Pow(TABLE_BASE + (16 * kk + t))
    ensures F.R.add(F.R.mul(F.Emb(kk), F.Pow(4)), F.Emb(t)) == F.Emb(16 * kk + t)
  {
    hide Field.Emb, Field.Pow, Ring.Frob;
    Pow2Values();
    F.PowSquare(kk, 4);
    F.PowAdd(TABLE_BASE, 16 * kk);
    F.PowAdd(TABLE_BASE + 16 * kk, t);
    TimesNibble(F, t, kk);
    F.R.MulComm(F.Emb(kk), F.Pow(4));
    F.R.AddComm(F.Emb(t), F.R.mul(F.Pow(4), F.Emb(kk)));
  }

  lemma EntryRead(M: Machine, n: nat, kk: nat)
    requires Written(M, n) && kk < n
    ensures M.F.R.mul(M.F.Pow(TABLE_BASE), M.F.Pow(kk)) in M.memory
    ensures M.memory[M.F.R.mul(M.F.Pow(TABLE_BASE), M.F.Pow(kk))] == M.F.Emb(kk)
  {
    hide Field.Emb, Field.Pow;
    M.F.PowAdd(TABLE_BASE, kk);
    assert EntryWritten(M, kk) && Compare(TABLE_BASE + kk, 0, 0, 0);
  }

  ghost predicate RowEntryAt(F: Field, row: Elem, base: Elem, kk: nat, t: nat) {
    F.R.mul(row, F.Pow(t)) == F.Pow(TABLE_BASE + (16 * kk + t)) && F.R.add(base, F.Emb(t)) == F.Emb(16 * kk + t)
  }

  ghost predicate RowAt(F: Field, row: Elem, base: Elem, kk: nat) {
    forall t: nat :: t < 16 ==> RowEntryAt(F, row, base, kk, t)
  }

  lemma RowIs(F: Field, kk: nat)
    requires F.R.Laws()
    ensures RowAt(F, F.R.mul(F.Pow(TABLE_BASE), F.R.Frob(F.Pow(kk), 4)), F.R.mul(F.Emb(kk), F.Pow(4)), kk)
    ensures RowAt(F, F.Pow(TABLE_BASE), F.R.zero, 0)
  {
    hide Field.Emb, Field.Pow, Ring.Frob;
    forall t: nat | t < 16
      ensures RowEntryAt(F, F.R.mul(F.Pow(TABLE_BASE), F.R.Frob(F.Pow(kk), 4)), F.R.mul(F.Emb(kk), F.Pow(4)), kk, t)
      ensures RowEntryAt(F, F.Pow(TABLE_BASE), F.R.zero, 0, t)
    {
      RowEntry(F, kk, t);
      F.PowAdd(TABLE_BASE, t);
      F.R.AddZero(F.Emb(t));
    }
  }

  /** One row of the table: sixteen writes. */
  method WriteRow(M: Machine, row: Elem, base: Elem, ghost kk: nat) returns (ok: bool)
    requires kk < 4096 && Written(M, 16 * kk) && RowAt(M.F, row, base, kk)
    ensures ok ==> Written(M, 16 * kk + 16)
    ensures Written(M, TABLE) ==> ok
  {
    hide Field.Emb, Field.Pow, Machine.Cell, Holds, Written;
    WrittenValid(M, 16 * kk);
    var F, R := M.F, M.F.R;
    var t := 0;
    while t < 16
      invariant 0 <= t <= 16
      invariant Written(M, 16 * kk + t)
    {
      var a, x := R.mul(row, F.Pow(t)), R.add(base, F.Emb(t));
      assert RowEntryAt(F, row, base, kk, t);
      HoldsIsCell(M, 16 * kk + t, a, x);
      WrittenStep(M, 16 * kk + t, x);
      if !Holds(M, a, x) {
        return false;
      }
      t := t + 1;
    }
    ok := true;
  }

  lemma WrittenValid(M: Machine, n: nat)
    requires Written(M, n)
    ensures M.Valid() && M.F.Valid() && M.F.R.Laws() && n <= TABLE
    ensures M.F.order > 2 * TOP_INDEX
  {
  }

  /** The table is written from its first row on, each entry from one sixteen times smaller. */
  method BuildTable(M: Machine) returns (ok: bool)
    requires M.Valid()
    ensures ok <==> Written(M, TABLE)
  {
    hide Field.Emb, Field.Pow, Machine.Cell, Ring.Frob, Written, Machine.Valid, Field.Valid, Ring.Laws, RowAt;
    var F, R := M.F, M.F.R;
    var tp := F.Pow(TABLE_BASE);
    NothingWritten(M);
    WrittenValid(M, 0);
    FirstRow(F);
    RowIs(F, 0);
    ok := WriteRow(M, tp, R.zero, 0);
    if !ok {
      return;
    }
    var k := F.g;
    ghost var kk: nat := 1;
    WrittenValid(M, 16);
    while k != F.Pow(4096)
      invariant 1 <= kk <= 4096 && k == F.Pow(kk)
      invariant Written(M, 16 * kk)
      decreases 4096 - kk
    {
      NextPow(F, kk, 4096);
      EntryRead(M, 16 * kk, kk);
      var base := R.mul(M.memory[R.mul(tp, k)], F.Pow(4));
      RowIs(F, kk);
      ok := WriteRow(M, R.mul(tp, R.Frob(k, 4)), base, kk);
      if !ok {
        return;
      }
      k := R.mul(k, F.g);
      kk := kk + 1;
    }
    NextPow(F, kk, 4096);
  }

  lemma NothingWritten(M: Machine)
    requires M.Valid()
    ensures Written(M, 0)
  {
  }

  lemma FirstRow(F: Field)
    requires F.Valid()
    ensures F.Pow(1) == F.g
  {
    F.R.MulOne(F.g);
    assert F.Pow(1) == F.R.mul(F.g, F.Pow(0));
  }

  // ---- the public input ------------------------------------------------------------------------

  /** m[0] and m[1] hold i mod 2^16 and i >> 16. */
  ghost predicate PublicInput(M: Machine, i: nat)
    requires M.Valid()
  {
    && M.Cell(0) == M.F.Emb(Low(i, 16))
    && M.Cell(1) == M.F.Emb(Shift(i, 16))
  }

  /** The factor 1 + b (1 + g^(2^s)) multiplies an exponent up by 2^s b. */
  lemma Factor(F: Field, m: nat, v: nat, s: nat)
    requires F.R.Laws() && v < 2
    ensures F.R.mul(F.Pow(m), F.R.add(F.R.one, F.R.mul(F.BitElem(v), F.R.add(F.R.one, F.Pow(Pow2(s))))))
         == F.Pow(m + Pow2(s) * v)
  {
    hide Field.Pow, Pow2;
    var R, p := F.R, F.Pow(Pow2(s));
    if v == 1 {
      R.MulOne(R.add(R.one, p));
      R.Cancel(p, R.one);
      F.PowAdd(m, Pow2(s));
    } else {
      R.MulZero(R.add(R.one, p));
      R.AddZero(R.one);
      R.MulOne(F.Pow(m));
    }
  }

  /** The exponent of one window of an input's bits: [from, from + len). */
  function Window(n: nat, from: nat, len: nat): nat {
    Low(Shift(n, from), len)
  }

  lemma WindowStep(n: nat, k: nat, v: nat, from: nat, len: nat)
    requires n < Pow2(k) && v < 2
    ensures from <= k < from + len ==> Window(n + Pow2(k) * v, from, len) == Window(n, from, len) + Pow2(k - from) * v
    ensures !(from <= k < from + len) ==> Window(n + Pow2(k) * v, from, len) == Window(n, from, len)
  {
    hide Low, Shift, Pow2;
    if k < from {
      BitFits(n, k, v, from);
      LowSmall(n + Pow2(k) * v, from);
      LowSmall(n, from);
    } else {
      AddHigh(n, k, v, from);
      var u := Shift(n, from);
      if k < from + len {
        ShiftBound(n, from, k - from);
        BitFits(u, k - from, v, len);
        LowSmall(u + Pow2(k - from) * v, len);
        LowSmall(u, len);
      } else {
        AddHigh(u, k - from, v, len);
      }
    }
  }

  /** A number with one more bit below bit `len`. */
  lemma BitFits(n: nat, k: nat, v: nat, len: nat)
    requires n < Pow2(k) && v < 2 && k < len
    ensures n + Pow2(k) * v < Pow2(len) && n < Pow2(len)
  {
    hide Pow2;
    Doubled(k + 1, 0);
    Pow2Mono(k + 1, len);
    if v == 0 {
      assert Pow2(k) * v == 0;
    } else {
      assert Pow2(k) * v == Pow2(k);
    }
  }

  /** The factor 1 + b (1 + g^(2^s)) of the guest's exponents. */
  function TimesBit(F: Field, g: Elem, b: Elem, s: nat): Elem {
    F.R.mul(g, F.R.add(F.R.one, F.R.mul(b, F.R.add(F.R.one, F.Pow(Pow2(s))))))
  }

  /** A window's product after one more bit. */
  lemma WindowFactor(F: Field, n: nat, k: nat, v: nat, b: Elem, from: nat, len: nat, g: Elem)
    requires F.R.Laws() && n < Pow2(k) && v < 2 && b == F.BitElem(v) && g == F.Pow(Window(n, from, len))
    ensures (if from <= k < from + len then TimesBit(F, g, b, k - from) else g) == F.Pow(Window(n + Pow2(k) * v, from, len))
  {
    hide Field.Pow, Pow2, Window;
    WindowStep(n, k, v, from, len);
    if from <= k < from + len {
      Factor(F, Window(n, from, len), v, k - from);
    }
  }

  lemma WindowZero(from: nat, len: nat)
    ensures Window(0, from, len) == 0
  {
    ShiftZero(from);
    ShiftZero(len);
  }

  /** The low half of the input, in bits: whatever the cell and the hints, acceptance means the cell
      is a polynomial n of degree below 16, whose windows stand in the exponents: g^(n & 15),
      g^((n >> 4) & 15), g^((n >> 8) & 255). The bits of any such e are accepted. */
  method LowInput(M: Machine, lo: Elem, bits: seq<Elem>, ghost e: nat)
    returns (ok: bool, gt: Elem, gr: Elem, gp: Elem, ghost n: nat)
    requires M.Valid()
    ensures ok ==> n < TABLE && lo == M.F.Emb(n)
    ensures ok ==> gt == M.F.Pow(Window(n, 0, 4)) && gr == M.F.Pow(Window(n, 4, 4)) && gp == M.F.Pow(Window(n, 8, 8))
    ensures e < TABLE && lo == M.F.Emb(e) && bits == M.BitsOf(e, 16) ==> ok
  {
    hide Field.Emb, Field.Pow, Low, Shift, Bit, Pow2, Window, Field.Valid, Machine.Valid, Ring.Laws, Ring.Domain, TimesBit;
    FieldFacts(M);
    var F, R := M.F, M.F.R;
    gt, gr, gp, n := R.one, R.one, R.one, 0;
    if |bits| != 16 {
      ok := false;
      return;
    }
    ghost var honest := e < TABLE && lo == F.Emb(e) && bits == M.BitsOf(e, 16);
    var acc, k := R.zero, 0;
    InputStart(F, e);
    while k < 16
      invariant 0 <= k <= 16 && n < Pow2(k) && acc == F.Emb(n)
      invariant gt == F.Pow(Window(n, 0, 4)) && gr == F.Pow(Window(n, 4, 4)) && gp == F.Pow(Window(n, 8, 8))
      invariant honest ==> n == Low(e, k)
    {
      var b := bits[k];
      if honest {
        HonestStep(F, e, k, b, n);
      }
      if b != R.mul(b, b) {
        ok := false;
        return;
      }
      IsBit(R, b);
      ghost var v: nat := if b == R.one then 1 else 0;
      acc := R.add(acc, R.mul(b, F.Pow(k)));
      NextBit(F, n, k, v);
      WindowFactor(F, n, k, v, b, 0, 4, gt);
      WindowFactor(F, n, k, v, b, 4, 4, gr);
      WindowFactor(F, n, k, v, b, 8, 8, gp);
      gt := if k / 4 == 0 then TimesBit(F, gt, b, k) else gt;
      gr := if k / 4 == 1 then TimesBit(F, gr, b, k - 4) else gr;
      gp := if k / 8 == 1 then TimesBit(F, gp, b, k - 8) else gp;
      n := n + Pow2(k) * v;
      k := k + 1;
    }
    ok := acc == lo;
    SixteenBits();
    if honest {
      LowSmall(e, 16);
    }
  }

  lemma SixteenBits()
    ensures Pow2(16) == TABLE && Pow2(8) == 256
  {
    Pow2Values();
  }

  lemma FieldFacts(M: Machine)
    requires M.Valid()
    ensures M.F.Valid() && M.F.R.Laws() && M.F.R.Domain() && M.F.R.one != M.F.R.zero
  {
  }

  lemma InputStart(F: Field, e: nat)
    requires F.R.Laws()
    ensures F.Emb(0) == F.R.zero && Low(e, 0) == 0 && 0 < Pow2(0) && F.Pow(0) == F.R.one
    ensures Window(0, 0, 4) == 0 && Window(0, 4, 4) == 0 && Window(0, 8, 8) == 0 && Window(0, 0, 8) == 0
  {
    WindowZero(0, 4);
    WindowZero(4, 4);
    WindowZero(8, 8);
    WindowZero(0, 8);
  }

  /** The high half: whatever the cell and the hints, acceptance means the cell is a polynomial n of
      degree below 8, and g^n; the bits of any such e are accepted. */
  method HighInput(M: Machine, hi: Elem, bits: seq<Elem>, ghost e: nat) returns (ok: bool, gh: Elem, ghost n: nat)
    requires M.Valid()
    ensures ok ==> n < 256 && hi == M.F.Emb(n) && gh == M.F.Pow(n)
    ensures e < 256 && hi == M.F.Emb(e) && bits == M.BitsOf(e, 8) ==> ok
  {
    hide Field.Emb, Field.Pow, Low, Shift, Bit, Pow2, Window, Field.Valid, Machine.Valid, Ring.Laws, Ring.Domain, TimesBit;
    FieldFacts(M);
    var F, R := M.F, M.F.R;
    gh, n := R.one, 0;
    if |bits| != 8 {
      ok := false;
      return;
    }
    ghost var honest := e < 256 && hi == F.Emb(e) && bits == M.BitsOf(e, 8);
    var acc, k := R.zero, 0;
    InputStart(F, e);
    while k < 8
      invariant 0 <= k <= 8 && n < Pow2(k) && acc == F.Emb(n)
      invariant gh == F.Pow(Window(n, 0, 8))
      invariant honest ==> n == Low(e, k)
    {
      var b := bits[k];
      if honest {
        HonestStep(F, e, k, b, n);
      }
      if b != R.mul(b, b) {
        ok := false;
        return;
      }
      IsBit(R, b);
      ghost var v: nat := if b == R.one then 1 else 0;
      acc := R.add(acc, R.mul(b, F.Pow(k)));
      NextBit(F, n, k, v);
      WindowFactor(F, n, k, v, b, 0, 8, gh);
      gh := TimesBit(F, gh, b, k);
      n := n + Pow2(k) * v;
      k := k + 1;
    }
    ok := acc == hi;
    SixteenBits();
    WholeWindow(n);
    if honest {
      LowSmall(e, 8);
    }
  }

  lemma WholeWindow(n: nat)
    requires n < Pow2(8)
    ensures Window(n, 0, 8) == n
  {
    hide Pow2, Low;
    LowSmall(n, 8);
  }
}
