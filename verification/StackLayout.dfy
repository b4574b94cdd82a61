/** The layout of the committed columns in the stack (bus.rs's `build_layout`, tables.rs's q_keccak
    slots): columns with a block of their own stacked largest first, most of the KECCAK table's
    columns riding slots inside q_keccak's block. */
module StackLayout {
  import opened Multilinear
  import opened StackRuns
  import opened Transcripts

  const N_TABLES := 6
  const N_COLUMNS := 163
  const QKECCAK := 5
  const KECCAK_BASE := 73
  const KECCAK_IN := 13
  const KECCAK_OUT := 38
  const KECCAK_CNT := 63
  const QKECCAK_SLOTS := 50
  const QKECCAK_SPARE := 14
  const SLOT_BITS := 6
  const MIN_STACKED_LOG := 15
  const MAX_STACKED_LOG := 28

  /** The table of a column, the six global ones apart. */
  function TableOfColumn(column: nat): (t: nat)
    ensures t < N_TABLES
  {
    if column < 21 then 0 else if column < 36 then 1 else if column < 44 then 2
    else if column < 59 then 3 else if column < 73 then 4 else 5
  }

  datatype Option<T> = None | Some(value: T)

  function SpareLocal(k: nat): nat {
    if k < KECCAK_IN then k else KECCAK_CNT + (k - KECCAK_IN)
  }

  /** The first spare slot from k on that `local` rides. */
  function SpareFrom(local: nat, k: nat): Option<nat>
    decreases QKECCAK_SPARE - k
  {
    if k >= QKECCAK_SPARE then None
    else if SpareLocal(k) == local then Some(QKECCAK_SLOTS + k)
    else SpareFrom(local, k + 1)
  }

  /** The slot of q_keccak a column is: an input lane, or a column riding a spare slot. */
  function QKeccakSlot(column: nat): Option<nat> {
    if column < KECCAK_BASE then None
    else
      var local := column - KECCAK_BASE;
      var spare := SpareFrom(local, 0);
      if spare.Some? then spare
      else if KECCAK_IN <= local < KECCAK_OUT then Some(local - KECCAK_IN)
      else None
  }

  predicate IsKeccakOutput(column: nat) {
    KECCAK_BASE + KECCAK_OUT <= column < KECCAK_BASE + KECCAK_OUT + 25
  }

  predicate OwnBlock(column: nat) {
    QKeccakSlot(column).None? && !IsKeccakOutput(column)
  }

  lemma {:induction false} SpareIs(local: nat, k: nat)
    requires k <= QKECCAK_SPARE
    ensures SpareFrom(local, k).Some? ==>
      QKECCAK_SLOTS + k <= SpareFrom(local, k).value < QKECCAK_SLOTS + QKECCAK_SPARE
      && SpareLocal(SpareFrom(local, k).value - QKECCAK_SLOTS) == local
    decreases QKECCAK_SPARE - k
  {
    if k < QKECCAK_SPARE {
      SpareIs(local, k + 1);
    }
  }

  /** No two columns share a slot, and the slots are those of a 64-slot block. */
  lemma SlotsDistinct(c: nat, d: nat)
    requires QKeccakSlot(c).Some? && QKeccakSlot(d).Some?
    ensures QKeccakSlot(c).value < 64
    ensures QKeccakSlot(c) == QKeccakSlot(d) ==> c == d
  {
    hide SpareFrom;
    SpareIs(c - KECCAK_BASE, 0);
    SpareIs(d - KECCAK_BASE, 0);
  }

  lemma SpareFind(local: nat, k: nat, n: nat)
    requires k <= n < QKECCAK_SPARE && SpareLocal(n) == local && forall i :: k <= i < n ==> SpareLocal(i) != local
    ensures SpareFrom(local, k) == Some(QKECCAK_SLOTS + n)
    decreases n - k
  {
    if k < n {
      SpareFind(local, k + 1, n);
    }
  }

  /** The slots, column by column: the 25 input lanes, then thirteen columns and the first counter in
      the spare ones. */
  lemma SlotTable(c: nat)
    ensures QKeccakSlot(c) == if 73 <= c < 86 then Some(c - 23) else if 86 <= c < 111 then Some(c - 86)
                              else if c == 136 then Some(63) else None
    ensures IsKeccakOutput(c) <==> 111 <= c < 136
  {
    hide SpareFrom;
    if c >= 73 {
      var local := c - 73;
      SpareIs(local, 0);
      if local < 13 {
        SpareFind(local, 0, local);
      } else if local == 63 {
        SpareFind(63, 0, 13);
      }
    }
  }

  /** A riding column is one of the KECCAK table's, and no output lane. */
  lemma RidingColumns(c: nat)
    requires QKeccakSlot(c).Some?
    ensures KECCAK_BASE <= c && !IsKeccakOutput(c) && TableOfColumn(c) == 5 && c >= 6
  {
    hide SpareFrom;
    SpareIs(c - KECCAK_BASE, 0);
  }

  // ---- sizes -----------------------------------------------------------------------------------

  /** log2_strict: the exponent of a power of two. */
  function LogStrict(value: nat): (r: Result<nat>)
    ensures r.Ok? ==> Pow2(r.value) == value
    ensures r.Err? ==> r.error == NotPowerOfTwo && forall k: nat :: Pow2(k) != value
  {
    if value == 1 then Ok(0)
    else if value == 0 || value % 2 == 1 then
      OddIsNoPower(value);
      Err(NotPowerOfTwo)
    else
      var r := LogStrict(value / 2);
      if r.Ok? then Ok(r.value + 1)
      else
        assert forall k: nat :: Pow2(k) != value by {
          forall k: nat
            ensures Pow2(k) != value
          {
            assert k > 0 ==> Pow2(k) == 2 * Pow2(k - 1);
          }
        }
        r
  }

  lemma OddIsNoPower(value: nat)
    requires value != 1 && (value == 0 || value % 2 == 1)
    ensures forall k: nat :: Pow2(k) != value
  {
    forall k: nat
      ensures Pow2(k) != value
    {
      assert k > 0 ==> Pow2(k) == 2 * Pow2(k - 1);
    }
  }

  function Max(a: nat, b: nat): nat {
    if a < b then b else a
  }

  /** A table's height: the log of its rows, and at least 2^9 KECCAK steps. */
  function Height(rows: nat, t: nat): nat {
    Max(LogCeil(rows), if t == 5 then 9 else 0)
  }

  function HeightAt(rows: seq<nat>, t: nat): nat
    requires |rows| == N_TABLES && t < N_TABLES
  {
    Height(rows[t], t)
  }

  /** The log of a column's length. */
  function Kappa(logMemory: nat, logBytecode: nat, rows: seq<nat>, column: nat): nat
    requires |rows| == N_TABLES
  {
    if column < 4 then logMemory
    else if column == 4 then logBytecode
    else if column == QKECCAK then HeightAt(rows, 5) + SLOT_BITS
    else HeightAt(rows, TableOfColumn(column))
  }

  // ---- what a layout is ------------------------------------------------------------------------

  datatype Slot = Slot(variables: nat, index: nat)

  predicate Holds(slot: Slot, u: nat) {
    slot.index <= u < slot.index + Pow2(slot.variables)
  }

  ghost predicate Apart(s: Slot, t: Slot) {
    forall u: nat :: !(Holds(s, u) && Holds(t, u))
  }

  ghost predicate Within(s: Slot, t: Slot) {
    t.index <= s.index && s.index + Pow2(s.variables) <= t.index + Pow2(t.variables)
  }

  ghost predicate FitsAt(slot: Slot, log: nat) {
    slot.index % Pow2(slot.variables) == 0 && slot.index + Pow2(slot.variables) <= Pow2(log)
  }

  /** Every column but the output lanes has a slot of its length, aligned and inside the stack. */
  ghost predicate Placed(slots: seq<Option<Slot>>, logMemory: nat, logBytecode: nat, rows: seq<nat>, log: nat)
    requires |rows| == N_TABLES && |slots| == N_COLUMNS
  {
    forall c :: 0 <= c < N_COLUMNS ==>
      && slots[c].Some? == !IsKeccakOutput(c)
      && (slots[c].Some? ==> slots[c].value.variables == Kappa(logMemory, logBytecode, rows, c) && FitsAt(slots[c].value, log))
  }

  ghost predicate OwnApart(slots: seq<Option<Slot>>)
    requires |slots| == N_COLUMNS
  {
    forall c, d :: 0 <= c < N_COLUMNS && 0 <= d < N_COLUMNS && c != d && OwnBlock(c) && OwnBlock(d) ==>
      slots[c].Some? && slots[d].Some? ==> Apart(slots[c].value, slots[d].value)
  }

  ghost predicate RidersWithin(slots: seq<Option<Slot>>)
    requires |slots| == N_COLUMNS
  {
    forall c :: 0 <= c < N_COLUMNS && QKeccakSlot(c).Some? && slots[c].Some? && slots[QKECCAK].Some? ==>
      Within(slots[c].value, slots[QKECCAK].value)
  }

  ghost predicate RidersApart(slots: seq<Option<Slot>>)
    requires |slots| == N_COLUMNS
  {
    forall c, d :: 0 <= c < N_COLUMNS && 0 <= d < N_COLUMNS && c != d && QKeccakSlot(c).Some? && QKeccakSlot(d).Some? ==>
      slots[c].Some? && slots[d].Some? ==> Apart(slots[c].value, slots[d].value)
  }

  /** A rider meets no column's own block but q_keccak's. */
  lemma RiderApartFromOwn(slots: seq<Option<Slot>>, c: nat, d: nat)
    requires |slots| == N_COLUMNS && OwnApart(slots) && RidersWithin(slots)
    requires c < N_COLUMNS && d < N_COLUMNS && slots[c].Some? && slots[d].Some? && slots[QKECCAK].Some?
    requires QKeccakSlot(c).Some? && OwnBlock(d) && d != QKECCAK
    ensures Apart(slots[c].value, slots[d].value)
  {
    hide QKeccakSlot, Pow2;
    OwnQKeccak();
    assert Within(slots[c].value, slots[QKECCAK].value);
    assert Apart(slots[QKECCAK].value, slots[d].value);
    forall u: nat
      ensures !(Holds(slots[c].value, u) && Holds(slots[d].value, u))
    {
      assert !(Holds(slots[QKECCAK].value, u) && Holds(slots[d].value, u));
    }
  }

  lemma OwnQKeccak()
    ensures OwnBlock(QKECCAK)
  {
  }

  // ---- building it -----------------------------------------------------------------------------

  ghost predicate IsOwnList(blocks: seq<nat>, n: nat) {
    && (forall b :: 0 <= b < |blocks| ==> blocks[b] < n && OwnBlock(blocks[b]))
    && (forall a, b :: 0 <= a < b < |blocks| ==> blocks[a] < blocks[b])
    && (forall c: nat :: c < n && OwnBlock(c) ==> c in blocks)
  }

  /** The columns below n with a block of their own, in column order. */
  function OwnColumns(n: nat): seq<nat> {
    if n == 0 then [] else OwnColumns(n - 1) + (if OwnBlock(n - 1) then [n - 1] else [])
  }

  lemma {:induction false} OwnColumnsAre(n: nat)
    ensures IsOwnList(OwnColumns(n), n)
  {
    hide OwnBlock;
    if n > 0 {
      OwnColumnsAre(n - 1);
      if OwnBlock(n - 1) {
        assert OwnColumns(n)[|OwnColumns(n - 1)|] == n - 1;
        assert forall c: nat :: c in OwnColumns(n - 1) ==> c in OwnColumns(n);
      }
    }
  }

  method OwnBlocks() returns (blocks: seq<nat>)
    ensures blocks == OwnColumns(N_COLUMNS)
  {
    hide OwnBlock;
    var n := N_COLUMNS;
    blocks := [];
    for column := 0 to n
      invariant blocks == OwnColumns(column)
    {
      if OwnBlock(column) {
        blocks := blocks + [column];
      }
    }
  }

  function BlockKappa(logMemory: nat, logBytecode: nat, rows: seq<nat>, blocks: seq<nat>, b: int): nat
    requires |rows| == N_TABLES && 0 <= b < |blocks|
  {
    Kappa(logMemory, logBytecode, rows, blocks[b])
  }

  function BlockKappas(logMemory: nat, logBytecode: nat, rows: seq<nat>, blocks: seq<nat>): (k: seq<nat>)
    requires |rows| == N_TABLES
    ensures |k| == |blocks| && forall b :: 0 <= b < |k| ==> k[b] == BlockKappa(logMemory, logBytecode, rows, blocks, b)
  {
    seq(|blocks|, b requires 0 <= b < |blocks| => BlockKappa(logMemory, logBytecode, rows, blocks, b))
  }

  datatype Layout = Layout(logMemory: nat, logBytecode: nat, heights: seq<nat>, stackLog: nat, placed: nat)

  /** The offsets of the columns with a block, by column. */
  ghost predicate Scattered(offsets: seq<Option<nat>>, blocks: seq<nat>, blockOffsets: seq<nat>) {
    && |offsets| == N_COLUMNS && |blockOffsets| == |blocks|
    && (forall b :: 0 <= b < |blocks| ==> blocks[b] < N_COLUMNS && offsets[blocks[b]] == Some(blockOffsets[b]))
    && (forall c :: 0 <= c < N_COLUMNS && c !in blocks ==> offsets[c] == None)
  }

  method Scatter(blocks: seq<nat>, blockOffsets: seq<nat>, kappas: seq<nat>) returns (offsets: seq<Option<nat>>, placed: nat)
    requires IsOwnList(blocks, N_COLUMNS) && |blockOffsets| == |kappas| == |blocks|
    ensures Scattered(offsets, blocks, blockOffsets) && placed == Words(kappas)
  {
    hide OwnBlock, Pow2;
    offsets := seq(N_COLUMNS, _ => None);
    placed := 0;
    for b := 0 to |blocks|
      invariant |offsets| == N_COLUMNS && placed == Words(kappas[..b])
      invariant forall a :: 0 <= a < b ==> offsets[blocks[a]] == Some(blockOffsets[a])
      invariant forall c :: 0 <= c < N_COLUMNS && c !in blocks ==> offsets[c] == None
    {
      offsets := offsets[blocks[b] := Some(blockOffsets[b])];
      placed := placed + Pow2(kappas[b]);
      assert kappas[..b + 1][..b] == kappas[..b];
    }
    assert kappas[..|blocks|] == kappas;
  }

  /** The slot of one column. */
  function SlotOf(offsets: seq<Option<nat>>, kappa: nat, column: nat): Option<Slot>
    requires |offsets| == N_COLUMNS && column < N_COLUMNS && offsets[QKECCAK].Some?
  {
    match QKeccakSlot(column)
    case Some(slot) => Some(Slot(kappa, offsets[QKECCAK].value + slot * Pow2(kappa)))
    case None => if offsets[column].Some? then Some(Slot(kappa, offsets[column].value)) else None
  }

  // ---- why the slots do not meet ---------------------------------------------------------------

  /** Everything the stacking of the own blocks gives, at the log of the stack. */
  ghost predicate Blocks(offsets: seq<Option<nat>>, blocks: seq<nat>, blockOffsets: seq<nat>, logMemory: nat, logBytecode: nat,
                         rows: seq<nat>, log: nat)
    requires |rows| == N_TABLES
  {
    var kappas := BlockKappas(logMemory, logBytecode, rows, blocks);
    && IsOwnList(blocks, N_COLUMNS)
    && Scattered(offsets, blocks, blockOffsets)
    && Stacked(kappas, blockOffsets, Words(kappas))
    && Words(kappas) <= Pow2(log)
  }

  lemma OwnOffset(offsets: seq<Option<nat>>, blocks: seq<nat>, blockOffsets: seq<nat>, logMemory: nat, logBytecode: nat,
                  rows: seq<nat>, log: nat, c: nat) returns (b: nat)
    requires |rows| == N_TABLES && Blocks(offsets, blocks, blockOffsets, logMemory, logBytecode, rows, log)
    requires c < N_COLUMNS && OwnBlock(c)
    ensures b < |blocks| == |blockOffsets| && blocks[b] == c && offsets[c] == Some(blockOffsets[b])
    ensures BlockKappas(logMemory, logBytecode, rows, blocks)[b] == Kappa(logMemory, logBytecode, rows, c)
    ensures FitsAt(Slot(Kappa(logMemory, logBytecode, rows, c), blockOffsets[b]), log)
  {
    hide OwnBlock, Pow2, Kappa, Words;
    assert c in blocks;
    b :| 0 <= b < |blocks| && blocks[b] == c;
    assert BlockKappas(logMemory, logBytecode, rows, blocks)[b] == BlockKappa(logMemory, logBytecode, rows, blocks, b);
  }

  lemma OwnSlotsApart(offsets: seq<Option<nat>>, blocks: seq<nat>, blockOffsets: seq<nat>, logMemory: nat, logBytecode: nat,
                      rows: seq<nat>, log: nat, c: nat, d: nat)
    requires |rows| == N_TABLES && Blocks(offsets, blocks, blockOffsets, logMemory, logBytecode, rows, log)
    requires c < N_COLUMNS && d < N_COLUMNS && c != d && OwnBlock(c) && OwnBlock(d)
    ensures offsets[c].Some? && offsets[d].Some?
    ensures Apart(Slot(Kappa(logMemory, logBytecode, rows, c), offsets[c].value),
                  Slot(Kappa(logMemory, logBytecode, rows, d), offsets[d].value))
  {
    var a := OwnOffset(offsets, blocks, blockOffsets, logMemory, logBytecode, rows, log, c);
    var b := OwnOffset(offsets, blocks, blockOffsets, logMemory, logBytecode, rows, log, d);
    hide OwnBlock, Pow2, Kappa, Words, Stacked, IsOwnList, Scattered;
    var kappas := BlockKappas(logMemory, logBytecode, rows, blocks);
    forall u: nat
      ensures !(Holds(Slot(kappas[a], blockOffsets[a]), u) && Holds(Slot(kappas[b], blockOffsets[b]), u))
    {
      RunsApart(kappas, blockOffsets, Words(kappas), a, b, u);
    }
  }

  /** Slots of 2^k words inside a block of 64 of them. */
  lemma RiderFits(index: nat, slot: nat, k: nat, log: nat)
    requires slot < 64 && FitsAt(Slot(k + SLOT_BITS, index), log)
    ensures FitsAt(Slot(k, index + slot * Pow2(k)), log)
    ensures Within(Slot(k, index + slot * Pow2(k)), Slot(k + SLOT_BITS, index))
  {
    hide Pow2;
    var w := Pow2(k);
    SixtyFour(k);
    var q := index / (64 * w);
    assert index == q * (64 * w);
    assert index + slot * w == (64 * q + slot) * w;
    DivUnique(index + slot * w, w, 64 * q + slot, 0);
    assert (63 - slot) * w >= 0 && slot * w >= 0;
  }

  lemma SixtyFour(k: nat)
    ensures Pow2(k + SLOT_BITS) == 64 * Pow2(k)
  {
    Pow2Add(k, 6);
    assert Pow2(6) == 64;
  }

  lemma RidersDistinct(index: nat, a: nat, b: nat, k: nat)
    requires a != b
    ensures Apart(Slot(k, index + a * Pow2(k)), Slot(k, index + b * Pow2(k)))
  {
    hide Pow2;
    var w := Pow2(k);
    MulStep(a, b, w);
    MulStep(b, a, w);
    var p, q := a * w, b * w;
    assert p + w <= q || q + w <= p;
    var s, t := Slot(k, index + p), Slot(k, index + q);
    assert forall u: nat :: !(Holds(s, u) && Holds(t, u));
  }

  /** The slots of a layout: every committed column's, aligned and inside; own blocks apart; riders
      inside q_keccak's block and apart. */
  ghost predicate IsLayout(slots: seq<Option<Slot>>, logMemory: nat, logBytecode: nat, rows: seq<nat>, log: nat)
    requires |rows| == N_TABLES
  {
    && |slots| == N_COLUMNS
    && Placed(slots, logMemory, logBytecode, rows, log)
    && OwnApart(slots) && RidersWithin(slots) && RidersApart(slots)
  }

  lemma ColumnFits(offsets: seq<Option<nat>>, blocks: seq<nat>, blockOffsets: seq<nat>, logMemory: nat, logBytecode: nat,
                   rows: seq<nat>, log: nat, c: nat)
    requires |rows| == N_TABLES && Blocks(offsets, blocks, blockOffsets, logMemory, logBytecode, rows, log) && c < N_COLUMNS
    ensures |offsets| == N_COLUMNS && offsets[QKECCAK].Some?
    ensures var s := SlotOf(offsets, Kappa(logMemory, logBytecode, rows, c), c);
      s.Some? == !IsKeccakOutput(c) && (s.Some? ==> s.value.variables == Kappa(logMemory, logBytecode, rows, c) && FitsAt(s.value, log))
  {
    OwnQKeccak();
    var q := OwnOffset(offsets, blocks, blockOffsets, logMemory, logBytecode, rows, log, QKECCAK);
    if QKeccakSlot(c).Some? {
      hide QKeccakSlot, OwnBlock, Pow2, Words, Stacked, IsOwnList, Scattered;
      RidingColumns(c);
      SlotsDistinct(c, c);
      RiderFits(blockOffsets[q], QKeccakSlot(c).value, HeightAt(rows, 5), log);
    } else if IsKeccakOutput(c) {
      hide QKeccakSlot, Pow2, Words, Stacked, Kappa;
      assert c !in blocks;
    } else {
      var b := OwnOffset(offsets, blocks, blockOffsets, logMemory, logBytecode, rows, log, c);
    }
  }

  ghost predicate SlotsAre(slots: seq<Option<Slot>>, offsets: seq<Option<nat>>, logMemory: nat, logBytecode: nat, rows: seq<nat>, n: nat)
    requires |rows| == N_TABLES
  {
    && |slots| == |offsets| == N_COLUMNS && n <= N_COLUMNS && offsets[QKECCAK].Some?
    && forall c :: 0 <= c < n ==> slots[c] == SlotOf(offsets, Kappa(logMemory, logBytecode, rows, c), c)
  }

  lemma SlotsLayout(slots: seq<Option<Slot>>, offsets: seq<Option<nat>>, blocks: seq<nat>, blockOffsets: seq<nat>, logMemory: nat,
                    logBytecode: nat, rows: seq<nat>, log: nat)
    requires |rows| == N_TABLES && Blocks(offsets, blocks, blockOffsets, logMemory, logBytecode, rows, log)
    requires SlotsAre(slots, offsets, logMemory, logBytecode, rows, N_COLUMNS)
    ensures IsLayout(slots, logMemory, logBytecode, rows, log)
  {
    hide Blocks, QKeccakSlot, Pow2, Apart, Within, FitsAt, Kappa;
    forall c | 0 <= c < N_COLUMNS
      ensures slots[c].Some? == !IsKeccakOutput(c)
      ensures slots[c].Some? ==>
                slots[c].value.variables == Kappa(logMemory, logBytecode, rows, c) && FitsAt(slots[c].value, log)
    {
      ColumnFits(offsets, blocks, blockOffsets, logMemory, logBytecode, rows, log, c);
    }
    forall c, d | 0 <= c < N_COLUMNS && 0 <= d < N_COLUMNS && c != d && OwnBlock(c) && OwnBlock(d)
      ensures slots[c].Some? && slots[d].Some? ==> Apart(slots[c].value, slots[d].value)
    {
      OwnSlotsApart(offsets, blocks, blockOffsets, logMemory, logBytecode, rows, log, c, d);
    }
    forall c | 0 <= c < N_COLUMNS && QKeccakSlot(c).Some?
      ensures slots[c].Some? && slots[QKECCAK].Some? ==> Within(slots[c].value, slots[QKECCAK].value)
    {
      RiderWithin(offsets, blocks, blockOffsets, logMemory, logBytecode, rows, log, c);
    }
    forall c, d | 0 <= c < N_COLUMNS && 0 <= d < N_COLUMNS && c != d && QKeccakSlot(c).Some? && QKeccakSlot(d).Some?
      ensures slots[c].Some? && slots[d].Some? ==> Apart(slots[c].value, slots[d].value)
    {
      TwoRiders(offsets, logMemory, logBytecode, rows, c, d);
    }
  }

  lemma RiderWithin(offsets: seq<Option<nat>>, blocks: seq<nat>, blockOffsets: seq<nat>, logMemory: nat, logBytecode: nat,
                    rows: seq<nat>, log: nat, c: nat)
    requires |rows| == N_TABLES && Blocks(offsets, blocks, blockOffsets, logMemory, logBytecode, rows, log)
    requires c < N_COLUMNS && QKeccakSlot(c).Some?
    ensures |offsets| == N_COLUMNS && offsets[QKECCAK].Some?
    ensures Within(SlotOf(offsets, Kappa(logMemory, logBytecode, rows, c), c).value,
                   SlotOf(offsets, Kappa(logMemory, logBytecode, rows, QKECCAK), QKECCAK).value)
  {
    OwnQKeccak();
    var q := OwnOffset(offsets, blocks, blockOffsets, logMemory, logBytecode, rows, log, QKECCAK);
    assert QKeccakSlot(QKECCAK).None?;
    hide QKeccakSlot, OwnBlock, Pow2, Words, Stacked, IsOwnList, Scattered;
    RidingColumns(c);
    SlotsDistinct(c, c);
    RiderFits(blockOffsets[q], QKeccakSlot(c).value, HeightAt(rows, 5), log);
  }

  lemma TwoRiders(offsets: seq<Option<nat>>, logMemory: nat, logBytecode: nat, rows: seq<nat>, c: nat, d: nat)
    requires |rows| == N_TABLES && |offsets| == N_COLUMNS && offsets[QKECCAK].Some? && c < N_COLUMNS && d < N_COLUMNS && c != d
    requires QKeccakSlot(c).Some? && QKeccakSlot(d).Some?
    ensures Apart(SlotOf(offsets, Kappa(logMemory, logBytecode, rows, c), c).value,
                  SlotOf(offsets, Kappa(logMemory, logBytecode, rows, d), d).value)
  {
    hide QKeccakSlot, Pow2, Apart;
    RidingColumns(c);
    RidingColumns(d);
    SlotsDistinct(c, d);
    RidersDistinct(offsets[QKECCAK].value, QKeccakSlot(c).value, QKeccakSlot(d).value, HeightAt(rows, 5));
  }

  // ---- the whole of it -------------------------------------------------------------------------

  predicate SizesAllowed(logMemory: nat, rows: seq<nat>, logBytes: nat) {
    && 16 <= logMemory <= 32
    && (forall t :: 0 <= t < |rows| ==> rows[t] <= 0x1_0000_0000)
    && 4 <= logBytes <= 36
  }

  /** The words of the columns with a block of their own. */
  function PlacedWords(logMemory: nat, logBytecode: nat, rows: seq<nat>): nat
    requires |rows| == N_TABLES
  {
    Words(BlockKappas(logMemory, logBytecode, rows, OwnColumns(N_COLUMNS)))
  }

  /** The log of the stack for that many words. */
  function StackLog(placed: nat): nat {
    Max(MIN_STACKED_LOG, LogCeil(placed))
  }

  ghost predicate LaidOut(layout: Layout, slots: seq<Option<Slot>>, logMemory: nat, logBytecode: nat, rows: seq<nat>)
    requires |rows| == N_TABLES
  {
    && layout.placed == PlacedWords(logMemory, logBytecode, rows)
    && layout.stackLog == StackLog(layout.placed)
    && layout.logMemory == logMemory && layout.logBytecode == logBytecode
    && |layout.heights| == N_TABLES && (forall t :: 0 <= t < N_TABLES ==> layout.heights[t] == HeightAt(rows, t))
    && IsLayout(slots, logMemory, logBytecode, rows, layout.stackLog)
  }

  /** What the sizes announced make of it. */
  function Verdict(logMemory: nat, rows: seq<nat>, bytecodeLength: nat): (e: Option<Error>)
    requires |rows| == N_TABLES
  {
    var log := LogStrict(bytecodeLength);
    if log.Err? then Some(NotPowerOfTwo)
    else if !SizesAllowed(logMemory, rows, log.value) then Some(AnnouncedTableSizes)
    else if StackLog(PlacedWords(logMemory, log.value - 4, rows)) > MAX_STACKED_LOG then Some(CommittedSize)
    else None
  }

  lemma CeilAtMost(value: nat, ceil: nat, k: nat)
    requires IsLogCeil(value, ceil)
    ensures ceil <= k <==> value <= Pow2(k)
  {
    hide Pow2;
    if ceil <= k {
      Pow2Mono(ceil, k);
    } else {
      Pow2Mono(k, ceil - 1);
    }
  }

  /** A table's height is the least that holds its rows, and 9 at least for KECCAK's. */
  lemma HeightLeast(rows: nat, t: nat, h: nat)
    ensures Height(rows, t) <= h <==> rows <= Pow2(h) && (t == 5 ==> 9 <= h)
  {
    hide LogCeil, Pow2;
    LogCeilIs(rows);
    CeilAtMost(rows, LogCeil(rows), h);
  }

  /** The stack's log is the least from 15 up that holds the words. */
  lemma StackLogLeast(placed: nat, log: nat)
    ensures StackLog(placed) <= log <==> placed <= Pow2(log) && 15 <= log
  {
    hide LogCeil, Pow2;
    LogCeilIs(placed);
    CeilAtMost(placed, LogCeil(placed), log);
  }

  /** The sizes a layout is built for: no others. */
  ghost predicate Accepted(logMemory: nat, rows: seq<nat>, bytecodeLength: nat, log: nat)
    requires |rows| == N_TABLES
  {
    && Pow2(log) == bytecodeLength && 4 <= log <= 36
    && 16 <= logMemory <= 32
    && (forall t :: 0 <= t < 6 ==> rows[t] <= 0x1_0000_0000)
    && PlacedWords(logMemory, log - 4, rows) <= Pow2(28)
  }

  lemma VerdictIs(logMemory: nat, rows: seq<nat>, bytecodeLength: nat)
    requires |rows| == N_TABLES
    ensures Verdict(logMemory, rows, bytecodeLength).None? <==> exists log :: Accepted(logMemory, rows, bytecodeLength, log)
  {
    hide PlacedWords, StackLog, Pow2;
    var r := LogStrict(bytecodeLength);
    if r.Ok? && r.value >= 4 {
      StackLogLeast(PlacedWords(logMemory, r.value - 4, rows), 28);
    }
    if Verdict(logMemory, rows, bytecodeLength).None? {
      assert Accepted(logMemory, rows, bytecodeLength, r.value);
    }
    if log :| Accepted(logMemory, rows, bytecodeLength, log) {
      assert r.Ok?;
      PowOnce(log, r.value);
    }
  }

  lemma PowLess(m: nat, n: nat)
    requires m < n
    ensures Pow2(m) < Pow2(n)
  {
    Pow2Mono(m, n - 1);
  }

  lemma PowOnce(m: nat, n: nat)
    requires Pow2(m) == Pow2(n)
    ensures m == n
  {
    if m < n {
      PowLess(m, n);
    } else if n < m {
      PowLess(n, m);
    }
  }

  method BuildLayout(logMemory: nat, rows: seq<nat>, bytecodeLength: nat, slots: array<Option<Slot>>) returns (r: Result<Layout>)
    requires |rows| == N_TABLES && slots.Length == N_COLUMNS
    modifies slots
    ensures r.Err? <==> Verdict(logMemory, rows, bytecodeLength).Some?
    ensures r.Err? ==> r.error == Verdict(logMemory, rows, bytecodeLength).value && slots[..] == old(slots[..])
    ensures r.Ok? ==> LaidOut(r.value, slots[..], logMemory, LogStrict(bytecodeLength).value - 4, rows)
  {
    hide LogCeil, IsLayout, Blocks, IsOwnList, Scattered, Stacked, Words, Kappa, QKeccakSlot, SlotOf, OwnColumns;
    var log := LogStrict(bytecodeLength);
    if log.Err? {
      return Err(log.error);
    }
    if !SizesAllowed(logMemory, rows, log.value) {
      return Err(AnnouncedTableSizes);
    }
    var logBytecode := log.value - 4;
    var blocks := OwnBlocks();
    OwnColumnsAre(N_COLUMNS);
    var kappas := BlockKappas(logMemory, logBytecode, rows, blocks);
    var blockOffsets, totalLog := StackOffsets(kappas);
    var offsets, placed := Scatter(blocks, blockOffsets[..], kappas);
    var stackLog := Max(MIN_STACKED_LOG, totalLog);
    if stackLog > MAX_STACKED_LOG {
      return Err(CommittedSize);
    }
    BlocksAre(offsets, blocks, blockOffsets[..], logMemory, logBytecode, rows, stackLog);
    AssignSlots(slots, offsets, logMemory, logBytecode, rows);
    SlotsLayout(slots[..], offsets, blocks, blockOffsets[..], logMemory, logBytecode, rows, stackLog);
    r := Ok(Layout(logMemory, logBytecode, seq(N_TABLES, t requires 0 <= t < N_TABLES => HeightAt(rows, t)), stackLog, placed));
  }

  method AssignSlots(slots: array<Option<Slot>>, offsets: seq<Option<nat>>, logMemory: nat, logBytecode: nat, rows: seq<nat>)
    requires |rows| == N_TABLES && slots.Length == |offsets| == N_COLUMNS && offsets[QKECCAK].Some?
    modifies slots
    ensures SlotsAre(slots[..], offsets, logMemory, logBytecode, rows, N_COLUMNS)
  {
    hide Kappa, QKeccakSlot, SlotOf;
    for column := 0 to N_COLUMNS
      invariant SlotsAre(slots[..], offsets, logMemory, logBytecode, rows, column)
    {
      slots[column] := SlotOf(offsets, Kappa(logMemory, logBytecode, rows, column), column);
    }
  }

  lemma BlocksAre(offsets: seq<Option<nat>>, blocks: seq<nat>, blockOffsets: seq<nat>, logMemory: nat, logBytecode: nat,
                  rows: seq<nat>, log: nat)
    requires |rows| == N_TABLES && IsOwnList(blocks, N_COLUMNS) && Scattered(offsets, blocks, blockOffsets)
    requires Stacked(BlockKappas(logMemory, logBytecode, rows, blocks), blockOffsets, Words(BlockKappas(logMemory, logBytecode, rows, blocks)))
    requires log == StackLog(Words(BlockKappas(logMemory, logBytecode, rows, blocks)))
    ensures Blocks(offsets, blocks, blockOffsets, logMemory, logBytecode, rows, log)
    ensures |offsets| == N_COLUMNS && offsets[QKECCAK].Some?
  {
    hide LogCeil, Words, Pow2, Kappa, Stacked;
    var total := Words(BlockKappas(logMemory, logBytecode, rows, blocks));
    LogCeilIs(total);
    Pow2Mono(LogCeil(total), log);
    OwnQKeccak();
    var b := OwnOffset(offsets, blocks, blockOffsets, logMemory, logBytecode, rows, log, QKECCAK);
  }
}
