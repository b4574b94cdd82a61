/** The bytecode table, sparse (ledger.rs's `program_data`, bytecode.rs): a dictionary of the
    distinct words and, per column, the rows that hold them. It decodes back to the table. */
module SparseTable {
  import opened MerklePaths
  import opened MerkleOpening

  const INDEX_LIMIT: nat := 65536

  /** An entry is its row above sixteen bits of dictionary index. */
  function Entry(row: nat, index: nat): nat {
    row * 65536 + index
  }

  function RowOf(entry: nat): nat {
    entry / 65536
  }

  function IndexOf(entry: nat): nat {
    entry % 65536
  }

  lemma EntryParts(row: nat, index: nat)
    requires index < INDEX_LIMIT
    ensures RowOf(Entry(row, index)) == row && IndexOf(Entry(row, index)) == index
  {
  }

  datatype Sparse = Sparse(dict: seq<nat>, entries: seq<nat>, starts: seq<nat>)

  datatype Option<T> = None | Some(value: T)

  function Word(table: seq<nat>, rows: nat, c: nat, row: nat): nat {
    if c * rows + row < |table| then table[c * rows + row] else 0
  }

  ghost predicate IsDictionary(dict: seq<nat>, table: seq<nat>) {
    Ascending(dict) && |dict| < INDEX_LIMIT && forall w :: w in dict <==> w in table && w != 0
  }

  /** The entry of a nonzero word. */
  function EntryOf(dict: seq<nat>, table: seq<nat>, rows: nat, c: nat, row: nat): nat {
    Entry(row, PartitionPoint(dict, Word(table, rows, c, row)))
  }

  /** The entries of column c's first n rows. */
  function ColumnEntries(dict: seq<nat>, table: seq<nat>, rows: nat, c: nat, n: nat): seq<nat> {
    if n == 0 then []
    else
      ColumnEntries(dict, table, rows, c, n - 1)
      + (if Word(table, rows, c, n - 1) != 0 then [EntryOf(dict, table, rows, c, n - 1)] else [])
  }

  function Column(sp: Sparse, c: nat): seq<nat> {
    if c + 1 < |sp.starts| && sp.starts[c] <= sp.starts[c + 1] <= |sp.entries| then sp.entries[sp.starts[c]..sp.starts[c + 1]] else []
  }

  /** Column c's stretch of the entries, in bounds, lists its nonzero words. */
  ghost predicate ColumnIs(sp: Sparse, table: seq<nat>, rows: nat, c: nat) {
    && c + 1 < |sp.starts| && sp.starts[c] <= sp.starts[c + 1] <= |sp.entries|
    && Column(sp, c) == ColumnEntries(sp.dict, table, rows, c, rows)
  }

  ghost predicate Encodes(sp: Sparse, table: seq<nat>, rows: nat, columns: nat) {
    && IsDictionary(sp.dict, table) && |sp.starts| == columns + 1 && sp.starts[0] == 0 && sp.starts[columns] == |sp.entries|
    && forall c :: 0 <= c < columns ==> ColumnIs(sp, table, rows, c)
  }

  // ---- decoding --------------------------------------------------------------------------------

  /** The word an entry list gives a row; zero for a row it does not list. */
  function LookUp(dict: seq<nat>, entries: seq<nat>, row: nat): nat {
    if entries == [] then 0
    else if RowOf(entries[|entries| - 1]) == row then
      (if IndexOf(entries[|entries| - 1]) < |dict| then dict[IndexOf(entries[|entries| - 1])] else 0)
    else LookUp(dict, entries[..|entries| - 1], row)
  }

  lemma WordListed(dict: seq<nat>, table: seq<nat>, w: nat)
    requires IsDictionary(dict, table) && w in table && w != 0
    ensures PartitionPoint(dict, w) < |dict| && dict[PartitionPoint(dict, w)] == w
  {
    FindQuery(dict, w);
  }

  /** Each row of a column reads back its own word. */
  lemma {:induction false} ColumnDecodes(dict: seq<nat>, table: seq<nat>, rows: nat, c: nat, n: nat, row: nat)
    requires IsDictionary(dict, table)
    ensures LookUp(dict, ColumnEntries(dict, table, rows, c, n), row) == if row < n then Word(table, rows, c, row) else 0
  {
    if n > 0 {
      hide IsDictionary, EntryOf, RowOf, IndexOf, LookUp, ColumnEntries, Word;
      var w, before := Word(table, rows, c, n - 1), ColumnEntries(dict, table, rows, c, n - 1);
      ColumnDecodes(dict, table, rows, c, n - 1, row);
      NextEntry(dict, table, rows, c, n - 1);
      assert before + [] == before;
      if w != 0 {
        EntryNames(dict, table, rows, c, n - 1);
        LookUpLast(dict, before, EntryOf(dict, table, rows, c, n - 1), row);
      }
    }
  }

  lemma NextEntry(dict: seq<nat>, table: seq<nat>, rows: nat, c: nat, n: nat)
    ensures ColumnEntries(dict, table, rows, c, n + 1)
         == ColumnEntries(dict, table, rows, c, n)
            + (if Word(table, rows, c, n) != 0 then [EntryOf(dict, table, rows, c, n)] else [])
  {
  }

  lemma WordInTable(table: seq<nat>, rows: nat, c: nat, row: nat)
    requires Word(table, rows, c, row) != 0
    ensures Word(table, rows, c, row) in table
  {
  }

  /** It names its row and, through the dictionary, the word. */
  lemma EntryNames(dict: seq<nat>, table: seq<nat>, rows: nat, c: nat, row: nat)
    requires IsDictionary(dict, table) && Word(table, rows, c, row) != 0
    ensures var e := EntryOf(dict, table, rows, c, row);
      RowOf(e) == row && IndexOf(e) < |dict| && dict[IndexOf(e)] == Word(table, rows, c, row)
  {
    hide IsDictionary, PartitionPoint, Word, Entry, RowOf, IndexOf;
    var w := Word(table, rows, c, row);
    WordInTable(table, rows, c, row);
    WordListed(dict, table, w);
    DictionarySize(dict, table);
    EntryParts(row, PartitionPoint(dict, w));
  }

  lemma LookUpLast(dict: seq<nat>, entries: seq<nat>, e: nat, row: nat)
    ensures LookUp(dict, entries + [e], row)
         == if RowOf(e) == row then (if IndexOf(e) < |dict| then dict[IndexOf(e)] else 0) else LookUp(dict, entries, row)
  {
    hide RowOf, IndexOf;
    assert (entries + [e])[..|entries|] == entries;
  }

  lemma DictionarySize(dict: seq<nat>, table: seq<nat>)
    requires IsDictionary(dict, table)
    ensures |dict| < INDEX_LIMIT
  {
  }

  /** The sparse form is the table. */
  lemma TableDecodes(sp: Sparse, table: seq<nat>, rows: nat, columns: nat, c: nat, row: nat)
    requires Encodes(sp, table, rows, columns) && c < columns && row < rows
    ensures LookUp(sp.dict, Column(sp, c), row) == Word(table, rows, c, row)
  {
    assert ColumnIs(sp, table, rows, c);
    ColumnDecodes(sp.dict, table, rows, c, rows, row);
  }

  // ---- encoding --------------------------------------------------------------------------------

  function NonZero(table: seq<nat>): (w: seq<nat>)
    ensures forall x :: x in w <==> x in table && x != 0
    ensures |w| <= |table|
  {
    if table == [] then []
    else NonZero(table[..|table| - 1]) + (if table[|table| - 1] != 0 then [table[|table| - 1]] else [])
  }

  ghost predicate StartsRight(sp: Sparse, table: seq<nat>, rows: nat, c: nat) {
    && |sp.starts| == c + 1 && sp.starts[0] == 0 && sp.starts[c] == |sp.entries|
    && forall k :: 0 <= k < c ==> ColumnIs(sp, table, rows, k)
  }

  /** `program_data`'s table: nothing when a row index or a dictionary index would not fit. */
  method Encode(table: seq<nat>, rows: nat, columns: nat) returns (sp: Option<Sparse>)
    requires columns * rows <= |table|
    ensures sp.Some? ==> Encodes(sp.value, table, rows, columns)
    ensures sp.None? ==> rows > INDEX_LIMIT || exists dict :: Ascending(dict) && |dict| >= INDEX_LIMIT && forall w :: w in dict <==> w in table && w != 0
  {
    hide ColumnEntries, PartitionPoint, NonZero, Ascending;
    if rows > INDEX_LIMIT {
      return None;
    }
    var words := NonZero(table);
    var slots := new nat[|words|](_ => 0);
    var count := DistinctPositions(slots, words);
    var dict := slots[..count];
    if count >= INDEX_LIMIT {
      return None;
    }
    var entries: seq<nat>, starts: seq<nat>, c := [], [0], 0;
    assert StartsRight(Sparse(dict, entries, starts), table, rows, 0);
    while c < columns
      invariant 0 <= c <= columns && StartsRight(Sparse(dict, entries, starts), table, rows, c)
    {
      ghost var before := Sparse(dict, entries, starts);
      var column := EncodeColumn(dict, table, rows, columns, c);
      entries := entries + column;
      starts := starts + [|entries|];
      ColumnAdded(before, table, rows, c, column);
      c := c + 1;
    }
    sp := Some(Sparse(dict, entries, starts));
  }

  lemma ColumnAdded(sp: Sparse, table: seq<nat>, rows: nat, c: nat, column: seq<nat>)
    requires StartsRight(sp, table, rows, c) && column == ColumnEntries(sp.dict, table, rows, c, rows)
    ensures StartsRight(Sparse(sp.dict, sp.entries + column, sp.starts + [|sp.entries| + |column|]), table, rows, c + 1)
  {
    hide ColumnEntries;
    var next := Sparse(sp.dict, sp.entries + column, sp.starts + [|sp.entries| + |column|]);
    forall k | 0 <= k < c
      ensures ColumnIs(next, table, rows, k)
    {
      assert ColumnIs(sp, table, rows, k);
      assert next.entries[sp.starts[k]..sp.starts[k + 1]] == sp.entries[sp.starts[k]..sp.starts[k + 1]];
    }
    assert next.entries[sp.starts[c]..|next.entries|] == column;
  }

  method EncodeColumn(dict: seq<nat>, table: seq<nat>, rows: nat, ghost columns: nat, c: nat) returns (column: seq<nat>)
    requires c < columns && columns * rows <= |table|
    ensures column == ColumnEntries(dict, table, rows, c, rows)
  {
    hide PartitionPoint, Entry;
    column := [];
    var row := 0;
    while row < rows
      invariant 0 <= row <= rows && column == ColumnEntries(dict, table, rows, c, row)
    {
      CellInside(columns, rows, c, row);
      var word := table[c * rows + row];
      if word != 0 {
        column := column + [Entry(row, PartitionPoint(dict, word))];
      }
      row := row + 1;
    }
  }

  lemma CellInside(columns: nat, rows: nat, c: nat, row: nat)
    requires c < columns && row < rows
    ensures c * rows + row < columns * rows
  {
    assert columns * rows == c * rows + rows + (columns - c - 1) * rows;
  }
}
