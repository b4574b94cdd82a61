/** A recording is the whole proof (ledger.rs's `Recorder`): two proofs whose accepted recordings are
    the same bytes are the same proof. */
module ProofBinding {
  import opened Rings
  import opened ProofStream

  // ---- bytes back to words ---------------------------------------------------------------------

  lemma {:induction false} WordBack(w: nat, v: nat, n: nat, top: nat)
    requires WordBytes(w, n) == WordBytes(v, n) && w < top && v < top && top == Bytes256(n)
    ensures w == v
    decreases n
  {
    if n > 0 {
      var a, b := WordBytes(w, n), WordBytes(v, n);
      assert a[0] == w % 256 && b[0] == v % 256 && a[1..] == WordBytes(w / 256, n - 1) && b[1..] == WordBytes(v / 256, n - 1);
      WordBack(w / 256, v / 256, n - 1, Bytes256(n - 1));
    }
  }

  function Bytes256(n: nat): (p: nat)
    ensures p > 0
  {
    if n == 0 then 1 else 256 * Bytes256(n - 1)
  }

  lemma EightBytes()
    ensures Bytes256(8) == 0x1_0000_0000_0000_0000
  {
    assert Bytes256(4) == 0x1_0000_0000;
  }

  lemma LimbBack(w: Limb, v: Limb)
    requires WordBytes(w, 8) == WordBytes(v, 8)
    ensures w == v
  {
    EightBytes();
    hide WordBytes, Bytes256;
    WordBack(w, v, 8, Bytes256(8));
  }

  function ScalarBytes(e: Elem): (b: Bytes)
    ensures |b| == 24
  {
    WordBytes(e.c0, 8) + WordBytes(e.c1, 8) + WordBytes(e.c2, 8)
  }

  lemma ScalarBack(e: Elem, f: Elem)
    requires ScalarBytes(e) == ScalarBytes(f)
    ensures e == f
  {
    hide WordBytes;
    var a, b := ScalarBytes(e), ScalarBytes(f);
    assert a[..8] == WordBytes(e.c0, 8) && b[..8] == WordBytes(f.c0, 8);
    assert a[8..16] == WordBytes(e.c1, 8) && b[8..16] == WordBytes(f.c1, 8);
    assert a[16..] == WordBytes(e.c2, 8) && b[16..] == WordBytes(f.c2, 8);
    LimbBack(e.c0, f.c0);
    LimbBack(e.c1, f.c1);
    LimbBack(e.c2, f.c2);
  }

  lemma {:induction false} RowBack(r: seq<Limb>, s: seq<Limb>)
    requires |r| == |s| && RowBytes(r) == RowBytes(s)
    ensures r == s
    decreases |r|
  {
    if r != [] {
      hide WordBytes;
      var a, b := RowBytes(r), RowBytes(s);
      assert a[..8] == WordBytes(r[0], 8) && b[..8] == WordBytes(s[0], 8);
      assert a[8..] == RowBytes(r[1..]) && b[8..] == RowBytes(s[1..]);
      LimbBack(r[0], s[0]);
      RowBack(r[1..], s[1..]);
      assert r == [r[0]] + r[1..] && s == [s[0]] + s[1..];
    }
  }

  // ---- what has been served --------------------------------------------------------------------

  /** Both proofs have the cursor's pieces, and the same ones. */
  ghost predicate Agrees(p: Proof, q: Proof, at: Cursor) {
    && at.scalar <= |p.stream| && at.scalar <= |q.stream| && p.stream[..at.scalar] == q.stream[..at.scalar]
    && at.batches <= |p.merkle| && at.batches <= |q.merkle|
    && (at.batches > 0 ==>
          var a, b := p.merkle[at.batches - 1], q.merkle[at.batches - 1];
          && p.merkle[..at.batches - 1] == q.merkle[..at.batches - 1]
          && at.row <= |a.leafData| && at.row <= |b.leafData| && a.leafData[..at.row] == b.leafData[..at.row]
          && at.sibling <= |a.siblings| && at.sibling <= |b.siblings| && a.siblings[..at.sibling] == b.siblings[..at.sibling])
  }

  lemma OneMoreAgrees<T>(a: seq<T>, b: seq<T>, n: nat)
    requires n < |a| && n < |b| && a[..n] == b[..n] && a[n] == b[n]
    ensures a[..n + 1] == b[..n + 1]
  {
    assert a[..n + 1] == a[..n] + [a[n]] && b[..n + 1] == b[..n] + [b[n]];
  }

  lemma ScalarServed(p: Proof, q: Proof, at: Cursor)
    requires Agrees(p, q, at) && Serve(p, at, Scalar, 24).Ok? && Serve(p, at, Scalar, 24) == Serve(q, at, Scalar, 24)
    ensures Agrees(p, q, Serve(p, at, Scalar, 24).value.1)
  {
    hide WordBytes;
    ScalarBack(p.stream[at.scalar], q.stream[at.scalar]);
    OneMoreAgrees(p.stream, q.stream, at.scalar);
  }

  lemma RowServed(p: Proof, q: Proof, at: Cursor, len: nat)
    requires Agrees(p, q, at) && Serve(p, at, Row, len).Ok? && Serve(p, at, Row, len) == Serve(q, at, Row, len)
    ensures Agrees(p, q, Serve(p, at, Row, len).value.1)
  {
    hide RowBytes;
    var a, b := p.merkle[at.batches - 1], q.merkle[at.batches - 1];
    RowBack(a.leafData[at.row], b.leafData[at.row]);
    OneMoreAgrees(a.leafData, b.leafData, at.row);
  }

  lemma SiblingServed(p: Proof, q: Proof, at: Cursor)
    requires Agrees(p, q, at) && Serve(p, at, Sibling, 32).Ok? && Serve(p, at, Sibling, 32) == Serve(q, at, Sibling, 32)
    ensures Agrees(p, q, Serve(p, at, Sibling, 32).value.1)
  {
    var a, b := p.merkle[at.batches - 1], q.merkle[at.batches - 1];
    OneMoreAgrees(a.siblings, b.siblings, at.sibling);
  }

  lemma WholePhase(p: Proof, q: Proof, at: Cursor)
    requires Agrees(p, q, at) && Done(p, at) && Done(q, at)
    ensures p.merkle[..at.batches] == q.merkle[..at.batches]
  {
    if at.batches > 0 {
      var a, b := p.merkle[at.batches - 1], q.merkle[at.batches - 1];
      assert a.leafData == a.leafData[..at.row] == b.leafData && a.siblings == a.siblings[..at.sibling] == b.siblings;
      OneMoreAgrees(p.merkle, q.merkle, at.batches - 1);
    }
  }

  lemma BatchServed(p: Proof, q: Proof, at: Cursor)
    requires Agrees(p, q, at) && Serve(p, at, Batch, 0).Ok? && Serve(p, at, Batch, 0) == Serve(q, at, Batch, 0)
    ensures Agrees(p, q, Serve(p, at, Batch, 0).value.1)
  {
    WholePhase(p, q, at);
  }

  /** The piece of both proofs that comes next is the same. */
  lemma NextServed(p: Proof, q: Proof, at: Cursor, piece: Piece, len: nat)
    requires Agrees(p, q, at) && Serve(p, at, piece, len).Ok? && Serve(q, at, piece, len).Ok?
    requires Serve(p, at, piece, len).value.0 == Serve(q, at, piece, len).value.0
    ensures Serve(p, at, piece, len) == Serve(q, at, piece, len) && Agrees(p, q, Serve(p, at, piece, len).value.1)
  {
    hide WordBytes, RowBytes, Agrees;
    match piece
    case Scalar => ScalarServed(p, q, at);
    case Batch => BatchServed(p, q, at);
    case Row => RowServed(p, q, at, len);
    case Sibling => SiblingServed(p, q, at);
  }

  /** From a cursor on, one recording leaves one proof. */
  lemma {:induction false} RecordingBindsFrom(p: Proof, q: Proof, v: Verifier, history: seq<Bytes>, at: Cursor, fuel: nat)
    requires WellFormed(p) && WellFormed(q) && Asks(v) && Agrees(p, q, at)
    requires Record(p, v, history, at, fuel).Ok? && Record(p, v, history, at, fuel) == Record(q, v, history, at, fuel)
    ensures p == q
    decreases fuel
  {
    hide Serve, Agrees, WellFormed;
    if v(history).Ask? {
      var Ask(piece, len) := v(history);
      ServedLength(p, at, piece, len);
      ServedLength(q, at, piece, len);
      var (a, next) := Serve(p, at, piece, len).value;
      var (b, next') := Serve(q, at, piece, len).value;
      var all := Record(p, v, history, at, fuel).value;
      assert all[..len] == a && all[..len] == b;
      NextServed(p, q, at, piece, len);
      assert all[len..] == Record(p, v, history + [a], next, fuel - 1).value == Record(q, v, history + [b], next', fuel - 1).value;
      RecordingBindsFrom(p, q, v, history + [a], next, fuel - 1);
    } else {
      AllServed(p, q, at);
    }
  }

  lemma AllServed(p: Proof, q: Proof, at: Cursor)
    requires Agrees(p, q, at) && Consumed(p, at) && Consumed(q, at)
    ensures p == q
  {
    WholePhase(p, q, at);
    assert p.stream == p.stream[..at.scalar] == q.stream;
    assert p.merkle == p.merkle[..at.batches] == q.merkle;
  }

  /** An accepted recording is the whole proof: its stream and its phases are determined by the bytes,
      whatever deterministic verifier asked for them. */
  lemma RecordingBinds(p: Proof, q: Proof, v: Verifier, fuel: nat)
    requires WellFormed(p) && WellFormed(q) && Asks(v)
    requires Record(p, v, [], Cursor(0, 0, 0, 0), fuel).Ok?
    requires Record(p, v, [], Cursor(0, 0, 0, 0), fuel) == Record(q, v, [], Cursor(0, 0, 0, 0), fuel)
    ensures p == q
  {
    hide Record, WellFormed;
    RecordingBindsFrom(p, q, v, [], Cursor(0, 0, 0, 0), fuel);
  }
}
