/** The proof as a stream: recorded as the host's verifier asks for it (ledger.rs's `Recorder`),
    read back from bytes (`Bytes`), and read on the device from chunks (main.c). Whatever the
    verifier, an accepted recording is accepted again from its bytes, however they are cut. */
module ProofStream {
  import opened Rings

  datatype Piece = Scalar | Batch | Row | Sibling

  datatype Error = StreamExhausted | StreamNotConsumed | Transport | Rejected

  datatype Result<T> = Ok(value: T) | Err(error: Error)

  type Bytes = seq<Byte>

  /** What a deterministic verifier does next, from what it has read. */
  datatype Action = Ask(piece: Piece, len: nat) | End | Reject

  type Verifier = seq<Bytes> -> Action

  /** The fixed lengths a verifier asks for: a scalar is 24 bytes, a batch none, a sibling 32. */
  ghost predicate Asks(v: Verifier) {
    forall h :: v(h).Ask? ==>
      match v(h).piece
      case Scalar => v(h).len == 24
      case Batch => v(h).len == 0
      case Sibling => v(h).len == 32
      case Row => true
  }

  // ---- the recorder ----------------------------------------------------------------------------

  datatype Phase = Phase(leafData: seq<seq<Limb>>, siblings: seq<Bytes>)

  datatype Proof = Proof(stream: seq<Elem>, merkle: seq<Phase>)

  ghost predicate WellFormed(p: Proof) {
    forall b, i :: 0 <= b < |p.merkle| && 0 <= i < |p.merkle[b].siblings| ==> |p.merkle[b].siblings[i]| == 32
  }

  /** A word's n bytes, least significant first. */
  function WordBytes(w: nat, n: nat): (b: Bytes)
    ensures |b| == n
    decreases n
  {
    if n == 0 then [] else [w % 256] + WordBytes(w / 256, n - 1)
  }

  function RowBytes(row: seq<Limb>): (b: Bytes)
    ensures |b| == 8 * |row|
  {
    if row == [] then [] else WordBytes(row[0], 8) + RowBytes(row[1..])
  }

  /** How much of a proof has been served. `batches` counts the phases begun. */
  datatype Cursor = Cursor(scalar: nat, batches: nat, row: nat, sibling: nat)

  predicate Done(p: Proof, at: Cursor) {
    at.batches == 0 || (at.batches <= |p.merkle| && at.row == |p.merkle[at.batches - 1].leafData|
                        && at.sibling == |p.merkle[at.batches - 1].siblings|)
  }

  /** `Recorder::read`. */
  function Serve(p: Proof, at: Cursor, piece: Piece, len: nat): Result<(Bytes, Cursor)> {
    match piece
    case Scalar =>
      if at.scalar >= |p.stream| then Err(StreamExhausted)
      else
        var e := p.stream[at.scalar];
        Ok((WordBytes(e.c0, 8) + WordBytes(e.c1, 8) + WordBytes(e.c2, 8), at.(scalar := at.scalar + 1)))
    case Batch =>
      if at.batches >= |p.merkle| then Err(StreamExhausted)
      else if !Done(p, at) then Err(StreamNotConsumed)
      else Ok(([], Cursor(at.scalar, at.batches + 1, 0, 0)))
    case Row =>
      if at.batches == 0 || at.batches > |p.merkle| || at.row >= |p.merkle[at.batches - 1].leafData| then Err(StreamExhausted)
      else if len != 8 * |p.merkle[at.batches - 1].leafData[at.row]| then Err(Transport)
      else Ok((RowBytes(p.merkle[at.batches - 1].leafData[at.row]), at.(row := at.row + 1)))
    case Sibling =>
      if at.batches == 0 || at.batches > |p.merkle| || at.sibling >= |p.merkle[at.batches - 1].siblings| then Err(StreamExhausted)
      else Ok((p.merkle[at.batches - 1].siblings[at.sibling], at.(sibling := at.sibling + 1)))
  }

  /** `Recorder::finish`. */
  predicate Consumed(p: Proof, at: Cursor) {
    at.scalar == |p.stream| && at.batches == |p.merkle| && Done(p, at)
  }

  lemma ServedLength(p: Proof, at: Cursor, piece: Piece, len: nat)
    requires WellFormed(p) && Serve(p, at, piece, len).Ok?
    requires match piece case Scalar => len == 24 case Batch => len == 0 case Sibling => len == 32 case Row => true
    ensures |Serve(p, at, piece, len).value.0| == len
  {
  }

  /** The verdict of a run of at most `fuel` reads against the recorder, with what it recorded. */
  function Record(p: Proof, v: Verifier, history: seq<Bytes>, at: Cursor, fuel: nat): Result<Bytes>
    decreases fuel
  {
    match v(history)
    case Reject => Err(Rejected)
    case End => if Consumed(p, at) then Ok([]) else Err(StreamNotConsumed)
    case Ask(piece, len) =>
      if fuel == 0 then Err(Rejected)
      else match Serve(p, at, piece, len)
        case Err(e) => Err(e)
        case Ok((bytes, next)) =>
          match Record(p, v, history + [bytes], next, fuel - 1)
          case Err(e) => Err(e)
          case Ok(rest) => Ok(bytes + rest)
  }

  // ---- bytes -----------------------------------------------------------------------------------

  /** The verdict of a run against bytes, from an offset. */
  function Replay(v: Verifier, history: seq<Bytes>, data: Bytes, fuel: nat): Result<()>
    decreases fuel
  {
    match v(history)
    case Reject => Err(Rejected)
    case End => if data == [] then Ok(()) else Err(StreamNotConsumed)
    case Ask(piece, len) =>
      if fuel == 0 then Err(Rejected)
      else if len > |data| then Err(StreamExhausted)
      else Replay(v, history + [data[..len]], data[len..], fuel - 1)
  }

  /** An accepted recording is accepted from its own bytes. */
  lemma {:induction false} RecordedReplays(p: Proof, v: Verifier, history: seq<Bytes>, at: Cursor, fuel: nat)
    requires WellFormed(p) && Asks(v) && Record(p, v, history, at, fuel).Ok?
    ensures Replay(v, history, Record(p, v, history, at, fuel).value, fuel) == Ok(())
    decreases fuel
  {
    if v(history).Ask? {
      var Ask(piece, len) := v(history);
      ServedLength(p, at, piece, len);
      var (bytes, next) := Serve(p, at, piece, len).value;
      RecordedReplays(p, v, history + [bytes], next, fuel - 1);
      var data := Record(p, v, history, at, fuel).value;
      assert data[..len] == bytes && data[len..] == Record(p, v, history + [bytes], next, fuel - 1).value;
    }
  }

  // ---- the sources as they run -----------------------------------------------------------------

  class Recorder {
    const proof: Proof
    var scalar: nat
    var batches: nat
    var row: nat
    var sibling: nat
    var bytes: Bytes

    constructor (proof: Proof)
      ensures this.proof == proof && Now() == Cursor(0, 0, 0, 0) && bytes == []
    {
      this.proof, scalar, batches, row, sibling, bytes := proof, 0, 0, 0, 0, [];
    }

    function Now(): Cursor
      reads this
    {
      Cursor(scalar, batches, row, sibling)
    }

    method Read(piece: Piece, len: nat) returns (r: Result<Bytes>)
      modifies this
      ensures match Serve(proof, old(Now()), piece, len)
              case Err(e) => r == Err(e) && bytes == old(bytes)
              case Ok((out, next)) => r == Ok(out) && Now() == next && bytes == old(bytes) + out
    {
      var served := Serve(proof, Now(), piece, len);
      if served.Err? {
        return Err(served.error);
      }
      var (out, next) := served.value;
      scalar, batches, row, sibling := next.scalar, next.batches, next.row, next.sibling;
      bytes := bytes + out;
      r := Ok(out);
    }
  }

  /** A verdict's bytes, behind those already recorded. */
  function Behind(prefix: Bytes, r: Result<Bytes>): Result<Bytes> {
    match r
    case Err(e) => Err(e)
    case Ok(rest) => Ok(prefix + rest)
  }

  lemma BehindTwice(a: Bytes, b: Bytes, r: Result<Bytes>)
    ensures Behind(a, Behind(b, r)) == Behind(a + b, r)
  {
    if r.Ok? {
      assert a + (b + r.value) == a + b + r.value;
    }
  }

  lemma BehindNothing(r: Result<Bytes>)
    ensures Behind([], r) == r
  {
    if r.Ok? {
      assert [] + r.value == r.value;
    }
  }

  /** One step of a recording run. */
  lemma RecordStep(p: Proof, v: Verifier, history: seq<Bytes>, at: Cursor, fuel: nat)
    ensures v(history).Reject? || (v(history).Ask? && fuel == 0) ==> Record(p, v, history, at, fuel) == Err(Rejected)
    ensures v(history).End? ==> Record(p, v, history, at, fuel) == if Consumed(p, at) then Ok([]) else Err(StreamNotConsumed)
    ensures v(history).Ask? && fuel > 0 ==>
      Record(p, v, history, at, fuel)
      == match Serve(p, at, v(history).piece, v(history).len)
         case Err(e) => Err(e)
         case Ok((bytes, next)) => Behind(bytes, Record(p, v, history + [bytes], next, fuel - 1))
  {
    hide Serve, Consumed;
  }

  /** Verifying while recording (`device_stream`'s first run). */
  method RunRecorder(p: Proof, v: Verifier, fuel: nat) returns (r: Result<Bytes>)
    ensures r == Record(p, v, [], Cursor(0, 0, 0, 0), fuel)
  {
    hide Record, Serve, Consumed, Behind;
    var source := new Recorder(p);
    var history, left: nat := [], fuel;
    BehindNothing(Record(p, v, [], Cursor(0, 0, 0, 0), fuel));
    while true
      invariant fresh(source) && source.proof == p
      invariant Record(p, v, [], Cursor(0, 0, 0, 0), fuel) == Behind(source.bytes, Record(p, v, history, source.Now(), left))
      decreases left
    {
      var action := v(history);
      RecordStep(p, v, history, source.Now(), left);
      if action.Reject? || (action.Ask? && left == 0) {
        BehindError(source.bytes, Rejected);
        return Err(Rejected);
      } else if action.End? {
        BehindAll(source.bytes);
        BehindError(source.bytes, StreamNotConsumed);
        return if Consumed(p, source.Now()) then Ok(source.bytes) else Err(StreamNotConsumed);
      }
      ghost var was := source.bytes;
      var out := source.Read(action.piece, action.len);
      if out.Err? {
        BehindError(was, out.error);
        return Err(out.error);
      }
      BehindTwice(was, out.value, Record(p, v, history + [out.value], source.Now(), left - 1));
      history, left := history + [out.value], left - 1;
    }
  }

  lemma BehindError(prefix: Bytes, e: Error)
    ensures Behind(prefix, Err(e)) == Err(e)
  {
  }

  lemma BehindAll(prefix: Bytes)
    ensures Behind(prefix, Ok([])) == Ok(prefix)
  {
    assert prefix + [] == prefix;
  }

  const CHUNK := 255

  /** What the host will send, up to a chunk that carries nothing. */
  function Sendable(chunks: seq<Bytes>): Bytes {
    if chunks == [] || chunks[0] == [] then [] else chunks[0] + Sendable(chunks[1..])
  }

  /** main.c's stream: the chunk at hand and the chunks the host has yet to send. */
  class Device {
    var chunk: Bytes
    var chunkAt: nat
    var total: nat
    var taken: nat
    var failed: bool
    var coming: seq<Bytes>

    constructor (total: nat, chunks: seq<Bytes>)
      ensures Valid() && !failed && this.total == total && taken == 0 && Ahead() == Sendable(chunks)
    {
      chunk, chunkAt, this.total, taken, failed, coming := [], 0, total, 0, false, chunks;
    }

    ghost predicate Valid()
      reads this
    {
      chunkAt <= |chunk| && taken <= total
    }

    /** The bytes the device can still get. */
    ghost function Ahead(): Bytes
      reads this
      requires Valid()
    {
      chunk[chunkAt..] + Sendable(coming)
    }

    /** `next_chunk`: false when the host sends nothing. */
    method NextChunk() returns (ok: bool)
      requires Valid() && chunkAt == |chunk|
      modifies this`chunk, this`chunkAt, this`coming
      ensures Valid() && Ahead() == old(Ahead()) && ok == (old(Ahead()) != []) && (ok ==> chunkAt < |chunk|)
    {
      if coming == [] || coming[0] == [] {
        return false;
      }
      chunk, chunkAt, coming := coming[0], 0, coming[1..];
      ok := true;
    }

    /** As much of the chunk at hand as is wanted. */
    method Take(most: nat) returns (part: Bytes)
      requires Valid() && chunkAt < |chunk| && 0 < most <= total - taken
      modifies this`chunkAt, this`taken
      ensures Valid() && 1 <= |part| <= most && taken == old(taken) + |part| && part + Ahead() == old(Ahead())
    {
      hide Sendable;
      var n := if |chunk| - chunkAt > most then most else |chunk| - chunkAt;
      part := chunk[chunkAt..chunkAt + n];
      assert chunk[chunkAt..] == part + chunk[chunkAt + n..];
      chunkAt, taken := chunkAt + n, taken + n;
    }

    /** `leanvm_read`: the next bytes, or a failure that lasts. */
    method Read(len: nat) returns (r: Result<Bytes>)
      requires Valid()
      modifies this
      ensures Valid() && total == old(total)
      ensures var can := !old(failed) && len <= old(total) - old(taken) && len <= |old(Ahead())|;
        && failed == !can
        && (!can ==> r == Err(StreamExhausted))
        && (can ==> r == Ok(old(Ahead())[..len]) && Ahead() == old(Ahead())[len..] && taken == old(taken) + len)
    {
      hide Sendable, Ahead;
      if failed || len > total - taken {
        failed := true;
        return Err(StreamExhausted);
      }
      var out: Bytes, left := [], len;
      ghost var all := Ahead();
      while left > 0
        invariant 0 <= left <= len && |out| + left == len && Valid() && !failed && total == old(total)
        invariant taken == old(taken) + |out| && out + Ahead() == all
      {
        if chunkAt == |chunk| {
          var more := NextChunk();
          if !more {
            failed := true;
            return Err(StreamExhausted);
          }
        }
        ghost var before := out;
        var part := Take(left);
        assert before + (part + Ahead()) == before + part + Ahead();
        out, left := out + part, left - |part|;
      }
      assert all[..len] == out && all[len..] == Ahead();
      r := Ok(out);
    }

    /** `leanvm_end`: everything promised was taken, and nothing of the chunk at hand is left over.
        When the host promised what it has to send, that is that no byte is left. */
    method Finish() returns (ok: bool)
      requires Valid()
      ensures ok <==> taken == total && Ahead() == Sendable(coming)
      ensures |Ahead()| == total - taken ==> (ok <==> Ahead() == [])
    {
      ok := taken == total && chunkAt == |chunk|;
    }
  }

  /** The stream cut into the host's chunks of 1 to 255 bytes. */
  predicate Cut(data: Bytes, chunks: seq<Bytes>) {
    Sendable(chunks) == data && forall i :: 0 <= i < |chunks| ==> 1 <= |chunks[i]| <= CHUNK
  }

  function Sizes(chunks: seq<Bytes>): (n: seq<nat>)
    ensures |n| == |chunks| && forall i :: 0 <= i < |n| ==> n[i] == |chunks[i]|
  {
    seq(|chunks|, i requires 0 <= i < |chunks| => |chunks[i]|)
  }

  function TotalSize(sizes: seq<nat>): nat {
    if sizes == [] then 0 else sizes[0] + TotalSize(sizes[1..])
  }

  /** Any sizes from 1 to 255 that add up are a cut, and no others. */
  lemma {:induction false} CutBySizes(data: Bytes, sizes: seq<nat>)
    ensures (TotalSize(sizes) == |data| && forall i :: 0 <= i < |sizes| ==> 1 <= sizes[i] <= 255)
        <==> exists chunks :: Sizes(chunks) == sizes && Cut(data, chunks)
  {
    if TotalSize(sizes) == |data| && forall i :: 0 <= i < |sizes| ==> 1 <= sizes[i] <= 255 {
      var chunks := CutInto(data, sizes);
    }
    if chunks :| Sizes(chunks) == sizes && Cut(data, chunks) {
      CutSizes(data, chunks);
    }
  }

  lemma {:induction false} CutInto(data: Bytes, sizes: seq<nat>) returns (chunks: seq<Bytes>)
    requires TotalSize(sizes) == |data| && forall i :: 0 <= i < |sizes| ==> 1 <= sizes[i] <= 255
    ensures Sizes(chunks) == sizes && Cut(data, chunks)
    decreases |sizes|
  {
    if sizes == [] {
      chunks := [];
    } else {
      var rest := CutInto(data[sizes[0]..], sizes[1..]);
      chunks := [data[..sizes[0]]] + rest;
      assert chunks[1..] == rest && Sizes(chunks) == [sizes[0]] + Sizes(rest);
      assert data == data[..sizes[0]] + data[sizes[0]..];
    }
  }

  lemma {:induction false} CutSizes(data: Bytes, chunks: seq<Bytes>)
    requires Cut(data, chunks)
    ensures TotalSize(Sizes(chunks)) == |data| && forall i :: 0 <= i < |chunks| ==> 1 <= |chunks[i]| <= 255
    decreases |chunks|
  {
    if chunks != [] {
      CutSizes(data[|chunks[0]|..], chunks[1..]);
      assert Sizes(chunks)[1..] == Sizes(chunks[1..]);
    }
  }

  /** The device's run: the verdict does not depend on how the host cut the stream. */
  method RunDevice(v: Verifier, data: Bytes, chunks: seq<Bytes>, fuel: nat) returns (r: Result<()>)
    requires Cut(data, chunks)
    ensures r == Replay(v, [], data, fuel)
  {
    hide Cut, Sendable, Replay;
    CutSends(data, chunks);
    var source := new Device(|data|, chunks);
    var history, left: nat := [], fuel;
    ghost var rest := data;
    while true
      invariant fresh(source) && source.Valid() && !source.failed
      invariant source.Ahead() == rest && |rest| == source.total - source.taken
      invariant Replay(v, [], data, fuel) == Replay(v, history, rest, left)
      decreases left
    {
      var action := v(history);
      ReplayStep(v, history, rest, left);
      if action.Reject? || (action.Ask? && left == 0) {
        return Err(Rejected);
      } else if action.End? {
        var ok := source.Finish();
        return if ok then Ok(()) else Err(StreamNotConsumed);
      }
      var out := source.Read(action.len);
      if out.Err? {
        return Err(out.error);
      }
      rest := rest[action.len..];
      history, left := history + [out.value], left - 1;
    }
  }

  lemma CutSends(data: Bytes, chunks: seq<Bytes>)
    requires Cut(data, chunks)
    ensures Sendable(chunks) == data
  {
  }

  lemma ReplayStep(v: Verifier, history: seq<Bytes>, data: Bytes, fuel: nat)
    ensures v(history).Reject? || (v(history).Ask? && fuel == 0) ==> Replay(v, history, data, fuel) == Err(Rejected)
    ensures v(history).End? ==> Replay(v, history, data, fuel) == if data == [] then Ok(()) else Err(StreamNotConsumed)
    ensures v(history).Ask? && fuel > 0 ==>
      var len := v(history).len;
      Replay(v, history, data, fuel)
      == if len > |data| then Err(StreamExhausted) else Replay(v, history + [data[..len]], data[len..], fuel - 1)
  {
  }

  /** `device_stream`, end to end: what an accepted recording run sent is accepted on the device
      under every split into chunks. */
  method RecordThenVerify(p: Proof, v: Verifier, chunks: seq<Bytes>, fuel: nat) returns (recorded: Result<Bytes>, verdict: Result<()>)
    requires WellFormed(p) && Asks(v)
    ensures recorded == Record(p, v, [], Cursor(0, 0, 0, 0), fuel)
    ensures recorded.Ok? && Cut(recorded.value, chunks) ==> verdict == Ok(())
  {
    hide Record, Replay, Cut, Asks, WellFormed;
    recorded := RunRecorder(p, v, fuel);
    if recorded.Err? {
      return recorded, Err(recorded.error);
    }
    RecordedReplays(p, v, [], Cursor(0, 0, 0, 0), fuel);
    if Cut(recorded.value, chunks) {
      verdict := RunDevice(v, recorded.value, chunks, fuel);
    } else {
      verdict := Err(Transport);
    }
  }
}
