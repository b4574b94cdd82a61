/** The device's streamed hash (hash.c): a buffer that holds the last block back until more input
    or the end arrives, for three hashes, against each hash's definition on the whole input. */
module HashStreams {
  import opened Multilinear

  datatype Mode = Blake2s | Sha256 | Keccak

  type State = seq<nat>

  type Block = seq<nat>

  /** The primitives, all arbitrary functions: BLAKE2s' compression takes the byte counter and the
      final flag; SHA-256's neither; Keccak absorbs, pads and permutes. */
  datatype Hash = Hash(mode: Mode, init: State, blake: (State, Block, nat, bool) -> State, sha: (State, Block) -> State,
                       absorb: (State, Block) -> State, pad: (State, nat) -> State, permute: State -> State,
                       digest: State -> seq<nat>)

  const RATE_WORDS := 34
  const COUNTER: nat := 0x1_0000_0000

  function BlockWords(mode: Mode): (n: nat)
    ensures n == 16 || n == 34
  {
    if mode == Keccak then 34 else 16
  }

  /** `compress_buf`. */
  function CompressBuf(H: Hash, h: State, block: Block, t: nat, final: bool): State {
    match H.mode
    case Sha256 => H.sha(h, block)
    case Keccak => H.permute(H.absorb(h, block))
    case Blake2s => H.blake(h, block, t, final)
  }

  // ---- the hashes on whole inputs --------------------------------------------------------------

  function BlockAt(msg: seq<nat>, bw: nat, k: nat): Block {
    if k * bw + bw <= |msg| then msg[k * bw..k * bw + bw] else []
  }

  /** The chaining value after k whole blocks, none of them the last. */
  function After(H: Hash, msg: seq<nat>, k: nat): State {
    if k == 0 then H.init
    else CompressBuf(H, After(H, msg, k - 1), BlockAt(msg, BlockWords(H.mode), k - 1), 64 * k % COUNTER, false)
  }

  function Tail(msg: seq<nat>, bw: nat, k: nat): Block {
    if k * bw <= |msg| then msg[k * bw..] else []
  }

  function ZeroPadded(b: Block): (p: Block)
    ensures |b| <= 16 ==> |p| == 16
  {
    if |b| <= 16 then b + seq(16 - |b|, _ => 0) else b
  }

  /** How many blocks: BLAKE2s has one even for no input, raw SHA-256 has none; Keccak's count is
      of the whole ones, before the padded one. */
  function BlockCount(mode: Mode, n: nat): nat {
    match mode
    case Blake2s => if n == 0 then 1 else (n + 15) / 16
    case Sha256 => (n + 15) / 16
    case Keccak => n / 34
  }

  /** BLAKE2s (section 3.3 of RFC 7693), SHA-256's compression over zero-padded blocks, and
      Keccak-256 (sections 4 and 5.1 of FIPS 202 with the original padding). */
  function OneShot(H: Hash, msg: seq<nat>): seq<nat> {
    var n := BlockCount(H.mode, |msg|);
    match H.mode
    case Blake2s =>
      if n == 0 then [] else H.digest(H.blake(After(H, msg, n - 1), ZeroPadded(Tail(msg, 16, n - 1)), 4 * |msg| % COUNTER, true))
    case Sha256 =>
      H.digest(if n == 0 then H.init else H.sha(After(H, msg, n - 1), ZeroPadded(Tail(msg, 16, n - 1))))
    case Keccak =>
      var rest := Tail(msg, 34, n);
      H.digest(H.permute(H.pad(H.absorb(After(H, msg, n), rest), 4 * |rest|)))
  }

  /** How many compressions the definition takes. */
  function Compressions(mode: Mode, n: nat): nat {
    BlockCount(mode, n) + (if mode == Keccak then 1 else 0)
  }

  /** Later input does not touch earlier blocks. */
  lemma {:induction false} AfterGrows(H: Hash, msg: seq<nat>, more: seq<nat>, k: nat)
    requires k * BlockWords(H.mode) <= |msg|
    ensures After(H, msg + more, k) == After(H, msg, k)
  {
    if k > 0 {
      var bw := BlockWords(H.mode);
      assert k * bw == (k - 1) * bw + bw;
      AfterGrows(H, msg, more, k - 1);
      assert BlockAt(msg + more, bw, k - 1) == BlockAt(msg, bw, k - 1);
    }
  }

  // ---- the context -----------------------------------------------------------------------------

  class Context {
    const hash: Hash
    var h: State
    const buf: array<nat>
    var bufWords: nat
    var t: nat
    var compressions: nat
    ghost var fed: seq<nat>
    ghost var blocks: nat

    /** Of the input fed so far, `blocks` blocks are compressed and the rest, never empty after
        any input, waits in the buffer. */
    ghost predicate Valid()
      reads this, buf
    {
      var bw := BlockWords(hash.mode);
      && buf.Length == RATE_WORDS && bufWords <= bw
      && |fed| == blocks * bw + bufWords && (fed == [] ==> blocks == 0) && (fed != [] ==> bufWords > 0)
      && h == After(hash, fed, blocks) && t == 64 * blocks % COUNTER && compressions == blocks
      && buf[..bufWords] == Tail(fed, bw, blocks)
    }

    /** `h_init`. */
    constructor (hash: Hash)
      ensures Valid() && fed == [] && this.hash == hash && fresh(buf)
    {
      this.hash, h, bufWords, t, compressions := hash, hash.init, 0, 0, 0;
      buf := new nat[RATE_WORDS](_ => 0);
      fed, blocks := [], 0;
    }

    /** `h_update_words`: any words, in any number. */
    method Update(w: seq<nat>)
      requires Valid()
      modifies this, buf
      ensures Valid() && fed == old(fed) + w
    {
      hide After, Tail;
      var bw, done := BlockWords(hash.mode), 0;
      assert fed + w[..0] == fed;
      while done < |w|
        invariant 0 <= done <= |w| && Valid() && fed == old(fed) + w[..done]
      {
        if bufWords == bw {
          Flush(bw);
        }
        hide Valid, Flushed;
        var take := if bw - bufWords > |w| - done then |w| - done else bw - bufWords;
        var part := w[done..done + take];
        Append(bw, part);
        assert w[..done] + part == w[..done + take];
        done := done + take;
      }
      assert w[..done] == w;
    }

    /** The held-back block is compressed once more input is there to take its place; the caller
        appends at once. */
    method Flush(bw: nat)
      requires Valid() && bw == BlockWords(hash.mode) && bufWords == bw
      modifies this`h, this`t, this`bufWords, this`compressions, this`blocks
      ensures Flushed(bw) && fed == old(fed)
    {
      hide After, Tail;
      t := (t + 64) % COUNTER;
      h := CompressBuf(hash, h, buf[..bufWords], t, false);
      compressions := compressions + 1;
      bufWords := 0;
      blocks := blocks + 1;
      FlushStep(hash, fed, bw, old(blocks));
    }

    /** Valid, but for an empty buffer. */
    ghost predicate Flushed(bw: nat)
      reads this, buf
    {
      && buf.Length == RATE_WORDS && bufWords == 0 && |fed| == blocks * bw
      && h == After(hash, fed, blocks) && t == 64 * blocks % COUNTER && compressions == blocks
    }

    method Append(bw: nat, part: seq<nat>)
      requires (Valid() || Flushed(bw)) && bw == BlockWords(hash.mode) && part != [] && bufWords + |part| <= bw
      modifies this`bufWords, this`fed, buf
      ensures Valid() && fed == old(fed) + part
    {
      hide After;
      ghost var was := buf[..bufWords];
      forall i | 0 <= i < |part| {
        buf[bufWords + i] := part[i];
      }
      assert buf[..bufWords + |part|] == was + part;
      AppendStep(hash, fed, bw, blocks, part);
      bufWords := bufWords + |part|;
      fed := fed + part;
    }

    /** `h_final`: the digest of everything fed, in exactly the compressions the definition takes. */
    method Final() returns (out: seq<nat>)
      requires Valid()
      modifies this, buf
      ensures fed == old(fed) && compressions == if hash.mode == Sha256 && fed == [] then 1 else Compressions(hash.mode, |fed|)
      ensures out == if hash.mode == Sha256 && fed == [] then hash.digest(hash.sha(hash.init, ZeroPadded([]))) else OneShot(hash, fed)
    {
      hide After, Tail, OneShot, CompressBuf, Compressions;
      FinalBlocks(hash, fed, blocks, bufWords);
      if hash.mode == Keccak {
        if bufWords == RATE_WORDS {
          Flush(34);
        }
        compressions := compressions + 1;
        out := hash.digest(hash.permute(hash.pad(hash.absorb(h, buf[..bufWords]), 4 * bufWords)));
        assert bufWords == 0 ==> buf[..bufWords] == [];
        LastRest(hash, fed, blocks, buf[..bufWords]);
        return;
      }
      ghost var was := buf[..bufWords];
      t := (t + 4 * bufWords) % COUNTER;
      forall i | bufWords <= i < 16 {
        buf[i] := 0;
      }
      assert buf[..16] == ZeroPadded(was);
      LastBlock(hash, fed, blocks, was);
      h := CompressBuf(hash, h, buf[..16], t, true);
      compressions := compressions + 1;
      out := hash.digest(h);
    }
  }

  /** Keccak's last compression is the definition's. */
  lemma LastRest(H: Hash, fed: seq<nat>, k: nat, rest: seq<nat>)
    requires H.mode == Keccak && BlockCount(Keccak, |fed|) == k && rest == Tail(fed, 34, k)
    ensures Compressions(H.mode, |fed|) == k + 1
    ensures H.digest(H.permute(H.pad(H.absorb(After(H, fed, k), rest), 4 * |rest|))) == OneShot(H, fed)
  {
    hide After, Tail;
  }

  /** So is the other hashes', but for raw SHA-256 fed nothing. */
  lemma LastBlock(H: Hash, fed: seq<nat>, k: nat, rest: seq<nat>)
    requires H.mode != Keccak && |fed| == k * 16 + |rest| && (fed == [] ==> k == 0) && rest == Tail(fed, 16, k)
    requires fed != [] ==> BlockCount(H.mode, |fed|) == k + 1
    ensures k + 1 == if H.mode == Sha256 && fed == [] then 1 else Compressions(H.mode, |fed|)
    ensures H.digest(CompressBuf(H, After(H, fed, k), ZeroPadded(rest), (64 * k + 4 * |rest|) % COUNTER, true))
         == if H.mode == Sha256 && fed == [] then H.digest(H.sha(H.init, ZeroPadded([]))) else OneShot(H, fed)
  {
    hide After, Tail;
    NothingFed(H, fed);
  }

  lemma NothingFed(H: Hash, fed: seq<nat>)
    ensures After(H, fed, 0) == H.init && (fed == [] ==> Tail(fed, 16, 0) == [])
  {
  }

  lemma FlushStep(H: Hash, fed: seq<nat>, bw: nat, k: nat)
    requires bw == BlockWords(H.mode) && |fed| == k * bw + bw
    ensures (k + 1) * bw == |fed| && (64 * k % COUNTER + 64) % COUNTER == 64 * (k + 1) % COUNTER
    ensures After(H, fed, k + 1) == CompressBuf(H, After(H, fed, k), Tail(fed, bw, k), 64 * (k + 1) % COUNTER, false)
  {
    assert (k + 1) * bw == k * bw + bw;
    assert BlockAt(fed, bw, k) == Tail(fed, bw, k);
    AddWraps(64 * k, 64);
  }

  lemma AddWraps(a: nat, b: nat)
    ensures (a % COUNTER + b) % COUNTER == (a + b) % COUNTER
  {
    var q, s := a / COUNTER, (a % COUNTER + b) / COUNTER;
    DivUnique(a + b, COUNTER, q + s, (a % COUNTER + b) % COUNTER);
  }

  lemma AppendStep(H: Hash, fed: seq<nat>, bw: nat, k: nat, part: seq<nat>)
    requires bw == BlockWords(H.mode) && k * bw <= |fed|
    ensures After(H, fed + part, k) == After(H, fed, k) && Tail(fed + part, bw, k) == Tail(fed, bw, k) + part
  {
    AfterGrows(H, fed, part, k);
  }

  /** The blocks compressed so far are all but the last of the definition's. */
  lemma FinalBlocks(H: Hash, fed: seq<nat>, k: nat, b: nat)
    requires var bw := BlockWords(H.mode);
      |fed| == k * bw + b && b <= bw && (fed == [] ==> k == 0) && (fed != [] ==> b > 0)
    ensures H.mode != Keccak && fed != [] ==> BlockCount(H.mode, |fed|) == k + 1
    ensures H.mode == Keccak ==> BlockCount(H.mode, |fed|) == if b == 34 then k + 1 else k
    ensures (64 * k % COUNTER + 4 * b) % COUNTER == (64 * k + 4 * b) % COUNTER
    ensures Tail(fed, 34, k + 1) == [] || 34 * (k + 1) < |fed|
  {
    AddWraps(64 * k, 4 * b);
    if H.mode == Keccak {
      DivUnique(|fed|, 34, if b == 34 then k + 1 else k, if b == 34 then 0 else b);
    } else if fed != [] {
      DivUnique(|fed| + 15, 16, k + 1, b - 1);
    }
  }

  /** Any cutting of the input gives the hash of the whole, for every input of the three hashes
      but raw SHA-256's empty one, where a zero block is compressed and the definition has none. */
  method HashPieces(H: Hash, pieces: seq<seq<nat>>) returns (out: seq<nat>, count: nat)
    ensures H.mode != Sha256 || Concat(pieces) != [] ==> out == OneShot(H, Concat(pieces)) && count == Compressions(H.mode, |Concat(pieces)|)
    ensures H.mode == Sha256 && Concat(pieces) == [] ==>
      (out == OneShot(H, []) <==> H.digest(H.sha(H.init, ZeroPadded([]))) == H.digest(H.init)) && count == 1
  {
    hide OneShot;
    var c := new Context(H);
    var i := 0;
    while i < |pieces|
      invariant 0 <= i <= |pieces| && c.Valid() && c.hash == H && c.fed == Concat(pieces[..i])
      invariant fresh(c) && fresh(c.buf)
    {
      c.Update(pieces[i]);
      assert pieces[..i + 1][..i] == pieces[..i];
      i := i + 1;
    }
    assert pieces[..i] == pieces;
    out := c.Final();
    count := c.compressions;
    EmptySha(H);
  }

  lemma EmptySha(H: Hash)
    ensures H.mode == Sha256 ==> OneShot(H, []) == H.digest(H.init)
  {
  }

  function Concat(pieces: seq<seq<nat>>): seq<nat> {
    if pieces == [] then [] else Concat(pieces[..|pieces| - 1]) + pieces[|pieces| - 1]
  }
}
