/** The three hashes of hash.c as their standards state them, block by block from the input alone: what
    the contexts compute is these. */
module HashStandards {
  import opened Multilinear
  import opened HashStreams

  /** How many of the input's words are in its first k blocks. */
  function Read(bw: nat, msg: seq<nat>, k: nat): (n: nat)
    ensures n <= |msg|
  {
    if k * bw < |msg| && k * bw >= 0 then k * bw else |msg|
  }

  /** The k-th block's words, the last block's perhaps fewer. */
  function Words(bw: nat, msg: seq<nat>, k: nat): seq<nat> {
    if Read(bw, msg, k) <= Read(bw, msg, k + 1) then msg[Read(bw, msg, k)..Read(bw, msg, k + 1)] else []
  }

  /** BLAKE2s (section 3.3 of RFC 7693) after k of n blocks: each block, filled up with zeros, goes in
      with the number of bytes up to its end, and the last one with the flag. */
  function Blake(H: Hash, msg: seq<nat>, k: nat, n: nat): State {
    if k == 0 then H.init
    else H.blake(Blake(H, msg, k - 1, n), ZeroPadded(Words(16, msg, k - 1)), 4 * Read(16, msg, k) % COUNTER, k == n)
  }

  /** The SHA-256 compression over zero-padded blocks. */
  function Sha(H: Hash, msg: seq<nat>, k: nat): State {
    if k == 0 then H.init else H.sha(Sha(H, msg, k - 1), ZeroPadded(Words(16, msg, k - 1)))
  }

  /** Keccak's whole blocks. */
  function Keccak(H: Hash, msg: seq<nat>, k: nat): State {
    if k == 0 then H.init else H.permute(H.absorb(Keccak(H, msg, k - 1), Words(34, msg, k - 1)))
  }

  lemma WholeBlock(bw: nat, msg: seq<nat>, k: nat)
    requires bw > 0 && k * bw + bw <= |msg|
    ensures Words(bw, msg, k) == BlockAt(msg, bw, k) && |BlockAt(msg, bw, k)| == bw
    ensures Read(bw, msg, k + 1) == (k + 1) * bw
  {
    assert (k + 1) * bw == k * bw + bw;
    TimesNat(k, bw);
  }

  lemma LastWords(bw: nat, msg: seq<nat>, k: nat)
    requires bw > 0 && k * bw <= |msg| <= k * bw + bw
    ensures Words(bw, msg, k) == Tail(msg, bw, k) && Read(bw, msg, k + 1) == |msg|
  {
    assert (k + 1) * bw == k * bw + bw;
    TimesNat(k, bw);
  }

  lemma NoPad(b: seq<nat>)
    requires |b| == 16
    ensures ZeroPadded(b) == b
  {
  }

  lemma AfterStep(H: Hash, msg: seq<nat>, k: nat)
    requires k > 0
    ensures After(H, msg, k)
         == match H.mode
            case Blake2s => H.blake(After(H, msg, k - 1), BlockAt(msg, 16, k - 1), 64 * k % COUNTER, false)
            case Sha256 => H.sha(After(H, msg, k - 1), BlockAt(msg, 16, k - 1))
            case Keccak => H.permute(H.absorb(After(H, msg, k - 1), BlockAt(msg, 34, k - 1)))
    ensures After(H, msg, 0) == H.init
  {
    hide BlockAt;
  }

  lemma {:induction false} AfterBlake(H: Hash, msg: seq<nat>, k: nat, n: nat)
    requires H.mode == Blake2s && 16 * k <= |msg| && k < n
    ensures After(H, msg, k) == Blake(H, msg, k, n)
    decreases k
  {
    hide After, ZeroPadded, BlockAt, Words, Read;
    if k == 0 {
      AfterStep(H, msg, 1);
    } else {
      AfterBlake(H, msg, k - 1, n);
      AfterStep(H, msg, k);
      assert (k - 1) * 16 + 16 == 16 * k && k * 16 == 16 * k;
      WholeBlock(16, msg, k - 1);
      NoPad(BlockAt(msg, 16, k - 1));
    }
  }

  lemma {:induction false} AfterSha(H: Hash, msg: seq<nat>, k: nat)
    requires H.mode == Sha256 && 16 * k <= |msg|
    ensures After(H, msg, k) == Sha(H, msg, k)
    decreases k
  {
    hide After, ZeroPadded, BlockAt, Words, Read;
    if k == 0 {
      AfterStep(H, msg, 1);
    } else {
      AfterSha(H, msg, k - 1);
      AfterStep(H, msg, k);
      assert (k - 1) * 16 + 16 == 16 * k;
      WholeBlock(16, msg, k - 1);
      NoPad(BlockAt(msg, 16, k - 1));
    }
  }

  lemma {:induction false} AfterKeccak(H: Hash, msg: seq<nat>, k: nat)
    requires H.mode == HashStreams.Keccak && 34 * k <= |msg|
    ensures After(H, msg, k) == Keccak(H, msg, k)
    decreases k
  {
    hide After, BlockAt, Words, Read;
    if k == 0 {
      AfterStep(H, msg, 1);
    } else {
      AfterKeccak(H, msg, k - 1);
      AfterStep(H, msg, k);
      assert (k - 1) * 34 + 34 == 34 * k;
      WholeBlock(34, msg, k - 1);
    }
  }

  /** BLAKE2s: as many blocks as hold the input, and one for none. */
  lemma OneShotBlake(H: Hash, msg: seq<nat>)
    requires H.mode == Blake2s
    ensures var n := if msg == [] then 1 else (|msg| + 15) / 16;
      OneShot(H, msg) == H.digest(Blake(H, msg, n, n))
  {
    hide After, ZeroPadded, Words, Read, Tail;
    var n := if msg == [] then 1 else (|msg| + 15) / 16;
    assert 16 * (n - 1) <= |msg| <= 16 * n;
    AfterBlake(H, msg, n - 1, n);
    assert (n - 1) * 16 + 16 == 16 * n && (n - 1) * 16 == 16 * (n - 1);
    LastWords(16, msg, n - 1);
  }

  lemma OneShotSha(H: Hash, msg: seq<nat>)
    requires H.mode == Sha256
    ensures OneShot(H, msg) == H.digest(Sha(H, msg, (|msg| + 15) / 16))
  {
    hide After, ZeroPadded, Words, Read, Tail;
    var n := (|msg| + 15) / 16;
    if n > 0 {
      assert 16 * (n - 1) <= |msg| <= 16 * n;
      AfterSha(H, msg, n - 1);
      assert (n - 1) * 16 + 16 == 16 * n && (n - 1) * 16 == 16 * (n - 1);
      LastWords(16, msg, n - 1);
    }
  }

  /** Keccak: the whole blocks, then the rest padded. */
  lemma OneShotKeccak(H: Hash, msg: seq<nat>)
    requires H.mode == HashStreams.Keccak
    ensures var n, rest := |msg| / 34, msg[|msg| - |msg| % 34..];
      OneShot(H, msg) == H.digest(H.permute(H.pad(H.absorb(Keccak(H, msg, n), rest), 4 * |rest|)))
  {
    hide After;
    var n := |msg| / 34;
    assert 34 * n + |msg| % 34 == |msg|;
    AfterKeccak(H, msg, n);
    assert n * 34 == 34 * n;
    assert Tail(msg, 34, n) == msg[|msg| - |msg| % 34..];
  }
}
