/** The verifier's Keccak state on the device (hash.rs's `State`): bit-interleaved words of which only
    the lanes read or written are converted. */
module KeccakState {
  import opened Interleave
  import opened KeccakRounds
  import opened KeccakPermute
  import opened KeccakEmitted
  import opened KeccakDevice

  /** The words of a lane, from its halves. */
  lemma ZippedLane(x: Lane)
    ensures Join(Zip(Lows(Half(x, 0), Half(x, 1))), Zip(Highs(Half(x, 0), Half(x, 1)))) == x
  {
    hide Half, Zip, Lows, Highs, Join, WordOf;
    JoinWords(x);
    WordsOfHalves(WordOf(x, 0), WordOf(x, 1));
  }

  lemma UnzippedLane(x: Lane)
    ensures Lows(Unzip(x[..32]), Unzip(x[32..])) == Half(x, 0) && Highs(Unzip(x[..32]), Unzip(x[32..])) == Half(x, 1)
  {
    hide Half, Unzip, Lows, Highs;
    HalvesOfWords(x[..32], x[32..]);
    assert Join(x[..32], x[32..]) == x;
  }

  /** Replacing a lane's two halves replaces the lane. */
  lemma LaneReplaced(s: Halves, t: Halves, i: nat, x: Lane)
    requires i < 25 && t == s[2 * i := Half(x, 0)][2 * i + 1 := Half(x, 1)]
    ensures WovenLanes(t) == WovenLanes(s)[i := x]
  {
    hide Half, Weave, WovenLanes;
    var a := WovenLanes(s)[i := x];
    WovenWeaves(s);
    forall k, h | 0 <= k < 25 && 0 <= h < 2
      ensures t[2 * k + h] == Half(a[k], h)
    {
      WeavesAt(s, WovenLanes(s), k, h);
    }
    WeavesAll(t, a);
    WeavesUnique(t, a);
  }

  lemma ZeroLane()
    ensures Weave(Clear(32), Clear(32)) == Clear(64)
  {
  }

  lemma ZeroLanes(s: Halves)
    requires forall j :: 0 <= j < 50 ==> s[j] == Clear(32)
    ensures forall i :: 0 <= i < 25 ==> WovenLanes(s)[i] == Clear(64)
  {
    hide Weave, WovenLanes;
    ZeroLane();
    forall i | 0 <= i < 25
      ensures WovenLanes(s)[i] == Clear(64)
    {
      assert WovenLanes(s)[i] == WovenLane(s, i);
    }
  }

  class State {
    var words: array<Word>

    ghost predicate Valid()
      reads this
    {
      words.Length == 50
    }

    /** The lanes the words stand for. */
    ghost function Lanes(): Lanes
      requires Valid()
      reads this, words
    {
      WovenLanes(words[..])
    }

    constructor ()
      ensures Valid() && fresh(words) && forall i :: 0 <= i < 25 ==> Lanes()[i] == Clear(64)
    {
      words := new Word[50](_ => Clear(32));
      new;
      hide WovenLanes, Weave;
      ZeroLanes(words[..]);
    }

    method Lane(i: nat) returns (x: Lane)
      requires Valid() && i < 25
      ensures x == Lanes()[i]
    {
      hide Half, Zip, Lows, Highs, Join, Weave, WovenLanes;
      var even, odd := words[2 * i], words[2 * i + 1];
      WovenWeaves(words[..]);
      WeavesAt(words[..], Lanes(), i, 0);
      WeavesAt(words[..], Lanes(), i, 1);
      ZippedLane(Lanes()[i]);
      x := Join(Zip(Lows(even, odd)), Zip(Highs(even, odd)));
    }

    method SetLane(i: nat, value: Lane)
      requires Valid() && i < 25
      modifies words
      ensures Valid() && Lanes() == old(Lanes())[i := value]
    {
      hide Half, Unzip, Lows, Highs, Weave, WovenLanes;
      var lo, hi := Unzip(value[..32]), Unzip(value[32..]);
      UnzippedLane(value);
      words[2 * i] := Lows(lo, hi);
      words[2 * i + 1] := Highs(lo, hi);
      LaneReplaced(old(words[..]), words[..], i, value);
    }

    method XorLane(i: nat, value: Lane)
      requires Valid() && i < 25
      modifies words
      ensures Valid() && Lanes() == old(Lanes())[i := XorBits(old(Lanes())[i], value)]
    {
      hide Half, Unzip, Lows, Highs, Weave, WovenLanes, XorBits;
      var lo, hi := Unzip(value[..32]), Unzip(value[32..]);
      UnzippedLane(value);
      WovenWeaves(words[..]);
      WeavesAt(words[..], Lanes(), i, 0);
      WeavesAt(words[..], Lanes(), i, 1);
      HalfXor(Lanes()[i], value, 0);
      HalfXor(Lanes()[i], value, 1);
      words[2 * i] := XorBits(words[2 * i], Lows(lo, hi));
      words[2 * i + 1] := XorBits(words[2 * i + 1], Highs(lo, hi));
      LaneReplaced(old(words[..]), words[..], i, XorBits(old(Lanes())[i], value));
    }

    /** The app's assembly on the words is the permutation of the lanes. */
    method Permute(rc: seq<Word>)
      requires Valid() && |rc| == 48
      modifies words
      ensures Valid() && Lanes() == Rounds(old(Lanes()), Constants(rc), 24)
    {
      hide Weave, WovenLanes, Rounds, Constants, WordsOf, LanesOf;
      LanesOfWords(Lanes());
      PermuteEmitted(words, rc);
      LanesOfWords(Lanes());
      LanesOfWords(Rounds(old(Lanes()), Constants(rc), 24));
    }
  }
}
