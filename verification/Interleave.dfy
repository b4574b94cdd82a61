/** Bit-interleaved lanes (keccak.c, gen_asm.py): a 64-bit lane as the word of its even bits and
    the word of its odd bits, so that a 64-bit rotation is two 32-bit ones.

    A machine word is the sequence of its bits, the least significant first. */
module Interleave {
  import opened Multilinear

  type Word = w: seq<bool> | |w| == 32 witness seq(32, _ => false)

  type Lane = w: seq<bool> | |w| == 64 witness seq(64, _ => false)

  // ---- the word operations ---------------------------------------------------------------------

  function Clear(n: nat): (r: seq<bool>)
    ensures |r| == n && forall i :: 0 <= i < n ==> !r[i]
  {
    seq(n, _ => false)
  }

  function XorBits(a: seq<bool>, b: seq<bool>): (r: seq<bool>)
    requires |a| == |b|
    ensures |r| == |a| && forall i :: 0 <= i < |a| ==> r[i] == (a[i] != b[i])
  {
    seq(|a|, i requires 0 <= i < |a| => a[i] != b[i])
  }

  function AndBits(a: seq<bool>, b: seq<bool>): (r: seq<bool>)
    requires |a| == |b|
    ensures |r| == |a| && forall i :: 0 <= i < |a| ==> r[i] == (a[i] && b[i])
  {
    seq(|a|, i requires 0 <= i < |a| => a[i] && b[i])
  }

  function OrBits(a: seq<bool>, b: seq<bool>): (r: seq<bool>)
    requires |a| == |b|
    ensures |r| == |a| && forall i :: 0 <= i < |a| ==> r[i] == (a[i] || b[i])
  {
    seq(|a|, i requires 0 <= i < |a| => a[i] || b[i])
  }

  function NotBits(a: seq<bool>): (r: seq<bool>)
    ensures |r| == |a| && forall i :: 0 <= i < |a| ==> r[i] == !a[i]
  {
    seq(|a|, i requires 0 <= i < |a| => !a[i])
  }

  /** Shifts that drop what leaves the word. */
  function Up(a: seq<bool>, n: nat): (r: seq<bool>)
    requires n <= |a|
    ensures |r| == |a| && forall i :: 0 <= i < |a| ==> r[i] == (n <= i && a[i - n])
  {
    Clear(n) + a[..|a| - n]
  }

  function Down(a: seq<bool>, n: nat): (r: seq<bool>)
    requires n <= |a|
    ensures |r| == |a| && forall i :: 0 <= i < |a| ==> r[i] == (i + n < |a| && a[i + n])
  {
    a[n..] + Clear(n)
  }

  /** Where the bit at i was, n places of w ago. */
  function Back(i: int, n: int, w: int): int {
    if n <= i then i - n else i + w - n
  }

  function Rotl(a: seq<bool>, n: nat): (r: seq<bool>)
    requires n <= |a|
    ensures |r| == |a| && forall i :: 0 <= i < |a| ==> r[i] == a[Back(i, n, |a|)]
  {
    if n == 0 then a else OrBits(Up(a, n), Down(a, |a| - n))
  }

  // ---- one word: even bits to the low half, odd bits to the high half ---------------------------

  /** The masks 0x22222222, 0x0C0C0C0C, 0x00F000F0, 0x0000FF00 for s = 1, 2, 4, 8: the second
      quarter of every 4s bits. */
  function Mask(s: nat): (m: Word)
    ensures forall i :: 0 <= i < 32 ==> m[i] == Second(i, s)
  {
    seq(32, i => Second(i, s))
  }

  predicate Second(i: int, s: nat) {
    if s == 1 then i % 4 == 1
    else if s == 2 then 2 <= i % 8 < 4
    else if s == 4 then 4 <= i % 16 < 8
    else 8 <= i % 32 < 16
  }

  /** x ^= t ^ (t << s) for t = (x ^ (x >> s)) & mask. */
  function Exchange(x: Word, s: nat): Word
    requires 0 < s <= 32
  {
    var t := AndBits(XorBits(x, Down(x, s)), Mask(s));
    XorBits(x, XorBits(t, Up(t, s)))
  }

  function Unzip(x: Word): Word {
    Exchange(Exchange(Exchange(Exchange(x, 1), 2), 4), 8)
  }

  function Zip(x: Word): Word {
    Exchange(Exchange(Exchange(Exchange(x, 8), 4), 2), 1)
  }

  /** An exchange swaps the two middle quarters of every 4s bits. */
  function Swapped(i: nat, s: nat): nat {
    if Second(i, s) then i + s else if s <= i && Third(i, s) then i - s else i
  }

  predicate Third(i: int, s: nat) {
    if s == 1 then i % 4 == 2
    else if s == 2 then 4 <= i % 8 < 6
    else if s == 4 then 8 <= i % 16 < 12
    else 16 <= i % 32 < 24
  }

  /** An index below 32 from its bits. */
  function Index(a: nat, b: nat, c: nat, d: nat, e: nat): nat {
    16 * a + 8 * b + 4 * c + 2 * d + e
  }

  lemma IndexParts(i: nat) returns (a: nat, b: nat, c: nat, d: nat, e: nat)
    requires i < 32
    ensures a < 2 && b < 2 && c < 2 && d < 2 && e < 2 && i == Index(a, b, c, d, e)
  {
    var q := i / 2;
    var r := q / 2;
    var t := r / 2;
    a, b, c, d, e := t / 2, t % 2, r % 2, q % 2, i % 2;
  }

  lemma IndexMods(a: nat, b: nat, c: nat, d: nat, e: nat)
    requires a < 2 && b < 2 && c < 2 && d < 2 && e < 2
    ensures Index(a, b, c, d, e) % 4 == 2 * d + e && Index(a, b, c, d, e) % 8 == 4 * c + 2 * d + e
    ensures Index(a, b, c, d, e) % 16 == 8 * b + 4 * c + 2 * d + e && Index(a, b, c, d, e) % 32 == Index(a, b, c, d, e)
  {
    DivUnique(Index(a, b, c, d, e), 4, 4 * a + 2 * b + c, 2 * d + e);
    DivUnique(Index(a, b, c, d, e), 8, 2 * a + b, 4 * c + 2 * d + e);
    DivUnique(Index(a, b, c, d, e), 16, a, 8 * b + 4 * c + 2 * d + e);
    DivUnique(Index(a, b, c, d, e), 32, 0, Index(a, b, c, d, e));
  }

  /** What a swap does, by the position r of the index in its block. */
  lemma SwapIs(i: nat, s: nat, r: nat)
    requires (s == 1 && r == i % 4) || (s == 2 && r == i % 8) || (s == 4 && r == i % 16) || (s == 8 && r == i % 32)
    ensures Swapped(i, s) == if s <= r < 2 * s then i + s else if 2 * s <= r < 3 * s then i - s else i
  {
  }

  /** A swap exchanges two neighbouring bits of the index. */
  lemma Swap8(a: nat, b: nat, c: nat, d: nat, e: nat)
    requires a < 2 && b < 2 && c < 2 && d < 2 && e < 2
    ensures Swapped(Index(a, b, c, d, e), 8) == Index(b, a, c, d, e)
  {
    hide Swapped;
    IndexMods(a, b, c, d, e);
    SwapIs(Index(a, b, c, d, e), 8, Index(a, b, c, d, e));
  }

  lemma Swap4(a: nat, b: nat, c: nat, d: nat, e: nat)
    requires a < 2 && b < 2 && c < 2 && d < 2 && e < 2
    ensures Swapped(Index(a, b, c, d, e), 4) == Index(a, c, b, d, e)
  {
    hide Swapped;
    IndexMods(a, b, c, d, e);
    SwapIs(Index(a, b, c, d, e), 4, 8 * b + 4 * c + 2 * d + e);
  }

  lemma Swap2(a: nat, b: nat, c: nat, d: nat, e: nat)
    requires a < 2 && b < 2 && c < 2 && d < 2 && e < 2
    ensures Swapped(Index(a, b, c, d, e), 2) == Index(a, b, d, c, e)
  {
    hide Swapped;
    IndexMods(a, b, c, d, e);
    SwapIs(Index(a, b, c, d, e), 2, 4 * c + 2 * d + e);
  }

  lemma Swap1(a: nat, b: nat, c: nat, d: nat, e: nat)
    requires a < 2 && b < 2 && c < 2 && d < 2 && e < 2
    ensures Swapped(Index(a, b, c, d, e), 1) == Index(a, b, c, e, d)
  {
    hide Swapped;
    IndexMods(a, b, c, d, e);
    SwapIs(Index(a, b, c, d, e), 1, 2 * d + e);
  }

  lemma SwapIndex(a: nat, b: nat, c: nat, d: nat, e: nat)
    requires a < 2 && b < 2 && c < 2 && d < 2 && e < 2
    ensures Swapped(Index(a, b, c, d, e), 8) == Index(b, a, c, d, e)
    ensures Swapped(Index(a, b, c, d, e), 4) == Index(a, c, b, d, e)
    ensures Swapped(Index(a, b, c, d, e), 2) == Index(a, b, d, c, e)
    ensures Swapped(Index(a, b, c, d, e), 1) == Index(a, b, c, e, d)
  {
    hide Swapped, Index;
    Swap8(a, b, c, d, e);
    Swap4(a, b, c, d, e);
    Swap2(a, b, c, d, e);
    Swap1(a, b, c, d, e);
  }

  lemma SwapTwice(i: nat, s: nat)
    requires s in {1, 2, 4, 8} && i < 32
    ensures Swapped(i, s) < 32 && Swapped(Swapped(i, s), s) == i
  {
    hide Swapped;
    var a, b, c, d, e := IndexParts(i);
    SwapIndex(a, b, c, d, e);
    SwapIndex(b, a, c, d, e);
    SwapIndex(a, c, b, d, e);
    SwapIndex(a, b, d, c, e);
    SwapIndex(a, b, c, e, d);
  }

  lemma ExchangeBit(x: Word, s: nat, i: nat)
    requires s in {1, 2, 4, 8} && i < 32
    ensures Swapped(i, s) < 32 && Exchange(x, s)[i] == x[Swapped(i, s)]
  {
    hide Second, Third, XorBits, AndBits, Up, Down, Mask;
    SwapTwice(i, s);
    Apart(i, s);
  }

  /** The third quarter is the second, s places on; no bit is moved both ways. */
  lemma Apart(i: nat, s: nat)
    requires s in {1, 2, 4, 8}
    ensures Third(i, s) ==> s <= i && !Second(i, s)
    ensures s <= i ==> Third(i, s) == Second(i - s, s)
  {
    if s <= i {
      var m := 4 * s;
      Borrow(i, s, m);
    }
  }

  lemma Borrow(i: nat, s: nat, m: nat)
    requires s in {1, 2, 4, 8} && m == 4 * s && s <= i
    ensures (i - s) % m == if s <= i % m then i % m - s else i % m - s + m
  {
    var q, r := i / m, i % m;
    if s <= r {
      DivUnique(i - s, m, q, r - s);
    } else {
      DivUnique(i - s, m, q - 1, r - s + m);
    }
  }

  lemma ExchangeTwice(x: Word, s: nat)
    requires s in {1, 2, 4, 8}
    ensures Exchange(Exchange(x, s), s) == x
  {
    hide Exchange, Swapped;
    forall i | 0 <= i < 32
      ensures Exchange(Exchange(x, s), s)[i] == x[i]
    {
      ExchangeBit(x, s, i);
      ExchangeBit(Exchange(x, s), s, i);
      ExchangeBit(x, s, Swapped(i, s));
      SwapTwice(i, s);
    }
  }

  lemma ZipUnzip(x: Word)
    ensures Zip(Unzip(x)) == x && Unzip(Zip(x)) == x
  {
    hide Exchange;
    ExchangeTwice(Exchange(Exchange(Exchange(x, 1), 2), 4), 8);
    ExchangeTwice(Exchange(Exchange(x, 1), 2), 4);
    ExchangeTwice(Exchange(x, 1), 2);
    ExchangeTwice(x, 1);
    ExchangeTwice(Exchange(Exchange(Exchange(x, 8), 4), 2), 1);
    ExchangeTwice(Exchange(Exchange(x, 8), 4), 2);
    ExchangeTwice(Exchange(x, 8), 4);
    ExchangeTwice(x, 8);
  }

  /** The index a bit of the unzipped word comes from. */
  function Unzipped(i: nat): nat {
    if i < 16 then 2 * i else 2 * (i - 16) + 1
  }

  /** The four swaps carry the index's top bit to the bottom. */
  lemma SwapsUnzip(i: nat)
    requires i < 32
    ensures Swapped(Swapped(Swapped(Swapped(i, 8), 4), 2), 1) == Unzipped(i)
  {
    hide Swapped, Unzipped, Index;
    var a, b, c, d, e := IndexParts(i);
    SwapIndex(a, b, c, d, e);
    SwapIndex(b, a, c, d, e);
    SwapIndex(b, c, a, d, e);
    SwapIndex(b, c, d, a, e);
    RotatedIndex(a, b, c, d, e);
  }

  lemma RotatedIndex(a: nat, b: nat, c: nat, d: nat, e: nat)
    requires a < 2 && b < 2 && c < 2 && d < 2 && e < 2
    ensures Index(b, c, d, e, a) == Unzipped(Index(a, b, c, d, e))
  {
  }

  /** Unzipping: the even bits, then the odd ones. */
  lemma UnzipBit(x: Word, i: nat)
    requires i < 32
    ensures Unzip(x)[i] == x[Unzipped(i)]
  {
    hide Exchange, Swapped;
    var i8 := Swapped(i, 8);
    ExchangeBit(Exchange(Exchange(Exchange(x, 1), 2), 4), 8, i);
    var i4 := Swapped(i8, 4);
    ExchangeBit(Exchange(Exchange(x, 1), 2), 4, i8);
    var i2 := Swapped(i4, 2);
    ExchangeBit(Exchange(x, 1), 2, i4);
    ExchangeBit(x, 1, i2);
    SwapsUnzip(i);
  }

  // ---- one lane ----------------------------------------------------------------------------------

  /** The word of a lane's even bits (h = 0) or odd bits (h = 1). */
  function Half(x: Lane, h: nat): (r: Word)
    requires h < 2
    ensures forall i :: 0 <= i < 32 ==> r[i] == x[2 * i + h]
  {
    seq(32, i requires 0 <= i < 32 => x[2 * i + h])
  }

  /** The two words determine the lane. */
  lemma HalvesDetermine(x: Lane, y: Lane)
    requires Half(x, 0) == Half(y, 0) && Half(x, 1) == Half(y, 1)
    ensures x == y
  {
    forall i | 0 <= i < 64
      ensures x[i] == y[i]
    {
      assert Half(x, i % 2)[i / 2] == Half(y, i % 2)[i / 2];
    }
  }

  lemma HalfXor(x: Lane, y: Lane, h: nat)
    requires h < 2
    ensures Half(XorBits(x, y), h) == XorBits(Half(x, h), Half(y, h))
  {
  }

  lemma HalfAnd(x: Lane, y: Lane, h: nat)
    requires h < 2
    ensures Half(AndBits(x, y), h) == AndBits(Half(x, h), Half(y, h))
  {
  }

  lemma HalfNot(x: Lane, h: nat)
    requires h < 2
    ensures Half(NotBits(x), h) == NotBits(Half(x, h))
  {
  }

  /** Which half, turned by how much, is half h of a lane turned by n: an odd n exchanges the
      halves, and the odd bits that become even ones move one place further. */
  function TurnedHalf(n: nat, h: nat): (t: (nat, nat))
    ensures h < 2 ==> t.0 < 2
    ensures n < 64 ==> t.1 <= 32
  {
    if n % 2 == 0 then (h, n / 2) else if h == 0 then (1, (n + 1) / 2) else (0, (n - 1) / 2)
  }

  lemma HalfRotl(x: Lane, n: nat, h: nat)
    requires n < 64 && h < 2
    ensures Half(Rotl(x, n), h) == Rotl(Half(x, TurnedHalf(n, h).0), TurnedHalf(n, h).1)
  {
    hide Rotl, Half;
    var t := TurnedHalf(n, h);
    forall i | 0 <= i < 32
      ensures Half(Rotl(x, n), h)[i] == Rotl(Half(x, t.0), t.1)[i]
    {
      assert Back(2 * i + h, n, 64) == 2 * Back(i, t.1, 32) + t.0;
    }
  }
}
