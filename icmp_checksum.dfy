/**
 * The Internet checksum of an ICMP echo request, as ICMPProtocol computes it
 * (RFC 1071): the 16-bit ones'-complement of the ones'-complement sum of the
 * packet's 16-bit words, with the checksum word itself left out of the sum.
 *
 * The board adds the words into a 32-bit accumulator and folds the carries
 * back in twice at the end; the reference definition `OnesSum` adds them one
 * at a time with an end-around carry. `FoldIsOnesSum` shows the two agree.
 */
module IcmpChecksum {
  import opened Common

  const WordBase := 0x1_0000
  const OnesModulus := 0xFFFF

  // ---------------------------------------------------------------------
  // Reference arithmetic
  // ---------------------------------------------------------------------

  /** Ones'-complement addition of two 16-bit words: the carry is added back in. */
  function OnesAdd(a: Word, b: Word): (r: Word)
    ensures r % OnesModulus == (a + b) % OnesModulus
    ensures r == 0 <==> a == 0 && b == 0
  {
    if a + b > 0xFFFF then a + b - 0xFFFF else a + b
  }

  /** The ones'-complement sum of a sequence of words, added left to right. */
  function OnesSum(ws: seq<Word>): Word
  {
    if |ws| == 0 then 0 else OnesAdd(OnesSum(ws[..|ws| - 1]), ws[|ws| - 1])
  }

  /** The ordinary sum of a sequence of words. */
  function Sum(ws: seq<Word>): (r: nat)
    ensures r <= 0xFFFF * |ws|
  {
    if |ws| == 0 then 0 else Sum(ws[..|ws| - 1]) + ws[|ws| - 1]
  }

  lemma {:induction false} SumAppend(a: seq<Word>, b: seq<Word>)
    ensures Sum(a + b) == Sum(a) + Sum(b)
    decreases |b|
  {
    if |b| > 0 {
      assert (a + b)[..|a + b| - 1] == a + b[..|b| - 1];
      SumAppend(a, b[..|b| - 1]);
    } else {
      assert a + b == a;
    }
  }

  /** Extending a prefix by one word adds that word to the sum. */
  lemma SumPrefixStep(ws: seq<Word>, n: nat)
    requires n < |ws|
    ensures Sum(ws[..n + 1]) == Sum(ws[..n]) + ws[n]
  {
    assert ws[..n + 1][..n] == ws[..n];
  }

  lemma SumZero(ws: seq<Word>)
    ensures Sum(ws) == 0 <==> forall i :: 0 <= i < |ws| ==> ws[i] == 0
  {
    if |ws| > 0 {
      SumZero(ws[..|ws| - 1]);
      assert forall i :: 0 <= i < |ws| - 1 ==> ws[..|ws| - 1][i] == ws[i];
    }
  }

  /**
   * The ones'-complement sum is the ordinary sum modulo 0xFFFF, except that
   * a non-zero sum that is a multiple of 0xFFFF is 0xFFFF ("negative zero").
   */
  lemma {:induction false} OnesSumResidue(ws: seq<Word>)
    ensures OnesSum(ws) % OnesModulus == Sum(ws) % OnesModulus
    ensures OnesSum(ws) == 0 <==> Sum(ws) == 0
    decreases |ws|
  {
    if |ws| > 0 {
      var init := ws[..|ws| - 1];
      OnesSumResidue(init);
      ModAddCongruent(OnesSum(init), Sum(init), ws[|ws| - 1]);
    }
  }

  lemma ModAddCongruent(a: int, b: int, c: int)
    requires a >= 0 && b >= 0 && c >= 0
    requires a % OnesModulus == b % OnesModulus
    ensures (a + c) % OnesModulus == (b + c) % OnesModulus
  {
    var qa, qb := a / OnesModulus, b / OnesModulus;
    assert a == qa * OnesModulus + a % OnesModulus;
    assert b == qb * OnesModulus + b % OnesModulus;
    ShiftMod(a % OnesModulus + c, qa);
    ShiftMod(b % OnesModulus + c, qb);
  }

  lemma ShiftMod(x: int, q: int)
    requires x >= 0 && q >= 0
    ensures (q * OnesModulus + x) % OnesModulus == x % OnesModulus
  {
  }

  /** Two words with the same residue modulo 0xFFFF that are zero together are equal. */
  lemma SameWord(a: Word, b: Word)
    requires a % OnesModulus == b % OnesModulus
    requires a == 0 <==> b == 0
    ensures a == b
  {
  }

  // ---------------------------------------------------------------------
  // The board's 32-bit accumulator
  // ---------------------------------------------------------------------

  /**
   * `sum = (sum >> 16) + (sum & 0xFFFF); sum += (sum >> 16);` on a 32-bit
   * sum, then the low 16 bits of the result.
   */
  function Fold(sum: nat): (r: Word)
    requires sum < 0x1_0000_0000
    ensures r % OnesModulus == sum % OnesModulus
    ensures r == 0 <==> sum == 0
  {
    var s1 := sum / WordBase + sum % WordBase;
    var s2 := s1 + s1 / WordBase;
    assert sum == (sum / WordBase) * WordBase + sum % WordBase;
    FoldStep(sum / WordBase, sum % WordBase);
    FoldStep(s1 / WordBase, s1 % WordBase);
    s2 % WordBase
  }

  /** One fold step keeps the residue modulo 0xFFFF. */
  lemma FoldStep(hi: nat, lo: nat)
    ensures (hi * WordBase + lo) % OnesModulus == (hi + lo) % OnesModulus
  {
    assert hi * WordBase + lo == hi * OnesModulus + (hi + lo);
    ShiftMod(hi + lo, hi);
  }

  /** The two carry folds compute the ones'-complement sum of the words. */
  lemma FoldIsOnesSum(ws: seq<Word>)
    requires Sum(ws) < 0x1_0000_0000
    ensures Fold(Sum(ws)) == OnesSum(ws)
  {
    OnesSumResidue(ws);
    SameWord(Fold(Sum(ws)), OnesSum(ws));
  }

  // ---------------------------------------------------------------------
  // Words of a packet
  // ---------------------------------------------------------------------

  /** The packet's bytes read as 16-bit words in the board's (little-endian) memory order. */
  function LeWords(p: seq<Byte>): (ws: seq<Word>)
    requires |p| % 2 == 0
    ensures |ws| == |p| / 2
  {
    seq(|p| / 2, k requires 0 <= k < |p| / 2 => p[2 * k] as int + 256 * (p[2 * k + 1] as int))
  }

  /** The packet's bytes read as 16-bit words in network (big-endian) order. */
  function BeWords(p: seq<Byte>): (ws: seq<Word>)
    requires |p| % 2 == 0
    ensures |ws| == |p| / 2
  {
    seq(|p| / 2, k requires 0 <= k < |p| / 2 => 256 * (p[2 * k] as int) + p[2 * k + 1] as int)
  }

  /** Every word of a packet except word 1, which holds the checksum. */
  function ChecksumInput(p: seq<Byte>): seq<Word>
    requires |p| % 2 == 0 && |p| >= 4
  {
    LeWords(p)[..1] + LeWords(p)[2..]
  }

  /** The checksum word of a packet: the complement of the sum of its other words. */
  function Checksum(p: seq<Byte>): Word
    requires |p| % 2 == 0 && |p| >= 4
  {
    0xFFFF - OnesSum(ChecksumInput(p))
  }

  /**
   * The packet with its checksum stored in bytes 2 and 3, low byte first
   * (`*(uint16_t *)checkSumPos = ~sum` on a little-endian board).
   */
  function WithChecksum(p: seq<Byte>): (r: seq<Byte>)
    requires |p| % 2 == 0 && |p| >= 4
    ensures |r| == |p|
    ensures forall i :: 0 <= i < |p| && i != 2 && i != 3 ==> r[i] == p[i]
    ensures LeWords(r)[1] == Checksum(p)
  {
    p[..2] + [Checksum(p) % 256, Checksum(p) / 256] + p[4..]
  }

  /** Storing the checksum does not change the words it is computed over. */
  lemma ChecksumInputUnchanged(p: seq<Byte>)
    requires |p| % 2 == 0 && |p| >= 4
    ensures ChecksumInput(WithChecksum(p)) == ChecksumInput(p)
  {
  }

  /** The checksum does not depend on what the checksum bytes held before. */
  lemma WithChecksumIgnoresSlot(p: seq<Byte>, q: seq<Byte>)
    requires |p| == |q| && |p| % 2 == 0 && |p| >= 4
    requires p[..2] == q[..2] && p[4..] == q[4..]
    ensures WithChecksum(p) == WithChecksum(q)
  {
    forall i | 0 <= i < |p| && i != 2 && i != 3
      ensures p[i] == q[i]
    {
      if i < 2 {
        assert p[i] == p[..2][i];
      } else {
        assert p[i] == p[4..][i - 4];
      }
    }
    assert LeWords(p)[..1] == LeWords(q)[..1];
    assert LeWords(p)[2..] == LeWords(q)[2..];
  }

  /**
   * A packet carrying the checksum verifies: the ones'-complement sum of all
   * its words, checksum included, is 0xFFFF (section 1 of RFC 1071).
   */
  lemma ChecksumVerifies(p: seq<Byte>)
    requires |p| % 2 == 0 && |p| >= 4
    ensures OnesSum(LeWords(WithChecksum(p))) == 0xFFFF
  {
    var q := WithChecksum(p);
    var rest := ChecksumInput(p);
    var c := Checksum(p);
    ChecksumInputUnchanged(p);
    assert LeWords(q) == LeWords(q)[..1] + [c] + LeWords(q)[2..];
    SumAppend(LeWords(q)[..1] + [c], LeWords(q)[2..]);
    SumAppend(LeWords(q)[..1], [c]);
    SumAppend(LeWords(q)[..1], LeWords(q)[2..]);
    assert Sum([c]) == c;
    assert Sum(LeWords(q)) == Sum(rest) + c;
    OnesSumResidue(rest);
    OnesSumResidue(LeWords(q));
    var f := OnesSum(rest);
    ModAddCongruent(f, Sum(rest), c);
    assert (f + c) % OnesModulus == 0;
    assert Sum(LeWords(q)) != 0 by {
      if f == 0xFFFF { assert Sum(rest) != 0; } else { assert c > 0; }
    }
    SameWord(OnesSum(LeWords(q)), 0xFFFF);
  }

  // ---------------------------------------------------------------------
  // Byte-order independence (section 2(B) of RFC 1071)
  // ---------------------------------------------------------------------

  /** The word with its two bytes exchanged. */
  function Swap(w: Word): Word
  {
    (w % 256) * 256 + w / 256
  }

  lemma SwapResidue(w: Word)
    ensures Swap(w) % OnesModulus == (256 * w) % OnesModulus
    ensures Swap(w) == 0 <==> w == 0
  {
    var h, l := w / 256, w % 256;
    assert 256 * w == h * OnesModulus + (h + 256 * l);
    ShiftMod(h + 256 * l, h);
  }

  lemma ScaleCongruent(a: nat, b: nat)
    requires a % OnesModulus == b % OnesModulus
    ensures (256 * a) % OnesModulus == (256 * b) % OnesModulus
  {
    var qa, qb := a / OnesModulus, b / OnesModulus;
    var r := a % OnesModulus;
    assert 256 * a == (256 * qa) * OnesModulus + 256 * r;
    assert 256 * b == (256 * qb) * OnesModulus + 256 * r;
    ShiftMod(256 * r, 256 * qa);
    ShiftMod(256 * r, 256 * qb);
  }

  /** Ones'-complement addition commutes with exchanging the bytes of both operands. */
  lemma OnesAddSwap(a: Word, b: Word)
    ensures OnesAdd(Swap(a), Swap(b)) == Swap(OnesAdd(a, b))
  {
    var l := OnesAdd(Swap(a), Swap(b));
    var r := Swap(OnesAdd(a, b));
    SwapResidue(a);
    SwapResidue(b);
    SwapResidue(OnesAdd(a, b));
    // l = Swap a + Swap b = 256 a + 256 b = 256 (a + b) = 256 OnesAdd(a, b) = r  (mod 0xFFFF)
    ModAddCongruent(Swap(a), 256 * a, Swap(b));
    ModAddCongruent(Swap(b), 256 * b, 256 * a);
    ScaleCongruent(OnesAdd(a, b), a + b);
    SameWord(l, r);
  }

  /** Summing byte-swapped words gives the byte-swapped sum. */
  lemma {:induction false} OnesSumSwap(ws: seq<Word>, vs: seq<Word>)
    requires |vs| == |ws|
    requires forall k :: 0 <= k < |ws| ==> vs[k] == Swap(ws[k])
    ensures OnesSum(vs) == Swap(OnesSum(ws))
    decreases |ws|
  {
    if |ws| > 0 {
      OnesSumSwap(ws[..|ws| - 1], vs[..|vs| - 1]);
      OnesAddSwap(OnesSum(ws[..|ws| - 1]), ws[|ws| - 1]);
    }
  }

  /**
   * The checksum the board computes in its own byte order also verifies when
   * the receiver adds the packet's words in network byte order.
   */
  lemma ChecksumVerifiesOnTheWire(p: seq<Byte>)
    requires |p| % 2 == 0 && |p| >= 4
    ensures OnesSum(BeWords(WithChecksum(p))) == 0xFFFF
  {
    var q := WithChecksum(p);
    ChecksumVerifies(p);
    WordsSwapped(q);
    OnesSumSwap(LeWords(q), BeWords(q));
    assert Swap(0xFFFF) == 0xFFFF;
  }

  /** A network-order word is the board-order word with its bytes exchanged. */
  lemma WordsSwapped(p: seq<Byte>)
    requires |p| % 2 == 0
    ensures forall k :: 0 <= k < |p| / 2 ==> BeWords(p)[k] == Swap(LeWords(p)[k])
  {
  }
}
