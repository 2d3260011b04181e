/** Physical memory as bytes, seen as 4 KiB frames of 512 little-endian words. */
module Memory {
  import opened Bits

  const PHYEND := 0x5000_0000

  type Mem = seq<byte>

  /** The n-byte little-endian number that starts at a. */
  function Bytes(s: seq<byte>, a: nat, n: nat): (w: nat)
    requires a + n <= |s|
    ensures w < Pow2(8 * n)
    decreases n
  {
    if n == 0 then 0 else
      assert Pow2(8 * n) == 0x100 * Pow2(8 * (n - 1)) by { Pow2Byte(8 * (n - 1)); }
      s[a] as int + 0x100 * Bytes(s, a + 1, n - 1)
  }

  lemma Pow2Byte(k: nat)
    ensures Pow2(k + 8) == 0x100 * Pow2(k)
  {
    assert Pow2(k + 2) == 4 * Pow2(k);
    assert Pow2(k + 4) == 4 * Pow2(k + 2);
    assert Pow2(k + 6) == 4 * Pow2(k + 4);
  }

  /** The 64-bit word whose eight bytes start at a. */
  function Word(s: seq<byte>, a: nat): (w: u64)
    requires a + 8 <= |s|
  {
    Powers();
    Bytes(s, a, 8)
  }

  /** Byte k of a word, in memory order. */
  function ByteOf(w: nat, k: nat): byte {
    if k == 0 then w % 0x100 else ByteOf(w / 0x100, k - 1)
  }

  /** The n bytes from a hold the low bytes of w. */
  ghost predicate Holds(s: seq<byte>, a: nat, n: nat, w: nat)
    requires a + n <= |s|
  {
    forall x :: a <= x < a + n ==> s[x] == ByteOf(w, x - a)
  }

  /** Storing the bytes of a number and loading them again gives the number back. */
  lemma {:induction false} StoreLoad(s: seq<byte>, a: nat, n: nat, w: nat)
    requires a + n <= |s| && w < Pow2(8 * n) && Holds(s, a, n, w)
    ensures Bytes(s, a, n) == w
    decreases n
  {
    if n != 0 {
      Pow2Byte(8 * (n - 1));
      assert s[a] == ByteOf(w, 0);
      forall x | a + 1 <= x < a + n ensures s[x] == ByteOf(w / 0x100, x - (a + 1)) {
        assert s[x] == ByteOf(w, x - a);
      }
      StoreLoad(s, a + 1, n - 1, w / 0x100);
    }
  }

  /** Equal bytes make equal numbers. */
  lemma {:induction false} SameBytes(s: seq<byte>, a: nat, t: seq<byte>, b: nat, n: nat)
    requires a + n <= |s| && b + n <= |t| && s[a..a + n] == t[b..b + n]
    ensures Bytes(s, a, n) == Bytes(t, b, n)
    decreases n
  {
    if n != 0 {
      assert s[a] == s[a..a + n][0] == t[b];
      assert s[a + 1..a + n] == s[a..a + n][1..] == t[b..b + n][1..] == t[b + 1..b + n];
      SameBytes(s, a + 1, t, b + 1, n - 1);
    }
  }

  predicate HasFrame(m: Mem, f: nat) {
    f * 4096 + 4096 <= |m|
  }

  function Frame(m: Mem, f: nat): (fr: seq<byte>)
    requires HasFrame(m, f)
    ensures |fr| == 4096
  {
    m[f * 4096 .. f * 4096 + 4096]
  }

  /** Word i of a frame. */
  function Entry(fr: seq<byte>, i: nat): u64
    requires |fr| == 4096 && i < 512
  {
    Word(fr, 8 * i)
  }

  lemma FrameSlice(m: Mem, f: nat, b: nat, n: nat)
    requires HasFrame(m, f) && b + n <= 4096
    ensures Frame(m, f)[b..b + n] == m[f * 4096 + b..f * 4096 + b + n]
  {
    var s, t := Frame(m, f)[b..b + n], m[f * 4096 + b..f * 4096 + b + n];
    assert |s| == |t| == n;
    forall x | 0 <= x < n ensures s[x] == t[x] {
      assert s[x] == Frame(m, f)[b + x] == m[f * 4096 + (b + x)];
    }
  }

  lemma EntryIsWord(m: Mem, f: nat, i: nat)
    requires HasFrame(m, f) && i < 512
    ensures Entry(Frame(m, f), i) == Word(m, f * 4096 + 8 * i)
  {
    var a, b := f * 4096, 8 * i;
    hide Frame;
    FrameSlice(m, f, b, 8);
    SameBytes(Frame(m, f), b, m, a + b, 8);
  }

  ghost predicate Zeroed(fr: seq<byte>) {
    forall x :: 0 <= x < |fr| ==> fr[x] == 0
  }

  lemma {:induction false} ZeroBytes(s: seq<byte>, a: nat, n: nat)
    requires a + n <= |s| && Zeroed(s)
    ensures Bytes(s, a, n) == 0
    decreases n
  {
    if n != 0 { ZeroBytes(s, a + 1, n - 1); }
  }

  lemma ZeroedEntries(fr: seq<byte>)
    requires |fr| == 4096 && Zeroed(fr)
    ensures forall i :: 0 <= i < 512 ==> Entry(fr, i) == 0
  {
    forall i | 0 <= i < 512 ensures Entry(fr, i) == 0 { ZeroBytes(fr, 8 * i, 8); }
  }

  /** m and m' agree outside the n bytes from a. */
  ghost predicate OnlyRange(m: Mem, m': Mem, a: nat, n: nat) {
    |m'| == |m| && forall x :: 0 <= x < |m| && !(a <= x < a + n) ==> m'[x] == m[x]
  }

  /** m and m' agree outside frame f. */
  ghost predicate OnlyFrame(m: Mem, m': Mem, f: nat) {
    OnlyRange(m, m', f * 4096, 4096)
  }

  lemma OtherFrames(m: Mem, m': Mem, f: nat)
    requires OnlyFrame(m, m', f)
    ensures forall g: nat :: g != f && HasFrame(m, g) ==> Frame(m', g) == Frame(m, g)
  {
    forall g: nat | g != f && HasFrame(m, g) ensures Frame(m', g) == Frame(m, g) {
      var lo := g * 4096;
      assert forall x :: lo <= x < lo + 4096 ==> m'[x] == m[x];
      assert m'[lo..lo + 4096] == m[lo..lo + 4096];
    }
  }

  /** The word at a is overwritten and nothing else. */
  ghost predicate WordStored(m: Mem, m': Mem, a: nat, w: u64) {
    OnlyRange(m, m', a, 8) && a + 8 <= |m| && Word(m', a) == w
  }

  /** A word that the store does not touch. */
  lemma OtherWord(m: Mem, m': Mem, a: nat, b: nat)
    requires OnlyRange(m, m', a, 8) && b + 8 <= |m| && (b + 8 <= a || a + 8 <= b)
    ensures Word(m', b) == Word(m, b)
  {
    assert m'[b..b + 8] == m[b..b + 8];
    SameBytes(m', b, m, b, 8);
  }

  lemma StoreIntoFrame(m: Mem, m': Mem, f: nat, i: nat, w: u64)
    requires HasFrame(m, f) && i < 512 && WordStored(m, m', f * 4096 + 8 * i, w)
    ensures OnlyFrame(m, m', f)
    ensures Entry(Frame(m', f), i) == w
    ensures forall j :: 0 <= j < 512 && j != i ==> Entry(Frame(m', f), j) == Entry(Frame(m, f), j)
  {
    EntryIsWord(m', f, i);
    forall j | 0 <= j < 512 && j != i
      ensures Entry(Frame(m', f), j) == Entry(Frame(m, f), j)
    {
      hide Word, Entry, Frame;
      EntryIsWord(m', f, j);
      EntryIsWord(m, f, j);
      OtherWord(m, m', f * 4096 + 8 * i, f * 4096 + 8 * j);
    }
  }
}
