/** Types shared by every component: bytes, fixed-size byte strings, 64-bit words and options. */
module Common {

  type Byte = x: int | 0 <= x < 256

  type U64 = x: int | 0 <= x < 0x1_0000_0000_0000_0000

  const WORD: int := 0x1_0000_0000_0000_0000
  const MAX_U64: int := 0xFFFF_FFFF_FFFF_FFFF

  type Hash = h: seq<Byte> | |h| == 32 witness seq(32, _ => 0)
  type Address = a: seq<Byte> | |a| == 20 witness seq(20, _ => 0)
  type PublicKey = k: seq<Byte> | |k| == 33 witness seq(33, _ => 0)
  type PrivateKey = k: seq<Byte> | |k| == 32 witness seq(32, _ => 0)
  type Signature = seq<Byte>

  /** The all-zero hash, which genesis names as its predecessor. */
  function ZeroHash(): Hash
  {
    seq(32, _ => 0)
  }

  function ZeroAddress(): Address
  {
    seq(20, _ => 0)
  }

  datatype Option<+T> = None | Some(value: T)

  /** uint64 addition: the sum modulo 2^64. */
  function Plus(x: U64, y: U64): U64
  {
    if x + y < WORD then x + y else x + y - WORD
  }

  /** A 64-bit counter after so many increments. */
  function Counted(start: U64, steps: nat): U64
  {
    if steps == 0 then start else Plus(Counted(start, steps - 1), 1)
  }

  lemma {:induction false} CountedNoWrap(start: U64, steps: nat)
    requires start + steps < WORD
    ensures Counted(start, steps) == start + steps
  {
    if steps > 0 {
      CountedNoWrap(start, steps - 1);
    }
  }

  /** std::array's operator<: lexicographic comparison of byte strings. */
  predicate LexLess(a: seq<int>, b: seq<int>)
  {
    |b| > 0 && (|a| == 0 || a[0] < b[0] || (a[0] == b[0] && LexLess(a[1..], b[1..])))
  }

  /** Byte strings of equal length compare by the first place where they differ. */
  lemma {:induction false} LexLessMeans(a: seq<int>, b: seq<int>)
    requires |a| == |b|
    ensures LexLess(a, b) <==> exists i :: 0 <= i < |a| && a[..i] == b[..i] && a[i] < b[i]
  {
    if |a| > 0 {
      LexLessMeans(a[1..], b[1..]);
      if a[0] < b[0] {
        assert a[..0] == b[..0];
      } else if LexLess(a, b) {
        var i :| 0 <= i < |a| - 1 && a[1..][..i] == b[1..][..i] && a[1..][i] < b[1..][i];
        assert a[..i + 1] == [a[0]] + a[1..][..i] && b[..i + 1] == [b[0]] + b[1..][..i];
        assert a[i + 1] < b[i + 1];
      }
      if i :| 0 <= i < |a| && a[..i] == b[..i] && a[i] < b[i] {
        if i > 0 {
          assert a[0] == a[..i][0] == b[0];
          assert a[1..][..i - 1] == a[..i][1..] && b[1..][..i - 1] == b[..i][1..];
          assert a[1..][i - 1] < b[1..][i - 1];
        }
      }
    }
  }

  lemma {:induction false} LexIrreflexive(a: seq<int>)
    ensures !LexLess(a, a)
  {
    if |a| > 0 {
      LexIrreflexive(a[1..]);
    }
  }

  lemma {:induction false} LexTransitive(a: seq<int>, b: seq<int>, c: seq<int>)
    requires LexLess(a, b) && LexLess(b, c)
    ensures LexLess(a, c)
  {
    if |a| > 0 && a[0] == b[0] == c[0] {
      LexTransitive(a[1..], b[1..], c[1..]);
    }
  }

  lemma {:induction false} LexTotal(a: seq<int>, b: seq<int>)
    requires a != b
    ensures LexLess(a, b) || LexLess(b, a)
  {
    if |a| > 0 && |b| > 0 && a[0] == b[0] {
      assert a == [a[0]] + a[1..] && b == [b[0]] + b[1..];
      LexTotal(a[1..], b[1..]);
    }
  }

  /** The elements of a sequence, as a set. */
  ghost function Elems<T(!new)>(s: seq<T>): (r: set<T>)
    ensures forall x :: x in r <==> x in s
  {
    set x | x in s
  }
}
