/** Byte strings and the fixed-width big-endian integers that both binary formats use. */
module Bytes {

  type byte = x: int | 0 <= x < 256

  /** Number of values that fit in `width` bytes. */
  function Limit(width: nat): (n: nat)
    ensures n > 0
  {
    if width == 0 then 1 else 256 * Limit(width - 1)
  }

  const U16_LIMIT := 0x1_0000
  const U32_LIMIT := 0x1_0000_0000
  const U64_LIMIT := 0x1_0000_0000_0000_0000

  lemma LimitValues()
    ensures Limit(2) == U16_LIMIT && Limit(4) == U32_LIMIT && Limit(8) == U64_LIMIT
  {
    assert Limit(3) == 256 * Limit(2);
    assert Limit(4) == 256 * Limit(3);
    assert Limit(5) == 256 * Limit(4);
    assert Limit(6) == 256 * Limit(5);
    assert Limit(7) == 256 * Limit(6);
    assert Limit(8) == 256 * Limit(7);
  }

  /** The `width` low-order bytes of `n`, most significant first (byteorder's `write_uN::<BigEndian>`). */
  function BigEndian(n: nat, width: nat): (s: seq<byte>)
    ensures |s| == width
    decreases width, n
  {
    if width == 0 then [] else BigEndian(n / 256, width - 1) + [n % 256]
  }

  /** byteorder's `read_uN::<BigEndian>` on exactly the bytes of the integer. */
  function FromBigEndian(s: seq<byte>): (n: nat)
  {
    if s == [] then 0 else 256 * FromBigEndian(s[..|s| - 1]) + s[|s| - 1]
  }

  lemma {:induction false} FromBigEndianBound(s: seq<byte>)
    ensures FromBigEndian(s) < Limit(|s|)
  {
    if s != [] {
      FromBigEndianBound(s[..|s| - 1]);
    }
  }

  lemma {:induction false} ReadWrite(n: nat, width: nat)
    requires n < Limit(width)
    ensures FromBigEndian(BigEndian(n, width)) == n
    decreases width
  {
    if width > 0 {
      ReadWrite(n / 256, width - 1);
      assert BigEndian(n, width)[..width - 1] == BigEndian(n / 256, width - 1);
    }
  }

  lemma {:induction false} WriteRead(s: seq<byte>)
    ensures BigEndian(FromBigEndian(s), |s|) == s
  {
    if s != [] {
      var front, last := s[..|s| - 1], s[|s| - 1];
      WriteRead(front);
      assert s == front + [last];
      assert FromBigEndian(s) / 256 == FromBigEndian(front) && FromBigEndian(s) % 256 == last;
    }
  }

  /** Cutting a concatenation at the seam gives the two parts back. */
  lemma SplitAppend<T>(a: seq<T>, b: seq<T>)
    ensures (a + b)[..|a|] == a && (a + b)[|a|..] == b
  {
  }

  /** The bytes of a list of items, each written by `enc`. */
  function EncodeAll<T>(enc: T -> seq<byte>, items: seq<T>): seq<byte> {
    if items == [] then [] else enc(items[0]) + EncodeAll(enc, items[1..])
  }

  lemma {:induction false} EncodeAllAppend<T>(enc: T -> seq<byte>, a: seq<T>, b: seq<T>)
    ensures EncodeAll(enc, a + b) == EncodeAll(enc, a) + EncodeAll(enc, b)
  {
    if a == [] {
      assert a + b == b;
    } else {
      EncodeAllAppend(enc, a[1..], b);
      assert (a + b)[1..] == a[1..] + b;
      assert enc(a[0]) + (EncodeAll(enc, a[1..]) + EncodeAll(enc, b)) == EncodeAll(enc, a) + EncodeAll(enc, b);
    }
  }

  lemma EncodeOne<T>(enc: T -> seq<byte>, item: T)
    ensures EncodeAll(enc, [item]) == enc(item)
  {
    assert EncodeAll(enc, [item]) == enc(item) + EncodeAll(enc, [item][1..]);
  }

  function Flatten<T>(parts: seq<seq<T>>): seq<T> {
    if parts == [] then [] else parts[0] + Flatten(parts[1..])
  }

  lemma {:induction false} FlattenAppend<T>(a: seq<seq<T>>, b: seq<seq<T>>)
    ensures Flatten(a + b) == Flatten(a) + Flatten(b)
  {
    if a == [] {
      assert a + b == b;
    } else {
      FlattenAppend(a[1..], b);
      assert (a + b)[1..] == a[1..] + b;
      assert a[0] + (Flatten(a[1..]) + Flatten(b)) == Flatten(a) + Flatten(b);
    }
  }

  lemma FlattenOne<T>(part: seq<T>)
    ensures Flatten([part]) == part
  {
    assert [part][1..] == [];
  }

  lemma FlattenLast<T>(parts: seq<seq<T>>, extra: seq<T>)
    requires parts != []
    ensures var last := |parts| - 1; Flatten(parts[last := parts[last] + extra]) == Flatten(parts) + extra
  {
    var last := |parts| - 1;
    var front := parts[..last];
    assert parts == front + [parts[last]];
    assert parts[last := parts[last] + extra] == front + [parts[last] + extra];
    FlattenAppend(front, [parts[last]]);
    FlattenAppend(front, [parts[last] + extra]);
    FlattenOne(parts[last]);
    FlattenOne(parts[last] + extra);
  }

  /** How many of the items lie completely within the first `n` bytes, and how many bytes are left behind them. */
  function Survivors<T>(enc: T -> seq<byte>, items: seq<T>, n: nat): (m: nat)
    ensures m <= |items|
  {
    if items == [] || n < |enc(items[0])| then 0 else 1 + Survivors(enc, items[1..], n - |enc(items[0])|)
  }

  function Residue<T>(enc: T -> seq<byte>, items: seq<T>, n: nat): (k: nat)
    ensures k <= n
  {
    if items == [] || n < |enc(items[0])| then n else Residue(enc, items[1..], n - |enc(items[0])|)
  }

  /** Cutting the bytes of a list leaves whole items and a strict prefix of the next one. */
  lemma {:induction false} CutSplit<T>(enc: T -> seq<byte>, items: seq<T>, n: nat)
    requires n <= |EncodeAll(enc, items)|
    ensures var (m, k) := (Survivors(enc, items, n), Residue(enc, items, n));
            if m == |items| then k == 0 && EncodeAll(enc, items)[..n] == EncodeAll(enc, items)
            else k < |enc(items[m])| && EncodeAll(enc, items)[..n] == EncodeAll(enc, items[..m]) + enc(items[m])[..k]
  {
    if items == [] {
    } else if n < |enc(items[0])| {
      assert EncodeAll(enc, items)[..n] == enc(items[0])[..n];
      assert items[..0] == [];
    } else {
      var first := enc(items[0]);
      var n' := n - |first|;
      var m' := Survivors(enc, items[1..], n');
      CutSplit(enc, items[1..], n');
      assert EncodeAll(enc, items)[..n] == first + EncodeAll(enc, items[1..])[..n'];
      assert items[1..][..m'] == items[..m' + 1][1..];
      if m' < |items| - 1 {
        assert first + (EncodeAll(enc, items[1..][..m']) + enc(items[m' + 1])[..Residue(enc, items[1..], n')])
            == (first + EncodeAll(enc, items[1..][..m'])) + enc(items[m' + 1])[..Residue(enc, items[1..], n')];
      }
    }
  }

  /** Cutting nothing off loses nothing. */
  lemma {:induction false} AllSurvive<T>(enc: T -> seq<byte>, items: seq<T>)
    ensures Survivors(enc, items, |EncodeAll(enc, items)|) == |items| && Residue(enc, items, |EncodeAll(enc, items)|) == 0
  {
    if items != [] {
      AllSurvive(enc, items[1..]);
    }
  }
}
