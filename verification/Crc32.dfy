/**
 The IEEE 802.3 CRC-32 that `crc32fast::Hasher` computes (docs/storage.md), as a bitwise fold over a
 32-bit register, and what makes it a useful checksum: it can be fed piece by piece, and it detects
 every change confined to four consecutive bytes.
 */
module Crc32 {
  import opened Bytes
  import opened ByteBits

  const POLY: bv32 := 0xEDB88320
  const INIT: bv32 := 0xFFFFFFFF

  function Shift(c: bv32): bv32 {
    if c & 1 == 1 then (c >> 1) ^ POLY else c >> 1
  }

  /** Eight shifts, one per bit of an input byte. */
  function Shift8(c: bv32): bv32 {
    Shift(Shift(Shift(Shift(Shift(Shift(Shift(Shift(c))))))))
  }

  /** One input byte, as eight bits, into the register. */
  function StepBits(c: bv32, b: bv8): bv32 {
    Shift8(c ^ (b as bv32))
  }

  function Step(c: bv32, b: byte): bv32 {
    StepBits(c, b as bv8)
  }

  /** Feeding `bytes` into a register that holds `c` (`Hasher::update`). */
  function Update(c: bv32, bytes: seq<byte>): bv32 {
    if bytes == [] then c else Step(Update(c, bytes[..|bytes| - 1]), bytes[|bytes| - 1])
  }

  /** `Hasher::finalize`: the complemented register as an unsigned 32-bit number. */
  function Finish(c: bv32): (n: nat)
    ensures n < U32_LIMIT
  {
    (c ^ INIT) as int
  }

  /** The one-shot checksum of a byte string. */
  function Checksum(bytes: seq<byte>): (n: nat)
    ensures n < U32_LIMIT
  {
    Finish(Update(INIT, bytes))
  }

  /** The running checksum object both formats use. */
  class Hasher {
    var register: bv32

    constructor ()
      ensures register == INIT
    {
      register := INIT;
    }

    method Feed(bytes: seq<byte>)
      modifies this
      ensures register == Update(old(register), bytes)
    {
      var i := 0;
      while i < |bytes|
        invariant 0 <= i <= |bytes|
        invariant register == Update(old(register), bytes[..i])
      {
        assert bytes[..i + 1][..i] == bytes[..i];
        register := Step(register, bytes[i]);
        i := i + 1;
      }
      assert bytes[..i] == bytes;
    }

    method Finalize() returns (n: nat)
      ensures n == Finish(register)
    {
      n := Finish(register);
    }
  }

  /** Piecewise hashing: two updates are one update with the concatenation. */
  lemma {:induction false} UpdateAppend(c: bv32, a: seq<byte>, b: seq<byte>)
    ensures Update(c, a + b) == Update(Update(c, a), b)
    decreases |b|
  {
    if b == [] {
      assert a + b == a;
    } else {
      UpdateAppend(c, a, b[..|b| - 1]);
      assert (a + b)[..|a + b| - 1] == a + b[..|b| - 1];
    }
  }

  // ---- the register as a code: every step can be undone ----

  lemma NumberInjective(c: bv32, d: bv32)
    requires c as int == d as int
    ensures c == d
  {
    assert (c as int) as bv32 == c;
    assert (d as int) as bv32 == d;
  }

  lemma ComplementInjective(c: bv32, d: bv32)
    requires c ^ INIT == d ^ INIT
    ensures c == d
  {
  }

  lemma FinishInjective(c: bv32, d: bv32)
    requires Finish(c) == Finish(d)
    ensures c == d
  {
    NumberInjective(c ^ INIT, d ^ INIT);
    ComplementInjective(c, d);
  }

  predicate Agree(x: bv32, y: bv32, m: bv32) {
    x & m == y & m
  }

  /** Registers that agree under a mask after a shift agreed under the moved mask before it. */
  lemma ShiftBack(x: bv32, y: bv32, m: bv32, n: bv32)
    requires m & 0x8000_0000 != 0 && n == (m << 1) | 1
    requires Agree(Shift(x), Shift(y), m)
    ensures Agree(x, y, n)
  {
  }

  lemma StepBackA(x: bv32, y: bv32)
    requires Agree(Shift8(x), Shift8(y), 0xFFFFFF00)
    ensures Agree(x, y, 0xFFFF00FF)
  {
    var x1, y1 := Shift(x), Shift(y);
    var x2, y2 := Shift(x1), Shift(y1);
    var x3, y3 := Shift(x2), Shift(y2);
    var x4, y4 := Shift(x3), Shift(y3);
    var x5, y5 := Shift(x4), Shift(y4);
    var x6, y6 := Shift(x5), Shift(y5);
    var x7, y7 := Shift(x6), Shift(y6);
    ShiftBack(x7, y7, 0xFFFFFF00, 0xFFFFFE01);
    ShiftBack(x6, y6, 0xFFFFFE01, 0xFFFFFC03);
    ShiftBack(x5, y5, 0xFFFFFC03, 0xFFFFF807);
    ShiftBack(x4, y4, 0xFFFFF807, 0xFFFFF00F);
    ShiftBack(x3, y3, 0xFFFFF00F, 0xFFFFE01F);
    ShiftBack(x2, y2, 0xFFFFE01F, 0xFFFFC03F);
    ShiftBack(x1, y1, 0xFFFFC03F, 0xFFFF807F);
    ShiftBack(x, y, 0xFFFF807F, 0xFFFF00FF);
  }

  lemma StepBackB(x: bv32, y: bv32)
    requires Agree(Shift8(x), Shift8(y), 0xFFFF0000)
    ensures Agree(x, y, 0xFF0000FF)
  {
    var x1, y1 := Shift(x), Shift(y);
    var x2, y2 := Shift(x1), Shift(y1);
    var x3, y3 := Shift(x2), Shift(y2);
    var x4, y4 := Shift(x3), Shift(y3);
    var x5, y5 := Shift(x4), Shift(y4);
    var x6, y6 := Shift(x5), Shift(y5);
    var x7, y7 := Shift(x6), Shift(y6);
    ShiftBack(x7, y7, 0xFFFF0000, 0xFFFE0001);
    ShiftBack(x6, y6, 0xFFFE0001, 0xFFFC0003);
    ShiftBack(x5, y5, 0xFFFC0003, 0xFFF80007);
    ShiftBack(x4, y4, 0xFFF80007, 0xFFF0000F);
    ShiftBack(x3, y3, 0xFFF0000F, 0xFFE0001F);
    ShiftBack(x2, y2, 0xFFE0001F, 0xFFC0003F);
    ShiftBack(x1, y1, 0xFFC0003F, 0xFF80007F);
    ShiftBack(x, y, 0xFF80007F, 0xFF0000FF);
  }

  lemma StepBackC(x: bv32, y: bv32)
    requires Agree(Shift8(x), Shift8(y), 0xFF000000)
    ensures Agree(x, y, 0x000000FF)
  {
    var x1, y1 := Shift(x), Shift(y);
    var x2, y2 := Shift(x1), Shift(y1);
    var x3, y3 := Shift(x2), Shift(y2);
    var x4, y4 := Shift(x3), Shift(y3);
    var x5, y5 := Shift(x4), Shift(y4);
    var x6, y6 := Shift(x5), Shift(y5);
    var x7, y7 := Shift(x6), Shift(y6);
    ShiftBack(x7, y7, 0xFF000000, 0xFE000001);
    ShiftBack(x6, y6, 0xFE000001, 0xFC000003);
    ShiftBack(x5, y5, 0xFC000003, 0xF8000007);
    ShiftBack(x4, y4, 0xF8000007, 0xF000000F);
    ShiftBack(x3, y3, 0xF000000F, 0xE000001F);
    ShiftBack(x2, y2, 0xE000001F, 0xC000003F);
    ShiftBack(x1, y1, 0xC000003F, 0x8000007F);
    ShiftBack(x, y, 0x8000007F, 0x000000FF);
  }

  lemma StepBackD(x: bv32, y: bv32)
    requires Agree(Shift8(x), Shift8(y), 0xFFFFFFFF)
    ensures Agree(x, y, 0xFFFFFFFF)
  {
    var x1, y1 := Shift(x), Shift(y);
    var x2, y2 := Shift(x1), Shift(y1);
    var x3, y3 := Shift(x2), Shift(y2);
    var x4, y4 := Shift(x3), Shift(y3);
    var x5, y5 := Shift(x4), Shift(y4);
    var x6, y6 := Shift(x5), Shift(y5);
    var x7, y7 := Shift(x6), Shift(y6);
    ShiftBack(x7, y7, 0xFFFFFFFF, 0xFFFFFFFF);
    ShiftBack(x6, y6, 0xFFFFFFFF, 0xFFFFFFFF);
    ShiftBack(x5, y5, 0xFFFFFFFF, 0xFFFFFFFF);
    ShiftBack(x4, y4, 0xFFFFFFFF, 0xFFFFFFFF);
    ShiftBack(x3, y3, 0xFFFFFFFF, 0xFFFFFFFF);
    ShiftBack(x2, y2, 0xFFFFFFFF, 0xFFFFFFFF);
    ShiftBack(x1, y1, 0xFFFFFFFF, 0xFFFFFFFF);
    ShiftBack(x, y, 0xFFFFFFFF, 0xFFFFFFFF);
  }

  lemma AgreeAll(x: bv32, y: bv32)
    ensures Agree(x, y, 0xFFFFFFFF) <==> x == y
  {
  }

  lemma XorCancel(c: bv32, d: bv32, b: bv8)
    requires Agree(c ^ (b as bv32), d ^ (b as bv32), 0xFFFFFFFF)
    ensures Agree(c, d, 0xFFFFFFFF)
  {
  }

  /** An input byte touches only the low eight bits of the register. */
  lemma XorHigh(c: bv32, d: bv32, a: bv8, b: bv8, m: bv32)
    requires m & 0xFF == 0
    requires Agree(c ^ (a as bv32), d ^ (b as bv32), m)
    ensures Agree(c, d, m)
  {
  }

  lemma Weaken(c: bv32, d: bv32, m: bv32, n: bv32)
    requires Agree(c, d, m) && n & m == n
    ensures Agree(c, d, n)
  {
    assert c & n == (c & m) & n && d & n == (d & m) & n;
  }

  lemma XorLow(c: bv32, a: bv8, b: bv8)
    requires Agree(c ^ (a as bv32), c ^ (b as bv32), 0xFF)
    ensures a == b
  {
  }

  lemma StepInjective(c: bv32, d: bv32, b: bv8)
    requires Agree(StepBits(c, b), StepBits(d, b), 0xFFFFFFFF)
    ensures Agree(c, d, 0xFFFFFFFF)
  {
    StepBackD(c ^ (b as bv32), d ^ (b as bv32));
    XorCancel(c, d, b);
  }

  /** Registers that differ keep differing under the same further input. */
  lemma {:induction false} UpdateInjective(c: bv32, d: bv32, bytes: seq<byte>)
    requires Update(c, bytes) == Update(d, bytes)
    ensures c == d
    decreases |bytes|
  {
    if bytes != [] {
      var front, last := bytes[..|bytes| - 1], bytes[|bytes| - 1];
      AgreeAll(Update(c, bytes), Update(d, bytes));
      StepInjective(Update(c, front), Update(d, front), last as bv8);
      AgreeAll(Update(c, front), Update(d, front));
      UpdateInjective(c, d, front);
    }
  }

  /** Four bytes fill the register: equal registers after four bytes mean equal bytes. */
  lemma FourBytes(c: bv32, a0: bv8, a1: bv8, a2: bv8, a3: bv8, b0: bv8, b1: bv8, b2: bv8, b3: bv8)
    requires StepBits(StepBits(StepBits(StepBits(c, a0), a1), a2), a3)
          == StepBits(StepBits(StepBits(StepBits(c, b0), b1), b2), b3)
    ensures a0 == b0 && a1 == b1 && a2 == b2 && a3 == b3
  {
    var c1, d1 := StepBits(c, a0), StepBits(c, b0);
    var c2, d2 := StepBits(c1, a1), StepBits(d1, b1);
    var c3, d3 := StepBits(c2, a2), StepBits(d2, b2);
    Undo3(c3, d3, a3, b3);
    Undo2(c2, d2, a2, b2);
    Undo1(c1, d1, a1, b1);
    Undo0(c, a0, b0);
    Undo0(c1, a1, b1);
    Undo0(c2, a2, b2);
    Undo0(c3, a3, b3);
  }

  lemma Undo3(c: bv32, d: bv32, a: bv8, b: bv8)
    requires StepBits(c, a) == StepBits(d, b)
    ensures Agree(c, d, 0xFFFFFF00)
  {
    AgreeAll(StepBits(c, a), StepBits(d, b));
    StepBackD(c ^ (a as bv32), d ^ (b as bv32));
    Weaken(c ^ (a as bv32), d ^ (b as bv32), 0xFFFFFFFF, 0xFFFFFF00);
    XorHigh(c, d, a, b, 0xFFFFFF00);
  }

  lemma Undo2(c: bv32, d: bv32, a: bv8, b: bv8)
    requires Agree(StepBits(c, a), StepBits(d, b), 0xFFFFFF00)
    ensures Agree(c, d, 0xFFFF0000)
  {
    StepBackA(c ^ (a as bv32), d ^ (b as bv32));
    Weaken(c ^ (a as bv32), d ^ (b as bv32), 0xFFFF00FF, 0xFFFF0000);
    XorHigh(c, d, a, b, 0xFFFF0000);
  }

  lemma Undo1(c: bv32, d: bv32, a: bv8, b: bv8)
    requires Agree(StepBits(c, a), StepBits(d, b), 0xFFFF0000)
    ensures Agree(c, d, 0xFF000000)
  {
    StepBackB(c ^ (a as bv32), d ^ (b as bv32));
    Weaken(c ^ (a as bv32), d ^ (b as bv32), 0xFF0000FF, 0xFF000000);
    XorHigh(c, d, a, b, 0xFF000000);
  }

  lemma Undo0(c: bv32, a: bv8, b: bv8)
    requires Agree(StepBits(c, a), StepBits(c, b), 0xFF000000)
    ensures a == b
  {
    StepBackC(c ^ (a as bv32), c ^ (b as bv32));
    XorLow(c, a, b);
  }

  /** The register after four bytes, written out. */
  lemma UpdateFour(c: bv32, s: seq<byte>)
    requires |s| == 4
    ensures Update(c, s) == Step(Step(Step(Step(c, s[0]), s[1]), s[2]), s[3])
  {
    assert s[..3][..2] == s[..2] && s[..2][..1] == s[..1];
    assert Update(c, s[..1]) == Step(c, s[0]);
    assert Update(c, s[..2]) == Step(Step(c, s[0]), s[1]);
    assert Update(c, s[..3]) == Step(Update(c, s[..2]), s[2]);
  }

  lemma FourSteps(c: bv32, a0: byte, a1: byte, a2: byte, a3: byte, b0: byte, b1: byte, b2: byte, b3: byte)
    requires Step(Step(Step(Step(c, a0), a1), a2), a3) == Step(Step(Step(Step(c, b0), b1), b2), b3)
    ensures a0 == b0 && a1 == b1 && a2 == b2 && a3 == b3
  {
    FourBytes(c, a0 as bv8, a1 as bv8, a2 as bv8, a3 as bv8, b0 as bv8, b1 as bv8, b2 as bv8, b3 as bv8);
    BitsInjective(a0, b0);
    BitsInjective(a1, b1);
    BitsInjective(a2, b2);
    BitsInjective(a3, b3);
  }

  lemma WindowInjective(c: bv32, a: seq<byte>, b: seq<byte>)
    requires |a| == |b| == 4 && Update(c, a) == Update(c, b)
    ensures a == b
  {
    UpdateFour(c, a);
    UpdateFour(c, b);
    FourSteps(c, a[0], a[1], a[2], a[3], b[0], b[1], b[2], b[3]);
  }

  /** Two byte strings of one length that differ, and only inside the four bytes from `at` on. */
  ghost predicate DifferInWindow(x: seq<byte>, y: seq<byte>, at: nat) {
    && |x| == |y| && x != y
    && (forall k :: 0 <= k < |x| && !(at <= k < at + 4) ==> x[k] == y[k])
  }

  /** Every change confined to four consecutive bytes changes the checksum. */
  lemma BurstDetected(x: seq<byte>, y: seq<byte>, at: nat)
    requires DifferInWindow(x, y, at)
    ensures Checksum(x) != Checksum(y)
    decreases at + 4 > |x|
  {
    if Checksum(x) == Checksum(y) {
      FinishInjective(Update(INIT, x), Update(INIT, y));
      if at + 4 <= |x| {
        var pre, post := x[..at], x[at + 4..];
        assert x == pre + (x[at..at + 4] + post) && y == pre + (y[at..at + 4] + post);
        UpdateAppend(INIT, pre, x[at..at + 4] + post);
        UpdateAppend(INIT, pre, y[at..at + 4] + post);
        UpdateAppend(Update(INIT, pre), x[at..at + 4], post);
        UpdateAppend(Update(INIT, pre), y[at..at + 4], post);
        UpdateInjective(Update(Update(INIT, pre), x[at..at + 4]), Update(Update(INIT, pre), y[at..at + 4]), post);
        WindowInjective(Update(INIT, pre), x[at..at + 4], y[at..at + 4]);
      } else {
        // A window that overhangs the end: pad both strings so that it does not.
        var pad := [0, 0, 0, 0];
        UpdateAppend(INIT, x, pad);
        UpdateAppend(INIT, y, pad);
        assert Checksum(x + pad) == Checksum(y + pad);
        assert x == (x + pad)[..|x|] && y == (y + pad)[..|x|];
        var at' := if at <= |x| then at else |x|;
        BurstDetected(x + pad, y + pad, at');
      }
    }
  }
}
