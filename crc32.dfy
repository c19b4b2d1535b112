/**
 * The `crc32` service: a lookup table of 256 entries built once, and a
 * checksum function that runs the reflected CRC-32 register (polynomial
 * 0xEDB88320, initial value and final XOR all-ones, as in clause 3.2.9 of
 * IEEE 802.3) over the low byte of every UTF-16 code unit of a string.
 *
 * JavaScript mixes signed 32-bit (`^`, `&`) and unsigned 32-bit (`>>>`)
 * views of the same bits; a `bv32` register carries exactly those bits, and
 * only the final `>>> 0` chooses the unsigned reading, which `Crc` returns.
 */
module Crc32 {

  /** A UTF-16 code unit, the value `charCodeAt` returns. */
  type CodeUnit = bv16

  const Poly: bv32 := 0xEDB88320
  const AllOnes: bv32 := 0xFFFF_FFFF

  /** One round of the table loop: shift right by one, XOR the polynomial if the low bit was set. */
  function Round(c: bv32): bv32 {
    if c & 1 == 1 then Poly ^ (c >> 1) else c >> 1
  }

  /** `k` rounds applied to `c`, the value of `c` after `k` turns of the inner loop. */
  function Rounds(c: bv32, k: nat): bv32 {
    if k == 0 then c else Round(Rounds(c, k - 1))
  }

  /** Entry `n` of the table: `n` after eight rounds. */
  function TableEntry(n: nat): bv32
    requires n < 256
  {
    Rounds(n as bv32, 8)
  }

  /** The table index of one turn of the checksum loop: the low byte of the register XOR the code unit. */
  function Index(crc: bv32, u: CodeUnit): (n: nat)
    ensures n < 256
  {
    ((crc ^ (u as bv32)) & 0xFF) as nat
  }

  /** One turn of the checksum loop over the code unit `u`. */
  function Step(crc: bv32, u: CodeUnit): bv32 {
    (crc >> 8) ^ TableEntry(Index(crc, u))
  }

  /** The register after the checksum loop has consumed all of `s`: a left fold of `Step` from all-ones. */
  function Register(s: seq<CodeUnit>): bv32 {
    if s == [] then AllOnes else Step(Register(s[..|s| - 1]), s[|s| - 1])
  }

  /** The final XOR of the register, read as an unsigned number (the `>>> 0`). */
  function Finish(reg: bv32): (r: nat)
    ensures r < 0x1_0000_0000
  {
    (reg ^ AllOnes) as nat
  }

  /** The checksum of `s`. */
  function Crc(s: seq<CodeUnit>): nat {
    Finish(Register(s))
  }

  /** The service object: the table is built once by the constructor and only read afterwards. */
  class Hasher {
    const table: array<bv32>

    ghost predicate Valid()
      reads this, table
    {
      table.Length == 256 && forall n :: 0 <= n < 256 ==> table[n] == TableEntry(n)
    }

    /** Fills the table with the two nested loops of the service's body. */
    constructor ()
      ensures Valid() && fresh(table)
    {
      var t := new bv32[256];
      var n := 0;
      while n < 256
        invariant 0 <= n <= 256
        invariant forall m :: 0 <= m < n ==> t[m] == TableEntry(m)
      {
        var c: bv32 := n as bv32;
        var k := 0;
        while k < 8
          invariant 0 <= k <= 8
          invariant c == Rounds(n as bv32, k)
        {
          c := if c & 1 == 1 then Poly ^ (c >> 1) else c >> 1;
          k := k + 1;
        }
        t[n] := c;
        n := n + 1;
      }
      table := t;
    }

    /** The function the service returns: one register update per code unit, then the final XOR. */
    method Checksum(str: seq<CodeUnit>) returns (r: nat)
      requires Valid()
      ensures r == Crc(str)
    {
      var crc: bv32 := 0 ^ AllOnes;
      var i := 0;
      while i < |str|
        invariant 0 <= i <= |str|
        invariant crc == Register(str[..i])
      {
        var e := table[Index(crc, str[i])];
        StepByTable(crc, str[i], e);
        RegisterSnoc(str, i);
        crc := (crc >> 8) ^ e;
        i := i + 1;
      }
      assert str[..|str|] == str;
      r := Finish(crc);
    }
  }

  /** A turn of the checksum loop with the table entry already looked up is a `Step`. */
  lemma StepByTable(crc: bv32, u: CodeUnit, e: bv32)
    requires e == TableEntry(Index(crc, u))
    ensures (crc >> 8) ^ e == Step(crc, u)
  {
  }

  /** The register over one more code unit is one more `Step`. */
  lemma RegisterSnoc(s: seq<CodeUnit>, i: nat)
    requires i < |s|
    ensures Register(s[..i + 1]) == Step(Register(s[..i]), s[i])
  {
    assert s[..i + 1][..i] == s[..i];
  }

  /** Entry 0 of the table is 0: no round ever sets a bit of the zero register. */
  lemma {:induction false} RoundsOfZero(k: nat)
    ensures Rounds(0, k) == 0
  {
    if k > 0 {
      RoundsOfZero(k - 1);
    }
  }

  lemma TableEntryZero()
    ensures TableEntry(0) == 0
  {
    RoundsOfZero(8);
  }

  /** The checksum of the empty string is 0. */
  lemma EmptyChecksum()
    ensures Crc([]) == 0
  {
  }

  /** Only the low byte of each code unit matters. */
  lemma {:induction false} LowByteOnly(s: seq<CodeUnit>, t: seq<CodeUnit>)
    requires |s| == |t|
    requires forall i :: 0 <= i < |s| ==> s[i] & 0xFF == t[i] & 0xFF
    ensures Crc(s) == Crc(t)
  {
    RegisterLowByteOnly(s, t);
  }

  lemma {:induction false} RegisterLowByteOnly(s: seq<CodeUnit>, t: seq<CodeUnit>)
    requires |s| == |t|
    requires forall i :: 0 <= i < |s| ==> s[i] & 0xFF == t[i] & 0xFF
    ensures Register(s) == Register(t)
  {
    if s != [] {
      var n := |s| - 1;
      RegisterLowByteOnly(s[..n], t[..n]);
      IndexLowByteOnly(Register(s[..n]), s[n], t[n]);
    }
  }

  lemma IndexLowByteOnly(c: bv32, u: CodeUnit, v: CodeUnit)
    requires u & 0xFF == v & 0xFF
    ensures Index(c, u) == Index(c, v)
  {
    XorLowByte(c, u, v);
  }

  lemma XorLowByte(c: bv32, u: CodeUnit, v: CodeUnit)
    requires u & 0xFF == v & 0xFF
    ensures (c ^ (u as bv32)) & 0xFF == (c ^ (v as bv32)) & 0xFF
  {
  }

  /** The standard check value of CRC-32: "123456789" gives 0xCBF43926. */
  lemma CheckValue()
    ensures Crc(CheckString()) == 0xCBF43926
  {
    var s := CheckString();
    assert s[..0] == [];
    CheckEntries();
    CheckFirstThree();
    CheckMiddleThree();
    CheckLastThree();
    assert s[..9] == s;
  }

  /** The ASCII digits "123456789" as code units. */
  function CheckString(): (s: seq<CodeUnit>)
    ensures |s| == 9
  {
    [0x31, 0x32, 0x33, 0x34, 0x35, 0x36, 0x37, 0x38, 0x39]
  }

  lemma CheckFirstThree()
    ensures Register(CheckString()[..3]) == 0x77b79c2d
  {
    var s := CheckString();
    assert s[..0] == [];
    CheckEntries();
    CheckStep(s, 0, 0xFFFF_FFFF, 0xce, 0x7cdcefb7, 0x7c231048);
    CheckStep(s, 1, 0x7c231048, 0x7a, 0xb0d09822, 0xb0acbb32);
    CheckStep(s, 2, 0xb0acbb32, 0x01, 0x77073096, 0x77b79c2d);
  }

  lemma CheckMiddleThree()
    requires Register(CheckString()[..3]) == 0x77b79c2d
    ensures Register(CheckString()[..6]) == 0xf68d2c9e
  {
    var s := CheckString();
    CheckEntries();
    CheckStep(s, 3, 0x77b79c2d, 0x19, 0x646ba8c0, 0x641c1f5c);
    CheckStep(s, 4, 0x641c1f5c, 0x69, 0x346ed9fc, 0x340ac5e3);
    CheckStep(s, 5, 0x340ac5e3, 0xd5, 0xf6b9265b, 0xf68d2c9e);
  }

  lemma CheckLastThree()
    requires Register(CheckString()[..6]) == 0xf68d2c9e
    ensures Register(CheckString()[..9]) == 0x340bc6d9
  {
    var s := CheckString();
    CheckEntries();
    CheckStep(s, 6, 0xf68d2c9e, 0xa9, 0xaf0a1b4c, 0xaffc9660);
    CheckStep(s, 7, 0xaffc9660, 0x58, 0x65b0d9c6, 0x651f2550);
    CheckStep(s, 8, 0x651f2550, 0x69, 0x346ed9fc, 0x340bc6d9);
  }

  /** One turn of the register on a known prefix: the table index, the entry and the next register. */
  lemma CheckStep(s: seq<CodeUnit>, i: nat, before: bv32, index: nat, entry: bv32, after: bv32)
    requires i < |s| && Register(s[..i]) == before
    requires Index(before, s[i]) == index && index < 256
    requires TableEntry(index) == entry
    requires (before >> 8) ^ entry == after
    ensures Register(s[..i + 1]) == after
  {
    RegisterSnoc(s, i);
  }

  /** Eight rounds written out, so that a literal register evaluates round by round. */
  lemma EightRounds(c: bv32)
    ensures Rounds(c, 8) == Round(Round(Round(Round(Round(Round(Round(Round(c))))))))
  {
    assert Rounds(c, 1) == Round(c);
    assert Rounds(c, 2) == Round(Round(c));
    assert Rounds(c, 3) == Round(Rounds(c, 2));
    assert Rounds(c, 4) == Round(Rounds(c, 3));
    assert Rounds(c, 5) == Round(Rounds(c, 4));
    assert Rounds(c, 6) == Round(Rounds(c, 5));
    assert Rounds(c, 7) == Round(Rounds(c, 6));
  }

  /** The table entries the check string visits, matching the published CRC-32 table. */
  lemma CheckEntries()
    ensures TableEntry(0xce) == 0x7cdcefb7
    ensures TableEntry(0x7a) == 0xb0d09822
    ensures TableEntry(0x01) == 0x77073096
    ensures TableEntry(0x19) == 0x646ba8c0
    ensures TableEntry(0x69) == 0x346ed9fc
    ensures TableEntry(0xd5) == 0xf6b9265b
    ensures TableEntry(0xa9) == 0xaf0a1b4c
    ensures TableEntry(0x58) == 0x65b0d9c6
  {
    EightRounds(0xce);
    EightRounds(0x7a);
    EightRounds(0x01);
    EightRounds(0x19);
    EightRounds(0x69);
    EightRounds(0xd5);
    EightRounds(0xa9);
    EightRounds(0x58);
  }
}
