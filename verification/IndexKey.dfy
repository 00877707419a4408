/** Composite index keys: how the bytes MySQL hands over are read into the values of
    a match object (driver/mysql/ha_sdb.cc, get_*_key_val). */
module IndexKey {
  import opened Options
  import opened Sql

  type Byte = b: nat | b < 256

  // ----- little-endian numbers

  function Pow256(n: nat): (p: nat)
    ensures p > 0
  {
    if n == 0 then 1 else 256 * Pow256(n - 1)
  }

  function Little(bs: seq<Byte>): nat {
    if bs == [] then 0 else bs[0] + 256 * Little(bs[1..])
  }

  /** Two's complement reading of the bytes. */
  function LittleSigned(bs: seq<Byte>): int {
    if 2 * Little(bs) >= Pow256(|bs|) then Little(bs) - Pow256(|bs|) else Little(bs)
  }

  lemma {:induction false} LittleConcat(a: seq<Byte>, b: seq<Byte>)
    ensures Little(a + b) == Little(a) + Pow256(|a|) * Little(b)
  {
    if a == [] {
      assert a + b == b;
    } else {
      assert (a + b)[1..] == a[1..] + b;
      LittleConcat(a[1..], b);
      assert 256 * (Pow256(|a| - 1) * Little(b)) == Pow256(|a|) * Little(b);
    }
  }

  lemma {:induction false} LittleBound(bs: seq<Byte>)
    ensures Little(bs) < Pow256(|bs|)
  {
    if bs != [] {
      LittleBound(bs[1..]);
    }
  }

  lemma {:induction false} Powers()
    ensures Pow256(1) == 0x100 && Pow256(2) == 0x1_0000 && Pow256(3) == 0x100_0000
    ensures Pow256(4) == 0x1_0000_0000 && Pow256(8) == 0x1_0000_0000_0000_0000
  {
    assert Pow256(4) == 256 * Pow256(3);
    assert Pow256(6) == 256 * Pow256(5) && Pow256(5) == 256 * Pow256(4);
    assert Pow256(8) == 256 * Pow256(7) && Pow256(7) == 256 * Pow256(6);
  }

  // ----- key parts

  /** `Other` is every key type whose parts add no condition here: text and float
      parts and the types the source does not handle. */
  datatype PartKind = Signed | Unsigned | Other

  datatype KeyPart = KeyPart(col: string, kind: PartKind, len: nat, nullable: bool)

  function StoreLength(p: KeyPart): nat {
    p.len + if p.nullable then 1 else 0
  }

  predicate IntLength(n: nat) {
    n == 1 || n == 2 || n == 3 || n == 4 || n == 8
  }

  /** The values a part of this type and length can hold. */
  predicate Fits(p: KeyPart, v: int) {
    match p.kind
    case Signed => 0 <= 2 * v + Pow256(p.len) && 2 * v < Pow256(p.len)
    case Unsigned => 0 <= v < Pow256(p.len)
    case Other => true
  }

  /** The bytes are MySQL's image of the value: a NULL flag for nullable parts, then
      the number in little-endian two's complement. */
  ghost predicate Encodes(p: KeyPart, v: Value, bs: seq<Byte>) {
    && |bs| == StoreLength(p)
    && (if p.nullable then (bs[0] == 0) == v.Some? else v.Some?)
    && (v.Some? && !p.kind.Other? ==>
          Fits(p, v.value) && Little(bs[|bs| - p.len..]) == if v.value < 0 then v.value + Pow256(p.len) else v.value)
  }

  /** What reaches the match object.  Two families differ from the value: an unsigned
      8-byte value of at least 2^63 is left out, and an unsigned 4-byte value of at
      least 2^31 is appended as a signed 32-bit integer and becomes negative. */
  function Appended(p: KeyPart, v: Value): Value {
    if v.None? || p.kind.Other? || !IntLength(p.len) then None
    else if p.kind.Unsigned? then AppendedUnsigned(p.len, v.value)
    else v
  }

  function AppendedUnsigned(len: nat, v: int): Value {
    if len == 8 && v >= 0x8000_0000_0000_0000 then None
    else if len == 4 && v >= 0x8000_0000 then Some(v - 0x1_0000_0000)
    else Some(v)
  }

  /** The value is appended unchanged exactly outside those families. */
  lemma {:induction false} AppendedUnchangedIff(p: KeyPart, v: int)
    requires !p.kind.Other? && IntLength(p.len) && Fits(p, v)
    ensures Appended(p, Some(v)) == Some(v) <==>
            !(p.kind.Unsigned? && (p.len == 4 || p.len == 8) && 2 * v >= Pow256(p.len))
  {
    Powers();
  }

  // ----- reading one part

  /** The union the bytes are copied into: eight bytes, zero beyond the copied ones. */
  function Buffer(bs: seq<Byte>): (buf: seq<Byte>)
    requires |bs| <= 8
    ensures |buf| == 8 && buf[..|bs|] == bs
  {
    bs + seq(8 - |bs|, _ => 0 as Byte)
  }

  lemma {:induction false} LittleZeros(n: nat)
    ensures Little(seq(n, _ => 0 as Byte)) == 0
  {
    if n > 0 {
      assert seq(n, _ => 0 as Byte)[1..] == seq(n - 1, _ => 0 as Byte);
      LittleZeros(n - 1);
    }
  }

  lemma {:induction false} LittleOfPrefix(bs: seq<Byte>, n: nat)
    requires |bs| <= n <= 8
    ensures Little(Buffer(bs)[..n]) == Little(bs)
  {
    var zeros := seq(n - |bs|, _ => 0 as Byte);
    assert Buffer(bs)[..n] == bs + zeros;
    calc {
      Little(bs + zeros);
    ==  { LittleConcat(bs, zeros); }
      Little(bs) + Pow256(|bs|) * Little(zeros);
    ==  { LittleZeros(n - |bs|); }
      Little(bs) + Pow256(|bs|) * 0;
    }
  }

  /** `get_unsigned_key_val` after the NULL test: reading the union at the width of
      the part.  A 3-byte part is read at 4 bytes, an 8-byte one as signed first, and
      BSONObjBuilder appends an unsigned 32-bit number by casting it to int. */
  method UnsignedKeyVal(bs: seq<Byte>) returns (r: Value)
    requires |bs| <= 8
    ensures r == if IntLength(|bs|) then AppendedUnsigned(|bs|, Little(bs)) else None
  {
    Powers();
    LittleBound(bs);
    var buf := Buffer(bs);
    match |bs|
    case 1 => r := Some(Little(buf[..1]));
    case 2 => r := Some(Little(buf[..2]));
    case 3 =>
      LittleOfPrefix(bs, 4);
      r := Some(LittleSigned(buf[..4]));
    case 4 => r := Some(LittleSigned(buf[..4]));
    case 8 =>
      var v := LittleSigned(buf[..8]);
      r := if v >= 0 then Some(v) else None;
    case _ => r := None;
  }

  /** `get_signed_key_val` after the NULL test; a 3-byte part is sign-extended by
      hand. */
  method SignedKeyVal(bs: seq<Byte>) returns (r: Value)
    requires |bs| <= 8
    ensures r == if IntLength(|bs|) then Some(LittleSigned(bs)) else None
  {
    var buf := Buffer(bs);
    match |bs|
    case 1 => r := Some(LittleSigned(buf[..1]));
    case 2 => r := Some(LittleSigned(buf[..2]));
    case 3 =>
      LittleOfPrefix(bs, 4);
      SignExtend(bs, buf);
      if (Little(buf[..4]) / 0x80_0000) % 2 == 1 {
        buf := buf[3 := 0xFF];
      }
      r := Some(LittleSigned(buf[..4]));
    case 4 => r := Some(LittleSigned(buf[..4]));
    case 8 => r := Some(LittleSigned(buf[..8]));
    case _ => r := None;
  }

  /** Setting the fourth byte to 0xFF when bit 23 is set gives the 24-bit value. */
  lemma {:induction false} SignExtend(bs: seq<Byte>, buf: seq<Byte>)
    requires |bs| == 3 && buf == Buffer(bs)
    ensures var x := Little(buf[..4]);
            LittleSigned(if (x / 0x80_0000) % 2 == 1 then buf[3 := 0xFF][..4] else buf[..4]) == LittleSigned(bs)
  {
    Powers();
    LittleBound(bs);
    LittleOfPrefix(bs, 4);
    var ext: seq<Byte> := [0xFF];
    assert buf[3 := 0xFF][..4] == bs + ext;
    LittleConcat(bs, ext);
    assert ext[1..] == [];
  }

  /** The two's complement bytes of a value read back as the value. */
  lemma {:induction false} SignedRoundTrip(p: KeyPart, v: int, bs: seq<Byte>)
    requires p.kind.Signed? && Encodes(p, Some(v), bs)
    ensures LittleSigned(bs[|bs| - p.len..]) == v
  {
  }
}
