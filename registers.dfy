/** Conversions between bytes and the integers 0..255. */
module Bytes {
  lemma ByteOfInt(x: int)
    requires 0 <= x < 0x100
    ensures (x as bv8) as int == x
  {
  }

  lemma IntOfByte(b: bv8)
    ensures (b as int) as bv8 == b
  {
  }
}

/** Register access for pluggable optical modules.

    A register descriptor names a fixed byte offset in the module's address
    space and a width (8 bits, 16 bits unsigned, 16 bits signed).  Getting or
    setting a register is one call of the module's Access capability, whose
    buffer is exactly as wide as the register; 16-bit values travel
    big-endian, high byte first. */
module Registers {
  import opened Bytes

  /** One call of Access.ReadWrite: the offset and the bytes moved. */
  datatype Transaction = Read(offset: nat, data: seq<bv8>) | Write(offset: nat, data: seq<bv8>)

  /** The Access capability of one module: the device on the other end of the
      bus.  What a read returns is up to the device and is not constrained
      here; every call is recorded, in order, in log. */
  class Access {
    var log: seq<Transaction>

    constructor ()
      ensures log == []
    {
      log := [];
    }

    /** A write sends the buffer to the device; a read fills the buffer from it. */
    method ReadWrite(offset: nat, p: array<bv8>, isWrite: bool)
      modifies this, p
      ensures isWrite ==> p[..] == old(p[..])
      ensures log == old(log) + [if isWrite then Write(offset, p[..]) else Read(offset, p[..])]
    {
      if !isWrite {
        var i := 0;
        while i < p.Length
          invariant 0 <= i <= p.Length
          modifies p
        {
          var b: bv8 :| true;
          p[i] := b;
          i := i + 1;
        }
      }
      log := log + [if isWrite then Write(offset, p[..]) else Read(offset, p[..])];
    }
  }

  datatype Reg8 = Reg8(offset: nat)
  datatype Reg16 = Reg16(offset: nat)
  datatype RegI16 = RegI16(offset: nat)

  /** Go's uint16 and int16. */
  newtype Uint16 = x: int | 0 <= x < 0x10000
  newtype Int16 = x: int | -0x8000 <= x < 0x8000

  /** The two bytes a 16-bit register travels as: the high byte (v >> 8)
      first, then the low byte (uint8(v)). */
  function Encode16(v: Uint16): (b: seq<bv8>)
    ensures |b| == 2 && Decode16(b) == v
  {
    ByteOfInt(v as int / 0x100);
    ByteOfInt(v as int % 0x100);
    [(v / 0x100) as bv8, (v % 0x100) as bv8]
  }

  /** The 16-bit value of two bytes read high byte first:
      uint16(b[0]) << 8 | uint16(b[1]). */
  function Decode16(b: seq<bv8>): (v: Uint16)
    requires |b| == 2
    ensures v as int / 0x100 == b[0] as int && v as int % 0x100 == b[1] as int
  {
    (b[0] as int * 0x100 + b[1] as int) as Uint16
  }

  lemma EncodeDecode16(b: seq<bv8>)
    requires |b| == 2
    ensures Encode16(Decode16(b)) == b
  {
    IntOfByte(b[0]);
    IntOfByte(b[1]);
  }

  /** Reinterpreting a 16-bit pattern as two's complement (Go's int16(u)). */
  function ToSigned16(u: Uint16): (v: Int16)
    ensures (v as int - u as int) % 0x10000 == 0
    ensures v < 0 <==> u >= 0x8000
  {
    if u < 0x8000 then u as int as Int16 else (u as int - 0x10000) as Int16
  }

  /** The 16-bit pattern of a two's-complement value (Go's uint16(v)). */
  function ToUnsigned16(v: Int16): (u: Uint16)
    ensures (v as int - u as int) % 0x10000 == 0
    ensures v < 0 <==> u >= 0x8000
  {
    if v >= 0 then v as int as Uint16 else (v as int + 0x10000) as Uint16
  }

  lemma SignedUnsignedRoundTrip(v: Int16)
    ensures ToSigned16(ToUnsigned16(v)) == v
  {
  }

  lemma UnsignedSignedRoundTrip(u: Uint16)
    ensures ToUnsigned16(ToSigned16(u)) == u
  {
  }

  method Reg8Get(a: Access, r: Reg8) returns (v: bv8)
    modifies a
    ensures a.log == old(a.log) + [Read(r.offset, [v])]
  {
    var b := new bv8[1];
    a.ReadWrite(r.offset, b, false);
    v := b[0];
    assert b[..] == [v];
  }

  method Reg8Set(a: Access, r: Reg8, v: bv8)
    modifies a
    ensures a.log == old(a.log) + [Write(r.offset, [v])]
  {
    var b := new bv8[1];
    b[0] := v;
    a.ReadWrite(r.offset, b, true);
    assert b[..] == [v];
  }

  method Reg16Get(a: Access, r: Reg16) returns (v: Uint16)
    modifies a
    ensures a.log == old(a.log) + [Read(r.offset, Encode16(v))]
  {
    var b := new bv8[2];
    a.ReadWrite(r.offset, b, false);
    v := (b[0] as int * 0x100 + b[1] as int) as Uint16;
    assert v == Decode16(b[..]);
    EncodeDecode16(b[..]);
  }

  method Reg16Set(a: Access, r: Reg16, v: Uint16)
    modifies a
    ensures a.log == old(a.log) + [Write(r.offset, Encode16(v))]
  {
    var b := new bv8[2];
    b[0] := (v / 0x100) as bv8;
    b[1] := (v % 0x100) as bv8;
    a.ReadWrite(r.offset, b, true);
    assert b[..] == Encode16(v);
  }

  method RegI16Get(a: Access, r: RegI16) returns (v: Int16)
    modifies a
    ensures a.log == old(a.log) + [Read(r.offset, Encode16(ToUnsigned16(v)))]
  {
    var u := Reg16Get(a, Reg16(r.offset));
    v := ToSigned16(u);
  }

  method RegI16Set(a: Access, r: RegI16, v: Int16)
    modifies a
    ensures a.log == old(a.log) + [Write(r.offset, Encode16(ToUnsigned16(v)))]
  {
    Reg16Set(a, Reg16(r.offset), ToUnsigned16(v));
  }

  // A loopback device: a plain byte memory that reads return and writes update.

  /** The byte a memory holds at offset k; never-written bytes read as zero. */
  function Peek(mem: map<nat, bv8>, k: nat): bv8 {
    if k in mem then mem[k] else 0
  }

  /** The memory after data is written starting at offset, one byte at a time. */
  function Store(mem: map<nat, bv8>, offset: nat, data: seq<bv8>): map<nat, bv8>
    decreases |data|
  {
    if data == [] then mem else Store(mem[offset := data[0]], offset + 1, data[1..])
  }

  /** The n bytes a read at offset returns. */
  function Load(mem: map<nat, bv8>, offset: nat, n: nat): (d: seq<bv8>)
    ensures |d| == n
  {
    seq(n, i requires 0 <= i < n => Peek(mem, offset + i))
  }

  /** log is what a loopback device starting from mem can produce: every read
      returns the bytes the memory holds after the writes before it. */
  ghost predicate Loopback(mem: map<nat, bv8>, log: seq<Transaction>)
    decreases |log|
  {
    log == [] ||
    match log[0]
    case Read(o, d) => d == Load(mem, o, |d|) && Loopback(mem, log[1..])
    case Write(o, d) => Loopback(Store(mem, o, d), log[1..])
  }

  lemma {:induction false} PeekStore(mem: map<nat, bv8>, offset: nat, data: seq<bv8>, k: nat)
    ensures Peek(Store(mem, offset, data), k)
         == if offset <= k < offset + |data| then data[k - offset] else Peek(mem, k)
    decreases |data|
  {
    if data != [] {
      PeekStore(mem[offset := data[0]], offset + 1, data[1..], k);
    }
  }

  /** Reading back what was just written returns it. */
  lemma LoadStore(mem: map<nat, bv8>, offset: nat, data: seq<bv8>)
    ensures Load(Store(mem, offset, data), offset, |data|) == data
  {
    forall i | 0 <= i < |data|
      ensures Load(Store(mem, offset, data), offset, |data|)[i] == data[i]
    {
      PeekStore(mem, offset, data, offset + i);
    }
  }

  /** A write at one offset leaves every byte outside its range as it was. */
  lemma LoadStoreDisjoint(mem: map<nat, bv8>, offset: nat, data: seq<bv8>, o: nat, n: nat)
    requires o + n <= offset || offset + |data| <= o
    ensures Load(Store(mem, offset, data), o, n) == Load(mem, o, n)
  {
    forall i | 0 <= i < n
      ensures Load(Store(mem, offset, data), o, n)[i] == Load(mem, o, n)[i]
    {
      PeekStore(mem, offset, data, o + i);
    }
  }

  lemma Reg8RoundTrip(mem: map<nat, bv8>, r: Reg8, v: bv8, d: seq<bv8>)
    requires Loopback(mem, [Write(r.offset, [v]), Read(r.offset, d)])
    requires |d| == 1
    ensures d == [v]
  {
    LoadStore(mem, r.offset, [v]);
  }

  lemma Reg16RoundTrip(mem: map<nat, bv8>, r: Reg16, v: Uint16, d: seq<bv8>)
    requires Loopback(mem, [Write(r.offset, Encode16(v)), Read(r.offset, d)])
    requires |d| == 2
    ensures Decode16(d) == v
  {
    LoadStore(mem, r.offset, Encode16(v));
  }

  lemma RegI16RoundTrip(mem: map<nat, bv8>, r: RegI16, v: Int16, d: seq<bv8>)
    requires Loopback(mem, [Write(r.offset, Encode16(ToUnsigned16(v))), Read(r.offset, d)])
    requires |d| == 2
    ensures ToSigned16(Decode16(d)) == v
  {
    Reg16RoundTrip(mem, Reg16(r.offset), ToUnsigned16(v), d);
    SignedUnsignedRoundTrip(v);
  }

  /** Registers at disjoint offsets do not interfere: a 16-bit value written
      survives a write to another register in between. */
  lemma Reg16RoundTripAcrossWrite(mem: map<nat, bv8>, r: Reg16, v: Uint16, o: nat, e: seq<bv8>, d: seq<bv8>)
    requires o + |e| <= r.offset || r.offset + 2 <= o
    requires Loopback(mem, [Write(r.offset, Encode16(v)), Write(o, e), Read(r.offset, d)])
    requires |d| == 2
    ensures Decode16(d) == v
  {
    var m1 := Store(mem, r.offset, Encode16(v));
    var log := [Write(r.offset, Encode16(v)), Write(o, e), Read(r.offset, d)];
    assert log[1..] == [Write(o, e), Read(r.offset, d)];
    assert Loopback(m1, log[1..]);
    assert log[1..][1..] == [Read(r.offset, d)];
    assert Loopback(Store(m1, o, e), [Read(r.offset, d)]);
    LoadStoreDisjoint(m1, o, e, r.offset, 2);
    LoadStore(mem, r.offset, Encode16(v));
  }
}
