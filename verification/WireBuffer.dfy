/** The bounded write buffer of src/buffer.h. Its assertions are the preconditions here. */
module WireBuffer {
  import opened Framing
  import opened Memory

  /** PERF_R_SUCCESS, PERF_R_FAILURE and PERF_R_NOSPACE */
  datatype Result = Success | Failure | NoSpace

  /** The two bytes of a uint16_t, which truncates. */
  function Uint16(v: nat): (s: seq<byte>)
    ensures |s| == 2
    ensures v < 65536 ==> 256 * (s[0] as nat) + s[1] == v
  {
    [(v / 256) % 256, v % 256]
  }

  /** The four bytes of a uint32_t, which truncates. */
  function Uint32(v: nat): (s: seq<byte>)
    ensures |s| == 4
  {
    [(v / 0x100_0000) % 256, (v / 0x1_0000) % 256, (v / 256) % 256, v % 256]
  }

  /** They are the value, if it fits 32 bits. */
  lemma {:induction false} Uint32Is(v: nat)
    requires v < 0x1_0000_0000
    ensures var s := Uint32(v);
            0x100_0000 * (s[0] as nat) + 0x1_0000 * (s[1] as nat) + 256 * (s[2] as nat) + s[3] == v
  {
    var a := v / 256;
    var b := a / 256;
    assert v == 256 * a + v % 256 && a == 256 * b + a % 256 && b == 256 * (b / 256) + b % 256;
    assert v / 0x1_0000 == b && v / 0x100_0000 == b / 256 < 256;
  }

  class Buffer {
    const base: array<byte>
    var used: nat

    ghost predicate Valid()
      reads `used
    {
      used <= base.Length
    }

    ghost function Contents(): (s: seq<byte>)
      requires Valid()
      reads `used, base
    {
      base[..used]
    }

    function Available(): nat
      requires Valid()
      reads `used
    {
      base.Length - used
    }

    constructor (length: nat)
      ensures Valid() && fresh(base) && base.Length == length && Contents() == []
    {
      base, used := new byte[length], 0;
    }

    method PutMem(bytes: seq<byte>)
      requires Valid() && |bytes| <= Available()
      modifies `used, base
      ensures Valid() && Contents() == old(Contents()) + bytes
    {
      CopyIn(base, used, bytes);
      used := used + |bytes|;
      assert base[..used] == old(base[..used]) + bytes;
    }

    method PutUint8(v: byte)
      requires Valid() && Available() >= 1
      modifies `used, base
      ensures Valid() && Contents() == old(Contents()) + [v]
    {
      base[used] := v;
      used := used + 1;
    }

    method PutUint16(v: nat)
      requires Valid() && Available() >= 2
      modifies `used, base
      ensures Valid() && Contents() == old(Contents()) + Uint16(v)
    {
      PutMem(Uint16(v));
    }

    method PutUint32(v: nat)
      requires Valid() && Available() >= 4
      modifies `used, base
      ensures Valid() && Contents() == old(Contents()) + Uint32(v)
    {
      PutMem(Uint32(v));
    }

    /** base[at]++ on an unsigned char. */
    method Increment(at: nat)
      requires Valid() && at < used
      modifies base
      ensures Valid() && Contents() == old(Contents())[at := ((old(Contents())[at] as nat) + 1) % 256]
    {
      base[at] := ((base[at] as nat) + 1) % 256;
    }
  }
}
