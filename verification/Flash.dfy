/** NOR flash: erasing sets bytes to 0xFF, programming can only clear bits. */
module Flash {
  import opened Bytes

  const SECTOR: nat := 4096
  const PAGE: nat := 256
  const SIZE: nat := 2 * 1024 * 1024

  function Erased(m: seq<byte>, off: nat, len: nat): (r: seq<byte>)
    requires off + len <= |m|
    ensures |r| == |m|
  {
    m[..off] + Fill(len, 0xFF) + m[off + len..]
  }

  function Anded(a: seq<byte>, b: seq<byte>): (r: seq<byte>)
    requires |a| == |b|
    ensures |r| == |a|
  {
    seq(|a|, i requires 0 <= i < |a| => a[i] & b[i])
  }

  function Programmed(m: seq<byte>, off: nat, data: seq<byte>): (r: seq<byte>)
    requires off + |data| <= |m|
    ensures |r| == |m|
  {
    m[..off] + Anded(m[off..off + |data|], data) + m[off + |data|..]
  }

  /** An erase sets every byte of its range, and no other. */
  lemma EraseSets(m: seq<byte>, off: nat, len: nat, i: nat)
    requires off + len <= |m| && i < |m|
    ensures Erased(m, off, len)[i] == if off <= i < off + len then 0xFF else m[i]
  {
  }

  lemma AndClears(a: byte, b: byte)
    ensures (a & b) & !a == 0 && (a & b) & !b == 0 && (a == 0xFF ==> a & b == b)
  {
  }

  /** Programming leaves on exactly the bits that were on and are on in the data, in its range; it turns none on anywhere. */
  lemma ProgramClears(m: seq<byte>, off: nat, data: seq<byte>, i: nat)
    requires off + |data| <= |m| && i < |m|
    ensures Programmed(m, off, data)[i] == if off <= i < off + |data| then m[i] & data[i - off] else m[i]
    ensures Programmed(m, off, data)[i] & !m[i] == 0
  {
    if off <= i < off + |data| {
      AndClears(m[i], data[i - off]);
    }
  }

  /** Programming erased flash stores the data. */
  lemma ProgramBlank(m: seq<byte>, off: nat, data: seq<byte>)
    requires off + |data| <= |m| && m[off..off + |data|] == Fill(|data|, 0xFF)
    ensures Programmed(m, off, data) == m[..off] + data + m[off + |data|..]
  {
  }

  /** What a refused operation adds to the count. */
  function Refusal(failed: bool): nat { if failed then 1 else 0 }

  /**
   The device. `Safe...` are the `flash_safe_execute` wrappers: they may refuse, and then nothing happens. Ghost: how
   often they refused.
   */
  class Device {
    const mem: array<byte>
    ghost var refused: nat

    ghost predicate Valid() {
      mem.Length == SIZE
    }

    constructor ()
      ensures Valid() && fresh(mem)
    {
      mem := new byte[SIZE];
      refused := 0;
    }

    method RangeErase(off: nat, len: nat)
      requires Valid() && off + len <= SIZE && off % SECTOR == 0 && len % SECTOR == 0
      modifies mem
      ensures mem[..] == Erased(old(mem[..]), off, len)
    {
      forall i | off <= i < off + len {
        mem[i] := 0xFF;
      }
    }

    method RangeProgram(off: nat, data: seq<byte>)
      requires Valid() && off + |data| <= SIZE && off % PAGE == 0 && |data| % PAGE == 0
      modifies mem
      ensures mem[..] == Programmed(old(mem[..]), off, data)
    {
      forall i | 0 <= i < |data| {
        mem[off + i] := mem[off + i] & data[i];
      }
    }

    method SafeErase(off: nat, len: nat) returns (ok: bool)
      requires Valid() && off + len <= SIZE && off % SECTOR == 0 && len % SECTOR == 0
      modifies mem, `refused
      ensures refused == old(refused) + Refusal(!ok)
      ensures mem[..] == if ok then Erased(old(mem[..]), off, len) else old(mem[..])
    {
      ok := *;
      if ok {
        RangeErase(off, len);
      } else {
        refused := refused + 1;
      }
    }

    method SafeProgram(off: nat, data: seq<byte>) returns (ok: bool)
      requires Valid() && off + |data| <= SIZE && off % PAGE == 0 && |data| % PAGE == 0
      modifies mem, `refused
      ensures refused == old(refused) + Refusal(!ok)
      ensures mem[..] == if ok then Programmed(old(mem[..]), off, data) else old(mem[..])
    {
      ok := *;
      if ok {
        RangeProgram(off, data);
      } else {
        refused := refused + 1;
      }
    }
  }
}
