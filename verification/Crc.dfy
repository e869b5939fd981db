/** The bitwise CRC-32 of src/util/connectionManagement.c. */
module Crc {
  import opened Bytes
  import opened Seqs

  const POLY: Word32 := 0xEDB8_8320
  const ONES: Word32 := 0xFFFF_FFFF

  /** Exclusive or of two unsigned words, bit by bit from the lowest. */
  function Xor(a: nat, b: nat): nat
    decreases a + b
  {
    if a == 0 && b == 0 then 0
    else (if a % 2 == b % 2 then 0 else 1) + 2 * Xor(a / 2, b / 2)
  }

  /** One round of the inner loop; shifting right by one halves an unsigned word. */
  function BitStep(r: nat): nat {
    if r % 2 == 1 then Xor(r / 2, POLY) else r / 2
  }

  function StepN(r: nat, n: nat): nat
    decreases n
  {
    if n == 0 then r else StepN(BitStep(r), n - 1)
  }

  /** The register after one byte. */
  function ByteStep(r: nat, b: byte): nat {
    StepN(Xor(r, b), 8)
  }

  /** The register after all of `data`. */
  function Register(r: nat, data: seq<byte>): nat
    decreases |data|
  {
    if data == [] then r else Register(ByteStep(r, data[0]), data[1..])
  }

  function Crc32(data: seq<byte>): nat {
    Xor(Register(ONES, data), ONES)
  }

  /** `crc32` of a path: a file that cannot be opened counts as zero. */
  function FileCrc(file: Option<seq<byte>>): nat {
    if file.None? then 0 else Crc32(file.value)
  }

  lemma {:induction false} RegisterConcat(r: nat, a: seq<byte>, b: seq<byte>)
    ensures Register(r, a + b) == Register(Register(r, a), b)
    decreases |a|
  {
    if a == [] {
      assert a + b == b;
    } else {
      assert (a + b)[1..] == a[1..] + b;
      RegisterConcat(ByteStep(r, a[0]), a[1..], b);
    }
  }

  lemma {:induction false} StepNAdd(r: nat, m: nat, n: nat)
    ensures StepN(r, m + n) == StepN(StepN(r, m), n)
    decreases m
  {
    if m > 0 { StepNAdd(BitStep(r), m - 1, n); }
  }

  // ------------------------------------------------------------------ the buffered loop

  /** An open file: what has not been read yet. */
  class FileStream {
    var rest: seq<byte>

    constructor (content: seq<byte>)
      ensures rest == content
    {
      rest := content;
    }

    /** `fread`: some non-empty piece of at most `max` bytes, or nothing at the end. */
    method Read(max: nat) returns (chunk: seq<byte>)
      requires max > 0
      modifies this
      ensures chunk + rest == old(rest) && |chunk| <= max
      ensures chunk == [] <==> old(rest) == []
    {
      if rest == [] {
        return [];
      }
      var n :| 1 <= n <= max && n <= |rest|;
      chunk := rest[..n];
      rest := rest[n..];
    }
  }

  const BUFFER_SIZE := 1024

  /** `crc32`, for any way `fread` cuts the file into pieces of at most 1024 bytes. */
  method ComputeCrc32(file: FileStream?) returns (crc: nat)
    modifies file
    ensures crc == FileCrc(if file == null then None else Some(old(file.rest)))
    ensures if file == null then crc == 0 else crc == Crc32(old(file.rest))
  {
    if file == null {
      return 0;
    }
    crc := ONES;
    ghost var done := [];
    var buffer := file.Read(BUFFER_SIZE);
    while buffer != []
      invariant old(file.rest) == done + (buffer + file.rest)
      invariant crc == Register(ONES, done)
      invariant buffer == [] ==> file.rest == []
      decreases |old(file.rest)| - |done|
    {
      crc := MixBuffer(crc, buffer);
      RegisterConcat(ONES, done, buffer);
      done := done + buffer;
      buffer := file.Read(BUFFER_SIZE);
    }
    assert done == old(file.rest);
    crc := Xor(crc, ONES);
  }

  /** The two inner loops: every byte of the buffer, every bit of the byte. */
  method MixBuffer(start: nat, buffer: seq<byte>) returns (crc: nat)
    ensures crc == Register(start, buffer)
  {
    crc := start;
    for i := 0 to |buffer|
      invariant crc == Register(start, buffer[..i])
    {
      RegisterSnoc(start, buffer, i);
      crc := Xor(crc, buffer[i]);
      ghost var mixed := crc;
      for j := 0 to 8
        invariant crc == StepN(mixed, j)
      {
        StepNAdd(mixed, j, 1);
        if crc % 2 == 1 {
          crc := Xor(crc / 2, POLY);
        } else {
          crc := crc / 2;
        }
      }
    }
    assert buffer[..|buffer|] == buffer;
  }

  lemma RegisterSnoc(r: nat, data: seq<byte>, i: nat)
    requires i < |data|
    ensures Register(r, data[..i + 1]) == ByteStep(Register(r, data[..i]), data[i])
  {
    assert data[..i + 1] == data[..i] + [data[i]];
    RegisterConcat(r, data[..i], [data[i]]);
    OneByte(Register(r, data[..i]), data[i]);
  }

  lemma OneByte(r: nat, b: byte)
    ensures Register(r, [b]) == ByteStep(r, b)
  {
    assert [b][1..] == [];
  }
}
