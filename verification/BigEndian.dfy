/** Big-endian integers in byte sequences, as a Node Buffer writes and reads them. */
module BigEndian {
  type byte = x: int | 0 <= x < 256

  const MAX_UINT32 := 0xffff_ffff

  function Big16(n: int): seq<byte>
    requires 0 <= n < 0x1_0000
  {
    [n / 0x100, n % 0x100]
  }

  function Big32(n: int): seq<byte>
    requires 0 <= n <= MAX_UINT32
  {
    Big16(n / 0x1_0000) + Big16(n % 0x1_0000)
  }

  function ReadBig16(bs: seq<byte>, at: nat): (n: int)
    requires at + 2 <= |bs|
    ensures 0 <= n < 0x1_0000
  {
    bs[at] as int * 0x100 + bs[at + 1] as int
  }

  function ReadBig32(bs: seq<byte>, at: nat): (n: int)
    requires at + 4 <= |bs|
    ensures 0 <= n <= MAX_UINT32
  {
    ReadBig16(bs, at) * 0x1_0000 + ReadBig16(bs, at + 2)
  }

  lemma {:induction false} Back16(n: int)
    requires 0 <= n < 0x1_0000
    ensures ReadBig16(Big16(n), 0) == n
  {
  }

  lemma {:induction false} Back32(n: int)
    requires 0 <= n <= MAX_UINT32
    ensures ReadBig32(Big32(n), 0) == n
  {
    Back16(n / 0x1_0000);
    Back16(n % 0x1_0000);
  }

  lemma {:induction false} Forth16(bs: seq<byte>, at: nat)
    requires at + 2 <= |bs|
    ensures Big16(ReadBig16(bs, at)) == bs[at..at + 2]
  {
  }

  lemma {:induction false} Forth32(bs: seq<byte>, at: nat)
    requires at + 4 <= |bs|
    ensures Big32(ReadBig32(bs, at)) == bs[at..at + 4]
  {
    hide Big16, ReadBig16;
    var high, low := ReadBig16(bs, at), ReadBig16(bs, at + 2);
    assert (high * 0x1_0000 + low) / 0x1_0000 == high && (high * 0x1_0000 + low) % 0x1_0000 == low;
    Forth16(bs, at);
    Forth16(bs, at + 2);
  }

  /** Reading looks only at the bytes it reads. */
  lemma {:induction false} ReadSlice(bs: seq<byte>, at: nat)
    ensures at + 2 <= |bs| ==> ReadBig16(bs, at) == ReadBig16(bs[at..at + 2], 0)
    ensures at + 4 <= |bs| ==> ReadBig32(bs, at) == ReadBig32(bs[at..at + 4], 0)
  {
  }
}
