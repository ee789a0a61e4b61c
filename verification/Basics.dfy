/** Bytes, machine integers and result types shared by the other modules. */
module Basics {
  type Byte = b: int | 0 <= b < 256
  type U32 = n: int | 0 <= n < 0x1_0000_0000
  type U64 = n: int | 0 <= n < 0x1_0000_0000_0000_0000

  const U32_LIMIT: nat := 0x1_0000_0000
  const U64_LIMIT: nat := 0x1_0000_0000_0000_0000

  datatype Option<+T> = None | Some(value: T)

  datatype Result<+T, +E> = Ok(value: T) | Err(error: E) {
    predicate IsFailure() {
      Err?
    }

    function PropagateFailure<U>(): Result<U, E>
      requires Err?
    {
      Err(error)
    }

    function Extract(): T
      requires Ok?
    {
      value
    }
  }

  lemma ConcatAssoc<T>(a: seq<T>, b: seq<T>, c: seq<T>)
    ensures a + (b + c) == a + b + c
  {}

  /** The four bytes of a 32-bit integer, most significant first. */
  function Be32(n: U32): (s: seq<Byte>)
    ensures |s| == 4
  {
    [n / 0x100_0000, n / 0x1_0000 % 256, n / 256 % 256, n % 256]
  }

  function FromBe32(s: seq<Byte>): U32
    requires |s| == 4
  {
    s[0] as int * 0x100_0000 + s[1] as int * 0x1_0000 + s[2] as int * 256 + s[3]
  }

  lemma Be32RoundTrip(n: U32)
    ensures FromBe32(Be32(n)) == n
  {
    assert n / 0x1_0000 == n / 0x100_0000 * 256 + n / 0x1_0000 % 256;
    assert n / 256 == n / 0x1_0000 * 256 + n / 256 % 256;
  }

  function Be64(h: U64): (s: seq<Byte>)
    ensures |s| == 8
  {
    Be32(h / 0x1_0000_0000) + Be32(h % 0x1_0000_0000)
  }

  function FromBe64(s: seq<Byte>): U64
    requires |s| == 8
  {
    FromBe32(s[..4]) * 0x1_0000_0000 + FromBe32(s[4..])
  }

  lemma Be64RoundTrip(h: U64)
    ensures FromBe64(Be64(h)) == h
  {
    Be32RoundTrip(h / 0x1_0000_0000);
    Be32RoundTrip(h % 0x1_0000_0000);
    assert Be64(h)[..4] == Be32(h / 0x1_0000_0000) && Be64(h)[4..] == Be32(h % 0x1_0000_0000);
  }

  lemma Be64Injective(a: U64, b: U64)
    ensures Be64(a) == Be64(b) <==> a == b
  {
    Be64RoundTrip(a);
    Be64RoundTrip(b);
  }

  /** Decoding loses nothing, so no two byte strings stand for one integer. */
  lemma FromBe32Injective(s: seq<Byte>)
    requires |s| == 4
    ensures Be32(FromBe32(s)) == s
  {
    var n, high, top := FromBe32(s), s[0] as int * 0x1_0000 + s[1] as int * 256 + s[2], s[0] as int * 256 + s[1];
    assert n / 256 == high && n / 0x1_0000 == high / 256 == top && n / 0x100_0000 == top / 256 == s[0];
  }

  /** Subtracting instants saturates at zero. */
  function Since(now: nat, since: nat): nat {
    if now < since then 0 else now - since
  }
}
