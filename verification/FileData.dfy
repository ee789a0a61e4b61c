/** The bytes of a file under resizing, writing and reading. */
module FileData {
  import opened Basics

  function Resized(data: seq<Byte>, size: nat): (r: seq<Byte>)
    ensures |r| == size
    ensures forall i :: 0 <= i < size ==> r[i] == if i < |data| then data[i] else 0
  {
    if size <= |data| then data[..size] else data + seq(size - |data|, _ => 0)
  }

  /** Overwrites from `offset`, after growing the file if the bytes reach past its end. */
  function Written(data: seq<Byte>, offset: nat, bytes: seq<Byte>): seq<Byte>
    requires offset <= |data|
  {
    var end := offset + |bytes|;
    var grown := if end > |data| then Resized(data, end) else data;
    grown[..offset] + bytes + grown[end..]
  }

  /** A read of `count` bytes and the end-of-file flag. There is no answer when `offset + count`
      overflows 64 bits: the addition is not guarded. */
  function Read(data: seq<Byte>, offset: U64, count: U32): Option<(seq<Byte>, bool)> {
    if offset + count >= 0x1_0000_0000_0000_0000 then None
    else
      var end := offset + count;
      var eof := end >= |data|;
      var start := if offset >= |data| then |data| else offset;
      var stop := if end > |data| then |data| else end;
      Some((data[start..stop], eof))
  }

  /** A read returns the bytes asked for that exist, and says end-of-file exactly when none follow. */
  lemma ReadReturnsSlice(data: seq<Byte>, offset: U64, count: U32)
    requires offset + count < 0x1_0000_0000_0000_0000
    ensures Read(data, offset, count).Some?
    ensures var (bytes, eof) := Read(data, offset, count).value;
      && |bytes| <= count
      && (offset <= |data| ==> data[..offset] + bytes <= data)
      && (offset <= |data| ==> (eof <==> data[..offset] + bytes == data))
      && (offset > |data| ==> bytes == [] && eof)
      && (!eof ==> |bytes| == count)
  {
    if offset <= |data| {
      var (bytes, eof) := Read(data, offset, count).value;
      assert data[..offset] + bytes == data[..offset + |bytes|];
    }
  }

  // ---- Any sequence of writes and resizes ----

  datatype Edit = Write(offset: nat, bytes: seq<Byte>) | Resize(size: nat)

  /** A write that would leave a gap is refused and changes nothing. */
  function Apply(data: seq<Byte>, e: Edit): seq<Byte> {
    match e
    case Write(offset, bytes) => if offset > |data| then data else Written(data, offset, bytes)
    case Resize(size) => Resized(data, size)
  }

  function ApplyAll(edits: seq<Edit>): seq<Byte> {
    if edits == [] then [] else Apply(ApplyAll(edits[..|edits| - 1]), edits[|edits| - 1])
  }

  function Length(edits: seq<Edit>): nat {
    if edits == [] then 0
    else
      var before := Length(edits[..|edits| - 1]);
      match edits[|edits| - 1]
      case Write(offset, bytes) =>
        if before < offset || offset + |bytes| <= before then before else offset + |bytes|
      case Resize(size) => size
  }

  /** The byte at `i`: what the last accepted write over `i` put there, or zero if the file has
      since been cut back to `i` or less, or never written there. */
  function ByteAt(edits: seq<Edit>, i: nat): Byte {
    if edits == [] then 0
    else
      var before := edits[..|edits| - 1];
      match edits[|edits| - 1]
      case Write(offset, bytes) =>
        if offset <= Length(before) && offset <= i < offset + |bytes| then bytes[i - offset] else ByteAt(before, i)
      case Resize(size) => if i < size && i < Length(before) then ByteAt(before, i) else 0
  }

  lemma FirstWrite(data: seq<Byte>)
    ensures ApplyAll([Write(0, data)]) == data
  {
    assert [Write(0, data)][..0] == [];
  }

  lemma {:induction false} ContentsAreLastWritten(edits: seq<Edit>)
    ensures |ApplyAll(edits)| == Length(edits)
    ensures forall i :: 0 <= i < Length(edits) ==> ApplyAll(edits)[i] == ByteAt(edits, i)
  {
    if edits != [] { ContentsAreLastWritten(edits[..|edits| - 1]); }
  }
}
