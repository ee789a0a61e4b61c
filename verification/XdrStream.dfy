/** The codecs as they run: writing to and reading from a stream, with running byte counts.
    Each method is tied to the function in Xdr that says what it must do. */
module XdrStream {
  import opened Basics
  import X = Xdr

  class ByteSink {
    var written: seq<Byte>

    constructor ()
      ensures written == []
    {
      written := [];
    }

    method WriteAll(bytes: seq<Byte>)
      modifies this
      ensures written == old(written) + bytes
    {
      written := written + bytes;
    }
  }

  /** A reader over bytes in memory. A read that cannot be filled fails and uses up the input. */
  class ByteSource {
    const data: seq<Byte>
    var pos: nat

    predicate Valid()
      reads this
    {
      pos <= |data|
    }

    function Rest(): seq<Byte>
      requires Valid()
      reads this
    {
      data[pos..]
    }

    constructor (data: seq<Byte>)
      ensures Valid() && this.data == data && pos == 0
    {
      this.data := data;
      pos := 0;
    }

    method ReadExact(n: nat) returns (r: Result<seq<Byte>, X.Error>)
      requires Valid()
      modifies this
      ensures Valid()
      ensures if n <= |old(Rest())| then r == Ok(old(Rest())[..n]) && Rest() == old(Rest())[n..] && pos == old(pos) + n
              else r == Err(X.Io)
    {
      assert forall n :: 0 <= n <= |Rest()| ==> data[pos..pos + n] == Rest()[..n] && data[pos + n..] == Rest()[n..];
      if n <= |data| - pos {
        r := Ok(data[pos..pos + n]);
        pos := pos + n;
      } else {
        pos := |data|;
        r := Err(X.Io);
      }
    }
  }

  /** What a reading method with result `r` did, given what the specification decodes. */
  ghost predicate Follows<T>(r: Result<(T, nat), X.Error>, decoded: X.Decoded<T>, before: seq<Byte>, after: seq<Byte>) {
    match decoded
    case Good(v, rest) => r == Ok((v, |before| - |rest|)) && |rest| <= |before| && after == rest
    case Bad(e) => r == Err(e)
  }

  /** What a writing method with result `r` did, given what the specification packs. */
  ghost predicate Wrote(r: Result<nat, X.Error>, packed: Result<seq<Byte>, X.Error>, before: seq<Byte>,
                        after: seq<Byte>) {
    match packed
    case Ok(b) => r == Ok(|b|) && after == before + b
    case Err(e) => r == Err(e)
  }

  // ---- Writing ----

  method PackUint(n: U32, out: ByteSink) returns (total: nat)
    modifies out
    ensures out.written == old(out.written) + Be32(n) && total == 4
  {
    out.WriteAll(Be32(n));
    total := 4;
  }

  method PackPadded(bytes: seq<Byte>, out: ByteSink) returns (total: nat)
    modifies out
    ensures out.written == old(out.written) + (bytes + X.Zeros(X.GetPadding(|bytes|)))
    ensures total == |bytes| + X.GetPadding(|bytes|)
  {
    out.WriteAll(bytes);
    var padding := X.Zeros(X.GetPadding(|bytes|));
    out.WriteAll(padding);
    total := |bytes| + |padding|;
  }

  method PackUints(ns: seq<U32>, out: ByteSink) returns (total: nat)
    modifies out
    ensures out.written == old(out.written) + X.PackUints(ns) && total == |X.PackUints(ns)|
  {
    total := 0;
    ghost var start := out.written;
    assert ns[0..] == ns;
    for i := 0 to |ns|
      invariant out.written + X.PackUints(ns[i..]) == start + X.PackUints(ns)
      invariant |out.written| == |start| + total
    {
      var n := PackUint(ns[i], out);
      total := total + n;
      assert ns[i..][1..] == ns[i + 1..];
    }
    assert out.written == start + X.PackUints(ns);
  }

  predicate IsScalar(s: X.Schema) {
    s.Void? || s.Uint? || s.Hyper? || s.Boolean?
  }

  method PackScalar(s: X.Schema, v: X.Value, out: ByteSink) returns (n: nat)
    requires IsScalar(s) && X.HasType(s, v)
    modifies out
    ensures Wrote(Ok(n), X.Pack(s, v), old(out.written), out.written)
  {
    match s
    case Void => n := 0;
    case Uint => n := PackUint(v.n, out);
    case Hyper =>
      out.WriteAll(Be64(v.h));
      n := 8;
    case Boolean => n := PackUint(if v.b then 1 else 0, out);
  }

  method Pack(s: X.Schema, v: X.Value, out: ByteSink) returns (r: Result<nat, X.Error>)
    requires X.HasType(s, v)
    modifies out
    ensures Wrote(r, X.Pack(s, v), old(out.written), out.written)
    decreases s, 1, 0
  {
    match s
    case OpaqueVar => r := PackOpaque(v.bytes, out);
    case OpaqueFixed(len) =>
      var n := PackPadded(v.bytes, out);
      r := Ok(n);
    case UintVec => r := PackVector(v.ns, out);
    case ListOf(item) => r := PackItems(item, v.items, out);
    case Struct(fields) => r := PackFields(fields, v.parts, out);
    case Union(arms, open) =>
      if v.VDefault? {
        r := Err(X.InvalidEnumValue(0xFFFF_FFFF));
      } else {
        r := PackTagged(arms[v.index].tag, arms[v.index].body, v.body, out);
      }
    case _ =>
      var n := PackScalar(s, v, out);
      r := Ok(n);
  }

  method PackOpaque(bytes: seq<Byte>, out: ByteSink) returns (r: Result<nat, X.Error>)
    modifies out
    ensures Wrote(r, X.Pack(X.OpaqueVar, X.VBytes(bytes)), old(out.written), out.written)
  {
    if |bytes| >= 0x1_0000_0000 { return Err(X.ObjectTooLarge(|bytes|)); }
    var n := PackUint(|bytes|, out);
    var m := PackPadded(bytes, out);
    r := Ok(n + m);
  }

  method PackVector(ns: seq<U32>, out: ByteSink) returns (r: Result<nat, X.Error>)
    modifies out
    ensures Wrote(r, X.Pack(X.UintVec, X.VUints(ns)), old(out.written), out.written)
  {
    if |ns| >= 0x1_0000_0000 { return Err(X.ObjectTooLarge(|ns|)); }
    var n := PackUint(|ns|, out);
    var m := PackUints(ns, out);
    r := Ok(n + m);
  }

  /** A variant of an enum, and a list item after its flag: a number and what it announces. */
  method PackTagged(tag: U32, s: X.Schema, v: X.Value, out: ByteSink) returns (r: Result<nat, X.Error>)
    requires X.HasType(s, v)
    modifies out
    ensures WroteTagged(r, tag, X.Pack(s, v), old(out.written), out.written)
    decreases s, 1, 1
  {
    ghost var packed := X.Pack(s, v);
    var len := PackUint(tag, out);
    var n := Pack(s, v, out);
    if n.Err? { return n; }
    ConcatAssoc(old(out.written), Be32(tag), packed.value);
    r := Ok(len + n.value);
  }

  ghost predicate WroteTagged(r: Result<nat, X.Error>, tag: U32, packed: Result<seq<Byte>, X.Error>,
                              before: seq<Byte>, after: seq<Byte>) {
    match packed
    case Ok(b) => r == Ok(4 + |b|) && after == before + (Be32(tag) + b)
    case Err(e) => r == Err(e)
  }

  /** The list loop: a true before each item and a false at the end. */
  method PackItems(item: X.Schema, items: seq<X.Value>, out: ByteSink) returns (r: Result<nat, X.Error>)
    requires forall i :: 0 <= i < |items| ==> X.HasType(item, items[i])
    modifies out
    ensures Wrote(r, X.PackItems(item, items), old(out.written), out.written)
    decreases item, 2
  {
    var len := 0;
    ghost var start := out.written;
    assert items[0..] == items;
    for i := 0 to |items|
      invariant After(out.written, X.PackItems(item, items[i..])) == After(start, X.PackItems(item, items))
      invariant |out.written| == |start| + len
    {
      ItemsHead(item, items, i, out.written);
      var n :- PackTagged(1, item, items[i], out);
      len := len + n;
    }
    var n := PackUint(0, out);
    r := Ok(len + n);
  }

  lemma ItemsHead(item: X.Schema, items: seq<X.Value>, i: nat, before: seq<Byte>)
    requires i < |items| && forall i :: 0 <= i < |items| ==> X.HasType(item, items[i])
    ensures After(before, X.PackItems(item, items[i..])) ==
            match X.Pack(item, items[i])
            case Err(e) => Err(e)
            case Ok(b) => After(before + (Be32(1) + b), X.PackItems(item, items[i + 1..]))
  {
    assert items[i..][1..] == items[i + 1..];
    var rest := X.PackItems(item, items[i + 1..]);
    if X.Pack(item, items[i]).Ok? && rest.Ok? {
      var b := X.Pack(item, items[i]).value;
      assert before + (Be32(1) + (b + rest.value)) == before + (Be32(1) + b) + rest.value;
    }
  }

  method PackFields(fields: seq<X.Schema>, parts: seq<X.Value>, out: ByteSink) returns (r: Result<nat, X.Error>)
    requires |parts| == |fields| && forall i :: 0 <= i < |fields| ==> X.HasType(fields[i], parts[i])
    modifies out
    ensures Wrote(r, X.PackFields(fields, parts), old(out.written), out.written)
    decreases fields, 0
  {
    var total := 0;
    ghost var start := out.written;
    assert fields[0..] == fields && parts[0..] == parts;
    for i := 0 to |fields|
      invariant After(out.written, X.PackFields(fields[i..], parts[i..])) == After(start, X.PackFields(fields, parts))
      invariant |out.written| == |start| + total
    {
      FieldsHead(fields, parts, i, out.written);
      var n :- Pack(fields[i], parts[i], out);
      total := total + n;
    }
    r := Ok(total);
  }

  lemma FieldsHead(fields: seq<X.Schema>, parts: seq<X.Value>, i: nat, before: seq<Byte>)
    requires |parts| == |fields| && forall i :: 0 <= i < |fields| ==> X.HasType(fields[i], parts[i])
    requires i < |fields|
    ensures After(before, X.PackFields(fields[i..], parts[i..])) ==
            match X.Pack(fields[i], parts[i])
            case Err(e) => Err(e)
            case Ok(b) => After(before + b, X.PackFields(fields[i + 1..], parts[i + 1..]))
  {
    assert fields[i..][1..] == fields[i + 1..] && parts[i..][1..] == parts[i + 1..];
    var rest := X.PackFields(fields[i + 1..], parts[i + 1..]);
    if X.Pack(fields[i], parts[i]).Ok? && rest.Ok? {
      var b := X.Pack(fields[i], parts[i]).value;
      assert before + (b + rest.value) == before + b + rest.value;
    }
  }

  /** The stream once `rest` has also been written to it. */
  ghost function After(before: seq<Byte>, rest: Result<seq<Byte>, X.Error>): (r: Result<seq<Byte>, X.Error>)
    ensures rest == Ok([]) ==> r == Ok(before)
  {
    match rest
    case Ok(b) =>
      assert b == [] ==> before + b == before;
      Ok(before + b)
    case Err(e) => Err(e)
  }

  // ---- Sizes ----

  method PackedSize(s: X.Schema, v: X.Value) returns (size: nat)
    requires X.HasType(s, v)
    ensures size == X.PackedSize(s, v)
    decreases s, 1
  {
    match s
    case ListOf(item) => size := ItemsSize(item, v.items);
    case Struct(fields) => size := FieldsSize(fields, v.parts);
    case Union(arms, open) =>
      if v.VDefault? {
        size := 4;
      } else {
        size := PackedSize(arms[v.index].body, v.body);
        size := 4 + size;
      }
    case Void => size := 0;
    case Uint => size := 4;
    case Hyper => size := 8;
    case Boolean => size := 4;
    case OpaqueVar => size := 4 + X.AddPadding(|v.bytes|);
    case OpaqueFixed(len) => size := X.AddPadding(len);
    case UintVec => size := 4 + |v.ns| * 4;
  }

  method ItemsSize(item: X.Schema, items: seq<X.Value>) returns (len: nat)
    requires forall i :: 0 <= i < |items| ==> X.HasType(item, items[i])
    ensures len == X.ItemsSize(item, items)
    decreases item, 2
  {
    len := 0;
    for i := 0 to |items|
      invariant X.ItemsSize(item, items) == len + X.ItemsSize(item, items[i..])
    {
      var n := PackedSize(item, items[i]);
      len := len + 4 + n;
      assert items[i..][1..] == items[i + 1..];
    }
    len := len + 4;
  }

  method FieldsSize(fields: seq<X.Schema>, parts: seq<X.Value>) returns (total: nat)
    requires |parts| == |fields| && forall i :: 0 <= i < |fields| ==> X.HasType(fields[i], parts[i])
    ensures total == X.FieldsSize(fields, parts)
    decreases fields, 0
  {
    total := 0;
    for i := 0 to |fields|
      invariant X.FieldsSize(fields, parts) == total + X.FieldsSize(fields[i..], parts[i..])
    {
      var n := PackedSize(fields[i], parts[i]);
      total := total + n;
      assert fields[i..][1..] == fields[i + 1..] && parts[i..][1..] == parts[i + 1..];
    }
  }

  // ---- Reading ----

  method UnpackUint(input: ByteSource) returns (r: Result<(U32, nat), X.Error>)
    requires input.Valid()
    modifies input
    ensures input.Valid()
    ensures Follows(r, X.UnpackUint(old(input.Rest())), old(input.Rest()), input.Rest())
  {
    var bytes :- input.ReadExact(4);
    r := Ok((FromBe32(bytes), 4));
  }

  method UnpackBool(input: ByteSource) returns (r: Result<(bool, nat), X.Error>)
    requires input.Valid()
    modifies input
    ensures input.Valid()
    ensures Follows(r, X.UnpackBool(old(input.Rest())), old(input.Rest()), input.Rest())
  {
    var n' :- UnpackUint(input);
    var (n, used) := n';
    if n == 0 {
      r := Ok((false, used));
    } else if n == 1 {
      r := Ok((true, used));
    } else {
      r := Err(X.InvalidEnumValue(n));
    }
  }

  method UnpackPadded(len: nat, input: ByteSource) returns (r: Result<(seq<Byte>, nat), X.Error>)
    requires input.Valid()
    modifies input
    ensures input.Valid()
    ensures Follows(r, X.UnpackPadded(len, old(input.Rest())), old(input.Rest()), input.Rest())
  {
    ghost var b := input.Rest();
    var bytes :- input.ReadExact(len);
    var used := len;
    var padding := X.GetPadding(len);
    if padding > 0 {
      var _ :- input.ReadExact(padding);
      used := used + padding;
    }
    assert input.Rest() == b[X.AddPadding(len)..];
    r := Ok((bytes, used));
  }

  method UnpackUints(count: nat, input: ByteSource) returns (r: Result<(seq<U32>, nat), X.Error>)
    requires input.Valid()
    modifies input
    ensures input.Valid()
    ensures Follows(r, X.UnpackUints(count, old(input.Rest())), old(input.Rest()), input.Rest())
  {
    ghost var b := input.Rest();
    var used := 0;
    var ns := [];
    for i := 0 to count
      invariant input.Valid() && used + |input.Rest()| == |b|
      invariant X.UnpackUints(count, b) == AfterItems(ns, X.UnpackUints(count - i, input.Rest()))
    {
      var n' :- UnpackUint(input);
      var (n, len) := n';
      AfterOneMore(ns, n, X.UnpackUints(count - i - 1, input.Rest()));
      used := used + len;
      ns := ns + [n];
    }
    r := Ok((ns, used));
  }

  method UnpackScalar(s: X.Schema, input: ByteSource) returns (r: Result<(X.Value, nat), X.Error>)
    requires IsScalar(s) && input.Valid()
    modifies input
    ensures input.Valid()
    ensures Follows(r, X.Unpack(s, old(input.Rest())), old(input.Rest()), input.Rest())
  {
    match s
    case Void => r := Ok((X.VVoid, 0));
    case Uint =>
      var n' :- UnpackUint(input);
      var (n, used) := n';
      r := Ok((X.VUint(n), used));
    case Hyper =>
      var bytes :- input.ReadExact(8);
      r := Ok((X.VHyper(FromBe64(bytes)), 8));
    case Boolean =>
      var flag' :- UnpackBool(input);
      var (flag, used) := flag';
      r := Ok((X.VBool(flag), used));
  }

  method Unpack(s: X.Schema, input: ByteSource) returns (r: Result<(X.Value, nat), X.Error>)
    requires input.Valid()
    modifies input
    ensures input.Valid()
    ensures Follows(r, X.Unpack(s, old(input.Rest())), old(input.Rest()), input.Rest())
    decreases s, 1
  {
    match s
    case OpaqueVar => r := UnpackOpaque(input);
    case OpaqueFixed(len) =>
      var bytes' :- UnpackPadded(len, input);
      var (bytes, used) := bytes';
      r := Ok((X.VBytes(bytes), used));
    case UintVec => r := UnpackVector(input);
    case ListOf(item) =>
      var items' :- UnpackItems(item, input);
      var (items, used) := items';
      r := Ok((X.VList(items), used));
    case Struct(fields) =>
      var parts' :- UnpackFields(fields, input);
      var (parts, used) := parts';
      r := Ok((X.VStruct(parts), used));
    case Union(arms, open) => r := UnpackUnion(arms, open, input);
    case _ => r := UnpackScalar(s, input);
  }

  method UnpackOpaque(input: ByteSource) returns (r: Result<(X.Value, nat), X.Error>)
    requires input.Valid()
    modifies input
    ensures input.Valid()
    ensures Follows(r, X.Unpack(X.OpaqueVar, old(input.Rest())), old(input.Rest()), input.Rest())
  {
    var len' :- UnpackUint(input);
    var (len, used1) := len';
    var bytes' :- UnpackPadded(len, input);
    var (bytes, used2) := bytes';
    r := Ok((X.VBytes(bytes), used1 + used2));
  }

  method UnpackVector(input: ByteSource) returns (r: Result<(X.Value, nat), X.Error>)
    requires input.Valid()
    modifies input
    ensures input.Valid()
    ensures Follows(r, X.Unpack(X.UintVec, old(input.Rest())), old(input.Rest()), input.Rest())
  {
    var len' :- UnpackUint(input);
    var (len, used1) := len';
    var ns' :- UnpackUints(len, input);
    var (ns, used2) := ns';
    r := Ok((X.VUints(ns), used1 + used2));
  }

  method UnpackUnion(arms: seq<X.Arm>, open: bool, input: ByteSource) returns (r: Result<(X.Value, nat), X.Error>)
    requires input.Valid()
    modifies input
    ensures input.Valid()
    ensures Follows(r, X.Unpack(X.Union(arms, open), old(input.Rest())), old(input.Rest()), input.Rest())
    decreases arms, 2
  {
    var tag' :- UnpackUint(input);
    var (tag, used1) := tag';
    match X.FindArm(arms, tag) {
      case None => r := if open then Ok((X.VDefault, used1)) else Err(X.InvalidEnumValue(tag));
      case Some(i) =>
        var body' :- Unpack(arms[i].body, input);
        var (body, used2) := body';
        r := Ok((X.VArm(i, body), used1 + used2));
    }
  }

  method UnpackItems(item: X.Schema, input: ByteSource) returns (r: Result<(seq<X.Value>, nat), X.Error>)
    requires input.Valid()
    modifies input
    ensures input.Valid()
    ensures Follows(r, X.UnpackItems(item, old(input.Rest())), old(input.Rest()), input.Rest())
    decreases item, 2
  {
    ghost var b := input.Rest();
    var items := [];
    var len := 0;
    while true
      invariant input.Valid() && len + |input.Rest()| == |b|
      invariant X.UnpackItems(item, b) == AfterItems(items, X.UnpackItems(item, input.Rest()))
      decreases |input.Rest()|
    {
      var more' :- UnpackBool(input);
      var (more, moreLen) := more';
      len := len + moreLen;
      if !more { break; }
      var one' :- Unpack(item, input);
      var (one, itemLen) := one';
      AfterOneMore(items, one, X.UnpackItems(item, input.Rest()));
      len := len + itemLen;
      items := items + [one];
    }
    r := Ok((items, len));
  }

  method UnpackFields(fields: seq<X.Schema>, input: ByteSource) returns (r: Result<(seq<X.Value>, nat), X.Error>)
    requires input.Valid()
    modifies input
    ensures input.Valid()
    ensures Follows(r, X.UnpackFields(fields, old(input.Rest())), old(input.Rest()), input.Rest())
    decreases fields, 0
  {
    ghost var b := input.Rest();
    var parts := [];
    var total := 0;
    assert fields[0..] == fields;
    for i := 0 to |fields|
      invariant input.Valid() && total + |input.Rest()| == |b|
      invariant X.UnpackFields(fields, b) == AfterItems(parts, X.UnpackFields(fields[i..], input.Rest()))
    {
      var one' :- Unpack(fields[i], input);
      var (one, used) := one';
      assert fields[i..][1..] == fields[i + 1..];
      AfterOneMore(parts, one, X.UnpackFields(fields[i + 1..], input.Rest()));
      total := total + used;
      parts := parts + [one];
    }
    r := Ok((parts, total));
  }

  ghost function AfterItems<T>(done: seq<T>, rest: X.Decoded<seq<T>>): (r: X.Decoded<seq<T>>)
    ensures done == [] ==> r == rest
    ensures rest.Good? && rest.value == [] ==> r == X.Good(done, rest.rest)
  {
    match rest
    case Good(more, left) =>
      assert (done == [] ==> done + more == more) && (more == [] ==> done + more == done);
      X.Good(done + more, left)
    case Bad(e) => X.Bad(e)
  }

  lemma AfterOneMore<T>(done: seq<T>, one: T, rest: X.Decoded<seq<T>>)
    ensures rest.Good? ==> AfterItems(done, X.Good([one] + rest.value, rest.rest)) == AfterItems(done + [one], rest)
  {
    if rest.Good? { assert done + ([one] + rest.value) == done + [one] + rest.value; }
  }
}
