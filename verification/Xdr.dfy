/**
 XDR encoding (RFC 4506) as the derive macro and the hand-written codecs produce it.
 A `Schema` stands for a Rust type with a codec, a `Value` for one of its values.
 The functions here say which bytes a value has and which value bytes have; the stream
 methods that work as the generated code does are in XdrStream.
 */
module Xdr {
  import opened Basics

  datatype Error = Io | InvalidEnumValue(value: U32) | ObjectTooLarge(size: nat)

  /** `Union(arms, open)` is a tagged enum. A variant without data has body `Void`; an open
      union turns every unknown tag into a default value, as `mknoddata3` does. */
  datatype Schema =
    | Void
    | Uint
    | Hyper
    | Boolean
    | OpaqueVar
    | OpaqueFixed(len: nat)
    | UintVec
    | ListOf(item: Schema)
    | Struct(fields: seq<Schema>)
    | Union(arms: seq<Arm>, open: bool)

  datatype Arm = Arm(tag: U32, body: Schema)

  datatype Value =
    | VVoid
    | VUint(n: U32)
    | VHyper(h: U64)
    | VBool(b: bool)
    | VBytes(bytes: seq<Byte>)
    | VUints(ns: seq<U32>)
    | VList(items: seq<Value>)
    | VStruct(parts: seq<Value>)
    | VArm(index: nat, body: Value)
    | VDefault

  predicate HasType(s: Schema, v: Value)
    decreases s
  {
    match s
    case Void => v.VVoid?
    case Uint => v.VUint?
    case Hyper => v.VHyper?
    case Boolean => v.VBool?
    case OpaqueVar => v.VBytes?
    case OpaqueFixed(len) => v.VBytes? && |v.bytes| == len
    case UintVec => v.VUints?
    case ListOf(item) => v.VList? && forall i :: 0 <= i < |v.items| ==> HasType(item, v.items[i])
    case Struct(fields) =>
      v.VStruct? && |v.parts| == |fields| && forall i :: 0 <= i < |fields| ==> HasType(fields[i], v.parts[i])
    case Union(arms, open) =>
      || (v.VDefault? && open)
      || (v.VArm? && v.index < |arms| && HasType(arms[v.index].body, v.body))
  }

  /** No two variants of an enum share a tag. Rust demands this of plain enums only. */
  predicate DistinctTags(s: Schema) {
    match s
    case ListOf(item) => DistinctTags(item)
    case Struct(fields) => forall i :: 0 <= i < |fields| ==> DistinctTags(fields[i])
    case Union(arms, _) =>
      && (forall i, j :: 0 <= i < j < |arms| ==> arms[i].tag != arms[j].tag)
      && forall i :: 0 <= i < |arms| ==> DistinctTags(arms[i].body)
    case _ => true
  }

  // ---- Padding ----

  function AddPadding(size: nat): (r: nat)
    ensures size <= r < size + 4 && r % 4 == 0
  {
    size + 3 - (size + 3) % 4
  }

  function GetPadding(len: nat): (r: nat)
    ensures r < 4 && AddPadding(len) == len + r
  {
    (4 - len % 4) % 4
  }

  function Zeros(n: nat): (s: seq<Byte>)
    ensures |s| == n
  {
    seq(n, _ => 0)
  }

  // ---- Packing ----

  function Pack(s: Schema, v: Value): Result<seq<Byte>, Error>
    requires HasType(s, v)
    decreases s, 1
  {
    match s
    case Void => Ok([])
    case Uint => Ok(Be32(v.n))
    case Hyper => Ok(Be64(v.h))
    case Boolean => Ok(Be32(if v.b then 1 else 0))
    case OpaqueVar =>
      if |v.bytes| >= 0x1_0000_0000 then Err(ObjectTooLarge(|v.bytes|))
      else Ok(Be32(|v.bytes|) + (v.bytes + Zeros(GetPadding(|v.bytes|))))
    case OpaqueFixed(len) => Ok(v.bytes + Zeros(GetPadding(len)))
    case UintVec =>
      if |v.ns| >= 0x1_0000_0000 then Err(ObjectTooLarge(|v.ns|))
      else Ok(Be32(|v.ns|) + PackUints(v.ns))
    case ListOf(item) => PackItems(item, v.items)
    case Struct(fields) => PackFields(fields, v.parts)
    case Union(arms, open) =>
      if v.VDefault? then Err(InvalidEnumValue(0xFFFF_FFFF))
      else
        var body :- Pack(arms[v.index].body, v.body);
        Ok(Be32(arms[v.index].tag) + body)
  }

  function PackUints(ns: seq<U32>): seq<Byte> {
    if ns == [] then [] else Be32(ns[0]) + PackUints(ns[1..])
  }

  /** RFC 4506 section 4.19: each item follows a 1, a 0 ends the list. */
  function PackItems(item: Schema, items: seq<Value>): Result<seq<Byte>, Error>
    requires forall i :: 0 <= i < |items| ==> HasType(item, items[i])
    decreases item, 2, |items|
  {
    if items == [] then Ok(Be32(0))
    else
      var first :- Pack(item, items[0]);
      var rest :- PackItems(item, items[1..]);
      Ok(Be32(1) + (first + rest))
  }

  function PackFields(fields: seq<Schema>, parts: seq<Value>): Result<seq<Byte>, Error>
    requires |parts| == |fields| && forall i :: 0 <= i < |fields| ==> HasType(fields[i], parts[i])
    decreases fields, 0
  {
    if fields == [] then Ok([])
    else
      var first :- Pack(fields[0], parts[0]);
      var rest :- PackFields(fields[1..], parts[1..]);
      Ok(first + rest)
  }

  function PackedSize(s: Schema, v: Value): nat
    requires HasType(s, v)
    decreases s, 1
  {
    match s
    case Void => 0
    case Uint => 4
    case Hyper => 8
    case Boolean => 4
    case OpaqueVar => 4 + AddPadding(|v.bytes|)
    case OpaqueFixed(len) => AddPadding(len)
    case UintVec => 4 + |v.ns| * 4
    case ListOf(item) => ItemsSize(item, v.items)
    case Struct(fields) => FieldsSize(fields, v.parts)
    case Union(arms, open) => if v.VDefault? then 4 else 4 + PackedSize(arms[v.index].body, v.body)
  }

  function ItemsSize(item: Schema, items: seq<Value>): nat
    requires forall i :: 0 <= i < |items| ==> HasType(item, items[i])
    decreases item, 2, |items|
  {
    if items == [] then 4 else 4 + PackedSize(item, items[0]) + ItemsSize(item, items[1..])
  }

  function FieldsSize(fields: seq<Schema>, parts: seq<Value>): nat
    requires |parts| == |fields| && forall i :: 0 <= i < |fields| ==> HasType(fields[i], parts[i])
    decreases fields, 0
  {
    if fields == [] then 0 else PackedSize(fields[0], parts[0]) + FieldsSize(fields[1..], parts[1..])
  }

  // ---- Unpacking ----

  /** A decoded value and the bytes not consumed. */
  datatype Decoded<+T> = Good(value: T, rest: seq<Byte>) | Bad(error: Error) {
    predicate IsFailure() {
      Bad?
    }

    function PropagateFailure<U>(): Decoded<U>
      requires Bad?
    {
      Bad(error)
    }

    function Extract(): (T, seq<Byte>)
      requires Good?
    {
      (value, rest)
    }
  }

  function UnpackUint(b: seq<Byte>): (r: Decoded<U32>)
    ensures r.Good? ==> |r.rest| + 4 == |b|
  {
    if |b| < 4 then Bad(Io) else Good(FromBe32(b[..4]), b[4..])
  }

  function UnpackHyper(b: seq<Byte>): (r: Decoded<U64>)
    ensures r.Good? ==> |r.rest| + 8 == |b|
  {
    if |b| < 8 then Bad(Io) else Good(FromBe64(b[..8]), b[8..])
  }

  function UnpackBool(b: seq<Byte>): (r: Decoded<bool>)
    ensures r.Good? ==> |r.rest| + 4 == |b|
  {
    var (n, rest) :- UnpackUint(b);
    if n == 0 then Good(false, rest) else if n == 1 then Good(true, rest) else Bad(InvalidEnumValue(n))
  }

  /** `len` bytes and their padding, whose contents are not looked at. */
  function UnpackPadded(len: nat, b: seq<Byte>): (r: Decoded<seq<Byte>>)
    ensures r.Good? ==> |r.rest| + AddPadding(len) == |b|
  {
    if |b| < AddPadding(len) then Bad(Io) else Good(b[..len], b[AddPadding(len)..])
  }

  function UnpackUints(count: nat, b: seq<Byte>): (r: Decoded<seq<U32>>)
    ensures r.Good? ==> |r.rest| <= |b|
  {
    if count == 0 then Good([], b)
    else
      var (n, b1) :- UnpackUint(b);
      var (ns, b2) :- UnpackUints(count - 1, b1);
      Good([n] + ns, b2)
  }

  /** Decodes one value from the front of `b`. */
  function Unpack(s: Schema, b: seq<Byte>): (r: Decoded<Value>)
    ensures r.Good? ==> |r.rest| <= |b|
    decreases s, 1
  {
    match s
    case Void => Good(VVoid, b)
    case Uint =>
      var (n, rest) :- UnpackUint(b);
      Good(VUint(n), rest)
    case Hyper =>
      var (h, rest) :- UnpackHyper(b);
      Good(VHyper(h), rest)
    case Boolean =>
      var (flag, rest) :- UnpackBool(b);
      Good(VBool(flag), rest)
    case OpaqueVar =>
      var (len, b1) :- UnpackUint(b);
      var (bytes, rest) :- UnpackPadded(len, b1);
      Good(VBytes(bytes), rest)
    case OpaqueFixed(len) =>
      var (bytes, rest) :- UnpackPadded(len, b);
      Good(VBytes(bytes), rest)
    case UintVec =>
      var (len, b1) :- UnpackUint(b);
      var (ns, rest) :- UnpackUints(len, b1);
      Good(VUints(ns), rest)
    case ListOf(item) =>
      var (items, rest) :- UnpackItems(item, b);
      Good(VList(items), rest)
    case Struct(fields) =>
      var (parts, rest) :- UnpackFields(fields, b);
      Good(VStruct(parts), rest)
    case Union(arms, open) =>
      var (tag, b1) :- UnpackUint(b);
      match FindArm(arms, tag) {
        case None => if open then Good(VDefault, b1) else Bad(InvalidEnumValue(tag))
        case Some(i) =>
          var (body, rest) :- Unpack(arms[i].body, b1);
          Good(VArm(i, body), rest)
      }
  }

  function UnpackItems(item: Schema, b: seq<Byte>): (r: Decoded<seq<Value>>)
    ensures r.Good? ==> |r.rest| <= |b|
    decreases item, 2, |b|
  {
    var (more, b1) :- UnpackBool(b);
    if !more then Good([], b1)
    else
      var (first, b2) :- Unpack(item, b1);
      var (items, rest) :- UnpackItems(item, b2);
      Good([first] + items, rest)
  }

  function UnpackFields(fields: seq<Schema>, b: seq<Byte>): (r: Decoded<seq<Value>>)
    ensures r.Good? ==> |r.rest| <= |b|
    decreases fields, 0
  {
    if fields == [] then Good([], b)
    else
      var (first, b1) :- Unpack(fields[0], b);
      var (parts, rest) :- UnpackFields(fields[1..], b1);
      Good([first] + parts, rest)
  }

  /** The first variant with this tag, as the arms of a `match` are tried. */
  function FindArm(arms: seq<Arm>, tag: U32): (r: Option<nat>)
    ensures r.Some? ==> r.value < |arms| && arms[r.value].tag == tag
    ensures r.Some? ==> forall j :: 0 <= j < r.value ==> arms[j].tag != tag
    ensures r.None? ==> forall j :: 0 <= j < |arms| ==> arms[j].tag != tag
  {
    if arms == [] then None
    else if arms[0].tag == tag then Some(0)
    else match FindArm(arms[1..], tag)
      case None => None
      case Some(i) => Some(i + 1)
  }
}
