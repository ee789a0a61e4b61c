/** What the codecs promise: round trips, sizes, alignment, and that decoding looks at nothing
    beyond the bytes it consumes. */
module XdrLaws {
  import opened Basics
  import opened Xdr

  // ---- Decoding is local ----

  /** Appended bytes come back unconsumed and make no other difference. */
  lemma {:induction false} UnpackIgnoresSuffix(s: Schema, b: seq<Byte>, x: seq<Byte>)
    requires Unpack(s, b).Good?
    ensures Unpack(s, b + x) == Good(Unpack(s, b).value, Unpack(s, b).rest + x)
    decreases s, 1
  {
    match s
    case Void =>
    case Uint => UintIgnoresSuffix(b, x);
    case Hyper => assert (b + x)[..8] == b[..8] && (b + x)[8..] == b[8..] + x;
    case Boolean => UintIgnoresSuffix(b, x);
    case OpaqueVar =>
      UintIgnoresSuffix(b, x);
      PaddedIgnoresSuffix(UnpackUint(b).value, UnpackUint(b).rest, x);
    case OpaqueFixed(len) => PaddedIgnoresSuffix(len, b, x);
    case UintVec =>
      UintIgnoresSuffix(b, x);
      UintsIgnoreSuffix(UnpackUint(b).value, UnpackUint(b).rest, x);
    case ListOf(item) => ItemsIgnoreSuffix(item, b, x);
    case Struct(fields) => FieldsIgnoreSuffix(fields, b, x);
    case Union(arms, open) =>
      UintIgnoresSuffix(b, x);
      var arm := FindArm(arms, UnpackUint(b).value);
      if arm.Some? { UnpackIgnoresSuffix(arms[arm.value].body, UnpackUint(b).rest, x); }
  }

  lemma UintIgnoresSuffix(b: seq<Byte>, x: seq<Byte>)
    requires UnpackUint(b).Good?
    ensures UnpackUint(b + x) == Good(UnpackUint(b).value, UnpackUint(b).rest + x)
  {
    assert (b + x)[..4] == b[..4] && (b + x)[4..] == b[4..] + x;
  }

  lemma PaddedIgnoresSuffix(len: nat, b: seq<Byte>, x: seq<Byte>)
    requires UnpackPadded(len, b).Good?
    ensures UnpackPadded(len, b + x) == Good(UnpackPadded(len, b).value, UnpackPadded(len, b).rest + x)
  {
    var n := AddPadding(len);
    assert (b + x)[..len] == b[..len] && (b + x)[n..] == b[n..] + x;
  }

  lemma {:induction false} UintsIgnoreSuffix(count: nat, b: seq<Byte>, x: seq<Byte>)
    requires UnpackUints(count, b).Good?
    ensures UnpackUints(count, b + x) == Good(UnpackUints(count, b).value, UnpackUints(count, b).rest + x)
  {
    if count > 0 {
      UintIgnoresSuffix(b, x);
      UintsIgnoreSuffix(count - 1, UnpackUint(b).rest, x);
    }
  }

  lemma {:induction false} ItemsIgnoreSuffix(item: Schema, b: seq<Byte>, x: seq<Byte>)
    requires UnpackItems(item, b).Good?
    ensures UnpackItems(item, b + x) == Good(UnpackItems(item, b).value, UnpackItems(item, b).rest + x)
    decreases item, 2, |b|
  {
    UintIgnoresSuffix(b, x);
    var (more, b1) := UnpackBool(b).Extract();
    if more {
      UnpackIgnoresSuffix(item, b1, x);
      ItemsIgnoreSuffix(item, Unpack(item, b1).rest, x);
    }
  }

  lemma {:induction false} FieldsIgnoreSuffix(fields: seq<Schema>, b: seq<Byte>, x: seq<Byte>)
    requires UnpackFields(fields, b).Good?
    ensures UnpackFields(fields, b + x) == Good(UnpackFields(fields, b).value, UnpackFields(fields, b).rest + x)
    decreases fields, 0
  {
    if fields != [] {
      UnpackIgnoresSuffix(fields[0], b, x);
      FieldsIgnoreSuffix(fields[1..], Unpack(fields[0], b).rest, x);
    }
  }

  // ---- Sizes ----

  /** `packed_size` is the number of bytes `pack` writes, always a multiple of four. */
  lemma {:induction false} PackedSizeIsLength(s: Schema, v: Value)
    requires HasType(s, v)
    ensures PackedSize(s, v) % 4 == 0
    ensures Pack(s, v).Ok? ==> |Pack(s, v).value| == PackedSize(s, v)
    decreases s, 1
  {
    match s
    case UintVec => PackUintsLength(v.ns);
    case ListOf(item) => ItemsSizeIsLength(item, v.items);
    case Struct(fields) => FieldsSizeIsLength(fields, v.parts);
    case Union(arms, open) => if v.VArm? { ArmSizeIsLength(arms[v.index], v.body); }
    case _ =>
  }

  lemma {:induction false} ArmSizeIsLength(arm: Arm, body: Value)
    requires HasType(arm.body, body)
    ensures (4 + PackedSize(arm.body, body)) % 4 == 0
    ensures Pack(arm.body, body).Ok? ==> |Pack(arm.body, body).value| == PackedSize(arm.body, body)
    decreases arm, 0
  {
    PackedSizeIsLength(arm.body, body);
    SumOfFours(4, PackedSize(arm.body, body));
  }

  lemma {:induction false} PackUintsLength(ns: seq<U32>)
    ensures |PackUints(ns)| == 4 * |ns|
  {
    if ns != [] { PackUintsLength(ns[1..]); }
  }

  lemma SumOfFours(a: nat, b: nat)
    requires a % 4 == 0 && b % 4 == 0
    ensures (a + b) % 4 == 0
  {}

  lemma {:induction false} ItemsSizeIsLength(item: Schema, items: seq<Value>)
    requires forall i :: 0 <= i < |items| ==> HasType(item, items[i])
    ensures ItemsSize(item, items) % 4 == 0
    ensures PackItems(item, items).Ok? ==> |PackItems(item, items).value| == ItemsSize(item, items)
    decreases item, 2, |items|
  {
    if items != [] {
      PackedSizeIsLength(item, items[0]);
      ItemsSizeIsLength(item, items[1..]);
      SumOfFours(PackedSize(item, items[0]), ItemsSize(item, items[1..]));
      SumOfFours(4, PackedSize(item, items[0]) + ItemsSize(item, items[1..]));
    }
  }

  lemma {:induction false} FieldsSizeIsLength(fields: seq<Schema>, parts: seq<Value>)
    requires |parts| == |fields| && forall i :: 0 <= i < |fields| ==> HasType(fields[i], parts[i])
    ensures FieldsSize(fields, parts) % 4 == 0
    ensures PackFields(fields, parts).Ok? ==> |PackFields(fields, parts).value| == FieldsSize(fields, parts)
    decreases fields, 0
  {
    if fields != [] {
      PackedSizeIsLength(fields[0], parts[0]);
      FieldsSizeIsLength(fields[1..], parts[1..]);
      SumOfFours(PackedSize(fields[0], parts[0]), FieldsSize(fields[1..], parts[1..]));
    }
  }

  /** No enum here decodes unknown tags to a default. */
  predicate Closed(s: Schema) {
    match s
    case ListOf(item) => Closed(item)
    case Struct(fields) => forall i :: 0 <= i < |fields| ==> Closed(fields[i])
    case Union(arms, open) => !open && forall i :: 0 <= i < |arms| ==> Closed(arms[i].body)
    case _ => true
  }

  /** No default variant, and no length that 32 bits cannot hold. */
  predicate Packable(s: Schema, v: Value)
    requires HasType(s, v)
    decreases s
  {
    match s
    case OpaqueVar => |v.bytes| < 0x1_0000_0000
    case UintVec => |v.ns| < 0x1_0000_0000
    case ListOf(item) => forall i :: 0 <= i < |v.items| ==> Packable(item, v.items[i])
    case Struct(fields) => forall i :: 0 <= i < |fields| ==> Packable(fields[i], v.parts[i])
    case Union(arms, _) => v.VArm? && Packable(arms[v.index].body, v.body)
    case _ => true
  }

  /** Packing fails for nothing else. */
  lemma {:induction false} PacksIff(s: Schema, v: Value)
    requires HasType(s, v)
    ensures Pack(s, v).Ok? <==> Packable(s, v)
    decreases s, 1
  {
    match s
    case ListOf(item) => ItemsPackIff(item, v.items);
    case Struct(fields) => FieldsPackIff(fields, v.parts);
    case Union(arms, _) => if v.VArm? { PacksIff(arms[v.index].body, v.body); }
    case _ =>
  }

  lemma {:induction false} ItemsPackIff(item: Schema, items: seq<Value>)
    requires forall i :: 0 <= i < |items| ==> HasType(item, items[i])
    ensures PackItems(item, items).Ok? <==> forall i :: 0 <= i < |items| ==> Packable(item, items[i])
    decreases item, 2, |items|
  {
    if items != [] {
      PacksIff(item, items[0]);
      ItemsPackIff(item, items[1..]);
      forall i | 0 < i < |items| ensures Packable(item, items[i]) <==> Packable(item, items[1..][i - 1]) {}
    }
  }

  lemma {:induction false} FieldsPackIff(fields: seq<Schema>, parts: seq<Value>)
    requires |parts| == |fields| && forall i :: 0 <= i < |fields| ==> HasType(fields[i], parts[i])
    ensures PackFields(fields, parts).Ok? <==> forall i :: 0 <= i < |fields| ==> Packable(fields[i], parts[i])
    decreases fields, 0
  {
    if fields != [] {
      PacksIff(fields[0], parts[0]);
      FieldsPackIff(fields[1..], parts[1..]);
      forall i | 0 < i < |fields|
        ensures Packable(fields[i], parts[i]) <==> Packable(fields[1..][i - 1], parts[1..][i - 1]) {}
    }
  }

  /** The errors that are reported then. */
  lemma PackErrors(arms: seq<Arm>, bytes: seq<Byte>, ns: seq<U32>)
    ensures Pack(Union(arms, true), VDefault) == Err(InvalidEnumValue(0xFFFF_FFFF))
    ensures |bytes| >= 0x1_0000_0000 ==> Pack(OpaqueVar, VBytes(bytes)) == Err(ObjectTooLarge(|bytes|))
    ensures |ns| >= 0x1_0000_0000 ==> Pack(UintVec, VUints(ns)) == Err(ObjectTooLarge(|ns|))
  {}

  /** So a value of a few bytes packs, if its type has no default variants. */
  lemma {:induction false} SmallValuesPack(s: Schema, v: Value)
    requires HasType(s, v) && Closed(s) && PackedSize(s, v) < 0x1_0000_0000
    ensures Pack(s, v).Ok?
    decreases s, 1
  {
    match s
    case ListOf(item) => SmallItemsPack(item, v.items);
    case Struct(fields) => SmallFieldsPack(fields, v.parts);
    case Union(arms, _) => SmallValuesPack(arms[v.index].body, v.body);
    case _ =>
  }

  lemma {:induction false} SmallItemsPack(item: Schema, items: seq<Value>)
    requires forall i :: 0 <= i < |items| ==> HasType(item, items[i])
    requires Closed(item) && ItemsSize(item, items) < 0x1_0000_0000
    ensures PackItems(item, items).Ok?
    decreases item, 2, |items|
  {
    if items != [] {
      SmallValuesPack(item, items[0]);
      SmallItemsPack(item, items[1..]);
    }
  }

  lemma {:induction false} SmallFieldsPack(fields: seq<Schema>, parts: seq<Value>)
    requires |parts| == |fields| && forall i :: 0 <= i < |fields| ==> HasType(fields[i], parts[i])
    requires (forall i :: 0 <= i < |fields| ==> Closed(fields[i])) && FieldsSize(fields, parts) < 0x1_0000_0000
    ensures PackFields(fields, parts).Ok?
    decreases fields, 0
  {
    if fields != [] {
      SmallValuesPack(fields[0], parts[0]);
      SmallFieldsPack(fields[1..], parts[1..]);
    }
  }

  // ---- Round trips ----

  /** Every variant chosen in the value is the first one that has its tag. */
  predicate FirstArms(s: Schema, v: Value)
    requires HasType(s, v)
    decreases s
  {
    match s
    case ListOf(item) => forall i :: 0 <= i < |v.items| ==> FirstArms(item, v.items[i])
    case Struct(fields) => forall i :: 0 <= i < |fields| ==> FirstArms(fields[i], v.parts[i])
    case Union(arms, _) =>
      v.VArm? ==> FindArm(arms, arms[v.index].tag) == Some(v.index) && FirstArms(arms[v.index].body, v.body)
    case _ => true
  }

  /** Among distinct tags every variant is. */
  lemma {:induction false} DistinctTagsAreFirst(s: Schema, v: Value)
    requires HasType(s, v) && DistinctTags(s)
    ensures FirstArms(s, v)
    decreases s
  {
    match s
    case ListOf(item) =>
      forall i | 0 <= i < |v.items| ensures FirstArms(item, v.items[i]) {
        DistinctTagsAreFirst(item, v.items[i]);
      }
    case Struct(fields) =>
      forall i | 0 <= i < |fields| ensures FirstArms(fields[i], v.parts[i]) {
        DistinctTagsAreFirst(fields[i], v.parts[i]);
      }
    case Union(arms, _) =>
      if v.VArm? {
        DistinctTagsAreFirst(arms[v.index].body, v.body);
      }
    case _ =>
  }

  /** Whatever follows it in the stream, an encoded value decodes to itself and exactly its
      own bytes are consumed. */
  lemma RoundTrip(s: Schema, v: Value, rest: seq<Byte>)
    requires HasType(s, v) && DistinctTags(s) && Pack(s, v).Ok?
    ensures Unpack(s, Pack(s, v).value + rest) == Good(v, rest)
  {
    DistinctTagsAreFirst(s, v);
    FirstRoundTrip(s, v, rest);
  }

  /** With shared tags a value comes back exactly when its variants are the first of their tags. */
  lemma RoundTripIff(s: Schema, v: Value, rest: seq<Byte>)
    requires HasType(s, v) && Pack(s, v).Ok?
    ensures Unpack(s, Pack(s, v).value + rest) == Good(v, rest) <==> FirstArms(s, v)
  {
    if FirstArms(s, v) { FirstRoundTrip(s, v, rest); }
    if Unpack(s, Pack(s, v).value + rest).Good? { UnpackIsTyped(s, Pack(s, v).value + rest); }
  }

  lemma {:induction false} FirstRoundTrip(s: Schema, v: Value, rest: seq<Byte>)
    requires HasType(s, v) && FirstArms(s, v) && Pack(s, v).Ok?
    ensures Unpack(s, Pack(s, v).value + rest) == Good(v, rest)
    decreases s, 1
  {
    match s
    case Void => assert [] + rest == rest;
    case Uint => UintRoundTrip(v.n, rest);
    case Hyper => HyperRoundTrip(v.h, rest);
    case Boolean => UintRoundTrip(if v.b then 1 else 0, rest);
    case OpaqueVar => OpaqueRoundTrip(v.bytes, rest);
    case OpaqueFixed(len) => PaddedRoundTrip(v.bytes, rest);
    case UintVec => VectorRoundTrip(v.ns, rest);
    case ListOf(item) => ItemsRoundTrip(item, v.items, rest);
    case Struct(fields) => FieldsRoundTrip(fields, v.parts, rest);
    case Union(arms, open) =>
      var arm := arms[v.index];
      TaggedRoundTrip(arm.tag, Pack(arm.body, v.body).value, rest);
      FirstRoundTrip(arm.body, v.body, rest);
  }

  lemma OpaqueRoundTrip(bytes: seq<Byte>, rest: seq<Byte>)
    requires |bytes| < 0x1_0000_0000
    ensures Unpack(OpaqueVar, Be32(|bytes|) + (bytes + Zeros(GetPadding(|bytes|))) + rest) == Good(VBytes(bytes), rest)
  {
    TaggedRoundTrip(|bytes|, bytes + Zeros(GetPadding(|bytes|)), rest);
    PaddedRoundTrip(bytes, rest);
  }

  lemma VectorRoundTrip(ns: seq<U32>, rest: seq<Byte>)
    requires |ns| < 0x1_0000_0000
    ensures Unpack(UintVec, Be32(|ns|) + PackUints(ns) + rest) == Good(VUints(ns), rest)
  {
    TaggedRoundTrip(|ns|, PackUints(ns), rest);
    UintsRoundTrip(ns, rest);
  }

  lemma UintRoundTrip(n: U32, rest: seq<Byte>)
    ensures UnpackUint(Be32(n) + rest) == Good(n, rest)
  {
    Be32RoundTrip(n);
    var b := Be32(n) + rest;
    assert b[..4] == Be32(n) && b[4..] == rest;
  }

  lemma HyperRoundTrip(h: U64, rest: seq<Byte>)
    ensures UnpackHyper(Be64(h) + rest) == Good(h, rest)
  {
    Be64RoundTrip(h);
    var b := Be64(h) + rest;
    assert b[..8] == Be64(h) && b[8..] == rest;
  }

  /** A leading integer, such as a length or a tag, comes off and leaves the rest. */
  lemma TaggedRoundTrip(n: U32, body: seq<Byte>, rest: seq<Byte>)
    ensures UnpackUint(Be32(n) + body + rest) == Good(n, body + rest)
  {
    assert Be32(n) + body + rest == Be32(n) + (body + rest);
    UintRoundTrip(n, body + rest);
  }

  lemma PaddedRoundTrip(bytes: seq<Byte>, rest: seq<Byte>)
    ensures UnpackPadded(|bytes|, bytes + Zeros(GetPadding(|bytes|)) + rest) == Good(bytes, rest)
  {
    PaddingComesOff(bytes, Zeros(GetPadding(|bytes|)), rest);
  }

  lemma {:induction false} UintsRoundTrip(ns: seq<U32>, rest: seq<Byte>)
    ensures UnpackUints(|ns|, PackUints(ns) + rest) == Good(ns, rest)
  {
    if ns == [] {
      assert PackUints(ns) + rest == rest;
    } else {
      TaggedRoundTrip(ns[0], PackUints(ns[1..]), rest);
      UintsRoundTrip(ns[1..], rest);
      assert [ns[0]] + ns[1..] == ns;
    }
  }

  lemma {:induction false} ItemsRoundTrip(item: Schema, items: seq<Value>, rest: seq<Byte>)
    requires forall i :: 0 <= i < |items| ==> HasType(item, items[i])
    requires (forall i :: 0 <= i < |items| ==> FirstArms(item, items[i])) && PackItems(item, items).Ok?
    ensures UnpackItems(item, PackItems(item, items).value + rest) == Good(items, rest)
    decreases item, 2, |items|
  {
    if items == [] {
      UintRoundTrip(0, rest);
    } else {
      var first := Pack(item, items[0]).value;
      var tail := PackItems(item, items[1..]).value;
      FirstRoundTrip(item, items[0], tail + rest);
      ItemsRoundTrip(item, items[1..], rest);
      FourParts(Be32(1), first, tail, rest);
      ItemComesOff(item, items, Be32(1) + (first + tail) + rest, first + (tail + rest), tail + rest, rest);
    }
  }

  lemma FourParts(a: seq<Byte>, b: seq<Byte>, c: seq<Byte>, d: seq<Byte>)
    ensures a + (b + c) + d == a + (b + (c + d))
  {}

  lemma ItemComesOff(item: Schema, items: seq<Value>, whole: seq<Byte>, b: seq<Byte>, b1: seq<Byte>, rest: seq<Byte>)
    requires items != [] && whole == Be32(1) + b
    requires Unpack(item, b) == Good(items[0], b1) && UnpackItems(item, b1) == Good(items[1..], rest)
    ensures UnpackItems(item, whole) == Good(items, rest)
  {
    UintRoundTrip(1, b);
    assert [items[0]] + items[1..] == items;
  }

  lemma {:induction false} FieldsRoundTrip(fields: seq<Schema>, parts: seq<Value>, rest: seq<Byte>)
    requires |parts| == |fields| && forall i :: 0 <= i < |fields| ==> HasType(fields[i], parts[i])
    requires (forall i :: 0 <= i < |fields| ==> FirstArms(fields[i], parts[i])) && PackFields(fields, parts).Ok?
    ensures UnpackFields(fields, PackFields(fields, parts).value + rest) == Good(parts, rest)
    decreases fields, 0
  {
    if fields == [] {
      assert [] + rest == rest;
    } else {
      var first := Pack(fields[0], parts[0]).value;
      var tail := PackFields(fields[1..], parts[1..]).value;
      assert first + tail + rest == first + (tail + rest);
      FirstRoundTrip(fields[0], parts[0], tail + rest);
      FieldsRoundTrip(fields[1..], parts[1..], rest);
      assert [parts[0]] + parts[1..] == parts;
    }
  }

  /** What comes out of the decoder is a value of the type, of the first variants. */
  lemma {:induction false} UnpackIsTyped(s: Schema, b: seq<Byte>)
    requires Unpack(s, b).Good?
    ensures HasType(s, Unpack(s, b).value) && FirstArms(s, Unpack(s, b).value)
    decreases s, 1
  {
    match s
    case ListOf(item) => UnpackItemsTyped(item, b);
    case Struct(fields) => UnpackFieldsTyped(fields, b);
    case OpaqueFixed(len) =>
    case Union(arms, open) =>
      var arm := FindArm(arms, UnpackUint(b).value);
      if arm.Some? { UnpackIsTyped(arms[arm.value].body, UnpackUint(b).rest); }
    case _ =>
  }

  lemma {:induction false} UnpackItemsTyped(item: Schema, b: seq<Byte>)
    requires UnpackItems(item, b).Good?
    ensures forall i :: 0 <= i < |UnpackItems(item, b).value| ==>
              HasType(item, UnpackItems(item, b).value[i]) && FirstArms(item, UnpackItems(item, b).value[i])
    decreases item, 2, |b|
  {
    var (more, b1) := UnpackBool(b).Extract();
    if more {
      UnpackIsTyped(item, b1);
      UnpackItemsTyped(item, Unpack(item, b1).rest);
    }
  }

  lemma {:induction false} UnpackFieldsTyped(fields: seq<Schema>, b: seq<Byte>)
    requires UnpackFields(fields, b).Good?
    ensures |UnpackFields(fields, b).value| == |fields|
    ensures forall i :: 0 <= i < |fields| ==>
              && HasType(fields[i], UnpackFields(fields, b).value[i])
              && FirstArms(fields[i], UnpackFields(fields, b).value[i])
    decreases fields, 0
  {
    if fields != [] {
      UnpackIsTyped(fields[0], b);
      UnpackFieldsTyped(fields[1..], Unpack(fields[0], b).rest);
    }
  }

  /** Decoding takes off exactly as many bytes as the value has when packed. */
  lemma {:induction false} UnpackTakesItsSize(s: Schema, b: seq<Byte>)
    requires Unpack(s, b).Good?
    ensures HasType(s, Unpack(s, b).value) && |b| - |Unpack(s, b).rest| == PackedSize(s, Unpack(s, b).value)
    decreases s, 1
  {
    match s
    case UintVec => UintsTakeTheirSize(UnpackUint(b).value, UnpackUint(b).rest);
    case ListOf(item) => ItemsTakeTheirSize(item, b);
    case Struct(fields) => FieldsTakeTheirSize(fields, b);
    case Union(arms, open) =>
      var arm := FindArm(arms, UnpackUint(b).value);
      if arm.Some? { UnpackTakesItsSize(arms[arm.value].body, UnpackUint(b).rest); }
    case _ =>
  }

  lemma {:induction false} UintsTakeTheirSize(count: nat, b: seq<Byte>)
    requires UnpackUints(count, b).Good?
    ensures |UnpackUints(count, b).value| == count && |b| - |UnpackUints(count, b).rest| == 4 * count
  {
    if count > 0 { UintsTakeTheirSize(count - 1, UnpackUint(b).rest); }
  }

  lemma {:induction false} ItemsTakeTheirSize(item: Schema, b: seq<Byte>)
    requires UnpackItems(item, b).Good?
    ensures var items := UnpackItems(item, b).value;
            && (forall i :: 0 <= i < |items| ==> HasType(item, items[i]))
            && |b| - |UnpackItems(item, b).rest| == ItemsSize(item, items)
    decreases item, 2, |b|
  {
    var (more, b1) := UnpackBool(b).Extract();
    if more {
      UnpackTakesItsSize(item, b1);
      var b2 := Unpack(item, b1).rest;
      ItemsTakeTheirSize(item, b2);
      assert UnpackItems(item, b).value[1..] == UnpackItems(item, b2).value;
    }
  }

  lemma {:induction false} FieldsTakeTheirSize(fields: seq<Schema>, b: seq<Byte>)
    requires UnpackFields(fields, b).Good?
    ensures var parts := UnpackFields(fields, b).value;
            && |parts| == |fields| && (forall i :: 0 <= i < |fields| ==> HasType(fields[i], parts[i]))
            && |b| - |UnpackFields(fields, b).rest| == FieldsSize(fields, parts)
    decreases fields, 0
  {
    if fields != [] {
      UnpackTakesItsSize(fields[0], b);
      var b1 := Unpack(fields[0], b).rest;
      FieldsTakeTheirSize(fields[1..], b1);
      assert UnpackFields(fields, b).value[1..] == UnpackFields(fields[1..], b1).value;
    }
  }

  /** A flag is 0 or 1. */
  lemma OtherFlagsAreRefused(n: U32, rest: seq<Byte>)
    requires n > 1
    ensures Unpack(Boolean, Be32(n) + rest) == Bad(InvalidEnumValue(n))
  {
    UintRoundTrip(n, rest);
  }

  /** A tag is one of the enum's, or stands for the default of an enum that has one. */
  lemma OtherTagsAreRefused(arms: seq<Arm>, open: bool, n: U32, rest: seq<Byte>)
    requires forall i :: 0 <= i < |arms| ==> arms[i].tag != n
    ensures Unpack(Union(arms, open), Be32(n) + rest)
         == if open then Good(VDefault, rest) else Bad(InvalidEnumValue(n))
  {
    UintRoundTrip(n, rest);
  }

  /** What padding holds makes no difference. */
  lemma PaddingIsIgnored(bytes: seq<Byte>, padding: seq<Byte>, rest: seq<Byte>)
    requires |bytes| < 0x1_0000_0000 && |padding| < 4 && (|bytes| + |padding|) % 4 == 0
    ensures Unpack(OpaqueVar, Be32(|bytes|) + (bytes + padding) + rest) == Good(VBytes(bytes), rest)
    ensures Unpack(OpaqueFixed(|bytes|), bytes + padding + rest) == Good(VBytes(bytes), rest)
  {
    TaggedRoundTrip(|bytes|, bytes + padding, rest);
    PaddingComesOff(bytes, padding, rest);
  }

  lemma PaddingComesOff(bytes: seq<Byte>, padding: seq<Byte>, rest: seq<Byte>)
    requires |padding| < 4 && (|bytes| + |padding|) % 4 == 0
    ensures UnpackPadded(|bytes|, bytes + padding + rest) == Good(bytes, rest)
  {
    var b := bytes + padding + rest;
    assert AddPadding(|bytes|) == |bytes| + |padding|;
    assert b[..|bytes|] == bytes && b[|bytes| + |padding|..] == rest;
  }

  /** Input that ends too early is an I/O error. */
  lemma ShortReads(b: seq<Byte>, len: nat)
    ensures |b| < 4 ==> forall s: Schema :: s in {Uint, Boolean, OpaqueVar, UintVec} ==> Unpack(s, b) == Bad(Io)
    ensures |b| < 8 ==> Unpack(Hyper, b) == Bad(Io)
    ensures |b| < len ==> Unpack(OpaqueFixed(len), b) == Bad(Io)
  {}

  // ---- Consequences ----

  /** No strict prefix of an encoding decodes, so a short read is never taken for a value. */
  lemma TruncatedFails(s: Schema, v: Value, n: nat)
    requires HasType(s, v) && FirstArms(s, v) && Pack(s, v).Ok? && n < |Pack(s, v).value|
    ensures Unpack(s, Pack(s, v).value[..n]).Bad?
  {
    var b := Pack(s, v).value;
    FirstRoundTrip(s, v, []);
    assert b + [] == b[..n] + b[n..];
    NothingLeftMeansAllNeeded(s, b[..n], b[n..]);
  }

  lemma NothingLeftMeansAllNeeded(s: Schema, b: seq<Byte>, x: seq<Byte>)
    requires x != [] && Unpack(s, b + x).Good? && Unpack(s, b + x).rest == []
    ensures Unpack(s, b).Bad?
  {
    if Unpack(s, b).Good? { UnpackIgnoresSuffix(s, b, x); }
  }

  /** An encoding is never the beginning of the encoding of another value of the same type. */
  lemma EncodingsArePrefixFree(s: Schema, v: Value, w: Value, x: seq<Byte>)
    requires HasType(s, v) && HasType(s, w) && FirstArms(s, v) && FirstArms(s, w)
    requires Pack(s, v).Ok? && Pack(s, w).Ok?
    requires Pack(s, w).value + [] == Pack(s, v).value + x
    ensures v == w && x == []
  {
    FirstRoundTrip(s, v, x);
    FirstRoundTrip(s, w, []);
  }

  /** Two variants with one tag cannot both survive: the later one never comes back. */
  lemma SharedTagLosesVariant(arms: seq<Arm>, open: bool, i: nat, j: nat, body: Value, rest: seq<Byte>)
    requires i < j < |arms| && arms[i].tag == arms[j].tag && HasType(arms[j].body, body)
    requires Pack(arms[j].body, body).Ok?
    ensures Pack(Union(arms, open), VArm(j, body)).Ok?
    ensures forall r :: Unpack(Union(arms, open), Pack(Union(arms, open), VArm(j, body)).value + rest)
                     != Good(VArm(j, body), r)
  {
    TaggedRoundTrip(arms[j].tag, Pack(arms[j].body, body).value, rest);
  }
}
