/** RPC messages (RFC 5531 section 9) as schemas and values. */
module RpcTypes {
  import opened Basics
  import opened Xdr
  import opened XdrLaws
  import NfsTypes

  const RPC_VERSION_2: U32 := 2

  function Words(n: nat): seq<Arm>
    requires n <= 8
  {
    [Arm(0, Void), Arm(1, Void), Arm(2, Void), Arm(3, Void),
     Arm(4, Void), Arm(5, Void), Arm(6, Void), Arm(7, Void)][..n]
  }

  const AUTH_STAT: Schema := Union(Words(8), false)
  const AUTH_FLAVOR: Schema := Union(Words(4), false)
  const OPAQUE_AUTH: Schema := Struct([AUTH_FLAVOR, OpaqueVar])
  const AUTH_UNIX: Schema := Struct([Uint, OpaqueVar, Uint, Uint, UintVec])
  /** RPC version, program, program version, procedure, credential, verifier. */
  const CALL_BODY: Schema := Struct([Uint, Uint, Uint, Uint, OPAQUE_AUTH, OPAQUE_AUTH])
  const RANGE: Schema := Struct([Uint, Uint])
  const ACCEPT_STAT: Schema :=
    Union([Arm(0, Void), Arm(1, Void), Arm(2, RANGE), Arm(3, Void), Arm(4, Void), Arm(5, Void)], false)
  const ACCEPTED: Schema := Struct([OPAQUE_AUTH, ACCEPT_STAT])
  const REJECTED: Schema := Union([Arm(0, RANGE), Arm(1, AUTH_STAT)], false)
  const REPLY_BODY: Schema := Union([Arm(0, ACCEPTED), Arm(1, REJECTED)], false)
  const MSG_BODY: Schema := Union([Arm(0, CALL_BODY), Arm(1, REPLY_BODY)], false)
  const RPC_MSG: Schema := Struct([Uint, MSG_BODY])

  // ---- Building messages ----

  const NULL_AUTH: Value := VStruct([VArm(0, VVoid), VBytes([])])
  const SUCCESS: Value := VArm(0, VVoid)
  const PROG_UNAVAIL: Value := VArm(1, VVoid)
  const PROC_UNAVAIL: Value := VArm(3, VVoid)
  const GARBAGE_ARGS: Value := VArm(4, VVoid)
  const SYSTEM_ERR: Value := VArm(5, VVoid)

  function RangeValue(low: U32, high: U32): Value {
    VStruct([VUint(low), VUint(high)])
  }

  function CallBody(prog: U32, vers: U32, procedure: U32, cred: Value, verf: Value): Value {
    VStruct([VUint(RPC_VERSION_2), VUint(prog), VUint(vers), VUint(procedure), cred, verf])
  }

  function CallMessage(xid: U32, call: Value): Value {
    VStruct([VUint(xid), VArm(0, call)])
  }

  function ReplyMessage(xid: U32, reply: Value): Value {
    VStruct([VUint(xid), VArm(1, reply)])
  }

  function AcceptedReply(stat: Value): Value {
    VArm(0, VStruct([NULL_AUTH, stat]))
  }

  const RPC_MISMATCH: Value := VArm(1, VArm(0, RangeValue(RPC_VERSION_2, RPC_VERSION_2)))

  // ---- Types of messages ----

  lemma PairTyped(s: Schema, t: Schema, v: Value, w: Value)
    requires HasType(s, v) && HasType(t, w)
    ensures HasType(Struct([s, t]), VStruct([v, w]))
  {}

  lemma ChoiceTyped(s: Schema, t: Schema, i: nat, v: Value)
    requires i < 2 && HasType(if i == 0 then s else t, v)
    ensures HasType(Union([Arm(0, s), Arm(1, t)], false), VArm(i, v))
  {}

  /** A message is an xid and a call or a reply. */
  lemma MessageShape(msg: Value)
    requires HasType(RPC_MSG, msg)
    ensures msg.VStruct? && |msg.parts| == 2 && msg.parts[0].VUint? && msg.parts[1].VArm? && msg.parts[1].index < 2
    ensures HasType(if msg.parts[1].index == 0 then CALL_BODY else REPLY_BODY, msg.parts[1].body)
  {}

  lemma CallShape(call: Value)
    requires HasType(CALL_BODY, call)
    ensures call.VStruct? && |call.parts| == 6
    ensures call.parts[0].VUint? && call.parts[1].VUint? && call.parts[2].VUint? && call.parts[3].VUint?
    ensures HasType(OPAQUE_AUTH, call.parts[4]) && HasType(OPAQUE_AUTH, call.parts[5])
  {}

  lemma AuthShape(auth: Value)
    requires HasType(OPAQUE_AUTH, auth)
    ensures auth.VStruct? && |auth.parts| == 2
    ensures auth.parts[0].VArm? && auth.parts[0].index < 4 && auth.parts[1].VBytes?
  {}

  lemma ReplyShape(reply: Value)
    requires HasType(REPLY_BODY, reply)
    ensures reply.VArm? && reply.index < 2
    ensures reply.index == 0 ==>
      && reply.body.VStruct? && |reply.body.parts| == 2 && HasType(ACCEPT_STAT, reply.body.parts[1])
      && reply.body.parts[1].VArm? && reply.body.parts[1].index < 6
    ensures reply.index == 1 ==> reply.body.VArm? && reply.body.index < 2
  {}

  lemma CallTyped(xid: U32, prog: U32, vers: U32, procedure: U32, cred: Value, verf: Value)
    requires HasType(OPAQUE_AUTH, cred) && HasType(OPAQUE_AUTH, verf)
    ensures HasType(CALL_BODY, CallBody(prog, vers, procedure, cred, verf))
    ensures HasType(RPC_MSG, CallMessage(xid, CallBody(prog, vers, procedure, cred, verf)))
  {
    var call, reply, body := CALL_BODY, REPLY_BODY, MSG_BODY;
    ChoiceTyped(call, reply, 0, CallBody(prog, vers, procedure, cred, verf));
    PairTyped(Uint, body, VUint(xid), VArm(0, CallBody(prog, vers, procedure, cred, verf)));
  }

  lemma ReplyTyped(xid: U32, reply: Value)
    requires HasType(REPLY_BODY, reply)
    ensures HasType(RPC_MSG, ReplyMessage(xid, reply))
  {
    var call, body, message := CALL_BODY, REPLY_BODY, MSG_BODY;
    ChoiceTyped(call, body, 1, reply);
    PairTyped(Uint, message, VUint(xid), VArm(1, reply));
  }

  lemma AcceptedTyped(stat: Value)
    requires HasType(ACCEPT_STAT, stat)
    ensures HasType(REPLY_BODY, AcceptedReply(stat))
    ensures PackedSize(REPLY_BODY, AcceptedReply(stat)) == 12 + PackedSize(ACCEPT_STAT, stat) <= 24
  {
    var flavor, auth, body, accepted, rejected := AUTH_FLAVOR, OPAQUE_AUTH, ACCEPT_STAT, ACCEPTED, REJECTED;
    assert HasType(flavor, VArm(0, VVoid));
    PairTyped(flavor, OpaqueVar, VArm(0, VVoid), VBytes([]));
    PairTyped(auth, body, NULL_AUTH, stat);
    ChoiceTyped(accepted, rejected, 0, VStruct([NULL_AUTH, stat]));
    NfsTypes.TwoFields(flavor, VArm(0, VVoid), OpaqueVar, VBytes([]));
    NfsTypes.TwoFields(auth, NULL_AUTH, body, stat);
  }

  /** Everything but a program version mismatch goes without data. */
  lemma StatTyped(i: nat)
    requires i < 6 && i != 2
    ensures HasType(ACCEPT_STAT, VArm(i, VVoid))
  {
    var stat := ACCEPT_STAT;
    assert stat.arms[i].body == Void;
  }

  lemma VersionMismatchTyped(low: U32, high: U32)
    ensures HasType(ACCEPT_STAT, VArm(2, RangeValue(low, high)))
  {
    var stat, range := ACCEPT_STAT, RANGE;
    assert stat.arms[2].body == range;
    PairTyped(Uint, Uint, VUint(low), VUint(high));
  }

  lemma MismatchTyped()
    ensures HasType(REPLY_BODY, RPC_MISMATCH) && PackedSize(REPLY_BODY, RPC_MISMATCH) == 16
  {
    var range, stat, accepted, rejected := RANGE, AUTH_STAT, ACCEPTED, REJECTED;
    PairTyped(Uint, Uint, VUint(RPC_VERSION_2), VUint(RPC_VERSION_2));
    ChoiceTyped(range, stat, 0, RangeValue(RPC_VERSION_2, RPC_VERSION_2));
    ChoiceTyped(accepted, rejected, 1, VArm(0, RangeValue(RPC_VERSION_2, RPC_VERSION_2)));
    NfsTypes.TwoFields(Uint, VUint(RPC_VERSION_2), Uint, VUint(RPC_VERSION_2));
  }

  /** A reply's header is small and packs. */
  lemma ReplyPacks(xid: U32, reply: Value)
    requires HasType(REPLY_BODY, reply) && PackedSize(REPLY_BODY, reply) <= 24
    ensures HasType(RPC_MSG, ReplyMessage(xid, reply)) && Pack(RPC_MSG, ReplyMessage(xid, reply)).Ok?
  {
    ReplyTyped(xid, reply);
    var message := MSG_BODY;
    NfsTypes.TwoFields(Uint, VUint(xid), message, VArm(1, reply));
    MessagesAreSound();
    SmallValuesPack(RPC_MSG, ReplyMessage(xid, reply));
  }

  // ---- No message type has shared tags or default variants ----

  predicate Sound(s: Schema) {
    DistinctTags(s) && Closed(s)
  }

  lemma PairSound(s: Schema, t: Schema)
    requires Sound(s) && Sound(t)
    ensures Sound(Struct([s, t]))
  {}

  lemma ChoiceSound(s: Schema, t: Schema)
    requires Sound(s) && Sound(t)
    ensures Sound(Union([Arm(0, s), Arm(1, t)], false))
  {}

  lemma SixSound(s: Schema, t: Schema)
    requires Sound(s) && Sound(t)
    ensures Sound(Struct([Uint, Uint, Uint, Uint, s, t]))
  {}

  lemma StatSound(range: Schema)
    requires Sound(range)
    ensures Sound(Union([Arm(0, Void), Arm(1, Void), Arm(2, range), Arm(3, Void), Arm(4, Void), Arm(5, Void)], false))
  {}

  lemma WordsSound(n: nat)
    requires n <= 8
    ensures Sound(Union(Words(n), false))
  {}

  lemma MessagesAreSound()
    ensures Sound(RPC_MSG)
  {
    WordsSound(8);
    WordsSound(4);
    PairSound(Uint, Uint);
    var flavor, auth, stat, range := AUTH_FLAVOR, OPAQUE_AUTH, ACCEPT_STAT, RANGE;
    var accepted, rejected := ACCEPTED, REJECTED;
    PairSound(flavor, OpaqueVar);
    StatSound(range);
    PairSound(auth, stat);
    ChoiceSound(range, AUTH_STAT);
    ChoiceSound(accepted, rejected);
    SixSound(auth, auth);
    var call, reply, body := CALL_BODY, REPLY_BODY, MSG_BODY;
    ChoiceSound(call, reply);
    PairSound(Uint, body);
  }
}
