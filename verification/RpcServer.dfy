/** One RPC message at the server: from the bytes of a whole record to the bytes of its reply. */
module RpcServer {
  import opened Basics
  import opened Xdr
  import opened XdrLaws
  import opened RpcTypes
  import S = XdrStream

  /** What the retransmission tracker says to a call. */
  datatype Start = Locked | AlreadyExists | TooManyRequests

  /** What a program makes of a procedure number: a handler, or a refusal. */
  datatype Service =
    | Refused(stat: Value)
    | Procedure(args: Schema, results: Schema, run: (U32, Value) -> Value)

  type Dispatch = (U32, U32, U32) -> Service

  datatype HandleResult = Reply(bytes: seq<Byte>) | NoReply

  /** Failures that end the connection. */
  datatype Failure = NotUnpacked | NotACall | BadCredential | NotPacked

  ghost predicate Sensible(service: Service) {
    match service
    case Refused(stat) => HasType(ACCEPT_STAT, stat)
    case Procedure(args, results, run) =>
      forall xid: U32, a: Value :: HasType(args, a) ==> HasType(results, run(xid, a))
  }

  ghost predicate AllSensible(dispatch: Dispatch) {
    forall prog: U32, vers: U32, procedure: U32 :: Sensible(dispatch(prog, vers, procedure))
  }

  // ---- Which procedure ----

  /** The NFS program answers to its own version and procedures; MKNOD, LINK and COMMIT are not
      there. Port mapper and mount answer for themselves, and other programs are refused. */
  function ProgramDispatch(nfs: U32 -> Service, others: Dispatch): Dispatch {
    (prog: U32, vers: U32, procedure: U32) =>
      if prog == 100_000 || prog == 100_005 then others(prog, vers, procedure)
      else if prog != 100_003 then Refused(PROG_UNAVAIL)
      else if vers != 3 then Refused(VArm(2, RangeValue(3, 3)))
      else if procedure > 21 || procedure in {11, 15, 21} then Refused(PROC_UNAVAIL)
      else nfs(procedure)
  }

  lemma ProgramDispatchIsSensible(nfs: U32 -> Service, others: Dispatch)
    requires AllSensible(others) && forall p: U32 :: Sensible(nfs(p))
    ensures AllSensible(ProgramDispatch(nfs, others))
  {
    StatTyped(1);
    StatTyped(3);
    VersionMismatchTyped(3, 3);
  }

  // ---- What a message is answered with ----

  datatype Incoming = Incoming(xid: U32, call: Value, data: seq<Byte>)

  /** The message is a call; its arguments are the bytes after it. */
  function Parse(packed: seq<Byte>): (r: Result<Incoming, Failure>)
    ensures r.Ok? ==> HasType(CALL_BODY, r.value.call)
  {
    match Unpack(RPC_MSG, packed)
    case Bad(_) => Err(NotUnpacked)
    case Good(msg, rest) =>
      UnpackIsTyped(RPC_MSG, packed);
      MessageShape(msg);
      if msg.parts[1].index == 1 then Err(NotACall)
      else Ok(Incoming(msg.parts[0].n, msg.parts[1].body, rest))
  }

  function Packed(msg: Value, s: Schema, v: Value): Result<seq<Byte>, Error>
    requires HasType(RPC_MSG, msg) && HasType(s, v)
  {
    var header :- Pack(RPC_MSG, msg);
    var body :- Pack(s, v);
    Ok(header + body)
  }

  lemma PackedLength(msg: Value, s: Schema, v: Value)
    requires HasType(RPC_MSG, msg) && HasType(s, v)
    ensures (PackedSize(RPC_MSG, msg) + PackedSize(s, v)) % 4 == 0
    ensures Packed(msg, s, v).Ok? ==> |Packed(msg, s, v).value| == PackedSize(RPC_MSG, msg) + PackedSize(s, v)
  {
    PackedSizeIsLength(RPC_MSG, msg);
    PackedSizeIsLength(s, v);
    SumOfFours(PackedSize(RPC_MSG, msg), PackedSize(s, v));
  }

  function Answered(xid: U32, reply: Value, s: Schema, v: Value): Result<HandleResult, Failure>
    requires HasType(RPC_MSG, ReplyMessage(xid, reply)) && HasType(s, v)
  {
    match Packed(ReplyMessage(xid, reply), s, v)
    case Ok(bytes) => Ok(Reply(bytes))
    case Err(_) => Err(NotPacked)
  }

  function ErrorReply(xid: U32, stat: Value): Result<HandleResult, Failure>
    requires HasType(ACCEPT_STAT, stat)
  {
    AcceptedTyped(stat);
    ReplyTyped(xid, AcceptedReply(stat));
    Answered(xid, AcceptedReply(stat), Void, VVoid)
  }

  /** A credential of the UNIX flavour must hold what the flavour says. */
  function CredentialIsGood(call: Value): bool
    requires HasType(CALL_BODY, call)
  {
    CallShape(call);
    AuthShape(call.parts[4]);
    call.parts[4].parts[0].index == 1 ==> Unpack(AUTH_UNIX, call.parts[4].parts[1].bytes).Good?
  }

  ghost function Handled(packed: seq<Byte>, start: Start, dispatch: Dispatch): Result<HandleResult, Failure>
    requires AllSensible(dispatch)
  {
    var m :- Parse(packed);
    CallShape(m.call);
    StatTyped(5);
    if m.call.parts[0].n != RPC_VERSION_2 then
      MismatchTyped();
      ReplyTyped(m.xid, RPC_MISMATCH);
      Answered(m.xid, RPC_MISMATCH, Void, VVoid)
    else if !CredentialIsGood(m.call) then Err(BadCredential)
    else match start
      case TooManyRequests => ErrorReply(m.xid, SYSTEM_ERR)
      case AlreadyExists => Ok(NoReply)
      case Locked =>
        var service := dispatch(m.call.parts[1].n, m.call.parts[2].n, m.call.parts[3].n);
        assert Sensible(service);
        Served(m, service)
  }

  ghost function Served(m: Incoming, service: Service): Result<HandleResult, Failure>
    requires Sensible(service)
  {
    match service
    case Refused(stat) => ErrorReply(m.xid, stat)
    case Procedure(args, results, run) =>
      StatTyped(4);
      match Unpack(args, m.data)
      case Bad(_) => ErrorReply(m.xid, GARBAGE_ARGS)
      case Good(a, rest) =>
        if rest != [] then ErrorReply(m.xid, GARBAGE_ARGS)
        else
          UnpackIsTyped(args, m.data);
          StatTyped(0);
          AcceptedTyped(SUCCESS);
          ReplyTyped(m.xid, AcceptedReply(SUCCESS));
          Answered(m.xid, AcceptedReply(SUCCESS), results, run(m.xid, a))
  }

  // ---- The code ----

  /** A message header and what it carries. */
  method PackInto(msg: Value, s: Schema, v: Value, out: S.ByteSink) returns (r: Result<(), Error>)
    requires HasType(RPC_MSG, msg) && HasType(s, v)
    modifies out
    ensures match Packed(msg, s, v)
            case Ok(bytes) => r == Ok(()) && out.written == old(out.written) + bytes
            case Err(e) => r == Err(e)
  {
    r := PackBoth(RPC_MSG, msg, s, v, out);
  }

  method PackBoth(header: Schema, msg: Value, s: Schema, v: Value, out: S.ByteSink) returns (r: Result<(), Error>)
    requires HasType(header, msg) && HasType(s, v)
    modifies out
    ensures WroteBoth(r, Pack(header, msg), Pack(s, v), old(out.written), out.written)
  {
    var first := S.Pack(header, msg, out);
    if first.Err? { return Err(first.error); }
    var second := S.Pack(s, v, out);
    if second.Err? { return Err(second.error); }
    ConcatAssoc(old(out.written), Pack(header, msg).value, Pack(s, v).value);
    r := Ok(());
  }

  ghost predicate WroteBoth(r: Result<(), Error>, first: Result<seq<Byte>, Error>, second: Result<seq<Byte>, Error>,
                            before: seq<Byte>, after: seq<Byte>) {
    if first.Err? then r == Err(first.error)
    else if second.Err? then r == Err(second.error)
    else r == Ok(()) && after == before + first.value + second.value && after == before + (first.value + second.value)
  }

  method PackMessage(msg: Value, s: Schema, v: Value) returns (r: Result<seq<Byte>, Error>)
    requires HasType(RPC_MSG, msg) && HasType(s, v)
    ensures r == Packed(msg, s, v)
  {
    var cursor := new S.ByteSink();
    var _ :- PackInto(msg, s, v, cursor);
    assert [] + Packed(msg, s, v).value == Packed(msg, s, v).value;
    r := Ok(cursor.written);
  }

  method Answer(xid: U32, reply: Value, s: Schema, v: Value) returns (r: Result<HandleResult, Failure>)
    requires HasType(RPC_MSG, ReplyMessage(xid, reply)) && HasType(s, v)
    ensures r == Answered(xid, reply, s, v)
  {
    var packed := PackMessage(ReplyMessage(xid, reply), s, v);
    r := if packed.Ok? then Ok(Reply(packed.value)) else Err(NotPacked);
  }

  method IntoErrorReply(xid: U32, stat: Value) returns (r: Result<HandleResult, Failure>)
    requires HasType(ACCEPT_STAT, stat)
    ensures r == ErrorReply(xid, stat)
  {
    AcceptedTyped(stat);
    ReplyTyped(xid, AcceptedReply(stat));
    r := Answer(xid, AcceptedReply(stat), Void, VVoid);
  }

  method TryFrom(packed: seq<Byte>) returns (r: Result<Incoming, Failure>)
    ensures r == Parse(packed)
  {
    var cursor := new S.ByteSource(packed);
    assert cursor.Rest() == packed;
    var unpacked := S.Unpack(RPC_MSG, cursor);
    if unpacked.Err? { return Err(NotUnpacked); }
    var (msg, pos) := unpacked.value;
    assert Unpack(RPC_MSG, packed) == Good(msg, cursor.Rest());
    UnpackIsTyped(RPC_MSG, packed);
    MessageShape(msg);
    if msg.parts[1].index == 1 { return Err(NotACall); }
    r := Ok(Incoming(msg.parts[0].n, msg.parts[1].body, cursor.Rest()));
  }

  /** Runs a handler on arguments that take up all the data of the message. */
  method Handle(m: Incoming, args: Schema, results: Schema, run: (U32, Value) -> Value)
    returns (r: Result<HandleResult, Failure>)
    requires Sensible(Procedure(args, results, run))
    ensures r == Served(m, Procedure(args, results, run))
  {
    StatTyped(4);
    var cursor := new S.ByteSource(m.data);
    assert cursor.Rest() == m.data;
    var unpacked := S.Unpack(args, cursor);
    if unpacked.Err? {
      r := IntoErrorReply(m.xid, GARBAGE_ARGS);
      return;
    }
    if cursor.pos != |cursor.data| {
      r := IntoErrorReply(m.xid, GARBAGE_ARGS);
      return;
    }
    var (a, _) := unpacked.value;
    UnpackIsTyped(args, m.data);
    StatTyped(0);
    AcceptedTyped(SUCCESS);
    ReplyTyped(m.xid, AcceptedReply(SUCCESS));
    r := Answer(m.xid, AcceptedReply(SUCCESS), results, run(m.xid, a));
  }

  method HandleRpcMessage(packed: seq<Byte>, start: Start, dispatch: Dispatch)
    returns (r: Result<HandleResult, Failure>)
    requires AllSensible(dispatch)
    ensures r == Handled(packed, start, dispatch)
  {
    var m :- TryFrom(packed);
    CallShape(m.call);
    AuthShape(m.call.parts[4]);
    if m.call.parts[0].n != RPC_VERSION_2 {
      MismatchTyped();
      ReplyTyped(m.xid, RPC_MISMATCH);
      r := Answer(m.xid, RPC_MISMATCH, Void, VVoid);
      return;
    }
    if m.call.parts[4].parts[0].index == 1 {
      var cursor := new S.ByteSource(m.call.parts[4].parts[1].bytes);
      assert cursor.Rest() == m.call.parts[4].parts[1].bytes;
      var auth := S.Unpack(AUTH_UNIX, cursor);
      if auth.Err? { return Err(BadCredential); }
    }
    match start
    case TooManyRequests =>
      StatTyped(5);
      r := IntoErrorReply(m.xid, SYSTEM_ERR);
    case AlreadyExists => r := Ok(NoReply);
    case Locked =>
      var service := dispatch(m.call.parts[1].n, m.call.parts[2].n, m.call.parts[3].n);
      assert Sensible(service);
      match service
      case Refused(stat) => r := IntoErrorReply(m.xid, stat);
      case Procedure(args, results, run) => r := Handle(m, args, results, run);
  }
}
