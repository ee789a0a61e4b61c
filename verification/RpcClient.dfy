/** The RPC client, and what becomes of its calls at the server and on the way back. */
module RpcClient {
  import opened Basics
  import opened Xdr
  import opened XdrLaws
  import opened RpcTypes
  import opened RpcServer
  import Records
  import S = XdrStream

  /** `Aborted` stands for the assertion that a reply comes in one fragment. */
  datatype ClientError =
    | Disconnected
    | Xdr(error: Error)
    | Aborted
    | UnexpectedCall
    | Auth
    | RpcMismatch
    | WrongLength
    | UnexpectedXid
    | NotFullyParsed(buf: seq<Byte>, pos: nat)
    | ProgUnavail
    | ProgMismatch
    | ProcUnavail
    | GarbageArgs
    | SystemErr

  function StatError(stat: Value): ClientError
    requires HasType(ACCEPT_STAT, stat) && stat.VArm? && 0 < stat.index < 6
  {
    match stat.index
    case 1 => ProgUnavail
    case 2 => ProgMismatch
    case 3 => ProcUnavail
    case 4 => GarbageArgs
    case 5 => SystemErr
  }

  /** The message is a successful reply to the call with this xid. */
  function Accepted(xid: U32, msg: Value): Result<(), ClientError>
    requires HasType(RPC_MSG, msg)
  {
    MessageShape(msg);
    if msg.parts[0].n != xid then Err(UnexpectedXid)
    else if msg.parts[1].index == 0 then Err(UnexpectedCall)
    else
      var reply := msg.parts[1].body;
      ReplyShape(reply);
      if reply.index == 1 then Err(if reply.body.index == 0 then RpcMismatch else Auth)
      else if reply.body.parts[1].index != 0 then Err(StatError(reply.body.parts[1]))
      else Ok(())
  }

  /** What the client takes the payload of a reply for. */
  function Understood(xid: U32, s: Schema, payload: seq<Byte>): Result<Value, ClientError> {
    match Unpack(RPC_MSG, payload)
    case Bad(e) => Err(Xdr(e))
    case Good(msg, rest) =>
      UnpackIsTyped(RPC_MSG, payload);
      var _ :- Accepted(xid, msg);
      Whole(s, payload, rest)
  }

  /** The rest of the payload is one value. */
  function Whole(s: Schema, payload: seq<Byte>, rest: seq<Byte>): Result<Value, ClientError>
    requires |rest| <= |payload|
  {
    match Unpack(s, rest)
    case Bad(e) => Err(Xdr(e))
    case Good(v, more) => if more != [] then Err(NotFullyParsed(payload, |payload| - |more|)) else Ok(v)
  }

  /** The same for the bytes that come in after a call. */
  function FromWire(xid: U32, s: Schema, b: seq<Byte>): Result<Value, ClientError> {
    if |b| < 4 then Err(Disconnected)
    else if !Records.Eof(FromBe32(b[..4])) then Err(Aborted)
    else if !Records.HasFragment(b) then Err(Disconnected)
    else Understood(xid, s, Records.Payload(b))
  }

  // ---- The code ----

  class RpcClient {
    var xid: U32
    const credential: Value
    const verifier: Value

    ghost predicate Valid() {
      HasType(OPAQUE_AUTH, credential) && HasType(OPAQUE_AUTH, verifier)
    }

    constructor (seed: U32, credential: Value, verifier: Value)
      requires HasType(OPAQUE_AUTH, credential) && HasType(OPAQUE_AUTH, verifier)
      ensures Valid() && xid == seed && this.credential == credential && this.verifier == verifier
    {
      xid := seed;
      this.credential := credential;
      this.verifier := verifier;
    }

    /** The call message of the next call. */
    function NextCall(prog: U32, vers: U32, procedure: U32): Value
      reads this
    {
      CallMessage(xid, CallBody(prog, vers, procedure, credential, verifier))
    }

    /** Sends a call; the xid moves on and wraps around. A message must be shorter than 2^31 bytes. */
    method BeginCall(prog: U32, vers: U32, procedure: U32, s: Schema, args: Value, out: S.ByteSink)
      returns (mine: U32, r: Result<(), ClientError>)
      requires Valid() && HasType(s, args)
      requires HasType(RPC_MSG, NextCall(prog, vers, procedure)) ==>
                 PackedSize(RPC_MSG, NextCall(prog, vers, procedure)) + PackedSize(s, args) <= Records.MASK
      modifies this, out
      ensures mine == old(xid) && xid == (old(xid) + 1) % 0x1_0000_0000
      ensures HasType(RPC_MSG, old(NextCall(prog, vers, procedure)))
      ensures match Packed(old(NextCall(prog, vers, procedure)), s, args)
              case Ok(bytes) =>
                && r == Ok(()) && Records.IsCut([bytes])
                && out.written == old(out.written) + Records.RecordOf([bytes])
              case Err(e) => r == Err(Xdr(e)) && out.written == old(out.written)
    {
      CallTyped(xid, prog, vers, procedure, credential, verifier);
      var msg := NextCall(prog, vers, procedure);
      mine := xid;
      xid := (xid + 1) % 0x1_0000_0000;
      r := SendCall(msg, s, args, out);
    }

    /** Sends a call and waits for its reply. */
    method Call(prog: U32, vers: U32, procedure: U32, s: Schema, args: Value, t: Schema, out: S.ByteSink,
                input: S.ByteSource)
      returns (r: Result<Value, ClientError>)
      requires Valid() && HasType(s, args) && input.Valid()
      requires HasType(RPC_MSG, NextCall(prog, vers, procedure)) ==>
                 PackedSize(RPC_MSG, NextCall(prog, vers, procedure)) + PackedSize(s, args) <= Records.MASK
      modifies this, out, input
      ensures xid == (old(xid) + 1) % 0x1_0000_0000
      ensures HasType(RPC_MSG, old(NextCall(prog, vers, procedure)))
      ensures match Packed(old(NextCall(prog, vers, procedure)), s, args)
              case Ok(bytes) =>
                && Records.IsCut([bytes]) && out.written == old(out.written) + Records.RecordOf([bytes])
                && r == FromWire(old(xid), t, old(input.Rest()))
              case Err(e) => r == Err(Xdr(e)) && out.written == old(out.written)
    {
      var mine, sent := BeginCall(prog, vers, procedure, s, args, out);
      if sent.Err? { return Err(sent.error); }
      r := RecvReply(mine, t, input);
    }
  }

  /** The length checks never fail: what ends in an error is an argument that cannot be packed. */
  method SendCall(msg: Value, s: Schema, args: Value, out: S.ByteSink) returns (r: Result<(), ClientError>)
    requires HasType(RPC_MSG, msg) && HasType(s, args)
    requires PackedSize(RPC_MSG, msg) + PackedSize(s, args) <= Records.MASK
    modifies out
    ensures match Packed(msg, s, args)
            case Ok(bytes) =>
              && r == Ok(()) && Records.IsCut([bytes])
              && out.written == old(out.written) + Records.RecordOf([bytes])
            case Err(e) => r == Err(Xdr(e)) && out.written == old(out.written)
  {
    PackedLength(msg, s, args);
    var headerLen := S.PackedSize(RPC_MSG, msg);
    var argsLen := S.PackedSize(s, args);
    var totalLen := headerLen + argsLen;
    if totalLen % 4 != 0 { return Err(WrongLength); }
    var framed := Framed(Records.Header(totalLen, true), msg, s, args);
    if framed.Err? { return Err(Xdr(framed.error)); }
    if |framed.value| - 4 != totalLen { return Err(WrongLength); }
    out.WriteAll(framed.value);
    r := Ok(());
  }

  /** A message after its fragment header. */
  method Framed(header: U32, msg: Value, s: Schema, args: Value) returns (r: Result<seq<Byte>, Error>)
    requires HasType(RPC_MSG, msg) && HasType(s, args)
    ensures match Packed(msg, s, args)
            case Ok(bytes) => r == Ok(Be32(header) + bytes)
            case Err(e) => r == Err(e)
  {
    var buf := new S.ByteSink();
    buf.WriteAll(Be32(header));
    assert [] + Be32(header) == Be32(header);
    var _ :- PackInto(msg, s, args, buf);
    r := Ok(buf.written);
  }

  method RecvReply(xid: U32, s: Schema, input: S.ByteSource) returns (r: Result<Value, ClientError>)
    requires input.Valid()
    modifies input
    ensures input.Valid() && r == FromWire(xid, s, old(input.Rest()))
    ensures Records.HasFragment(old(input.Rest())) && Records.IsLast(old(input.Rest())) ==>
              input.Rest() == Records.AfterFragment(old(input.Rest()))
  {
    ghost var b := input.Rest();
    var word := input.ReadExact(4);
    if word.Err? { return Err(Disconnected); }
    Records.FragmentInSteps(b);
    var header := FromBe32(word.value);
    if !Records.Eof(header) { return Err(Aborted); }
    var totalLen := Records.FragmentLength(header);
    var body := input.ReadExact(totalLen);
    if body.Err? { return Err(Disconnected); }
    r := Understand(xid, s, body.value);
  }

  method Understand(xid: U32, s: Schema, buf: seq<Byte>) returns (r: Result<Value, ClientError>)
    ensures r == Understood(xid, s, buf)
  {
    var cursor := new S.ByteSource(buf);
    assert cursor.Rest() == buf;
    var unpacked := S.Unpack(RPC_MSG, cursor);
    if unpacked.Err? { return Err(Xdr(unpacked.error)); }
    var (msg, _) := unpacked.value;
    UnpackIsTyped(RPC_MSG, buf);
    var _ :- Accepted(xid, msg);
    r := FinalValue(s, cursor);
  }

  method FinalValue(s: Schema, cursor: S.ByteSource) returns (r: Result<Value, ClientError>)
    requires cursor.Valid()
    modifies cursor
    ensures r == Whole(s, cursor.data, old(cursor.Rest()))
  {
    var finalValue := S.Unpack(s, cursor);
    if finalValue.Err? { return Err(Xdr(finalValue.error)); }
    if cursor.pos != |cursor.data| { return Err(NotFullyParsed(cursor.data, cursor.pos)); }
    var (v, _) := finalValue.value;
    r := Ok(v);
  }

  // ---- A call and its reply ----

  /** The server takes a call apart into what the client put in, with nothing left over. */
  lemma ServerSeesCall(xid: U32, call: Value, s: Schema, args: Value, extra: seq<Byte>)
    requires HasType(CALL_BODY, call) && HasType(RPC_MSG, CallMessage(xid, call)) && HasType(s, args)
    requires DistinctTags(s) && Packed(CallMessage(xid, call), s, args).Ok?
    ensures Parse(Packed(CallMessage(xid, call), s, args).value + extra)
         == Ok(Incoming(xid, call, Pack(s, args).value + extra))
    ensures Unpack(s, Pack(s, args).value + extra) == Good(args, extra)
  {
    MessagesAreSound();
    var header, body := Pack(RPC_MSG, CallMessage(xid, call)).value, Pack(s, args).value;
    assert header + body + extra == header + (body + extra);
    RoundTrip(RPC_MSG, CallMessage(xid, call), body + extra);
    RoundTrip(s, args, extra);
  }

  /** The client takes an accepted reply to its own xid for what the server put in, and refuses one
      to any other xid. */
  lemma ClientSeesReply(xid: U32, other: U32, stat: Value, s: Schema, v: Value)
    requires HasType(ACCEPT_STAT, stat) && stat.VArm? && HasType(s, v) && DistinctTags(s)
    requires HasType(RPC_MSG, ReplyMessage(xid, AcceptedReply(stat)))
    requires Packed(ReplyMessage(xid, AcceptedReply(stat)), s, v).Ok?
    ensures Understood(other, s, Packed(ReplyMessage(xid, AcceptedReply(stat)), s, v).value)
         == if other != xid then Err(UnexpectedXid)
            else if 0 < stat.index < 6 then Err(StatError(stat))
            else Ok(v)
  {
    MessagesAreSound();
    var msg := ReplyMessage(xid, AcceptedReply(stat));
    var body := Pack(s, v).value;
    RoundTrip(RPC_MSG, msg, body);
    RoundTrip(s, v, []);
    assert body + [] == body;
    MessageShape(msg);
    ReplyShape(AcceptedReply(stat));
  }

  /** A client's call: well typed, packed, and with a credential the server can read. */
  ghost predicate IsCall(xid: U32, call: Value, s: Schema, args: Value) {
    && HasType(CALL_BODY, call) && HasType(RPC_MSG, CallMessage(xid, call)) && HasType(s, args) && DistinctTags(s)
    && Packed(CallMessage(xid, call), s, args).Ok?
    && CallVersion(call) == RPC_VERSION_2 && CredentialIsGood(call)
  }

  function CallVersion(call: Value): U32
    requires HasType(CALL_BODY, call)
  {
    CallShape(call);
    call.parts[0].n
  }

  function ServiceFor(dispatch: Dispatch, call: Value): Service
    requires HasType(CALL_BODY, call)
  {
    CallShape(call);
    dispatch(call.parts[1].n, call.parts[2].n, call.parts[3].n)
  }

  /** What the client gets for a reply of the server. */
  function Outcome(xid: U32, t: Schema, handled: Result<HandleResult, Failure>): Option<Result<Value, ClientError>> {
    if handled.Ok? && handled.value.Reply? then Some(Understood(xid, t, handled.value.bytes)) else None
  }

  lemma ErrorComesBack(xid: U32, stat: Value, t: Schema)
    requires HasType(ACCEPT_STAT, stat) && stat.VArm? && 0 < stat.index < 6
    ensures Outcome(xid, t, ErrorReply(xid, stat)) == Some(Err(StatError(stat)))
  {
    AcceptedTyped(stat);
    ReplyPacks(xid, AcceptedReply(stat));
    MessagesAreSound();
    var msg := ReplyMessage(xid, AcceptedReply(stat));
    RoundTrip(RPC_MSG, msg, []);
    MessageShape(msg);
    ReplyShape(AcceptedReply(stat));
  }

  /** What the server's answer to a call is to the client. The handler gets exactly the client's
      arguments and the client exactly the handler's result; every refusal arrives as the error it
      stands for; a retransmission is not answered; bytes after the arguments are garbage. */
  ghost predicate ComesTo(xid: U32, args: Value, s: Schema, extra: seq<Byte>, start: Start, service: Service, t: Schema,
                          outcome: Option<Result<Value, ClientError>>)
    requires Sensible(service)
  {
    match start
    case AlreadyExists => outcome == None
    case TooManyRequests => outcome == Some(Err(SystemErr))
    case Locked =>
      match service
      case Refused(stat) =>
        stat.index != 0 ==> outcome == Some(Err(StatError(stat)))
      case Procedure(argType, resultType, run) =>
        argType == s && resultType == t && HasType(s, args) && DistinctTags(t) ==>
          if extra != [] then outcome == Some(Err(GarbageArgs))
          else if Pack(t, run(xid, args)).Ok? then outcome == Some(Ok(run(xid, args)))
          else outcome == None
  }

  lemma CallComesBack(xid: U32, call: Value, s: Schema, args: Value, extra: seq<Byte>, start: Start,
                      dispatch: Dispatch, t: Schema)
    requires IsCall(xid, call, s, args) && AllSensible(dispatch)
    ensures Sensible(ServiceFor(dispatch, call))
    ensures ComesTo(xid, args, s, extra, start, ServiceFor(dispatch, call), t,
                    Outcome(xid, t, Handled(Packed(CallMessage(xid, call), s, args).value + extra, start, dispatch)))
  {
    ServerSeesCall(xid, call, s, args, extra);
    CallShape(call);
    var m := Incoming(xid, call, Pack(s, args).value + extra);
    match start
    case AlreadyExists =>
    case TooManyRequests =>
      StatTyped(5);
      ErrorComesBack(xid, SYSTEM_ERR, t);
    case Locked => ServedComesBack(m, s, args, extra, ServiceFor(dispatch, call), t);
  }

  lemma ServedComesBack(m: Incoming, s: Schema, args: Value, extra: seq<Byte>, service: Service, t: Schema)
    requires Sensible(service) && HasType(s, args) && Unpack(s, m.data) == Good(args, extra)
    ensures ComesTo(m.xid, args, s, extra, Locked, service, t, Outcome(m.xid, t, Served(m, service)))
  {
    match service
    case Refused(stat) => RefusalComesBack(m, s, args, extra, stat, t);
    case Procedure(argType, resultType, run) =>
      if argType == s && resultType == t && DistinctTags(t) {
        ProcedureComesBack(m, s, args, extra, t, run);
        ProcedureFits(m.xid, args, s, extra, t, run, Outcome(m.xid, t, Served(m, service)));
      }
  }

  lemma RefusalComesBack(m: Incoming, s: Schema, args: Value, extra: seq<Byte>, stat: Value, t: Schema)
    requires Sensible(Refused(stat))
    ensures ComesTo(m.xid, args, s, extra, Locked, Refused(stat), t, Outcome(m.xid, t, Served(m, Refused(stat))))
  {
    if stat.index != 0 { ErrorComesBack(m.xid, stat, t); }
    RefusalFits(m.xid, args, s, extra, stat, t, Outcome(m.xid, t, ErrorReply(m.xid, stat)));
  }

  lemma RefusalFits(xid: U32, args: Value, s: Schema, extra: seq<Byte>, stat: Value, t: Schema,
                    outcome: Option<Result<Value, ClientError>>)
    requires HasType(ACCEPT_STAT, stat) && stat.VArm? && stat.index < 6
    requires stat.index != 0 ==> outcome == Some(Err(StatError(stat)))
    ensures ComesTo(xid, args, s, extra, Locked, Refused(stat), t, outcome)
  {}

  lemma ProcedureFits(xid: U32, args: Value, s: Schema, extra: seq<Byte>, t: Schema, run: (U32, Value) -> Value,
                      outcome: Option<Result<Value, ClientError>>)
    requires Sensible(Procedure(s, t, run)) && HasType(s, args)
    requires outcome == if extra != [] then Some(Err(GarbageArgs))
                        else if Pack(t, run(xid, args)).Ok? then Some(Ok(run(xid, args))) else None
    ensures ComesTo(xid, args, s, extra, Locked, Procedure(s, t, run), t, outcome)
  {}

  lemma ProcedureComesBack(m: Incoming, s: Schema, args: Value, extra: seq<Byte>, t: Schema, run: (U32, Value) -> Value)
    requires Sensible(Procedure(s, t, run)) && HasType(s, args) && DistinctTags(t)
    requires Unpack(s, m.data) == Good(args, extra)
    ensures Outcome(m.xid, t, Served(m, Procedure(s, t, run))) ==
            if extra != [] then Some(Err(GarbageArgs))
            else if Pack(t, run(m.xid, args)).Ok? then Some(Ok(run(m.xid, args))) else None
  {
    if extra != [] {
      StatTyped(4);
      ErrorComesBack(m.xid, GARBAGE_ARGS, t);
    } else {
      ResultComesBack(m.xid, t, run(m.xid, args));
    }
  }

  lemma ResultComesBack(xid: U32, t: Schema, v: Value)
    requires HasType(t, v) && DistinctTags(t)
    ensures HasType(RPC_MSG, ReplyMessage(xid, AcceptedReply(SUCCESS)))
    ensures Outcome(xid, t, Answered(xid, AcceptedReply(SUCCESS), t, v)) == if Pack(t, v).Ok? then Some(Ok(v)) else None
  {
    StatTyped(0);
    AcceptedTyped(SUCCESS);
    ReplyPacks(xid, AcceptedReply(SUCCESS));
    if Pack(t, v).Ok? { ClientSeesReply(xid, xid, SUCCESS, t, v); }
  }

  /** The credential a client makes of UNIX identities is one the server accepts. */
  lemma UnixCredentialIsGood(auth: Value, prog: U32, vers: U32, procedure: U32, verf: Value)
    requires HasType(AUTH_UNIX, auth) && Pack(AUTH_UNIX, auth).Ok? && HasType(OPAQUE_AUTH, verf)
    ensures var cred := VStruct([VArm(1, VVoid), VBytes(Pack(AUTH_UNIX, auth).value)]);
            && HasType(OPAQUE_AUTH, cred)
            && HasType(CALL_BODY, CallBody(prog, vers, procedure, cred, verf))
            && CredentialIsGood(CallBody(prog, vers, procedure, cred, verf))
  {
    var packed := Pack(AUTH_UNIX, auth).value;
    var cred := VStruct([VArm(1, VVoid), VBytes(packed)]);
    var flavor := AUTH_FLAVOR;
    assert flavor.arms[1].body == Void;
    PairTyped(flavor, OpaqueVar, VArm(1, VVoid), VBytes(packed));
    CallTyped(0, prog, vers, procedure, cred, verf);
    RoundTrip(AUTH_UNIX, auth, []);
    assert packed + [] == packed;
  }

  // ---- On the wire ----

  /** However the transport cuts it, a call reaches the server as it was packed, and the client reads
      the server's reply off its own stream up to the next one. */
  lemma OverTheWire(request: seq<seq<Byte>>, reply: seq<Byte>, xid: U32, t: Schema, tail: seq<Byte>)
    requires Records.IsCut(request) && |reply| <= Records.MASK
    ensures Records.Received([], Records.RecordOf(request)) == [Records.Join(request)]
    ensures Records.IsCut([reply]) && FromWire(xid, t, Records.RecordOf([reply]) + tail) == Understood(xid, t, reply)
    ensures Records.HasFragment(Records.RecordOf([reply]) + tail)
         && Records.AfterFragment(Records.RecordOf([reply]) + tail) == tail
  {
    Records.RecordComesOff([], request, []);
    assert Records.RecordOf(request) + [] == Records.RecordOf(request);
    assert [] + Records.Join(request) == Records.Join(request);
    Records.FragmentComesOff(reply, true, tail);
  }
}
