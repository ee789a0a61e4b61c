/** Each answer a server gives, and each way a reply can be bad, as the client comes to know it. */
module RpcReplies {
  import opened Basics
  import opened Xdr
  import opened XdrLaws
  import opened RpcTypes
  import opened RpcServer
  import opened RpcClient
  import Records

  // ---- Refusals ----

  /** When the server refuses a call with this status, the client gets this error. */
  predicate ComesBackAs(xid: U32, t: Schema, stat: Value, error: ClientError) {
    HasType(ACCEPT_STAT, stat) && Outcome(xid, t, ErrorReply(xid, stat)) == Some(Err(error))
  }

  /** A refused call: no such program, no such version of it, no such procedure, bytes that are no arguments, and a
      server that has too much to do. */
  lemma RefusalsComeBack(xid: U32, t: Schema, low: U32, high: U32)
    ensures ComesBackAs(xid, t, VArm(1, VVoid), ProgUnavail)
    ensures ComesBackAs(xid, t, VArm(2, VStruct([VUint(low), VUint(high)])), ProgMismatch)
    ensures ComesBackAs(xid, t, VArm(3, VVoid), ProcUnavail) && ComesBackAs(xid, t, VArm(4, VVoid), GarbageArgs)
    ensures ComesBackAs(xid, t, VArm(5, VVoid), SystemErr)
  {
    StatTyped(1);
    VersionMismatchTyped(low, high);
    StatTyped(3);
    StatTyped(4);
    StatTyped(5);
    ErrorComesBack(xid, VArm(1, VVoid), t);
    ErrorComesBack(xid, VArm(2, RangeValue(low, high)), t);
    ErrorComesBack(xid, VArm(3, VVoid), t);
    ErrorComesBack(xid, VArm(4, VVoid), t);
    ErrorComesBack(xid, VArm(5, VVoid), t);
  }

  lemma MessageComesOff(msg: Value, rest: seq<Byte>)
    requires HasType(RPC_MSG, msg) && Pack(RPC_MSG, msg).Ok?
    ensures Unpack(RPC_MSG, Pack(RPC_MSG, msg).value + rest) == Good(msg, rest)
  {
    MessagesAreSound();
    RoundTrip(RPC_MSG, msg, rest);
  }

  /** A denied call: another version of RPC, or credentials that are not accepted. */
  lemma DenialComesBack(xid: U32, denial: Value, t: Schema, rest: seq<Byte>)
    requires HasType(REJECTED, denial) && HasType(RPC_MSG, ReplyMessage(xid, VArm(1, denial)))
    requires Pack(RPC_MSG, ReplyMessage(xid, VArm(1, denial))).Ok?
    ensures denial.VArm? && denial.index < 2
    ensures Understood(xid, t, Pack(RPC_MSG, ReplyMessage(xid, VArm(1, denial))).value + rest)
         == Err(if denial.index == 0 then RpcMismatch else Auth)
  {
    var msg := ReplyMessage(xid, VArm(1, denial));
    MessageComesOff(msg, rest);
    MessageShape(msg);
    ReplyShape(VArm(1, denial));
  }

  lemma MismatchComesBack(xid: U32, t: Schema)
    ensures HasType(RPC_MSG, ReplyMessage(xid, RPC_MISMATCH))
    ensures Outcome(xid, t, Answered(xid, RPC_MISMATCH, Void, VVoid)) == Some(Err(RpcMismatch))
  {
    MismatchTyped();
    ReplyPacks(xid, RPC_MISMATCH);
    var range, stat, rejected := RANGE, AUTH_STAT, REJECTED;
    PairTyped(Uint, Uint, VUint(RPC_VERSION_2), VUint(RPC_VERSION_2));
    ChoiceTyped(range, stat, 0, RangeValue(RPC_VERSION_2, RPC_VERSION_2));
    DenialComesBack(xid, RPC_MISMATCH.body, t, []);
  }

  // ---- Replies that are not the one waited for ----

  /** The xid is looked at before anything else. */
  lemma OtherXidIsRefused(msg: Value, xid: U32, t: Schema, rest: seq<Byte>)
    requires HasType(RPC_MSG, msg) && Pack(RPC_MSG, msg).Ok?
    requires msg.VStruct? && |msg.parts| == 2 && msg.parts[0].VUint? && msg.parts[0].n != xid
    ensures Understood(xid, t, Pack(RPC_MSG, msg).value + rest) == Err(UnexpectedXid)
  {
    MessageComesOff(msg, rest);
    MessageShape(msg);
  }

  lemma CallIsRefused(xid: U32, call: Value, t: Schema, rest: seq<Byte>)
    requires HasType(RPC_MSG, CallMessage(xid, call)) && Pack(RPC_MSG, CallMessage(xid, call)).Ok?
    ensures Understood(xid, t, Pack(RPC_MSG, CallMessage(xid, call)).value + rest) == Err(UnexpectedCall)
  {
    MessageComesOff(CallMessage(xid, call), rest);
    MessageShape(CallMessage(xid, call));
  }

  lemma SuccessPacks(xid: U32)
    ensures HasType(RPC_MSG, ReplyMessage(xid, AcceptedReply(SUCCESS)))
    ensures Pack(RPC_MSG, ReplyMessage(xid, AcceptedReply(SUCCESS))).Ok?
  {
    StatTyped(0);
    AcceptedTyped(SUCCESS);
    ReplyPacks(xid, AcceptedReply(SUCCESS));
  }

  /** What the client makes of the bytes of a result: they are one, they are one with more bytes after it, or none. */
  predicate TakenFor(t: Schema, rest: seq<Byte>, payload: seq<Byte>, r: Result<Value, ClientError>) {
    match Unpack(t, rest)
    case Bad(e) => r == Err(ClientError.Xdr(e))
    case Good(v, more) =>
      |more| <= |payload| && r == if more == [] then Ok(v) else Err(NotFullyParsed(payload, |payload| - |more|))
  }

  /** A successful reply is taken for what comes after its header. */
  lemma ResultIsWhole(xid: U32, t: Schema, rest: seq<Byte>)
    requires HasType(RPC_MSG, ReplyMessage(xid, AcceptedReply(SUCCESS)))
    requires Pack(RPC_MSG, ReplyMessage(xid, AcceptedReply(SUCCESS))).Ok?
    ensures var payload := Pack(RPC_MSG, ReplyMessage(xid, AcceptedReply(SUCCESS))).value + rest;
            TakenFor(t, rest, payload, Understood(xid, t, payload))
  {
    SuccessIsAccepted(xid, t, rest);
    WholeIsTaken(t, Pack(RPC_MSG, ReplyMessage(xid, AcceptedReply(SUCCESS))).value + rest, rest);
  }

  lemma WholeIsTaken(t: Schema, payload: seq<Byte>, rest: seq<Byte>)
    requires |rest| <= |payload|
    ensures TakenFor(t, rest, payload, Whole(t, payload, rest))
  {}

  lemma SuccessIsAccepted(xid: U32, t: Schema, rest: seq<Byte>)
    requires HasType(RPC_MSG, ReplyMessage(xid, AcceptedReply(SUCCESS)))
    requires Pack(RPC_MSG, ReplyMessage(xid, AcceptedReply(SUCCESS))).Ok?
    ensures var payload := Pack(RPC_MSG, ReplyMessage(xid, AcceptedReply(SUCCESS))).value + rest;
            Understood(xid, t, payload) == Whole(t, payload, rest)
  {
    var msg := ReplyMessage(xid, AcceptedReply(SUCCESS));
    MessageComesOff(msg, rest);
    MessageShape(msg);
    ReplyShape(AcceptedReply(SUCCESS));
  }

  /** A stream that ends within the reply, and a reply that comes in more than one fragment. */
  lemma BadFramesAreRefused(xid: U32, t: Schema, payload: seq<Byte>, n: nat, tail: seq<Byte>)
    requires |payload| <= Records.MASK && n < |Records.Fragment(payload, true)|
    ensures FromWire(xid, t, Records.Fragment(payload, true)[..n]) == Err(Disconnected)
    ensures FromWire(xid, t, Records.Fragment(payload, false) + tail) == Err(Aborted)
  {
    Records.TruncatedFragment(payload, true, n);
    var b := Records.Fragment(payload, true);
    Records.FragmentComesOff(payload, true, []);
    assert b + [] == b;
    if n >= 4 { assert b[..n][..4] == b[..4]; }
    Records.FragmentComesOff(payload, false, tail);
  }

  // ---- What the server refuses ----

  /** Which procedure of which version of which program is refused, and with which status. */
  lemma WhatIsRefused(nfs: U32 -> Service, others: Dispatch, prog: U32, vers: U32, procedure: U32)
    ensures var service := ProgramDispatch(nfs, others)(prog, vers, procedure);
      && (prog != 100_000 && prog != 100_003 && prog != 100_005 ==> service == Refused(VArm(1, VVoid)))
      && (prog == 100_000 || prog == 100_005 ==> service == others(prog, vers, procedure))
      && (prog == 100_003 && vers != 3 ==> service == Refused(VArm(2, VStruct([VUint(3), VUint(3)]))))
      && (prog == 100_003 && vers == 3 ==>
            if procedure <= 10 || 12 <= procedure <= 14 || 16 <= procedure <= 20 then service == nfs(procedure)
            else service == Refused(VArm(3, VVoid)))
  {
    assert RangeValue(3, 3) == VStruct([VUint(3), VUint(3)]);
  }

  /** A call of another version of RPC is denied, whoever makes it and whatever it asks for. */
  lemma OtherVersionIsDenied(xid: U32, call: Value, data: seq<Byte>, start: Start, dispatch: Dispatch, t: Schema)
    requires HasType(CALL_BODY, call) && HasType(RPC_MSG, CallMessage(xid, call)) && AllSensible(dispatch)
    requires Pack(RPC_MSG, CallMessage(xid, call)).Ok? && CallVersion(call) != 2
    ensures Outcome(xid, t, Handled(Pack(RPC_MSG, CallMessage(xid, call)).value + data, start, dispatch))
         == Some(Err(RpcMismatch))
  {
    MessageComesOff(CallMessage(xid, call), data);
    MessageShape(CallMessage(xid, call));
    CallShape(call);
    MismatchComesBack(xid, t);
  }

  /** A credential of the UNIX flavour that is none, and a reply, end the connection. */
  lemma ConnectionEnds(xid: U32, call: Value, reply: Value, data: seq<Byte>, start: Start, dispatch: Dispatch)
    requires HasType(CALL_BODY, call) && HasType(RPC_MSG, CallMessage(xid, call)) && AllSensible(dispatch)
    requires Pack(RPC_MSG, CallMessage(xid, call)).Ok? && CallVersion(call) == 2
    requires HasType(RPC_MSG, ReplyMessage(xid, reply)) && Pack(RPC_MSG, ReplyMessage(xid, reply)).Ok?
    ensures Handled(Pack(RPC_MSG, ReplyMessage(xid, reply)).value + data, start, dispatch) == Err(NotACall)
    ensures call.VStruct? && |call.parts| == 6 && HasType(OPAQUE_AUTH, call.parts[4])
    ensures var cred := call.parts[4];
            && cred.VStruct? && |cred.parts| == 2 && cred.parts[0].VArm? && cred.parts[1].VBytes?
            && (cred.parts[0].index == 1 && Unpack(AUTH_UNIX, cred.parts[1].bytes).Bad? ==>
                  Handled(Pack(RPC_MSG, CallMessage(xid, call)).value + data, start, dispatch) == Err(BadCredential))
  {
    MessageComesOff(ReplyMessage(xid, reply), data);
    MessageShape(ReplyMessage(xid, reply));
    MessageComesOff(CallMessage(xid, call), data);
    MessageShape(CallMessage(xid, call));
    CallShape(call);
    AuthShape(call.parts[4]);
  }
}
