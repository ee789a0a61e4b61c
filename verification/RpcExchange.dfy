/** One call all the way: the client's bytes, the server's receive loop, the handler, the reply's bytes, and
    what the client makes of them. */
module RpcExchange {
  import opened Basics
  import opened Xdr
  import opened RpcTypes
  import opened RpcServer
  import opened RpcClient
  import Records
  import S = XdrStream

  /** What the client reads off the wire when the server has handled its call. */
  ghost function Seen(xid: U32, t: Schema, handled: Result<HandleResult, Failure>, tail: seq<Byte>)
    : Option<Result<Value, ClientError>>
    requires Deliverable(handled)
  {
    if handled.Ok? && handled.value.Reply? then
      Some(FromWire(xid, t, Records.RecordOf([handled.value.bytes]) + tail))
    else None
  }

  /** A reply must be shorter than 2^31 bytes. */
  predicate Deliverable(handled: Result<HandleResult, Failure>) {
    handled.Ok? && handled.value.Reply? ==> |handled.value.bytes| <= Records.MASK
  }

  lemma SeenIsOutcome(xid: U32, t: Schema, handled: Result<HandleResult, Failure>, tail: seq<Byte>)
    requires Deliverable(handled)
    ensures Seen(xid, t, handled, tail) == Outcome(xid, t, handled)
  {
    if handled.Ok? && handled.value.Reply? { OverTheWire([[]], handled.value.bytes, xid, t, tail); }
  }

  /** However the call is cut on its way, the server receives that one message, and what the client reads
      afterwards is what the call has to come to. */
  lemma WholeCall(xid: U32, call: Value, s: Schema, args: Value, request: seq<seq<Byte>>, start: Start,
                  dispatch: Dispatch, t: Schema, tail: seq<Byte>)
    requires IsCall(xid, call, s, args) && AllSensible(dispatch)
    requires Records.IsCut(request) && Records.Join(request) == Packed(CallMessage(xid, call), s, args).value
    requires Deliverable(Handled(Records.Join(request), start, dispatch))
    ensures Records.Received([], Records.RecordOf(request)) == [Records.Join(request)]
    ensures Sensible(ServiceFor(dispatch, call))
    ensures ComesTo(xid, args, s, [], start, ServiceFor(dispatch, call), t,
                    Seen(xid, t, Handled(Records.Join(request), start, dispatch), tail))
  {
    OverTheWire(request, [], xid, t, []);
    var packed := Records.Join(request);
    assert packed + [] == packed;
    CallComesBack(xid, call, s, args, [], start, dispatch, t);
    SeenIsOutcome(xid, t, Handled(packed, start, dispatch), tail);
  }

  /** The methods of client and server, one after the other. */
  method Exchange(client: RpcClient, prog: U32, vers: U32, procedure: U32, s: Schema, args: Value, t: Schema,
                  start: Start, dispatch: Dispatch)
    returns (r: Option<Result<Value, ClientError>>)
    requires client.Valid() && AllSensible(dispatch)
    requires IsCall(client.xid, CallBody(prog, vers, procedure, client.credential, client.verifier), s, args)
    requires PackedSize(RPC_MSG, client.NextCall(prog, vers, procedure)) + PackedSize(s, args) <= Records.MASK
    requires Deliverable(Handled(Packed(client.NextCall(prog, vers, procedure), s, args).value, start, dispatch))
    modifies client
    ensures var call := CallBody(prog, vers, procedure, client.credential, client.verifier);
            && HasType(CALL_BODY, call) && Sensible(ServiceFor(dispatch, call))
            && ComesTo(old(client.xid), args, s, [], start, ServiceFor(dispatch, call), t, r)
  {
    ghost var call := CallBody(prog, vers, procedure, client.credential, client.verifier);
    ghost var packed := Packed(client.NextCall(prog, vers, procedure), s, args).value;
    WholeCallInOne(client.xid, call, s, args, start, dispatch, t);
    var there := new S.ByteSink();
    var xid, _ := client.BeginCall(prog, vers, procedure, s, args, there);
    assert [] + Records.RecordOf([packed]) == Records.RecordOf([packed]);
    r := ThereAndBack(xid, t, there.written, packed, start, dispatch);
  }

  lemma WholeCallInOne(xid: U32, call: Value, s: Schema, args: Value, start: Start, dispatch: Dispatch, t: Schema)
    requires IsCall(xid, call, s, args) && AllSensible(dispatch)
    requires PackedSize(RPC_MSG, CallMessage(xid, call)) + PackedSize(s, args) <= Records.MASK
    requires Deliverable(Handled(Packed(CallMessage(xid, call), s, args).value, start, dispatch))
    ensures var packed := Packed(CallMessage(xid, call), s, args).value;
            && Records.IsCut([packed]) && Records.Received([], Records.RecordOf([packed])) == [packed]
            && Sensible(ServiceFor(dispatch, call))
            && ComesTo(xid, args, s, [], start, ServiceFor(dispatch, call), t,
                       Seen(xid, t, Handled(packed, start, dispatch), []))
  {
    var packed := Packed(CallMessage(xid, call), s, args).value;
    PackedLength(CallMessage(xid, call), s, args);
    assert Records.Join([packed]) == packed by { assert packed + [] == packed; }
    WholeCall(xid, call, s, args, [packed], start, dispatch, t, []);
  }

  /** From the bytes of a call to what the client makes of the bytes that come back. */
  method ThereAndBack(xid: U32, t: Schema, stream: seq<Byte>, ghost packed: seq<Byte>, start: Start, dispatch: Dispatch)
    returns (r: Option<Result<Value, ClientError>>)
    requires AllSensible(dispatch) && Records.Received([], stream) == [packed]
    requires Deliverable(Handled(packed, start, dispatch))
    ensures r == Seen(xid, t, Handled(packed, start, dispatch), [])
  {
    var message := Arrive(stream, packed);
    var handled := HandleRpcMessage(message, start, dispatch);
    if handled.Err? || handled.value.NoReply? { return None; }
    var bytes := handled.value.bytes;
    var back := new S.ByteSink();
    Records.WriteFragment(back, bytes);
    assert [] + Records.RecordOf([bytes]) == Records.RecordOf([bytes]) == Records.RecordOf([bytes]) + [];
    var input := new S.ByteSource(back.written);
    assert input.Rest() == back.written;
    var answer := RecvReply(xid, t, input);
    r := Some(answer);
  }

  /** The one message of a stream, out of the server's receive loop. */
  method Arrive(stream: seq<Byte>, ghost packed: seq<Byte>) returns (message: seq<Byte>)
    requires Records.Received([], stream) == [packed]
    ensures message == packed
  {
    var input := new S.ByteSource(stream);
    assert input.Rest() == stream;
    var handler := new Records.SocketMessageHandler(input);
    handler.Serve();
    assert handler.handed == [] + [packed];
    message := handler.handed[0];
  }
}
