/** The tracker in front of the procedures: what a message is answered with when its start is a step of a run of the
    tracker. */
module Retransmission {
  import opened Basics
  import opened RpcTypes
  import opened RpcServer
  import opened RpcClient
  import Tracker
  import T = ClientTable
  import X = Xdr

  function StartOf(answer: Result<(), T.TxError>): Start {
    match answer
    case Ok(_) => Locked
    case Err(AlreadyExists) => AlreadyExists
    case Err(TooManyRequests) => TooManyRequests
  }

  /** A call that the tracker is asked about: of the right version, with a credential that can be read. */
  predicate IsTracked(packed: seq<Byte>) {
    && Parse(packed).Ok?
    && var call := Parse(packed).value.call;
       CallShape(call);
       call.parts[0].n == RPC_VERSION_2 && CredentialIsGood(call)
  }

  /** The start of this call is this step. */
  predicate Starts(s: Tracker.State, step: Tracker.Step, client: Tracker.Client, packed: seq<Byte>, l: T.Limits) {
    IsTracked(packed) && Tracker.Answer(s, step, client, Parse(packed).value.xid, l).Some?
  }

  /** What the call is answered with. */
  ghost function HandledIn(s: Tracker.State, step: Tracker.Step, client: Tracker.Client, packed: seq<Byte>, l: T.Limits,
                           dispatch: Dispatch): Result<HandleResult, Failure>
    requires Starts(s, step, client, packed, l) && AllSensible(dispatch)
  {
    Handled(packed, StartOf(Tracker.Answer(s, step, client, Parse(packed).value.xid, l).value), dispatch)
  }

  /** A second call with the xid of an accepted one gets no reply, whatever its bytes ask for and whatever the
      procedures are, unless the tracker has let go of the xid. */
  lemma RetransmissionIsSilent(states: seq<Tracker.State>, steps: seq<Tracker.Step>, l: T.Limits, i: nat, j: nat,
                               client: Tracker.Client, first: seq<Byte>, second: seq<Byte>, dispatch: Dispatch)
    requires Tracker.Run(states, steps, l) && i < j < |steps| && AllSensible(dispatch)
    requires Starts(states[i], steps[i], client, first, l) && Starts(states[j], steps[j], client, second, l)
    requires Parse(first).value.xid == Parse(second).value.xid
    requires Tracker.Accepts(states[i], steps[i], client, Parse(first).value.xid, l)
    requires !Tracker.LetGo(states, steps, l, i, j, client, Parse(first).value.xid)
    ensures HandledIn(states[j], steps[j], client, second, l, dispatch) == Ok(NoReply)
  {
    Tracker.AtMostOnce(states, steps, l, i, j, client, Parse(first).value.xid);
  }

  /** The service's procedure takes all the data of the message as its arguments. */
  ghost predicate Takes(service: Service, m: Incoming) {
    service.Procedure? && exists a :: X.Unpack(service.args, m.data) == X.Good(a, [])
  }

  /** The procedure of the call is run. */
  ghost predicate Executes(s: Tracker.State, step: Tracker.Step, client: Tracker.Client, packed: seq<Byte>, l: T.Limits,
                           dispatch: Dispatch)
  {
    && Starts(s, step, client, packed, l)
    && Tracker.Accepts(s, step, client, Parse(packed).value.xid, l)
    && Takes(ServiceFor(dispatch, Parse(packed).value.call), Parse(packed).value)
  }

  /** Two services that refuse alike or take the same arguments. */
  predicate Alike(service: Service, other: Service) {
    match service
    case Refused(stat) => other == Refused(stat)
    case Procedure(args, _, _) => other.Procedure? && other.args == args
  }

  lemma ServedAlike(m: Incoming, service: Service, other: Service)
    requires Sensible(service) && Sensible(other) && Alike(service, other) && !Takes(service, m)
    ensures Served(m, service) == Served(m, other)
  {}

  /** A call whose procedure is not run is answered without regard to what the procedures do. */
  lemma NotExecutedNotAsked(s: Tracker.State, step: Tracker.Step, client: Tracker.Client, packed: seq<Byte>,
                            l: T.Limits, dispatch: Dispatch, other: Dispatch)
    requires Starts(s, step, client, packed, l) && !Executes(s, step, client, packed, l, dispatch)
    requires AllSensible(dispatch) && AllSensible(other)
    requires forall prog: U32, vers: U32, procedure: U32 ::
               Alike(dispatch(prog, vers, procedure), other(prog, vers, procedure))
    ensures HandledIn(s, step, client, packed, l, dispatch) == HandledIn(s, step, client, packed, l, other)
  {
    var m := Parse(packed).value;
    CallShape(m.call);
    if Tracker.Accepts(s, step, client, m.xid, l) {
      ServedAlike(m, ServiceFor(dispatch, m.call), ServiceFor(other, m.call));
    }
  }

  /** So a client's xid does not have two procedures run, unless the tracker has let go of it in between. */
  lemma ExecutedAtMostOnce(states: seq<Tracker.State>, steps: seq<Tracker.Step>, l: T.Limits, i: nat, j: nat,
                           client: Tracker.Client, first: seq<Byte>, second: seq<Byte>, dispatch: Dispatch)
    requires Tracker.Run(states, steps, l) && i < j < |steps|
    requires Executes(states[i], steps[i], client, first, l, dispatch)
    requires Executes(states[j], steps[j], client, second, l, dispatch)
    requires Parse(first).value.xid == Parse(second).value.xid
    ensures Tracker.LetGo(states, steps, l, i, j, client, Parse(first).value.xid)
  {
    Tracker.AtMostOnce(states, steps, l, i, j, client, Parse(first).value.xid);
  }
}
