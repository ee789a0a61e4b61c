/** Record marking (RFC 5531 section 11): messages cut into fragments, and how the server puts them
    together again. */
module Records {
  import opened Basics
  import X = Xdr
  import opened XdrStream

  const EOF_FLAG: U32 := 0x8000_0000
  const MASK: U32 := 0x7FFF_FFFF

  // ---- Fragment headers ----

  function Header(length: U32, eof: bool): U32
    requires length <= MASK
  {
    if eof then length + EOF_FLAG else length
  }

  function Eof(header: U32): bool {
    header / EOF_FLAG % 2 != 0
  }

  function FragmentLength(header: U32): U32 {
    header % EOF_FLAG
  }

  /** A header holds a length and a flag, and every word is the header of exactly one pair. */
  lemma HeaderRoundTrip(header: U32, length: U32, eof: bool)
    requires length <= MASK
    ensures FragmentLength(header) <= MASK
    ensures FragmentLength(header) == length && Eof(header) == eof <==> header == Header(length, eof)
  {}

  // ---- Records on the wire ----

  function Fragment(bytes: seq<Byte>, last: bool): seq<Byte>
    requires |bytes| <= MASK
  {
    Be32(Header(|bytes|, last)) + bytes
  }

  predicate IsCut(pieces: seq<seq<Byte>>) {
    pieces != [] && forall i :: 0 <= i < |pieces| ==> |pieces[i]| <= MASK
  }

  /** One record in the pieces given; only the last fragment is flagged. */
  function RecordOf(pieces: seq<seq<Byte>>): seq<Byte>
    requires IsCut(pieces)
  {
    if |pieces| == 1 then Fragment(pieces[0], true)
    else Fragment(pieces[0], false) + RecordOf(pieces[1..])
  }

  function Join(pieces: seq<seq<Byte>>): seq<Byte> {
    if pieces == [] then [] else pieces[0] + Join(pieces[1..])
  }

  predicate AllCut(records: seq<seq<seq<Byte>>>) {
    forall i :: 0 <= i < |records| ==> IsCut(records[i])
  }

  function StreamOf(records: seq<seq<seq<Byte>>>): seq<Byte>
    requires AllCut(records)
  {
    if records == [] then [] else RecordOf(records[0]) + StreamOf(records[1..])
  }

  function Messages(records: seq<seq<seq<Byte>>>): seq<seq<Byte>> {
    if records == [] then [] else [Join(records[0])] + Messages(records[1..])
  }

  // ---- What a receiver makes of a stream ----

  predicate HasFragment(b: seq<Byte>) {
    |b| >= 4 && FragmentLength(FromBe32(b[..4])) <= |b| - 4
  }

  function IsLast(b: seq<Byte>): bool
    requires HasFragment(b)
  {
    Eof(FromBe32(b[..4]))
  }

  function Payload(b: seq<Byte>): seq<Byte>
    requires HasFragment(b)
  {
    b[4..4 + FragmentLength(FromBe32(b[..4]))]
  }

  function AfterFragment(b: seq<Byte>): (rest: seq<Byte>)
    requires HasFragment(b)
    ensures |rest| < |b|
  {
    b[4 + FragmentLength(FromBe32(b[..4]))..]
  }

  /** A fragment is read in two steps. */
  lemma FragmentInSteps(b: seq<Byte>)
    requires |b| >= 4
    ensures HasFragment(b) <==> FragmentLength(FromBe32(b[..4])) <= |b[4..]|
    ensures HasFragment(b) ==> Payload(b) == b[4..][..FragmentLength(FromBe32(b[..4]))]
    ensures HasFragment(b) ==> AfterFragment(b) == b[4..][FragmentLength(FromBe32(b[..4]))..]
  {}

  /** The messages that come out of the stream `b` when `partial` has been collected already. */
  function Received(partial: seq<Byte>, b: seq<Byte>): seq<seq<Byte>>
    decreases |b|
  {
    if !HasFragment(b) then []
    else if IsLast(b) then [partial + Payload(b)] + Received([], AfterFragment(b))
    else Received(partial + Payload(b), AfterFragment(b))
  }

  lemma FragmentComesOff(bytes: seq<Byte>, last: bool, tail: seq<Byte>)
    requires |bytes| <= MASK
    ensures var b := Fragment(bytes, last) + tail;
            HasFragment(b) && IsLast(b) == last && Payload(b) == bytes && AfterFragment(b) == tail
  {
    var b := Fragment(bytes, last) + tail;
    Be32RoundTrip(Header(|bytes|, last));
    HeaderRoundTrip(Header(|bytes|, last), |bytes|, last);
    assert b[..4] == Be32(Header(|bytes|, last));
    assert b[4..4 + |bytes|] == bytes && b[4 + |bytes|..] == tail;
  }

  lemma {:induction false} RecordComesOff(partial: seq<Byte>, pieces: seq<seq<Byte>>, tail: seq<Byte>)
    requires IsCut(pieces)
    ensures Received(partial, RecordOf(pieces) + tail) == [partial + Join(pieces)] + Received([], tail)
    decreases |pieces|
  {
    if |pieces| == 1 {
      FragmentComesOff(pieces[0], true, tail);
      assert Join(pieces[1..]) == [] && pieces[0] + [] == pieces[0];
    } else {
      var rest := RecordOf(pieces[1..]);
      assert Fragment(pieces[0], false) + rest + tail == Fragment(pieces[0], false) + (rest + tail);
      FragmentComesOff(pieces[0], false, rest + tail);
      RecordComesOff(partial + pieces[0], pieces[1..], tail);
      assert partial + pieces[0] + Join(pieces[1..]) == partial + (pieces[0] + Join(pieces[1..]));
    }
  }

  lemma RecordComesFirst(pieces: seq<seq<Byte>>, rest: seq<Byte>, tail: seq<Byte>)
    requires IsCut(pieces)
    ensures Received([], RecordOf(pieces) + rest + tail) == [Join(pieces)] + Received([], rest + tail)
  {
    assert RecordOf(pieces) + rest + tail == RecordOf(pieces) + (rest + tail);
    RecordComesOff([], pieces, rest + tail);
    assert [] + Join(pieces) == Join(pieces);
  }

  lemma Chain(all: seq<seq<Byte>>, first: seq<Byte>, later: seq<seq<Byte>>, messages: seq<seq<Byte>>,
              last: seq<seq<Byte>>)
    requires all == [first] + later && later == messages + last
    ensures all == [first] + messages + last
  {}

  /** However each record is cut, the receiver gets the original messages, in order, and goes on at
      the boundary after the last one with nothing collected. */
  lemma {:induction false} StreamIsReceived(records: seq<seq<seq<Byte>>>, tail: seq<Byte>)
    requires AllCut(records)
    ensures Received([], StreamOf(records) + tail) == Messages(records) + Received([], tail)
  {
    if records == [] {
      assert [] + tail == tail;
    } else {
      StreamIsReceived(records[1..], tail);
      RecordComesFirst(records[0], StreamOf(records[1..]), tail);
      Chain(Received([], StreamOf(records) + tail), Join(records[0]), Received([], StreamOf(records[1..]) + tail),
            Messages(records[1..]), Received([], tail));
    }
  }

  /** A record that the stream ends in the middle of is not delivered. */
  lemma {:induction false} TruncatedRecordIsNotReceived(partial: seq<Byte>, pieces: seq<seq<Byte>>, n: nat)
    requires IsCut(pieces) && n < |RecordOf(pieces)|
    ensures Received(partial, RecordOf(pieces)[..n]) == []
    decreases |pieces|
  {
    var first := Fragment(pieces[0], |pieces| == 1);
    var b := RecordOf(pieces)[..n];
    if n < |first| {
      TruncatedFragment(pieces[0], |pieces| == 1, n);
      assert b == first[..n];
    } else {
      var rest := RecordOf(pieces[1..]);
      assert b == first + rest[..n - |first|];
      FragmentComesOff(pieces[0], false, rest[..n - |first|]);
      TruncatedRecordIsNotReceived(partial + pieces[0], pieces[1..], n - |first|);
    }
  }

  lemma TruncatedFragment(bytes: seq<Byte>, last: bool, n: nat)
    requires |bytes| <= MASK && n < |Fragment(bytes, last)|
    ensures !HasFragment(Fragment(bytes, last)[..n])
  {
    FragmentComesOff(bytes, last, []);
    var b := Fragment(bytes, last);
    assert b + [] == b;
    if n >= 4 { assert b[..n][..4] == b[..4]; }
  }

  // ---- Nothing is made up ----

  /** Fragments of a record whose last one has not come yet. */
  function Unflagged(pieces: seq<seq<Byte>>): seq<Byte>
    requires Short(pieces)
  {
    if pieces == [] then [] else Fragment(pieces[0], false) + Unflagged(pieces[1..])
  }

  predicate Short(pieces: seq<seq<Byte>>) {
    forall i :: 0 <= i < |pieces| ==> |pieces[i]| <= MASK
  }

  lemma FragmentIsHeader(b: seq<Byte>)
    requires HasFragment(b)
    ensures |Payload(b)| <= MASK && b == Fragment(Payload(b), IsLast(b)) + AfterFragment(b)
  {
    FromBe32Injective(b[..4]);
    HeaderRoundTrip(FromBe32(b[..4]), FragmentLength(FromBe32(b[..4])), IsLast(b));
  }

  lemma {:induction false} JoinAppend(pieces: seq<seq<Byte>>, piece: seq<Byte>)
    ensures Join(pieces + [piece]) == Join(pieces) + piece
  {
    if pieces == [] {
      assert Join([piece]) == piece + [];
    } else {
      assert (pieces + [piece])[1..] == pieces[1..] + [piece];
      JoinAppend(pieces[1..], piece);
      ConcatAssoc(pieces[0], Join(pieces[1..]), piece);
    }
  }

  lemma {:induction false} UnflaggedAppend(pieces: seq<seq<Byte>>, piece: seq<Byte>)
    requires Short(pieces) && |piece| <= MASK
    ensures Short(pieces + [piece]) && Unflagged(pieces + [piece]) == Unflagged(pieces) + Fragment(piece, false)
  {
    if pieces == [] {
      assert Unflagged([piece]) == Fragment(piece, false) + [];
    } else {
      assert (pieces + [piece])[1..] == pieces[1..] + [piece];
      UnflaggedAppend(pieces[1..], piece);
      ConcatAssoc(Fragment(pieces[0], false), Unflagged(pieces[1..]), Fragment(piece, false));
    }
  }

  lemma {:induction false} RecordEnds(pieces: seq<seq<Byte>>, piece: seq<Byte>)
    requires Short(pieces) && |piece| <= MASK
    ensures IsCut(pieces + [piece]) && RecordOf(pieces + [piece]) == Unflagged(pieces) + Fragment(piece, true)
  {
    if pieces == [] {
      assert [] + [piece] == [piece] && [] + Fragment(piece, true) == Fragment(piece, true);
    } else {
      assert (pieces + [piece])[1..] == pieces[1..] + [piece];
      RecordEnds(pieces[1..], piece);
      ConcatAssoc(Fragment(pieces[0], false), Unflagged(pieces[1..]), Fragment(piece, true));
    }
  }

  /** Whatever bytes come in, what is delivered is what a sender of whole records put in: the stream
      is those records, then fragments of an unfinished one, then less than a fragment. */
  lemma {:induction false} ReceivedWasSent(collected: seq<seq<Byte>>, b: seq<Byte>)
    returns (records: seq<seq<seq<Byte>>>, unfinished: seq<seq<Byte>>, tail: seq<Byte>)
    requires Short(collected)
    ensures AllCut(records) && Short(unfinished) && !HasFragment(tail)
    ensures Unflagged(collected) + b == StreamOf(records) + Unflagged(unfinished) + tail
    ensures Received(Join(collected), b) == Messages(records)
    decreases |b|
  {
    if !HasFragment(b) {
      records, unfinished, tail := [], collected, b;
      return;
    }
    var piece, rest := Payload(b), AfterFragment(b);
    FragmentIsHeader(b);
    JoinAppend(collected, piece);
    if IsLast(b) {
      var more;
      more, unfinished, tail := ReceivedWasSent([], rest);
      RecordEnds(collected, piece);
      records := [collected + [piece]] + more;
      Regroup(Unflagged(collected), Fragment(piece, true), rest, StreamOf(more), Unflagged(unfinished), tail);
    } else {
      UnflaggedAppend(collected, piece);
      records, unfinished, tail := ReceivedWasSent(collected + [piece], rest);
      ConcatAssoc(Unflagged(collected), Fragment(piece, false), rest);
    }
  }

  lemma Regroup(a: seq<Byte>, f: seq<Byte>, rest: seq<Byte>, more: seq<Byte>, u: seq<Byte>, tail: seq<Byte>)
    requires [] + rest == more + u + tail
    ensures a + (f + rest) == (a + f + more) + u + tail
  {
    assert a + (f + rest) == a + f + (more + u + tail);
  }

  // ---- The server's receive loop ----

  datatype PackedRpcMessage = Incomplete(data: seq<Byte>) | Complete(data: seq<Byte>)

  class SocketMessageHandler {
    const input: ByteSource
    var curFragment: PackedRpcMessage
    /** The messages handed on, in order. */
    var handed: seq<seq<Byte>>

    ghost predicate Valid()
      reads this, input
    {
      input.Valid() && curFragment.Incomplete?
    }

    constructor (input: ByteSource)
      requires input.Valid()
      ensures Valid() && this.input == input && curFragment == Incomplete([]) && handed == []
    {
      this.input := input;
      curFragment := Incomplete([]);
      handed := [];
    }

    /** Takes one fragment in; the header is not part of the message. */
    method RecvFragment() returns (r: Result<bool, X.Error>)
      requires Valid()
      modifies this`curFragment, input
      ensures Valid()
      ensures if HasFragment(old(input.Rest())) then
                && r == Ok(IsLast(old(input.Rest()))) && input.Rest() == AfterFragment(old(input.Rest()))
                && curFragment.data == old(curFragment.data) + Payload(old(input.Rest()))
              else r.Err?
    {
      ghost var b := input.Rest();
      var header :- input.ReadExact(4);
      FragmentInSteps(b);
      var word := FromBe32(header);
      var body :- input.ReadExact(FragmentLength(word));
      curFragment := Incomplete(curFragment.data + body);
      r := Ok(Eof(word));
    }

    method Recv() returns (r: Result<bool, X.Error>)
      requires input.Valid()
      modifies this`curFragment, input
      ensures input.Valid()
      ensures old(curFragment.Complete?) ==>
        r == Ok(true) && curFragment == old(curFragment) && input.Rest() == old(input.Rest())
      ensures old(curFragment.Incomplete?) ==>
        if HasFragment(old(input.Rest())) then
          var data := old(curFragment.data) + Payload(old(input.Rest()));
          && r == Ok(IsLast(old(input.Rest()))) && input.Rest() == AfterFragment(old(input.Rest()))
          && curFragment == if IsLast(old(input.Rest())) then Complete(data) else Incomplete(data)
        else r.Err? && curFragment.Incomplete?
    {
      match curFragment
      case Incomplete(_) =>
        var eof :- RecvFragment();
        if eof { curFragment := Complete(curFragment.data); }
        r := Ok(eof);
      case Complete(_) => r := Ok(true);
    }

    /** One turn of the loop. */
    method Read() returns (r: Result<(), X.Error>)
      requires Valid()
      modifies this, input
      ensures Valid()
      ensures r.Ok? <==> HasFragment(old(input.Rest()))
      ensures r.Ok? ==> input.Rest() == AfterFragment(old(input.Rest()))
      ensures handed + Received(if r.Ok? then curFragment.data else [], if r.Ok? then input.Rest() else [])
           == old(handed) + Received(old(curFragment.data), old(input.Rest()))
    {
      var isLast :- Recv();
      if isLast {
        handed := handed + [curFragment.data];
        curFragment := Incomplete([]);
      }
      r := Ok(());
    }

    /** The loop that serves a connection until its input ends. */
    method Serve()
      requires Valid()
      modifies this, input
      ensures Valid() && handed == old(handed) + Received(old(curFragment.data), old(input.Rest()))
    {
      ghost var all := handed + Received(curFragment.data, input.Rest());
      var going := true;
      while going
        invariant Valid()
        invariant handed + Received(if going then curFragment.data else [], if going then input.Rest() else []) == all
        decreases going, |input.Rest()|
      {
        var r := Read();
        going := r.Ok?;
      }
    }
  }

  /** Sends a whole message as one fragment. */
  method WriteFragment(socket: ByteSink, buf: seq<Byte>)
    requires |buf| < 0x8000_0000
    modifies socket
    ensures IsCut([buf]) && Join([buf]) == buf && socket.written == old(socket.written) + RecordOf([buf])
  {
    socket.WriteAll(Be32(Header(|buf|, true)));
    socket.WriteAll(buf);
    assert buf + [] == buf;
  }
}
