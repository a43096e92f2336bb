/** The send side of an infolink connection: packets are queued and written to the socket in whatever
    pieces it takes. */
module SendQueue {
  import opened ByteStrings
  import opened Framing
  import opened LinkedFifo
  import opened Sequences

  datatype Packet = Packet(buf: Str, pos: nat)

  datatype State = State(queue: seq<Packet>, wire: Str)

  /** What select and send may do: fail, time out, be interrupted, or write some bytes. */
  datatype Outcome = Wrote(count: nat) | SendFailed(interrupted: bool) | SelectFailed(interrupted: bool) | NotReady

  datatype Status = Ok | NoMemory | Empty | Timeout | SystemError | Continue | Disconnected | Next | Done

  datatype Event = Prepare(packet: Str, memory: bool) | Send(outcome: Outcome) | Reset

  /** A packet has a header, and a socket writes at least one byte and no more than it is given. */
  predicate Possible(s: State, e: Event) {
    match e
    case Prepare(packet, memory) => packet != []
    case Reset => true
    case Send(o) => o.Wrote? && s.queue != [] ==> 0 < o.count <= |s.queue[0].buf| - s.queue[0].pos
  }

  function Write(s: State, n: nat): (State, Status)
    requires s.queue != [] && n <= |s.queue[0].buf| - s.queue[0].pos
  {
    var head, rest := s.queue[0], s.queue[1..];
    var wire := s.wire + head.buf[head.pos..head.pos + n];
    if head.pos + n < |head.buf| then (State([Packet(head.buf, head.pos + n)] + rest, wire), Ok)
    else (State(rest, wire), if rest == [] then Done else Next)
  }

  function Step(s: State, e: Event): (State, Status)
    requires Possible(s, e)
  {
    match e
    case Prepare(packet, memory) =>
      if memory then (State(s.queue + [Packet(packet, 0)], s.wire), Ok) else (s, NoMemory)
    case Reset => (State([], s.wire), Ok)
    case Send(o) =>
      if s.queue == [] then (s, Empty) else
      match o
      case SelectFailed(interrupted) => (s, if interrupted then Continue else SystemError)
      case NotReady => (s, Timeout)
      case SendFailed(interrupted) => (s, if interrupted then Continue else Disconnected)
      case Wrote(n) => Write(s, n)
  }

  // ---------- whole runs ----------

  datatype Run = Run(states: seq<State>, events: seq<Event>, statuses: seq<Status>)

  ghost predicate IsRun(r: Run) {
    && |r.states| == |r.events| + 1 && |r.statuses| == |r.events|
    && r.states[0] == State([], [])
    && forall i | 0 <= i < |r.events| ::
         Possible(r.states[i], r.events[i]) && (r.states[i + 1], r.statuses[i]) == Step(r.states[i], r.events[i])
  }

  /** The packets accepted for sending, in order. */
  function Accepted(es: seq<Event>): seq<Str> {
    if es == [] then [] else
      var e := es[|es| - 1];
      Accepted(es[..|es| - 1]) + if e.Prepare? && e.memory then [e.packet] else []
  }

  /** An answer that announces the end of a packet. */
  function Ends(s: Status): nat {
    if s == Next || s == Done then 1 else 0
  }

  /** What has become of the packets: the ones accepted and not dropped by a reset, how many of them were
      announced as ended, what has been written of those and of the dropped ones, and how much of that was
      of dropped ones. */
  datatype History = History(kept: seq<Str>, ended: nat, past: Str, lost: nat)

  function Recorded(h: History, s: State, e: Event, status: Status): History {
    match e
    case Prepare(packet, memory) => if memory then h.(kept := h.kept + [packet]) else h
    case Reset =>
      if h.ended <= |h.kept| then
        History(h.kept[..h.ended], h.ended, h.past + Begun(s.queue), h.lost + |Begun(s.queue)|)
      else h
    case Send(_) =>
      if Ends(status) == 1 && h.ended < |h.kept| then
        History(h.kept, h.ended + 1, h.past + h.kept[h.ended], h.lost)
      else h
  }

  function HistoryOf(r: Run, k: nat): History
    requires |r.states| == |r.events| + 1 && |r.statuses| == |r.events| && k <= |r.events|
  {
    if k == 0 then History([], 0, [], 0)
    else Recorded(HistoryOf(r, k - 1), r.states[k - 1], r.events[k - 1], r.statuses[k - 1])
  }

  function Begun(queue: seq<Packet>): Str {
    if queue != [] && queue[0].pos <= |queue[0].buf| then queue[0].buf[..queue[0].pos] else []
  }

  /** The queue holds the packets `ps`, of which only the first may be partly written. */
  ghost predicate Holding(queue: seq<Packet>, ps: seq<Str>) {
    && |queue| == |ps|
    && (forall i | 0 <= i < |ps| :: queue[i].buf == ps[i] && ps[i] != [])
    && (forall i | 0 < i < |ps| :: queue[i].pos == 0)
    && (queue != [] ==> queue[0].pos < |queue[0].buf|)
  }

  /** The packets that ended are on the wire, with what a reset cut off between them, and the others that
      were kept are queued. */
  ghost predicate Accounts(s: State, h: History) {
    && h.ended <= |h.kept| && Holding(s.queue, h.kept[h.ended..])
    && s.wire == h.past + Begun(s.queue)
    && |h.past| == |Joined(h.kept[..h.ended])| + h.lost
    && (h.lost == 0 ==> h.past == Joined(h.kept[..h.ended]))
  }

  lemma PrepareAccounts(s: State, packet: Str, h: History)
    requires Accounts(s, h) && packet != []
    ensures Accounts(State(s.queue + [Packet(packet, 0)], s.wire), h.(kept := h.kept + [packet]))
  {
    hide Joined;
    var kept := h.kept + [packet];
    assert kept[..h.ended] == h.kept[..h.ended] && kept[h.ended..] == h.kept[h.ended..] + [packet];
  }

  lemma ResetAccounts(s: State, h: History, status: Status)
    requires Accounts(s, h)
    ensures Accounts(State([], s.wire), Recorded(h, s, Reset, status))
  {
    hide Joined;
    var kept := h.kept[..h.ended];
    assert kept[..h.ended] == kept && kept[h.ended..] == [];
    assert h.lost == 0 && Begun(s.queue) == [] ==> h.past + Begun(s.queue) == h.past;
    assert s.wire + Begun([]) == s.wire;
  }

  /** Part of the first packet is written. */
  lemma PartAccounts(s: State, n: nat, h: History)
    requires Accounts(s, h) && s.queue != [] && s.queue[0].pos + n < |s.queue[0].buf|
    ensures Accounts(Write(s, n).0, h)
  {
    hide Joined;
    var head := s.queue[0];
    assert head.buf[..head.pos + n] == head.buf[..head.pos] + head.buf[head.pos..head.pos + n];
  }

  lemma HoldingFirst(queue: seq<Packet>, ps: seq<Str>)
    requires Holding(queue, ps) && queue != []
    ensures ps != [] && queue[0].buf == ps[0] && queue[0].pos < |ps[0]| && Begun(queue) == ps[0][..queue[0].pos]
  {
  }

  lemma HoldingRest(queue: seq<Packet>, ps: seq<Str>)
    requires Holding(queue, ps) && queue != []
    ensures Holding(queue[1..], ps[1..]) && Begun(queue[1..]) == []
  {
  }

  /** The rest of the first packet is written. */
  lemma RestAccounts(s: State, n: nat, h: History)
    requires Accounts(s, h) && s.queue != [] && s.queue[0].pos + n == |s.queue[0].buf|
    ensures h.ended < |h.kept|
    ensures Accounts(Write(s, n).0, History(h.kept, h.ended + 1, h.past + h.kept[h.ended], h.lost))
  {
    hide Joined, Holding, Begun;
    var head := s.queue[0];
    HoldingFirst(s.queue, h.kept[h.ended..]);
    assert head.buf == h.kept[h.ended];
    assert head.buf == head.buf[..head.pos] + head.buf[head.pos..head.pos + n];
    JoinedNext(h.kept, h.ended);
    HoldingRest(s.queue, h.kept[h.ended..]);
    assert h.kept[h.ended + 1..] == h.kept[h.ended..][1..];
    assert h.past + head.buf[..head.pos] + head.buf[head.pos..head.pos + n] == h.past + head.buf + [];
  }

  lemma StepAccounts(s: State, e: Event, h: History)
    requires Accounts(s, h) && Possible(s, e)
    ensures Accounts(Step(s, e).0, Recorded(h, s, e, Step(s, e).1))
  {
    hide Accounts;
    if e.Prepare? && e.memory {
      PrepareAccounts(s, e.packet, h);
    } else if e.Reset? {
      ResetAccounts(s, h, Ok);
    } else if e.Send? && e.outcome.Wrote? && s.queue != [] {
      var n := e.outcome.count;
      if s.queue[0].pos + n < |s.queue[0].buf| {
        PartAccounts(s, n, h);
      } else {
        RestAccounts(s, n, h);
      }
    }
  }

  lemma NothingYet()
    ensures Accounts(State([], []), History([], 0, [], 0))
  {
  }

  /** Whatever the run, nothing but what a reset drops is lost, nothing is reordered or written twice, and
      the answers tell how many packets have gone. */
  lemma {:induction false} RunAccounts(r: Run, k: nat)
    requires IsRun(r) && k <= |r.events|
    ensures Accounts(r.states[k], HistoryOf(r, k))
  {
    hide Accounts, Step, Possible, Recorded;
    if k == 0 {
      NothingYet();
    } else {
      RunAccounts(r, k - 1);
      assert Possible(r.states[k - 1], r.events[k - 1]);
      StepAccounts(r.states[k - 1], r.events[k - 1], HistoryOf(r, k - 1));
      assert (r.states[k - 1 + 1], r.statuses[k - 1]) == Step(r.states[k - 1], r.events[k - 1]);
    }
  }

  /** Without a reset, all that was accepted is kept and nothing is lost. */
  lemma {:induction false} AllKept(r: Run, k: nat)
    requires IsRun(r) && k <= |r.events| && forall j | 0 <= j < k :: !r.events[j].Reset?
    ensures HistoryOf(r, k).kept == Accepted(r.events[..k]) && HistoryOf(r, k).lost == 0
  {
    hide Step, Possible;
    if k > 0 {
      AllKept(r, k - 1);
      assert r.events[..k][..k - 1] == r.events[..k - 1];
    }
  }

  /** Bytes are lost just when a reset finds the first packet begun. */
  lemma {:induction false} LostExactly(r: Run, k: nat)
    requires IsRun(r) && k <= |r.events|
    ensures HistoryOf(r, k).lost == 0 <==> forall j | 0 <= j < k :: r.events[j].Reset? ==> Begun(r.states[j].queue) == []
  {
    hide Step, Possible, Begun;
    if k > 0 {
      LostExactly(r, k - 1);
      RunAccounts(r, k - 1);
    }
  }

  /** What is still to be written of the queued packets. */
  function Unsent(queue: seq<Packet>): Str {
    if queue == [] then [] else
      (if queue[0].pos <= |queue[0].buf| then queue[0].buf[queue[0].pos..] else []) + Unsent(queue[1..])
  }

  lemma {:induction false} BegunAndUnsent(queue: seq<Packet>, ps: seq<Str>)
    requires Holding(queue, ps)
    ensures Begun(queue) + Unsent(queue) == Joined(ps)
  {
    hide Holding, Begun, Joined, Unsent;
    if queue == [] {
      NothingHeld(ps);
    } else {
      HoldingFirst(queue, ps);
      HoldingRest(queue, ps);
      BegunAndUnsent(queue[1..], ps[1..]);
      UnsentFirst(queue);
      JoinedFirst(ps);
      Regroup(ps[0], queue[0].pos, Unsent(queue[1..]));
    }
  }

  lemma NothingHeld(ps: seq<Str>)
    requires Holding([], ps)
    ensures Begun([]) == Unsent([]) == Joined(ps) == []
  {
  }

  lemma Regroup(buf: Str, pos: nat, rest: Str)
    requires pos <= |buf|
    ensures [] + rest == rest && buf[..pos] + (buf[pos..] + rest) == buf + rest
  {
    assert buf[..pos] + buf[pos..] == buf;
  }

  lemma UnsentFirst(queue: seq<Packet>)
    requires queue != [] && queue[0].pos <= |queue[0].buf|
    ensures Unsent(queue) == queue[0].buf[queue[0].pos..] + Unsent(queue[1..])
  {
  }

  /** Conservation: what was written, then what is left to write, is all that was kept, just when nothing
      has been lost. */
  lemma RunConserves(r: Run, k: nat)
    requires IsRun(r) && k <= |r.events|
    ensures var s, h := r.states[k], HistoryOf(r, k);
            && |h.kept| == h.ended + |s.queue|
            && (s.wire + Unsent(s.queue) == Joined(h.kept) <==> h.lost == 0)
  {
    hide Step, Possible, Joined, Begun, Unsent, Recorded, HistoryOf;
    RunAccounts(r, k);
    var s, h := r.states[k], HistoryOf(r, k);
    assert h.kept == h.kept[..h.ended] + h.kept[h.ended..];
    JoinedAppend(h.kept[..h.ended], h.kept[h.ended..]);
    BegunAndUnsent(s.queue, h.kept[h.ended..]);
    assert s.wire + Unsent(s.queue) == h.past + (Begun(s.queue) + Unsent(s.queue));
  }

  /** Done is answered just when sending has come to the end of all that was kept, and Next just when a
      packet has ended and another waits. */
  lemma DoneAndNext(r: Run, k: nat)
    requires IsRun(r) && k < |r.events|
    ensures var h, h' := HistoryOf(r, k), HistoryOf(r, k + 1);
            && (r.statuses[k] == Done <==> h.ended < h'.ended == |h'.kept|)
            && (r.statuses[k] == Next <==> h.ended < h'.ended < |h'.kept|)
  {
    hide Joined, Unsent, HistoryOf;
    RunConserves(r, k);
    RunConserves(r, k + 1);
    NextHistory(r, k);
    assert (r.states[k + 1], r.statuses[k]) == Step(r.states[k], r.events[k]);
  }

  /** The other answers of sending: there is nothing left of what was kept, or the socket was not ready, or
      was interrupted, or failed in one of two ways, and then nothing has happened; or something was written
      and its packet has not ended. */
  lemma OtherAnswers(r: Run, k: nat)
    requires IsRun(r) && k < |r.events| && r.events[k].Send?
    ensures var o, a, h := r.events[k].outcome, r.statuses[k], HistoryOf(r, k);
            var left := h.ended < |h.kept|;
            && (a == Empty <==> !left)
            && (a == Timeout <==> left && o == NotReady)
            && (a == Continue <==> left && (o == SendFailed(true) || o == SelectFailed(true)))
            && (a == Disconnected <==> left && o == SendFailed(false))
            && (a == SystemError <==> left && o == SelectFailed(false))
            && (a == Ok <==> |r.states[k + 1].wire| > |r.states[k].wire| && HistoryOf(r, k + 1).ended == h.ended)
            && a != NoMemory
            && (a == Empty || a == Timeout || a == Continue || a == Disconnected || a == SystemError ==>
                  r.states[k + 1] == r.states[k])
  {
    hide Joined, Unsent, HistoryOf;
    RunConserves(r, k);
    NextHistory(r, k);
    assert Possible(r.states[k], r.events[k]);
    assert (r.states[k + 1], r.statuses[k]) == Step(r.states[k], r.events[k]);
  }

  /** A packet is refused just when there is no memory for it. */
  lemma PrepareAnswers(r: Run, k: nat)
    requires IsRun(r) && k < |r.events| && r.events[k].Prepare?
    ensures r.statuses[k] == if r.events[k].memory then Ok else NoMemory
    ensures HistoryOf(r, k + 1).kept
              == HistoryOf(r, k).kept + if r.statuses[k] == Ok then [r.events[k].packet] else []
  {
    hide HistoryOf;
    NextHistory(r, k);
    assert (r.states[k + 1], r.statuses[k]) == Step(r.states[k], r.events[k]);
  }

  lemma NextHistory(r: Run, k: nat)
    requires IsRun(r) && k < |r.events|
    ensures HistoryOf(r, k + 1) == Recorded(HistoryOf(r, k), r.states[k], r.events[k], r.statuses[k])
  {
    hide Step, Possible, Recorded;
  }

  /** At every point of every run, a receiver that has read what was written has exactly the messages
      whose end was announced, in the order they were accepted, and the beginning of the next, if and only
      if no reset has found a packet begun. */
  lemma RunIsReceived(crc: Str -> Word, r: Run, k: nat, ms: seq<Message>)
    requires IsRun(r) && k <= |r.events| && HistoryOf(r, k).kept == Frames(crc, ms)
    ensures var ended := HistoryOf(r, k).ended;
            && ended <= |ms|
            && (Got(Receive(r.states[k].wire), crc, ms[..ended], Begun(r.states[k].queue))
                <==> forall j | 0 <= j < k :: r.events[j].Reset? ==> Begun(r.states[j].queue) == [])
  {
    hide Step, Possible, Receive, Joined, Frame, HistoryOf, Describes, Got;
    RunAccounts(r, k);
    LostExactly(r, k);
    var queue, h := r.states[k].queue, HistoryOf(r, k);
    assert Frames(crc, ms)[..h.ended] == Frames(crc, ms[..h.ended]);
    if queue != [] {
      assert queue[0].buf == Frames(crc, ms)[h.ended..][0];
      PartIsKept(crc, ms[h.ended], queue[0].pos);
    } else {
      NothingReceived();
    }
    var whole := Joined(Frames(crc, ms[..h.ended])) + Begun(queue);
    ReceiveFrames(crc, ms[..h.ended], Begun(queue));
    if h.lost > 0 {
      assert r.states[k].wire != whole;
      ReceiveInjective(r.states[k].wire, whole);
      if Got(Receive(r.states[k].wire), crc, ms[..h.ended], Begun(queue)) {
        GotUnique(Receive(r.states[k].wire), Receive(whole), crc, ms[..h.ended], Begun(queue));
        assert false;
      }
    }
  }

  lemma NothingReceived()
    ensures Receive([]) == Received([], [], [])
  {
  }

  /** Nothing of the packet is sent yet; it has the data of the message behind its header, which describes
      the message or is what was there before. */
  ghost predicate IsPacket(p: Packet, crc: Str -> Word, m: Message, packed: bool, junk: Str) {
    && p.pos == 0 && |p.buf| == HEADER_SIZE + |m.data| && p.buf[HEADER_SIZE..] == m.data
    && if packed then Describes(UnpackHeader(p.buf), crc, m) else p.buf[..HEADER_SIZE] == junk
  }

  lemma PacketIs(crc: Str -> Word, m: Message, packed: bool, junk: Str)
    requires |junk| == HEADER_SIZE
    ensures IsPacket(Packet(PacketOf(crc, m, packed, junk), 0), crc, m, packed, junk)
  {
    hide PackHeader, UnpackHeader, HeaderOf, Describes;
    if packed {
      HeaderBack(HeaderOf(crc, m), m.data);
      HeaderDescribes(crc, m);
    }
  }

  // ---------- the link ----------

  class Link {
    const sendList: Fifo<Packet>
    ghost var wire: Str

    ghost predicate Valid()
      reads this, sendList, sendList.spine
    {
      sendList.Valid()
    }

    ghost function Value(): State
      reads this, sendList
    {
      State(sendList.contents, wire)
    }

    constructor ()
      ensures Valid() && Value() == State([], []) && fresh(sendList)
    {
      sendList := new Fifo();
      wire := [];
    }

    /** Without packing, the place of the header is left as it was allocated. */
    method Prepare(crc: Str -> Word, m: Message, packed: bool, junk: Str, memory: bool) returns (status: Status)
      requires Valid() && |junk| == HEADER_SIZE
      modifies this, sendList, sendList.spine
      ensures Valid() && (Value(), status) == Step(old(Value()), Event.Prepare(PacketOf(crc, m, packed, junk), memory))
      ensures sendList.n == old(sendList.n) + if memory then 1 else 0
      ensures memory ==> sendList.contents != [] && IsPacket(sendList.contents[|sendList.contents| - 1], crc, m, packed, junk)
      ensures old(sendList.spine) <= sendList.spine && fresh(sendList.spine[|old(sendList.spine)|..])
    {
      if !memory {
        return NoMemory;
      }
      PacketIs(crc, m, packed, junk);
      sendList.Append(Packet(PacketOf(crc, m, packed, junk), 0));
      status := Ok;
    }

    /** Writing to the socket; `outcome` is what select and send come to. */
    method Send(outcome: Outcome) returns (status: Status)
      requires Valid() && Possible(Value(), Event.Send(outcome))
      modifies this, sendList, sendList.spine
      ensures Valid() && (Value(), status) == Step(old(Value()), Event.Send(outcome))
      ensures sendList.n == old(sendList.n) - Ends(status)
      ensures sendList.spine == old(sendList.spine)[Ends(status)..]
    {
      hide Write;
      if sendList.first == null {
        return Empty;
      }
      match outcome
      case SelectFailed(interrupted) =>
        status := if interrupted then Continue else SystemError;
      case NotReady =>
        status := Timeout;
      case SendFailed(interrupted) =>
        status := if interrupted then Continue else Disconnected;
      case Wrote(n) =>
        status := Advance(n);
    }

    /** The socket has taken `n` bytes of the first packet. */
    method Advance(n: nat) returns (status: Status)
      requires Valid() && sendList.contents != []
      requires 0 < n <= |sendList.contents[0].buf| - sendList.contents[0].pos
      modifies this, sendList, sendList.spine
      ensures Valid() && (Value(), status) == Write(old(Value()), n)
      ensures sendList.n == old(sendList.n) - Ends(status)
      ensures sendList.spine == old(sendList.spine)[Ends(status)..]
    {
      var packet := sendList.first.data;
      wire := wire + packet.buf[packet.pos..packet.pos + n];
      sendList.UpdateFirst(Packet(packet.buf, packet.pos + n));
      assert sendList.contents == [Packet(packet.buf, packet.pos + n)] + old(sendList.contents)[1..];
      if packet.pos + n == |packet.buf| {
        var _ := sendList.RemoveFirst();
        status := if sendList.first != null then Next else Done;
      } else {
        status := Ok;
      }
    }

    /** What was queued is dropped; the beginning of a packet may have been written. */
    method Reset()
      requires Valid()
      modifies sendList
      ensures Valid() && Value() == Step(old(Value()), Event.Reset).0 && sendList.n == 0
    {
      sendList.Clear();
    }
  }
}
