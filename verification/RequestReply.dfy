/** The request and reply pipeline of lib13: any number of registering threads, one thread that serves
    requests and one that delivers replies, stepping in any order.  A step is what one thread does
    between two points at which another may come in. */
module RequestReply {
  import opened LinkedFifo
  import opened Options

  /** Identifications, procedures and contexts are just numbers here. */
  datatype Request = Request(reqid: int, callback: int, context: int)

  /** A reply has the fields that are copied from the request, and what the procedure, or the memory it
      was allocated from, left in it.  One with the exit flag set ends the deliverer. */
  datatype Reply = Reply(reqid: int, callback: int, context: int, payload: int, exit: bool)

  /** Who holds the lock of the request queue, and whether the semaphore has been posted. */
  datatype Lock = Free | Enqueued(thread: nat) | Posted(thread: nat)

  datatype Server = Idle | Woken | Serving(request: Request) | Answering(reply: Reply) | ReplyEnqueued | ReplyPosted

  datatype Deliverer = Asleep | Awake | Delivering(reply: Reply) | Exited(over: Option<Reply>)

  /** A request that was served; no answer is given when there was no memory for one. */
  datatype Service = Service(request: Request, draft: Option<Reply>)

  datatype State = State(
    requests: seq<Request>, lock: Lock, requestSem: nat, server: Server,
    replies: seq<Reply>, replySem: nat, deliverer: Deliverer,
    registered: seq<Request>, ids: seq<int>, served: seq<Service>, delivered: seq<Reply>)

  const START := State([], Free, 0, Idle, [], 0, Asleep, [], [], [], [])

  datatype Step =
    | Register(thread: nat, request: Request, id: int) | PostRequest | UnlockRequests
    | WaitRequest | TakeRequest | Serve(draft: Option<Reply>) | EnqueueReply | PostReply | UnlockReplies
    | WaitReply | TakeReply | Deliver

  predicate Enabled(s: State, step: Step) {
    match step
    case Register(_, _, _) => s.lock.Free?
    case PostRequest => s.lock.Enqueued?
    case UnlockRequests => s.lock.Posted?
    case WaitRequest => s.server.Idle? && s.requestSem > 0
    case TakeRequest => s.server.Woken? && s.lock.Free?
    case Serve(_) => s.server.Serving?
    case EnqueueReply => s.server.Answering?
    case PostReply => s.server.ReplyEnqueued?
    case UnlockReplies => s.server.ReplyPosted?
    case WaitReply => s.deliverer.Asleep? && s.replySem > 0
    case TakeReply => s.deliverer.Awake? && !s.server.ReplyEnqueued? && !s.server.ReplyPosted?
    case Deliver => s.deliverer.Delivering?
  }

  function Answer(request: Request, draft: Reply): Reply {
    draft.(callback := request.callback, context := request.context, reqid := request.reqid)
  }

  /** A woken server that finds no request goes back to wait; a woken deliverer that finds no reply
      exits. */
  function Next(s: State, step: Step): State
    requires Enabled(s, step)
  {
    match step
    case Register(t, r, id) =>
      s.(requests := s.requests + [r], lock := Enqueued(t), registered := s.registered + [r], ids := s.ids + [id])
    case PostRequest => s.(requestSem := s.requestSem + 1, lock := Posted(s.lock.thread))
    case UnlockRequests => s.(lock := Free)
    case WaitRequest => s.(requestSem := s.requestSem - 1, server := Woken)
    case TakeRequest =>
      if s.requests == [] then s.(server := Idle)
      else s.(requests := s.requests[1..], server := Serving(s.requests[0]))
    case Serve(draft) =>
      var r := s.server.request;
      var served := s.served + [Service(r, draft)];
      if draft.None? then s.(server := Idle, served := served)
      else s.(server := Answering(Answer(r, draft.value)), served := served)
    case EnqueueReply => s.(replies := s.replies + [s.server.reply], server := ReplyEnqueued)
    case PostReply => s.(replySem := s.replySem + 1, server := ReplyPosted)
    case UnlockReplies => s.(server := Idle)
    case WaitReply => s.(replySem := s.replySem - 1, deliverer := Awake)
    case TakeReply =>
      if s.replies == [] then s.(deliverer := Exited(None))
      else
        var reply := s.replies[0];
        s.(replies := s.replies[1..], deliverer := if reply.exit then Exited(Some(reply)) else Delivering(reply))
    case Deliver => s.(deliverer := Asleep, delivered := s.delivered + [s.deliverer.reply])
  }

  // ---------- what every step keeps ----------

  /** The requests served, and the replies they were given. */
  function Requests(served: seq<Service>): (rs: seq<Request>)
    ensures |rs| == |served| && forall i | 0 <= i < |rs| :: rs[i] == served[i].request
  {
    seq(|served|, i requires 0 <= i < |served| => served[i].request)
  }

  function Answers(served: seq<Service>): seq<Reply> {
    if served == [] then [] else
      var last := served[|served| - 1];
      Answers(served[..|served| - 1]) + if last.draft.Some? then [Answer(last.request, last.draft.value)] else []
  }

  lemma AnswersNext(served: seq<Service>, s: Service)
    ensures Answers(served + [s])
              == Answers(served) + if s.draft.Some? then [Answer(s.request, s.draft.value)] else []
    ensures Requests(served + [s]) == Requests(served) + [s.request]
  {
    assert (served + [s])[..|served|] == served;
  }

  function InService(server: Server): seq<Request> {
    if server.Serving? then [server.request] else []
  }

  function InAnswer(server: Server): seq<Reply> {
    if server.Answering? then [server.reply] else []
  }

  function InDelivery(deliverer: Deliverer): seq<Reply> {
    match deliverer
    case Delivering(reply) => [reply]
    case Exited(Some(reply)) => [reply]
    case _ => []
  }

  /** Requests are taken in the order of registration, and none is lost. */
  ghost predicate RequestsInOrder(s: State) {
    Requests(s.served) + InService(s.server) + s.requests == s.registered
  }

  /** Replies are delivered in the order of the requests they answer, with the fields of the request. */
  ghost predicate RepliesInOrder(s: State) {
    s.delivered + InDelivery(s.deliverer) + s.replies + InAnswer(s.server) == Answers(s.served)
  }

  function Bit(b: bool): nat {
    if b then 1 else 0
  }

  /** A semaphore counts its queue, but for a thread that has just taken from one of the two. */
  ghost predicate SemaphoresCount(s: State) {
    && s.requestSem + Bit(s.server.Woken?) + Bit(s.lock.Enqueued?) == |s.requests|
    && s.replySem + Bit(s.deliverer.Awake?) + Bit(s.server.ReplyEnqueued?) == |s.replies|
  }

  /** The deliverer has exited only over a reply that told it to, and delivered none that did. */
  ghost predicate ExitsByFlag(s: State) {
    && (s.deliverer.Exited? ==> s.deliverer.over.Some? && s.deliverer.over.value.exit)
    && (s.deliverer.Delivering? ==> !s.deliverer.reply.exit)
    && (forall i | 0 <= i < |s.delivered| :: !s.delivered[i].exit)
  }

  ghost predicate Inv(s: State) {
    RequestsInOrder(s) && RepliesInOrder(s) && SemaphoresCount(s) && ExitsByFlag(s) && |s.ids| == |s.registered|
  }

  lemma StepKeepsRequests(s: State, step: Step)
    requires Inv(s) && Enabled(s, step)
    ensures RequestsInOrder(Next(s, step))
  {
    hide RepliesInOrder, Answers, ExitsByFlag;
    match step
    case Register(_, r, _) =>
      assert Requests(s.served) + InService(s.server) + (s.requests + [r]) == s.registered + [r];
    case TakeRequest =>
      assert s.requests == [s.requests[0]] + s.requests[1..];
    case Serve(draft) =>
      var r := s.server.request;
      AnswersNext(s.served, Service(r, draft));
      assert Requests(s.served) + [r] + [] + s.requests == Requests(s.served) + [r] + s.requests;
    case _ =>
  }

  lemma StepKeepsReplies(s: State, step: Step)
    requires Inv(s) && Enabled(s, step)
    ensures RepliesInOrder(Next(s, step))
  {
    hide RequestsInOrder, Answers, Requests, ExitsByFlag;
    match step
    case Serve(draft) =>
      var r := s.server.request;
      AnswersNext(s.served, Service(r, draft));
      assert InAnswer(s.server) == [];
    case EnqueueReply =>
      assert s.delivered + InDelivery(s.deliverer) + (s.replies + [s.server.reply]) + [] == Answers(s.served);
    case TakeReply =>
      assert s.replies == [s.replies[0]] + s.replies[1..];
      assert s.delivered + [s.replies[0]] + s.replies[1..] + InAnswer(s.server) == Answers(s.served);
    case Deliver =>
      assert s.delivered + [s.deliverer.reply] + [] == s.delivered + [s.deliverer.reply];
    case _ =>
  }

  lemma StepKeepsCounts(s: State, step: Step)
    requires Inv(s) && Enabled(s, step)
    ensures SemaphoresCount(Next(s, step)) && ExitsByFlag(Next(s, step)) && |Next(s, step).ids| == |Next(s, step).registered|
  {
    hide RequestsInOrder, RepliesInOrder;
  }

  lemma StepKeeps(s: State, step: Step)
    requires Inv(s) && Enabled(s, step)
    ensures Inv(Next(s, step))
  {
    StepKeepsRequests(s, step);
    StepKeepsReplies(s, step);
    StepKeepsCounts(s, step);
  }

  /** A run: any interleaving. */
  datatype Run = Run(states: seq<State>, steps: seq<Step>)

  ghost predicate IsRun(r: Run) {
    && |r.states| == |r.steps| + 1 && r.states[0] == START
    && forall i | 0 <= i < |r.steps| ::
         Enabled(r.states[i], r.steps[i]) && r.states[i + 1] == Next(r.states[i], r.steps[i])
  }

  lemma {:induction false} RunKeepsOrder(r: Run, k: nat)
    requires IsRun(r) && k <= |r.steps|
    ensures Inv(r.states[k])
  {
    if k > 0 {
      RunKeepsOrder(r, k - 1);
      assert Enabled(r.states[k - 1], r.steps[k - 1]) && r.states[k - 1 + 1] == Next(r.states[k - 1], r.steps[k - 1]);
      StepKeeps(r.states[k - 1], r.steps[k - 1]);
    }
  }

  lemma SomethingThere(s: State)
    requires Inv(s)
    ensures Enabled(s, TakeRequest) ==> s.requests != []
    ensures Enabled(s, TakeReply) ==> s.replies != []
  {
    hide RequestsInOrder, RepliesInOrder;
  }

  lemma StartKeeps()
    ensures Inv(START)
  {
  }

  /** A thread that was woken finds something in its queue, and the deliverer exits over nothing but a
      reply with the exit flag, which one of the procedures or its memory must have left there. */
  lemma WokenFinds(r: Run, k: nat)
    requires IsRun(r) && k <= |r.steps|
    ensures Enabled(r.states[k], TakeRequest) ==> r.states[k].requests != []
    ensures Enabled(r.states[k], TakeReply) ==> r.states[k].replies != []
    ensures r.states[k].deliverer.Exited? ==>
              exists i :: 0 <= i < |r.states[k].served| && r.states[k].served[i].draft.Some?
                          && r.states[k].served[i].draft.value.exit
  {
    hide Inv, Next, Enabled, Answers;
    RunKeepsOrder(r, k);
    SomethingThere(r.states[k]);
    if r.states[k].deliverer.Exited? {
      ExitIsAnswer(r.states[k]);
      var _ := AnswerWithExit(r.states[k].served);
    }
  }

  ghost predicate HasExit(replies: seq<Reply>) {
    exists i :: 0 <= i < |replies| && replies[i].exit
  }

  lemma ExitIsAnswer(s: State)
    requires Inv(s) && s.deliverer.Exited?
    ensures HasExit(Answers(s.served))
  {
    hide Answers;
    var i := |s.delivered|;
    assert Answers(s.served)[i] == s.deliverer.over.value;
  }

  lemma {:induction false} AnswerWithExit(served: seq<Service>) returns (i: nat)
    requires HasExit(Answers(served))
    ensures i < |served| && served[i].draft.Some? && served[i].draft.value.exit
  {
    var n := |served| - 1;
    var last := served[n];
    if last.draft.Some? && last.draft.value.exit {
      i := n;
    } else {
      assert HasExit(Answers(served[..n])) by {
        var j :| 0 <= j < |Answers(served)| && Answers(served)[j].exit;
        assert j < |Answers(served[..n])|;
        assert Answers(served[..n])[j].exit;
      }
      i := AnswerWithExit(served[..n]);
    }
  }

  /** The services for which there was memory for a reply. */
  function Replied(served: seq<Service>): (rs: seq<Service>)
    ensures forall i | 0 <= i < |rs| :: rs[i].draft.Some?
  {
    if served == [] then [] else
      var last := served[|served| - 1];
      Replied(served[..|served| - 1]) + if last.draft.Some? then [last] else []
  }

  /** Whose reply `p` is: it has what the procedure left in it, and the callback, the context and the
      identification of the request. */
  ghost predicate ReplyTo(p: Reply, s: Service) {
    && s.draft.Some? && p.payload == s.draft.value.payload && p.exit == s.draft.value.exit
    && p.reqid == s.request.reqid && p.callback == s.request.callback && p.context == s.request.context
  }

  lemma {:induction false} AnswersAre(served: seq<Service>)
    ensures |Answers(served)| == |Replied(served)|
    ensures forall k | 0 <= k < |Answers(served)| :: ReplyTo(Answers(served)[k], Replied(served)[k])
  {
    if served != [] {
      AnswersAre(served[..|served| - 1]);
    }
  }

  lemma {:induction false} AllReplied(served: seq<Service>)
    requires forall i | 0 <= i < |served| :: served[i].draft.Some?
    ensures Replied(served) == served
  {
    if served != [] {
      AllReplied(served[..|served| - 1]);
    }
  }

  /** In every run, the k-th reply delivered is the reply to the k-th request for which there was memory for
      one. */
  lemma DeliveredAre(r: Run, j: nat, k: nat)
    requires IsRun(r) && j <= |r.steps| && k < |r.states[j].delivered|
    ensures var replied := Replied(r.states[j].served);
            k < |replied| && ReplyTo(r.states[j].delivered[k], replied[k])
  {
    hide Answers, Replied, ReplyTo;
    RunKeepsOrder(r, j);
    var s := r.states[j];
    AnswersAre(s.served);
    assert s.delivered[k] == Answers(s.served)[k];
  }

  /** Where there was memory for every reply, the k-th reply is that to the k-th request registered.  So it
      has the identification that was handed out for the request just when the caller had put the same one
      there, since registering does not. */
  lemma RepliesMatch(r: Run, j: nat, k: nat)
    requires IsRun(r) && j <= |r.steps| && k < |r.states[j].delivered|
    requires forall i | 0 <= i < |r.states[j].served| :: r.states[j].served[i].draft.Some?
    ensures k < |r.states[j].served| <= |r.states[j].registered| == |r.states[j].ids|
    ensures var s := r.states[j];
            var p, q, draft := s.delivered[k], s.registered[k], s.served[k].draft.value;
            && p.reqid == q.reqid && p.callback == q.callback && p.context == q.context
            && p.payload == draft.payload && p.exit == draft.exit
            && (p.reqid == s.ids[k] <==> q.reqid == s.ids[k])
  {
    hide Answers, Replied;
    DeliveredAre(r, j, k);
    RunKeepsOrder(r, j);
    var s := r.states[j];
    AllReplied(s.served);
    assert s.registered[k] == Requests(s.served)[k];
  }

  /** A request whose identification is still zero, as it leaves the caller, is answered with zero and
      not with the identification the caller was given. */
  lemma AnotherIdentification() returns (r: Run)
    ensures IsRun(r) && |r.states| == |r.steps| + 1
    ensures var s := r.states[|r.steps|]; |s.delivered| == |s.ids| == 1 && s.delivered[0].reqid == 0 && s.ids[0] == 7
  {
    hide IsRun;
    r := RegisteredAndTaken(Request(0, 2, 3), 7);
    r := Then(r, Serve(Some(Reply(0, 0, 0, 0, false))));
    r := Then(r, EnqueueReply);
    assert r.states[|r.steps|].replies == [Reply(0, 2, 3, 0, false)];
    r := Then(r, PostReply);
    r := Then(r, UnlockReplies);
    r := Then(r, WaitReply);
    r := Then(r, TakeReply);
    r := Then(r, Deliver);
  }

  lemma RegisteredAndTaken(q: Request, id: int) returns (r: Run)
    ensures IsRun(r) && |r.states| == |r.steps| + 1
    ensures r.states[|r.steps|] == START.(server := Serving(q), registered := [q], ids := [id])
  {
    r := Run([START], []);
    hide IsRun;
    r := Then(r, Register(1, q, id));
    assert r.states[|r.steps|] == START.(requests := [q], lock := Enqueued(1), registered := [q], ids := [id]);
    r := Then(r, PostRequest);
    r := Then(r, UnlockRequests);
    r := Then(r, WaitRequest);
    r := Then(r, TakeRequest);
  }

  lemma Then(r: Run, step: Step) returns (longer: Run)
    requires IsRun(r) && |r.states| == |r.steps| + 1 && Enabled(r.states[|r.steps|], step)
    ensures IsRun(longer) && |longer.states| == |longer.steps| + 1
    ensures longer.states[|longer.steps|] == Next(r.states[|r.steps|], step)
  {
    longer := Run(r.states + [Next(r.states[|r.steps|], step)], r.steps + [step]);
  }

  // ---------- nobody is left waiting ----------

  predicate Internal(step: Step) {
    !step.Register?
  }

  ghost predicate Quiet(s: State) {
    && s.lock.Free? && s.server.Idle? && s.requests == []
    && (s.deliverer.Exited? || (s.deliverer.Asleep? && s.replies == []))
  }

  /** As long as there is anything left to do, somebody can do it. */
  lemma SomebodyCan(s: State) returns (step: Step)
    requires Inv(s) && !Quiet(s)
    ensures Internal(step) && Enabled(s, step)
  {
    if s.lock.Enqueued? {
      step := PostRequest;
    } else if s.lock.Posted? {
      step := UnlockRequests;
    } else {
      match s.server
      case Woken => step := TakeRequest;
      case Serving(_) => step := Serve(None);
      case Answering(_) => step := EnqueueReply;
      case ReplyEnqueued => step := PostReply;
      case ReplyPosted => step := UnlockReplies;
      case Idle =>
        match s.deliverer
        case Awake => step := TakeReply;
        case Delivering(_) => step := Deliver;
        case Asleep => step := if s.requests != [] then WaitRequest else WaitReply;
        case Exited(_) => step := WaitRequest;
    }
  }

  function LockWork(lock: Lock): nat {
    match lock case Free => 0 case Posted(_) => 1 case Enqueued(_) => 2
  }

  function ServerWork(server: Server): nat {
    match server
    case Woken => 0 case Idle => 1 case ReplyPosted => 2 case ReplyEnqueued => 3 case Answering(_) => 9 case Serving(_) => 10
  }

  function DelivererWork(deliverer: Deliverer): nat {
    match deliverer case Exited(_) => 0 case Awake => 0 case Asleep => 1 case Delivering(_) => 2
  }

  /** How many steps there can be at most before somebody must register again. */
  function WorkLeft(s: State): nat {
    12 * |s.requests| + 4 * |s.replies| + LockWork(s.lock) + ServerWork(s.server) + DelivererWork(s.deliverer)
  }

  lemma WorkShrinks(s: State, step: Step)
    requires Inv(s) && Enabled(s, step) && Internal(step)
    ensures WorkLeft(Next(s, step)) < WorkLeft(s)
  {
    hide RequestsInOrder, RepliesInOrder, Requests, Answers;
  }

  lemma {:induction false} WorkBoundsSteps(r: Run, i: nat, j: nat)
    requires IsRun(r) && i <= j <= |r.steps|
    requires forall k | i <= k < j :: Internal(r.steps[k])
    ensures j - i + WorkLeft(r.states[j]) <= WorkLeft(r.states[i])
    decreases j - i
  {
    hide Next, Enabled, WorkLeft, Internal;
    if i < j {
      WorkBoundsSteps(r, i, j - 1);
      RunKeepsOrder(r, j - 1);
      assert Internal(r.steps[j - 1]);
      assert Enabled(r.states[j - 1], r.steps[j - 1]) && r.states[j - 1 + 1] == Next(r.states[j - 1], r.steps[j - 1]);
      WorkShrinks(r.states[j - 1], r.steps[j - 1]);
    }
  }

  /** The replies before the first that ends the deliverer. */
  function BeforeExit(replies: seq<Reply>): seq<Reply> {
    if replies == [] || replies[0].exit then [] else [replies[0]] + BeforeExit(replies[1..])
  }

  lemma {:induction false} BeforeExitIs(before: seq<Reply>, rest: seq<Reply>)
    requires forall i | 0 <= i < |before| :: !before[i].exit
    requires rest == [] || rest[0].exit
    ensures BeforeExit(before + rest) == before
  {
    if before == [] {
      assert before + rest == rest;
    } else {
      assert (before + rest)[1..] == before[1..] + rest;
      BeforeExitIs(before[1..], rest);
    }
  }

  /** However the threads are scheduled, they come to rest, and when they have, every request that was
      registered has been served, and every reply up to the first that ends the deliverer delivered. */
  lemma ComesToRest(r: Run, i: nat, j: nat)
    requires IsRun(r) && i <= j <= |r.steps|
    requires forall k | i <= k < j :: Internal(r.steps[k])
    ensures j - i <= WorkLeft(r.states[i])
    ensures (forall step | Internal(step) :: !Enabled(r.states[j], step)) ==>
              && Requests(r.states[j].served) == r.states[j].registered && r.states[j].requestSem == 0
              && r.states[j].delivered == BeforeExit(Answers(r.states[j].served))
  {
    WorkBoundsSteps(r, i, j);
    RunKeepsOrder(r, j);
    if forall step | Internal(step) :: !Enabled(r.states[j], step) {
      AtRest(r.states[j]);
    }
  }

  lemma AtRest(s: State)
    requires Inv(s) && forall step | Internal(step) :: !Enabled(s, step)
    ensures Requests(s.served) == s.registered && s.requestSem == 0
    ensures s.delivered == BeforeExit(Answers(s.served))
  {
    hide Answers, BeforeExit;
    if !Quiet(s) {
      var _ := SomebodyCan(s);
    }
    assert Requests(s.served) + [] + [] == Requests(s.served);
    var rest := InDelivery(s.deliverer) + s.replies;
    assert s.delivered + rest == s.delivered + InDelivery(s.deliverer) + s.replies + InAnswer(s.server);
    BeforeExitIs(s.delivered, rest);
  }

  // ---------- the pipeline itself ----------

  datatype Status = Ok | NoMemory | NoFreeId | ReadOnly

  /** The steps of a registration, of an answer. */
  function Registered(s: State, thread: nat, request: Request, id: int): State
    requires s.lock.Free?
  {
    Next(Next(Next(s, Register(thread, request, id)), PostRequest), UnlockRequests)
  }

  function Answered(s: State): State
    requires s.server.Answering?
  {
    Next(Next(Next(s, EnqueueReply), PostReply), UnlockReplies)
  }

  lemma RegisteredKeeps(s: State, thread: nat, request: Request, id: int)
    requires Inv(s) && s.lock.Free?
    ensures Inv(Registered(s, thread, request, id))
  {
    hide Inv;
    var s1 := Next(s, Register(thread, request, id));
    StepKeeps(s, Register(thread, request, id));
    StepKeeps(s1, PostRequest);
    StepKeeps(Next(s1, PostRequest), UnlockRequests);
  }

  lemma AnsweredKeeps(s: State)
    requires Inv(s) && s.server.Answering?
    ensures Inv(Answered(s))
  {
    hide Inv;
    StepKeeps(s, EnqueueReply);
    StepKeeps(Next(s, EnqueueReply), PostReply);
    StepKeeps(Next(Next(s, EnqueueReply), PostReply), UnlockReplies);
  }

  lemma AnsweredIs(s: State)
    requires s.server.Answering?
    ensures Answered(s) == s.(replies := s.replies + [s.server.reply], replySem := s.replySem + 1, server := Idle)
  {
  }

  /** The shared state.  A method is what a thread does holding a lock, or between waiting and
      taking it. */
  class Pipeline {
    const requests: Fifo<Request>
    const replies: Fifo<Reply>
    var requestSem: nat
    var replySem: nat
    ghost var value: State

    ghost predicate Valid()
      reads this, requests, requests.spine, replies, replies.spine
    {
      && requests.Valid() && replies.Valid()
      && Inv(value) && value.lock.Free? && !value.server.ReplyEnqueued? && !value.server.ReplyPosted?
      && value.requests == requests.contents && value.requestSem == requestSem
      && value.replies == replies.contents && value.replySem == replySem
    }

    constructor ()
      ensures Valid() && value == START && fresh(requests) && fresh(replies)
    {
      hide Inv;
      StartKeeps();
      requests := new Fifo();
      replies := new Fifo();
      requestSem, replySem := 0, 0;
      value := START;
    }

    /** A request is put at the end of the queue, unless there is no memory for a copy of it, no free
        identification, or no more requests are taken.  The identification is handed out before the
        last of these is known, and it is not put into the request. */
    method Register(ghost thread: nat, request: Request, memory: bool, freeId: Option<int>, closed: bool)
      returns (status: Status, id: Option<int>)
      requires Valid()
      modifies this, requests, requests.spine
      ensures Valid()
      ensures status == if !memory then NoMemory else if freeId.None? then NoFreeId else if closed then ReadOnly else Ok
      ensures id == if memory then freeId else None
      ensures value == if status == Ok then Registered(old(value), thread, request, id.value) else old(value)
      ensures old(requests.spine) <= requests.spine && fresh(requests.spine[|old(requests.spine)|..])
    {
      hide Inv;
      id := None;
      if !memory {
        return NoMemory, id;
      }
      id := freeId;
      if freeId.None? {
        return NoFreeId, id;
      }
      if closed {
        return ReadOnly, id;
      }
      RegisteredKeeps(value, thread, request, id.value);
      requests.Append(request);
      requestSem := requestSem + 1;
      value := Registered(value, thread, request, id.value);
      status := Ok;
    }

    method WaitRequest()
      requires Valid() && value.server.Idle? && requestSem > 0
      modifies this
      ensures Valid() && value == Next(old(value), Step.WaitRequest)
    {
      hide Inv;
      StepKeeps(value, Step.WaitRequest);
      requestSem := requestSem - 1;
      value := Next(value, Step.WaitRequest);
    }

    /** The server, once woken, always gets a request. */
    method TakeRequest() returns (request: Option<Request>)
      requires Valid() && value.server.Woken?
      modifies this, requests
      ensures Valid() && value == Next(old(value), Step.TakeRequest)
      ensures request.Some? && value.server == Serving(request.value)
      ensures requests.spine == old(requests.spine)[1..]
    {
      hide Inv;
      SomethingThere(value);
      StepKeeps(value, Step.TakeRequest);
      value := Next(value, Step.TakeRequest);
      if requests.first == null {
        return None;
      }
      var r := requests.RemoveFirst();
      request := Some(r);
    }

    /** The procedure has been called and has left `draft`; the fields that say whose reply it is are
        filled in, and it is registered.  Without memory for a reply there is none. */
    method Answer(request: Request, draft: Option<Reply>)
      requires Valid() && value.server == Serving(request)
      modifies this, replies, replies.spine
      ensures Valid()
      ensures var s := Next(old(value), Serve(draft)); value == if draft.None? then s else Answered(s)
      ensures draft.Some? ==> exists p :: ReplyTo(p, Service(request, draft)) && replies.contents == old(replies.contents) + [p]
      ensures old(replies.spine) <= replies.spine && fresh(replies.spine[|old(replies.spine)|..])
    {
      hide Inv;
      StepKeeps(value, Serve(draft));
      value := Next(value, Serve(draft));
      if draft.Some? {
        var reply := draft.value;
        reply := reply.(callback := request.callback);
        reply := reply.(context := request.context);
        reply := reply.(reqid := request.reqid);
        assert ReplyTo(reply, Service(request, draft));
        RegisterReply(reply);
      }
    }

    method RegisterReply(reply: Reply)
      requires Valid() && value.server == Answering(reply)
      modifies this, replies, replies.spine
      ensures Valid() && value == Answered(old(value))
      ensures old(replies.spine) <= replies.spine && fresh(replies.spine[|old(replies.spine)|..])
    {
      hide Inv, Next, Answered;
      AnsweredKeeps(value);
      AnsweredIs(value);
      replies.Append(reply);
      replySem := replySem + 1;
      value := Answered(value);
    }

    method WaitReply()
      requires Valid() && value.deliverer.Asleep? && replySem > 0
      modifies this
      ensures Valid() && value == Next(old(value), Step.WaitReply)
    {
      hide Inv;
      StepKeeps(value, Step.WaitReply);
      replySem := replySem - 1;
      value := Next(value, Step.WaitReply);
    }

    method TakeReply() returns (reply: Option<Reply>)
      requires Valid() && value.deliverer.Awake?
      modifies this, replies
      ensures Valid() && value == Next(old(value), Step.TakeReply)
      ensures reply.Some?
      ensures value.deliverer == if reply.value.exit then Exited(reply) else Delivering(reply.value)
      ensures replies.spine == old(replies.spine)[1..]
    {
      hide Inv;
      SomethingThere(value);
      StepKeeps(value, Step.TakeReply);
      value := Next(value, Step.TakeReply);
      if replies.first == null {
        return None;
      }
      var r := replies.RemoveFirst();
      reply := Some(r);
    }
  }
}
