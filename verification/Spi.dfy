/** The host's side of the SPI protocol, over a bus that loses, cuts and corrupts transfers, and shared with others. */
module Spi {

  import opened Panda

  // ---- What the bus, the panda and the clock do, as scripts ----

  // What a polling transfer shows the host. Heard is an intact answer, so many before the panda's last; the checksum
  // lets through nothing else.
  datatype Poll = FailedPoll | ReadyPoll | Junk | Heard(back: nat)

  // One sending of a request: whether the panda got it, how it would decide, whether the host then saw it ready, what
  // the host's polls showed until time ran out, and which deadline had passed.
  datatype Attempt = Attempt(
    delivered: bool, busy: bool, data: seq<nat>, ready: bool, polls: seq<Poll>, late: bool, silent: bool)

  // another client's request, accepted while the bus was released
  datatype Other = Other(skip: nat, request: Request, busy: bool, data: seq<nat>)

  // One transfer of a call, and what happens before the next one. Ids are drawn upwards, skip of them by nobody here.
  datatype Round = Round(skip: nat, attempts: seq<Attempt>, connected: bool, late: bool, others: seq<Other>)

  datatype TransferResult = Data(bytes: seq<nat>) | Nack | AckTimeout | Silent | Unfinished

  // ---- What the host does, as functions of the scripts ----

  // the panda after one sending
  function Sent(p: Panda, id: nat, request: Request, a: Attempt): Panda {
    if a.delivered then Handle(p, Arrival(Us, id, request, a.busy, a.data)) else p
  }

  // what polling comes to
  function Response(p: Panda, id: nat, maxLength: nat, polls: seq<Poll>): TransferResult {
    if polls == [] then Unfinished
    else
      match polls[0]
      case FailedPoll => Unfinished
      case ReadyPoll => Unfinished
      case Junk => Response(p, id, maxLength, polls[1..])
      case Heard(back) =>
        if back < |p.sent| && |p.sent[|p.sent| - 1 - back].data| <= maxLength then
          var answer := p.sent[|p.sent| - 1 - back];
          if answer.id != id then Unfinished else if answer.ack then Data(answer.data) else Nack
        else Response(p, id, maxLength, polls[1..])
  }

  function Exchanged(p: Panda, id: nat, request: Request, a: Attempt): TransferResult {
    if a.ready then Response(Sent(p, id, request, a), id, request.maxLength, a.polls) else Unfinished
  }

  datatype Transferred = Transferred(panda: Panda, result: TransferResult)

  // one request under one id, sent until there is an answer or a deadline passes
  function TransferOf(p: Panda, id: nat, request: Request, attempts: seq<Attempt>): Transferred
    decreases |attempts|
  {
    if attempts == [] then Transferred(p, Unfinished)
    else
      var a, q, r := attempts[0], Sent(p, id, request, attempts[0]), Exchanged(p, id, request, attempts[0]);
      if r.Data? || r.Nack? then Transferred(q, r)
      else if a.late then Transferred(q, AckTimeout)
      else if a.silent then Transferred(q, Silent)
      else TransferOf(q, id, request, attempts[1..])
  }

  datatype Shared = Shared(panda: Panda, next: nat)

  // others' requests, each under an id of its own
  function OthersOf(p: Panda, next: nat, others: seq<Other>): Shared
    decreases |others|
  {
    if others == [] then Shared(p, next)
    else
      var o := others[0];
      OthersOf(Handle(p, Arrival(Them, next + o.skip, o.request, o.busy, o.data)), next + o.skip + 1, others[1..])
  }

  // the call ends with this transfer
  predicate Ends(r: TransferResult, round: Round) {
    r.Data? || !round.connected || r.Unfinished? || (r.AckTimeout? && round.late)
  }

  datatype Called = Called(panda: Panda, next: nat, result: TransferResult)

  // A request sent until it is answered or given up, under the given id until the panda refuses it. A call that
  // outlasts its script is unfinished.
  function CallOf(p: Panda, id: nat, next: nat, request: Request, rounds: seq<Round>): Called
    decreases |rounds|
  {
    if rounds == [] then Called(p, next, Unfinished)
    else
      var t := TransferOf(p, id, request, rounds[0].attempts);
      if Ends(t.result, rounds[0]) then Called(t.panda, next, t.result)
      else
        var id', next' := NextId(id, next, t.result, rounds[0]), NextFree(next, t.result, rounds[0]);
        var s := OthersOf(t.panda, next', rounds[0].others);
        CallOf(s.panda, id', s.next, request, rounds[1..])
  }

  function NextId(id: nat, next: nat, r: TransferResult, round: Round): nat {
    if r.Nack? then next + round.skip else id
  }

  function NextFree(next: nat, r: TransferResult, round: Round): nat {
    if r.Nack? then next + round.skip + 1 else next
  }

  // a call, under the next free id
  function Call(p: Panda, next: nat, request: Request, rounds: seq<Round>): Called {
    CallOf(p, next, next + 1, request, rounds)
  }

  // what the panda decided since
  function Since(p: Panda, q: Panda): seq<Decision>
    requires p.log <= q.log
  {
    q.log[|p.log|..]
  }

  // ---- One transfer ----

  datatype Arrived = First(attempt: Attempt) | Never

  // the first sending of a transfer that reaches the panda
  function FirstArrival(p: Panda, id: nat, request: Request, attempts: seq<Attempt>): Arrived {
    if attempts == [] then Never
    else
      var a, r := attempts[0], Exchanged(p, id, request, attempts[0]);
      if a.delivered then First(a)
      else if r.Data? || r.Nack? || a.late || a.silent then Never
      else FirstArrival(p, id, request, attempts[1..])
  }

  lemma {:induction false} KnownIsRepeated(p: Panda, id: nat, request: Request, attempts: seq<Attempt>)
    requires Remembers(p, id) && Honest(p)
    ensures var q := TransferOf(p, id, request, attempts).panda; q.log == p.log && q.memory == p.memory && Honest(q)
    decreases |attempts|
  {
    hide Honest, Exchanged;
    if attempts != [] {
      var a := attempts[0];
      if a.delivered { HandleHonest(p, Arrival(Us, id, request, a.busy, a.data)); }
      KnownIsRepeated(Sent(p, id, request, a), id, request, attempts[1..]);
    }
  }

  // the panda after a transfer's first arrival, if there was one
  ghost predicate DecidesFirst(p: Panda, q: Panda, id: nat, request: Request, arrived: Arrived) {
    match arrived
    case Never => q.log == p.log && q.memory == p.memory
    case First(a) =>
      var x := Arrival(Us, id, request, a.busy, a.data);
      q.log == p.log + [DecisionOn(x)] && q.memory == Last(AnswerTo(x))
  }

  /** A transfer makes the panda decide at most once: on its first arrival, if the panda does not remember the id. */
  lemma {:induction false} TransferDecidesOnce(p: Panda, id: nat, request: Request, attempts: seq<Attempt>)
    requires Honest(p)
    ensures var q, arrived := TransferOf(p, id, request, attempts).panda, FirstArrival(p, id, request, attempts);
      Honest(q) && DecidesFirst(p, q, id, request, if Remembers(p, id) then Never else arrived)
    decreases |attempts|
  {
    hide Honest, Exchanged;
    if Remembers(p, id) {
      KnownIsRepeated(p, id, request, attempts);
    } else if attempts != [] {
      var a := attempts[0];
      if a.delivered {
        var x := Arrival(Us, id, request, a.busy, a.data);
        HandleHonest(p, x);
        KnownIsRepeated(Handle(p, x), id, request, attempts[1..]);
      } else {
        TransferDecidesOnce(p, id, request, attempts[1..]);
      }
    }
  }

  // what the panda decided about this very id
  ghost predicate Backed(p: Panda, id: nat, maxLength: nat, r: TransferResult) {
    && (r.Data? ==> |r.bytes| <= maxLength && exists d | d in p.log :: d.id == id && d.ack && d.data == r.bytes)
    && (r.Nack? ==> exists d | d in p.log :: d.id == id && !d.ack)
  }

  lemma {:induction false} ResponseBacked(p: Panda, id: nat, maxLength: nat, polls: seq<Poll>)
    requires Honest(p)
    ensures Backed(p, id, maxLength, Response(p, id, maxLength, polls))
    decreases |polls|
  {
    if polls != [] {
      match polls[0]
      case FailedPoll =>
      case ReadyPoll =>
      case Junk => ResponseBacked(p, id, maxLength, polls[1..]);
      case Heard(back) =>
        if back < |p.sent| {
          var answer := p.sent[|p.sent| - 1 - back];
          assert Decided(p.log, answer);
        }
        ResponseBacked(p, id, maxLength, polls[1..]);
    }
  }

  /** Whatever is lost, cut off or corrupted, bytes or a refusal are returned only if the panda decided so of this
      id. */
  lemma {:induction false} TransferBacked(p: Panda, id: nat, request: Request, attempts: seq<Attempt>)
    requires Honest(p)
    ensures var t := TransferOf(p, id, request, attempts); Backed(t.panda, id, request.maxLength, t.result)
    decreases |attempts|
  {
    hide Honest, Backed, Response;
    assert Backed(p, id, request.maxLength, Unfinished) by { NothingBacked(p, id, request.maxLength); }
    if attempts != [] {
      var a := attempts[0];
      if a.delivered { HandleHonest(p, Arrival(Us, id, request, a.busy, a.data)); }
      var q := Sent(p, id, request, a);
      NothingBacked(q, id, request.maxLength);
      ResponseBacked(q, id, request.maxLength, a.polls);
      TransferBacked(q, id, request, attempts[1..]);
    }
  }

  lemma NothingBacked(p: Panda, id: nat, maxLength: nat)
    ensures Backed(p, id, maxLength, Unfinished)
    ensures Backed(p, id, maxLength, AckTimeout) && Backed(p, id, maxLength, Silent)
  {
  }

  // ---- Others on the bus ----

  // Others' requests are decided under ids of their own; if there are any, the panda remembers only the last of them.
  lemma {:induction false} OthersDisplace(p: Panda, next: nat, others: seq<Other>)
    requires Honest(p) && Drawn(p, next)
    ensures var s := OthersOf(p, next, others);
      && Honest(s.panda) && Drawn(s.panda, s.next) && s.next >= next && p.log <= s.panda.log
      && (forall d | d in Since(p, s.panda) :: d.client.Them? && d.id >= next)
      && (others == [] ==> s.panda == p)
      && forall id: nat | id < next :: Remembers(s.panda, id) <==> others == [] && Remembers(p, id)
    decreases |others|
  {
    hide Honest;
    if others != [] {
      var o := others[0];
      var x := Arrival(Them, next + o.skip, o.request, o.busy, o.data);
      var q := Handle(p, x);
      Forgotten(p, next, x.id);
      HandleHonest(p, x);
      HandleDrawn(p, x, x.id + 1);
      OthersDisplace(q, x.id + 1, others[1..]);
      var s := OthersOf(p, next, others);
      assert Since(p, s.panda) == [DecisionOn(x)] + Since(q, s.panda);
    }
  }

  // ---- A whole call ----

  // how often the bus was shared
  function Interruptions(rounds: seq<Round>): nat {
    if rounds == [] then 0 else (if rounds[0].others == [] then 0 else 1) + Interruptions(rounds[1..])
  }

  // A call under way: its decisions all carry its own request, those under the current id are its own, and it has made
  // no more runs, counting refusals of the current id, than the bus was shared, or one more while the id is remembered.
  ghost predicate Going(log0: seq<Decision>, p: Panda, id: nat, next: nat, request: Request, shared: nat) {
    && Honest(p) && Drawn(p, next) && id < next && log0 <= p.log
    && (forall i | 0 <= i < |p.log| && p.log[i].id == id :: i >= |log0| && p.log[i].client.Us?)
    && (forall d | d in p.log[|log0|..] && d.client.Us? :: d.request == request)
    && |Runs(p.log[|log0|..])| + Refusals(p.log, id) <= shared + (if Remembers(p, id) then 1 else 0)
  }

  lemma Starts(p: Panda, next: nat, request: Request)
    requires Honest(p) && Drawn(p, next)
    ensures Going(p.log, p, next, next + 1, request, 0) && !Remembers(p, next)
  {
    NeverRefused(p.log, next);
  }

  lemma TransferGoes(
    log0: seq<Decision>, p: Panda, id: nat, next: nat, request: Request, shared: nat, attempts: seq<Attempt>)
    requires Going(log0, p, id, next, request, shared)
    ensures Going(log0, TransferOf(p, id, request, attempts).panda, id, next, request, shared)
  {
    hide TransferOf, FirstArrival, Honest, Runs, Refusals;
    TransferDecidesOnce(p, id, request, attempts);
    var q, arrived := TransferOf(p, id, request, attempts).panda, FirstArrival(p, id, request, attempts);
    if !Remembers(p, id) && arrived.First? {
      var d := DecisionOn(Arrival(Us, id, request, arrived.attempt.busy, arrived.attempt.data));
      assert q.log[|log0|..] == p.log[|log0|..] + [d];
      RunsSnoc(p.log[|log0|..], d);
      RefusalsSnoc(p.log, d, id);
    }
  }

  lemma RefusalGoes(log0: seq<Decision>, p: Panda, id: nat, next: nat, request: Request, shared: nat, id': nat)
    requires Going(log0, p, id, next, request, shared) && next <= id'
    requires exists d | d in p.log :: d.id == id && !d.ack
    ensures Going(log0, p, id', id' + 1, request, shared) && !Remembers(p, id')
  {
    hide Honest, Runs, Refusals;
    var d :| d in p.log && d.id == id && !d.ack;
    WasRefused(p.log, id, d);
    NeverRefused(p.log, id');
    Forgotten(p, next, id');
  }

  lemma OthersGo(log0: seq<Decision>, p: Panda, id: nat, next: nat, request: Request, shared: nat, others: seq<Other>)
    requires Going(log0, p, id, next, request, shared)
    ensures var s := OthersOf(p, next, others);
      Going(log0, s.panda, id, s.next, request, shared + if others == [] then 0 else 1)
  {
    hide OthersOf, Honest, Runs, Refusals, Remembers;
    OthersDisplace(p, next, others);
    var s := OthersOf(p, next, others);
    var more := Since(p, s.panda);
    assert s.panda.log == p.log + more && s.panda.log[|log0|..] == p.log[|log0|..] + more;
    RunsConcat(p.log[|log0|..], more);
    TheirsAreNotOurs(more);
    NeverRefused(more, id);
    RefusalsConcat(p.log, more, id);
    forall k | 0 <= k < |more| ensures more[k].id != id {
      assert more[k] in more;
    }
  }

  lemma TheirsAreNotOurs(more: seq<Decision>)
    requires forall d | d in more :: d.client.Them?
    ensures Runs(more) == []
  {
    RunsMember(more);
    if Runs(more) != [] { assert Runs(more)[0] in Runs(more); }
  }

  lemma {:induction false} RefusalsConcat(log: seq<Decision>, more: seq<Decision>, id: nat)
    ensures Refusals(log + more, id) == Refusals(log, id) + Refusals(more, id)
  {
    if more == [] {
      assert log + more == log;
    } else {
      var n := |more| - 1;
      RefusalsConcat(log, more[..n], id);
      assert log + more == (log + more[..n]) + [more[n]];
      RefusalsSnoc(log + more[..n], more[n], id);
    }
  }

  // ---- How often a call runs its request ----

  // a call's outcome: whose decisions it caused, how many of them were runs, and where its bytes come from
  ghost predicate Bounded(log0: seq<Decision>, c: Called, request: Request, bound: nat) {
    && Honest(c.panda) && Drawn(c.panda, c.next) && log0 <= c.panda.log
    && (forall d | d in c.panda.log[|log0|..] && d.client.Us? :: d.request == request)
    && |Runs(c.panda.log[|log0|..])| <= bound
    && (c.result.Data? ==> |c.result.bytes| <= request.maxLength)
    && (c.result.Data? ==> exists d | d in Runs(c.panda.log[|log0|..]) :: d.data == c.result.bytes)
  }

  lemma {:induction false} CallRuns(
    log0: seq<Decision>, p: Panda, id: nat, next: nat, request: Request, shared: nat, rounds: seq<Round>)
    requires Going(log0, p, id, next, request, shared)
    ensures Bounded(log0, CallOf(p, id, next, request, rounds), request, 1 + shared + Interruptions(rounds))
    ensures CallOf(p, id, next, request, rounds).next >= next
    decreases |rounds|
  {
    hide TransferOf, OthersOf, Going, Bounded, Backed;
    if rounds == [] {
      NothingBacked(p, id, request.maxLength);
      GoingBounds(log0, p, id, next, request, shared, Unfinished);
    } else {
      var t := TransferOf(p, id, request, rounds[0].attempts);
      TransferGoes(log0, p, id, next, request, shared, rounds[0].attempts);
      GoingHonest(log0, p, id, next, request, shared);
      TransferBacked(p, id, request, rounds[0].attempts);
      if Ends(t.result, rounds[0]) {
        GoingBounds(log0, t.panda, id, next, request, shared, t.result);
        BoundGrows(log0, Called(t.panda, next, t.result), request, 1 + shared, 1 + shared + Interruptions(rounds));
      } else {
        var id', next' := NextId(id, next, t.result, rounds[0]), NextFree(next, t.result, rounds[0]);
        if t.result.Nack? {
          BackedNack(t.panda, id, request.maxLength, t.result);
          RefusalGoes(log0, t.panda, id, next, request, shared, id');
        }
        OthersGo(log0, t.panda, id', next', request, shared, rounds[0].others);
        GoingHonest(log0, t.panda, id', next', request, shared);
        OthersDisplace(t.panda, next', rounds[0].others);
        var s := OthersOf(t.panda, next', rounds[0].others);
        CallRuns(log0, s.panda, id', s.next, request, shared + if rounds[0].others == [] then 0 else 1, rounds[1..]);
      }
    }
  }

  lemma GoingHonest(log0: seq<Decision>, p: Panda, id: nat, next: nat, request: Request, shared: nat)
    requires Going(log0, p, id, next, request, shared)
    ensures Honest(p) && Drawn(p, next)
  {
  }

  lemma BackedNack(p: Panda, id: nat, maxLength: nat, r: TransferResult)
    requires Backed(p, id, maxLength, r) && r.Nack?
    ensures exists d | d in p.log :: d.id == id && !d.ack
  {
  }

  lemma GoingBounds(log0: seq<Decision>, p: Panda, id: nat, next: nat, request: Request, shared: nat, r: TransferResult)
    requires Going(log0, p, id, next, request, shared) && Backed(p, id, request.maxLength, r)
    ensures Bounded(log0, Called(p, next, r), request, 1 + shared)
  {
    hide Honest, Runs, Refusals;
    var made := p.log[|log0|..];
    if r.Data? {
      var d :| d in p.log && d.id == id && d.ack && d.data == r.bytes;
      var i :| 0 <= i < |p.log| && p.log[i] == d;
      assert made[i - |log0|] == d;
      RunsMember(made);
    }
  }

  lemma BoundGrows(log0: seq<Decision>, c: Called, request: Request, bound: nat, larger: nat)
    requires Bounded(log0, c, request, bound) && bound <= larger
    ensures Bounded(log0, c, request, larger)
  {
  }

  /** Whatever happens, a call runs its request at most once more than the bus was shared, and returns a run's bytes. */
  lemma RunsBounded(p: Panda, next: nat, request: Request, rounds: seq<Round>)
    requires Honest(p) && Drawn(p, next)
    ensures Bounded(p.log, Call(p, next, request, rounds), request, 1 + Interruptions(rounds))
  {
    hide CallOf, Bounded, Going;
    Starts(p, next, request);
    CallRuns(p.log, p, next, next + 1, request, 0, rounds);
  }

  ghost predicate Undisturbed(rounds: seq<Round>) {
    forall r | r in rounds :: r.others == []
  }

  lemma {:induction false} NoInterruptions(rounds: seq<Round>)
    requires Undisturbed(rounds)
    ensures Interruptions(rounds) == 0
  {
    if rounds != [] {
      assert rounds[0] in rounds;
      forall r | r in rounds[1..] ensures r.others == [] { assert r in rounds; }
      NoInterruptions(rounds[1..]);
    }
  }

  /** With nobody else on the bus, a call runs its request at most once, and once, with its bytes, if it succeeds. */
  lemma RunsOnce(p: Panda, next: nat, request: Request, rounds: seq<Round>)
    requires Honest(p) && Drawn(p, next) && Undisturbed(rounds)
    ensures var c := Call(p, next, request, rounds);
      && p.log <= c.panda.log && (forall d | d in Runs(Since(p, c.panda)) :: d.request == request)
      && |Runs(Since(p, c.panda))| <= 1
      && (c.result.Data? ==> |Runs(Since(p, c.panda))| == 1 && Runs(Since(p, c.panda))[0].data == c.result.bytes)
  {
    hide CallOf, Runs, Honest;
    RunsBounded(p, next, request, rounds);
    NoInterruptions(rounds);
    RunsMember(Since(p, Call(p, next, request, rounds).panda));
  }

  // ---- When a request is run a second time ----

  // what a round of a call came to: the id it used, what reached the panda, and whether the bus was shared after it
  datatype Step = Step(id: nat, arrived: Arrived, shared: bool)

  // the rounds a call goes through
  function StepsOf(p: Panda, id: nat, next: nat, request: Request, rounds: seq<Round>): seq<Step>
    decreases |rounds|
  {
    if rounds == [] then []
    else
      var t := TransferOf(p, id, request, rounds[0].attempts);
      var step := Step(id, FirstArrival(p, id, request, rounds[0].attempts), rounds[0].others != []);
      if Ends(t.result, rounds[0]) then [step]
      else
        var s := OthersOf(t.panda, NextFree(next, t.result, rounds[0]), rounds[0].others);
        [step] + StepsOf(s.panda, NextId(id, next, t.result, rounds[0]), s.next, request, rounds[1..])
  }

  // The id of step k is new to the panda: it is the first, the bus was just shared, the id was just drawn, or nothing
  // has arrived under it since.
  ghost predicate NewAt(steps: seq<Step>, k: nat)
    requires k < |steps|
  {
    k == 0 || steps[k - 1].shared || steps[k - 1].id != steps[k].id
    || (NewAt(steps, k - 1) && steps[k - 1].arrived.Never?)
  }

  // step k reaches a panda that has room and does not know the id
  ghost predicate RunsAt(steps: seq<Step>, k: nat)
    requires k < |steps|
  {
    steps[k].arrived.First? && !steps[k].arrived.attempt.busy && NewAt(steps, k)
  }

  ghost function RunCount(steps: seq<Step>, n: nat): nat
    requires n <= |steps|
  {
    if n == 0 then 0 else RunCount(steps, n - 1) + if RunsAt(steps, n - 1) then 1 else 0
  }

  lemma {:induction false} NewAtPrefix(steps: seq<Step>, more: seq<Step>, k: nat)
    requires k < |steps|
    ensures NewAt(steps + more, k) == NewAt(steps, k)
  {
    if k > 0 { NewAtPrefix(steps, more, k - 1); }
  }

  lemma {:induction false} RunCountPrefix(steps: seq<Step>, more: seq<Step>, n: nat)
    requires n <= |steps|
    ensures RunCount(steps + more, n) == RunCount(steps, n)
  {
    if n > 0 {
      NewAtPrefix(steps, more, n - 1);
      RunCountPrefix(steps, more, n - 1);
    }
  }

  // the panda does not know the id after these steps
  ghost predicate NewAfter(done: seq<Step>, id: nat) {
    NewAt(done + [Step(id, Never, false)], |done|)
  }

  lemma NewStep(done: seq<Step>, step: Step)
    ensures NewAt(done + [step], |done|) == NewAfter(done, step.id)
    ensures RunCount(done + [step], |done| + 1)
         == RunCount(done, |done|) + if RunsAt(done + [step], |done|) then 1 else 0
  {
    RunCountPrefix(done, [step], |done|);
    if done != [] {
      NewAtPrefix(done, [step], |done| - 1);
      NewAtPrefix(done, [Step(step.id, Never, false)], |done| - 1);
    }
  }

  lemma NewNext(done: seq<Step>, step: Step, id: nat)
    ensures NewAfter(done + [step], id) <==>
      step.shared || step.id != id || (NewAfter(done, step.id) && step.arrived.Never?)
  {
    NewStep(done, step);
    NewAtPrefix(done + [step], [Step(id, Never, false)], |done|);
  }

  // so far the runs are those of the steps, and the panda knows the id exactly if the steps say so
  ghost predicate Traced(log0: seq<Decision>, p: Panda, id: nat, done: seq<Step>) {
    && log0 <= p.log && |Runs(p.log[|log0|..])| == RunCount(done, |done|)
    && (Remembers(p, id) <==> !NewAfter(done, id))
  }

  lemma TransferTraced(
    log0: seq<Decision>, p: Panda, id: nat, done: seq<Step>, request: Request, attempts: seq<Attempt>, shared: bool)
    requires Honest(p) && Traced(log0, p, id, done)
    ensures var step := Step(id, FirstArrival(p, id, request, attempts), shared);
      var q := TransferOf(p, id, request, attempts).panda;
      && Honest(q) && log0 <= q.log && |Runs(q.log[|log0|..])| == RunCount(done + [step], |done| + 1)
      && (Remembers(q, id) <==> !(NewAfter(done, id) && step.arrived.Never?))
  {
    hide TransferOf, FirstArrival, Honest, Runs, RunCount, NewAt, NewAfter;
    TransferDecidesOnce(p, id, request, attempts);
    var q, arrived := TransferOf(p, id, request, attempts).panda, FirstArrival(p, id, request, attempts);
    NewStep(done, Step(id, arrived, shared));
    if !Remembers(p, id) && arrived.First? {
      var d := DecisionOn(Arrival(Us, id, request, arrived.attempt.busy, arrived.attempt.data));
      assert q.log[|log0|..] == p.log[|log0|..] + [d];
      RunsSnoc(p.log[|log0|..], d);
    }
  }

  lemma OthersTraced(log0: seq<Decision>, p: Panda, next: nat, others: seq<Other>)
    requires Honest(p) && Drawn(p, next) && log0 <= p.log
    ensures var s := OthersOf(p, next, others);
      log0 <= s.panda.log && Runs(s.panda.log[|log0|..]) == Runs(p.log[|log0|..])
  {
    hide OthersOf, Honest, Runs;
    OthersDisplace(p, next, others);
    var s := OthersOf(p, next, others);
    var more := Since(p, s.panda);
    assert s.panda.log[|log0|..] == p.log[|log0|..] + more;
    RunsConcat(p.log[|log0|..], more);
    TheirsAreNotOurs(more);
  }

  lemma TransferDrawn(p: Panda, id: nat, next: nat, request: Request, attempts: seq<Attempt>)
    requires Honest(p) && Drawn(p, next) && id < next
    ensures Drawn(TransferOf(p, id, request, attempts).panda, next)
  {
    hide TransferOf, FirstArrival, Honest;
    TransferDecidesOnce(p, id, request, attempts);
  }

  lemma {:induction false} CallTraced(
    log0: seq<Decision>, p: Panda, id: nat, next: nat, done: seq<Step>, request: Request, rounds: seq<Round>)
    requires Honest(p) && Drawn(p, next) && id < next && Traced(log0, p, id, done)
    ensures var c, steps := CallOf(p, id, next, request, rounds), done + StepsOf(p, id, next, request, rounds);
      log0 <= c.panda.log && |Runs(c.panda.log[|log0|..])| == RunCount(steps, |steps|)
    decreases |rounds|
  {
    hide TransferOf, OthersOf, FirstArrival, Honest, Drawn, Runs, RunCount, NewAfter, Remembers;
    if rounds == [] {
      assert done + [] == done;
    } else {
      var t := TransferOf(p, id, request, rounds[0].attempts);
      var shared := rounds[0].others != [];
      var step := Step(id, FirstArrival(p, id, request, rounds[0].attempts), shared);
      TransferTraced(log0, p, id, done, request, rounds[0].attempts, shared);
      TransferDrawn(p, id, next, request, rounds[0].attempts);
      if !Ends(t.result, rounds[0]) {
        var id', next' := NextId(id, next, t.result, rounds[0]), NextFree(next, t.result, rounds[0]);
        MoreDrawn(t.panda, next, next');
        Forgotten(t.panda, next, if t.result.Nack? then id' else next);
        OthersDisplace(t.panda, next', rounds[0].others);
        OthersTraced(log0, t.panda, next', rounds[0].others);
        NewNext(done, step, id');
        var s := OthersOf(t.panda, next', rounds[0].others);
        var rest := StepsOf(s.panda, id', s.next, request, rounds[1..]);
        CallTraced(log0, s.panda, id', s.next, done + [step], request, rounds[1..]);
        assert done + ([step] + rest) == (done + [step]) + rest;
      }
    }
  }

  lemma MoreDrawn(p: Panda, next: nat, later: nat)
    requires Drawn(p, next) && next <= later
    ensures Drawn(p, later)
  {
  }

  lemma {:induction false} CountedOnce(steps: seq<Step>, n: nat)
    requires n <= |steps|
    ensures RunCount(steps, n) >= 1 <==> exists i | 0 <= i < n :: RunsAt(steps, i)
  {
    hide RunsAt;
    if n > 0 { CountedOnce(steps, n - 1); }
  }

  lemma {:induction false} CountedTwice(steps: seq<Step>, n: nat)
    requires n <= |steps|
    ensures RunCount(steps, n) >= 2 <==> exists i, k | 0 <= i < k < n :: RunsAt(steps, i) && RunsAt(steps, k)
  {
    hide RunsAt;
    if n > 0 {
      CountedOnce(steps, n - 1);
      CountedTwice(steps, n - 1);
    }
  }

  /** A call's runs are the rounds in which the request reaches a panda that has room and does not know its id. */
  lemma RunsAreTraced(p: Panda, next: nat, request: Request, rounds: seq<Round>)
    requires Honest(p) && Drawn(p, next)
    ensures var c, steps := Call(p, next, request, rounds), StepsOf(p, next, next + 1, request, rounds);
      p.log <= c.panda.log && |Runs(Since(p, c.panda))| == RunCount(steps, |steps|)
  {
    hide CallOf, StepsOf, Honest;
    Forgotten(p, next, next);
    assert Traced(p.log, p, next, []);
    CallTraced(p.log, p, next, next + 1, [], request, rounds);
    assert [] + StepsOf(p, next, next + 1, request, rounds) == StepsOf(p, next, next + 1, request, rounds);
  }

  /** A call runs its request a second time if and only if two of its rounds reach the panda while it has room and does
      not know the id, because the bus was shared or the id was drawn anew with nothing arriving under it in between. */
  lemma SecondRunIff(p: Panda, next: nat, request: Request, rounds: seq<Round>)
    requires Honest(p) && Drawn(p, next)
    ensures var c, steps := Call(p, next, request, rounds), StepsOf(p, next, next + 1, request, rounds);
      p.log <= c.panda.log
      && (|Runs(Since(p, c.panda))| >= 2 <==>
            exists i, k | 0 <= i < k < |steps| :: RunsAt(steps, i) && RunsAt(steps, k))
  {
    hide CallOf, StepsOf, Honest, Runs, RunsAt;
    RunsAreTraced(p, next, request, rounds);
    var steps := StepsOf(p, next, next + 1, request, rounds);
    CountedTwice(steps, |steps|);
  }

  /** It does happen: the answer to a run is lost, somebody else is served, and the resent request is run again. */
  lemma RunsTwice(p: Panda, next: nat, request: Request, data: seq<nat>, other: Other)
    requires Honest(p) && Drawn(p, next) && |data| <= request.maxLength
    ensures var unheard, heard := Attempt(true, false, data, false, [], false, true),
                                  Attempt(true, false, data, true, [Heard(0)], false, false);
      var c := Call(p, next, request, [Round(0, [unheard], true, false, [other]), Round(0, [heard], true, false, [])]);
      c.result == Data(data) && p.log <= c.panda.log && |Runs(Since(p, c.panda))| == 2
  {
    hide Honest, Drawn, Runs;
    var unheard, heard := Attempt(true, false, data, false, [], false, true),
                          Attempt(true, false, data, true, [Heard(0)], false, false);
    var x, y := Arrival(Us, next, request, false, data),
                Arrival(Them, next + 1 + other.skip, other.request, other.busy, other.data);
    Forgotten(p, next, next);
    MoreDrawn(p, next, next + 1);
    HandleDrawn(p, x, next + 1);
    Forgotten(Handle(p, x), next + 1, y.id);
    var q := Handle(Handle(p, x), y);
    var last := Round(0, [heard], true, false, []);
    assert TransferOf(p, next, request, [unheard]) == Transferred(Handle(p, x), Silent);
    assert OthersOf(Handle(p, x), next + 1, [other]) == Shared(q, y.id + 1) by { assert [other][1..] == []; }
    assert Handle(q, x).sent[|Handle(q, x).sent| - 1] == AnswerTo(x);
    assert TransferOf(q, next, request, [heard]) == Transferred(Handle(q, x), Data(data));
    var rounds := [Round(0, [unheard], true, false, [other]), last];
    assert rounds[1..] == [last];
    assert CallOf(q, next, y.id + 1, request, [last]).panda == Handle(q, x);
    assert CallOf(p, next, next + 1, request, rounds) == CallOf(q, next, y.id + 1, request, [last]);
    var c := Call(p, next, request, rounds);
    assert c.panda == Handle(q, x);
    assert Since(p, c.panda) == [DecisionOn(x), DecisionOn(y), DecisionOn(x)];
    RunsSnoc([], DecisionOn(x));
    RunsSnoc([DecisionOn(x)], DecisionOn(y));
    RunsSnoc([DecisionOn(x), DecisionOn(y)], DecisionOn(x));
    assert [DecisionOn(x)] + [DecisionOn(y)] == [DecisionOn(x), DecisionOn(y)];
    assert [DecisionOn(x), DecisionOn(y)] + [DecisionOn(x)] == Since(p, c.panda);
    assert [] + [DecisionOn(x)] == [DecisionOn(x)];
    TheirsAreNotOurs([]);
  }
}
