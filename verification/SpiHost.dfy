/** The host's loops over SPI transfers: when a call succeeds, what bulk transfers carry, and the loops themselves. */
module SpiHost {

  import opened Panda
  import opened Spi

  // ---- When a call succeeds ----

  // a poll that tells the host nothing: no answer, or one too long to be its own
  predicate Ignored(p: Panda, maxLength: nat, poll: Poll) {
    poll.Junk?
    || (poll.Heard? && (poll.back >= |p.sent| || |p.sent[|p.sent| - 1 - poll.back].data| > maxLength))
  }

  /** The first poll that tells anything decides: a failed one, a panda ready for another request and the answer to
      another id all end the polling, and only the answer to this id is returned. */
  lemma {:induction false} FirstDecides(p: Panda, id: nat, maxLength: nat, polls: seq<Poll>, k: nat)
    requires k <= |polls| && forall i | 0 <= i < k :: Ignored(p, maxLength, polls[i])
    requires k < |polls| ==> !Ignored(p, maxLength, polls[k])
    ensures k == |polls| || !polls[k].Heard? ==> Response(p, id, maxLength, polls) == Unfinished
    ensures k < |polls| && polls[k].Heard? ==>
      var answer := p.sent[|p.sent| - 1 - polls[k].back];
      Response(p, id, maxLength, polls) ==
        if answer.id != id then Unfinished else if answer.ack then Data(answer.data) else Nack
    decreases k
  {
    if k > 0 {
      assert Ignored(p, maxLength, polls[0]);
      FirstDecides(p, id, maxLength, polls[1..], k - 1);
    }
  }

  // the panda's last answer is the first thing that polling shows
  predicate HeardFirst(polls: seq<Poll>) {
    polls != [] && (polls[0] == Heard(0) || (polls[0].Junk? && HeardFirst(polls[1..])))
  }

  // polling ends, with a failure, a ready panda or the time, before any answer is heard
  predicate NoneHeard(polls: seq<Poll>) {
    polls == [] || polls[0].FailedPoll? || polls[0].ReadyPoll? || (polls[0].Junk? && NoneHeard(polls[1..]))
  }

  // the sending arrives and the first thing the host hears is the panda's answer to it
  predicate Clean(a: Attempt) {
    a.delivered && a.ready && HeardFirst(a.polls)
  }

  // the host hears no answer at all; the sending may have arrived or not
  predicate Unheard(a: Attempt) {
    !a.ready || NoneHeard(a.polls)
  }

  // what the panda knows of the current id: nothing, or the arrival it decided
  function Known(known: Arrived, a: Attempt): Arrived {
    if known.First? || !a.delivered then known else First(a)
  }

  // What a transfer comes to: an answer, which is that on the known arrival, none before a deadline, none before the
  // script ends, or something that depends on what else the panda has sent.
  datatype Outcome = Told(attempt: Attempt) | Missed(known: Arrived, late: bool) | Ended | Open

  function OutcomeOf(known: Arrived, attempts: seq<Attempt>): Outcome
    decreases |attempts|
  {
    if attempts == [] then Ended
    else
      var a, now := attempts[0], Known(known, attempts[0]);
      if Clean(a) then Told(now.attempt)
      else if !Unheard(a) then Open
      else if a.late || a.silent then Missed(now, a.late)
      else OutcomeOf(now, attempts[1..])
  }

  datatype Option<T> = Some(value: T) | None

  // what a call is certain to return, as far as its rounds tell
  function Verdict(known: Arrived, rounds: seq<Round>, maxLength: nat): Option<TransferResult>
    decreases |rounds|
  {
    if rounds == [] then Some(Unfinished)
    else
      match OutcomeOf(known, rounds[0].attempts)
      case Open => None
      case Ended => Some(Unfinished)
      case Told(a) =>
        if !a.busy then if |a.data| <= maxLength then Some(Data(a.data)) else None
        else if rounds[0].connected then Verdict(Never, rounds[1..], maxLength) else Some(Nack)
      case Missed(now, late) =>
        if late && (rounds[0].late || !rounds[0].connected) then Some(AckTimeout)
        else if !rounds[0].connected then Some(Silent)
        else Verdict(if rounds[0].others == [] then now else Never, rounds[1..], maxLength)
  }

  // the bytes a call is certain to return
  function Delivered(known: Arrived, rounds: seq<Round>, maxLength: nat): Option<seq<nat>> {
    match Verdict(known, rounds, maxLength)
    case Some(Data(bytes)) => Some(bytes)
    case _ => None
  }

  // the panda remembers the id exactly if an arrival is known, and its answer is the one to that arrival
  ghost predicate Holds(p: Panda, id: nat, request: Request, known: Arrived) {
    (Remembers(p, id) <==> known.First?)
    && (known.First? ==>
          p.memory.answer == AnswerTo(Arrival(Us, id, request, known.attempt.busy, known.attempt.data)))
  }

  lemma {:induction false} UnheardResponse(p: Panda, id: nat, maxLength: nat, polls: seq<Poll>)
    requires NoneHeard(polls)
    ensures Response(p, id, maxLength, polls) == Unfinished
    decreases |polls|
  {
    if polls != [] && polls[0].Junk? {
      UnheardResponse(p, id, maxLength, polls[1..]);
    }
  }

  lemma {:induction false} HeardResponse(p: Panda, id: nat, maxLength: nat, polls: seq<Poll>)
    requires HeardFirst(polls) && p.sent != [] && p.sent[|p.sent| - 1].id == id
    requires |p.sent[|p.sent| - 1].data| <= maxLength
    ensures var answer := p.sent[|p.sent| - 1];
      Response(p, id, maxLength, polls) == if answer.ack then Data(answer.data) else Nack
    decreases |polls|
  {
    if polls[0].Junk? {
      HeardResponse(p, id, maxLength, polls[1..]);
    }
  }

  // Once the panda has decided, a clean sending under the same id returns what it decided then, not what it would now.
  lemma CleanExchange(p: Panda, id: nat, request: Request, known: Arrived, a: Attempt)
    requires Holds(p, id, request, known)
    ensures Holds(Sent(p, id, request, a), id, request, Known(known, a))
    ensures Clean(a) ==>
      var told := Known(known, a).attempt;
      (told.busy || |told.data| <= request.maxLength)
      ==> Exchanged(p, id, request, a) == if told.busy then Nack else Data(told.data)
    ensures Unheard(a) ==> Exchanged(p, id, request, a) == Unfinished
  {
    hide HeardFirst, NoneHeard, Response;
    var q := Sent(p, id, request, a);
    if Unheard(a) && a.ready { UnheardResponse(q, id, request.maxLength, a.polls); }
    if Clean(a) && |q.sent[|q.sent| - 1].data| <= request.maxLength {
      HeardResponse(q, id, request.maxLength, a.polls);
    }
  }

  lemma {:induction false} OutcomeIsTransfer(
    p: Panda, id: nat, request: Request, known: Arrived, attempts: seq<Attempt>)
    requires Holds(p, id, request, known)
    ensures var t := TransferOf(p, id, request, attempts);
      match OutcomeOf(known, attempts)
      case Open => true
      case Ended => t.result == Unfinished
      case Told(a) => (a.busy || |a.data| <= request.maxLength) ==> t.result == if a.busy then Nack else Data(a.data)
      case Missed(now, late) => t.result == (if late then AckTimeout else Silent) && Holds(t.panda, id, request, now)
    decreases |attempts|
  {
    hide Holds, Exchanged, Unheard;
    if attempts != [] {
      var a := attempts[0];
      CleanExchange(p, id, request, known, a);
      OutcomeIsTransfer(Sent(p, id, request, a), id, request, Known(known, a), attempts[1..]);
    }
  }

  lemma {:induction false} VerdictIsReturned(
    p: Panda, id: nat, next: nat, request: Request, known: Arrived, rounds: seq<Round>)
    requires Honest(p) && Drawn(p, next) && id < next && Holds(p, id, request, known)
    requires Verdict(known, rounds, request.maxLength).Some?
    ensures CallOf(p, id, next, request, rounds).result == Verdict(known, rounds, request.maxLength).value
    decreases |rounds|
  {
    hide Honest, Drawn, Holds, TransferOf, OthersOf, OutcomeOf;
    if rounds != [] {
      var t, round := TransferOf(p, id, request, rounds[0].attempts), rounds[0];
      OutcomeIsTransfer(p, id, request, known, round.attempts);
      if !Ends(t.result, round) {
        var id', next' := NextId(id, next, t.result, round), NextFree(next, t.result, round);
        TransferHonest(p, id, next, request, round.attempts);
        MoreDrawn(t.panda, next, next');
        OthersDisplace(t.panda, next', round.others);
        var s := OthersOf(t.panda, next', round.others);
        if t.result.Nack? {
          Forgotten(t.panda, next, id');
          NotHeld(s.panda, id', request);
          VerdictIsReturned(s.panda, id', s.next, request, Never, rounds[1..]);
        } else {
          var now := OutcomeOf(known, round.attempts).known;
          HeldOrDisplaced(t.panda, s.panda, id, request, now, round.others == []);
          VerdictIsReturned(s.panda, id, s.next, request, if round.others == [] then now else Never, rounds[1..]);
        }
      }
    }
  }

  lemma TransferHonest(p: Panda, id: nat, next: nat, request: Request, attempts: seq<Attempt>)
    requires Honest(p) && Drawn(p, next) && id < next
    ensures var q := TransferOf(p, id, request, attempts).panda; Honest(q) && Drawn(q, next)
  {
    hide TransferOf, FirstArrival, Honest, Drawn;
    TransferDecidesOnce(p, id, request, attempts);
    TransferDrawn(p, id, next, request, attempts);
  }

  lemma NotHeld(p: Panda, id: nat, request: Request)
    requires !Remembers(p, id)
    ensures Holds(p, id, request, Never)
  {
  }

  lemma HeldOrDisplaced(p: Panda, q: Panda, id: nat, request: Request, known: Arrived, same: bool)
    requires Holds(p, id, request, known) && (same ==> q == p) && (!same ==> !Remembers(q, id))
    ensures Holds(q, id, request, if same then known else Never)
  {
  }

  /** Wherever the rounds tell what a call returns, it does: an answer once one gets through, the last refusal or
      silence when the connection is lost, a timeout only when a deadline passed, and nothing else. */
  lemma CallReturns(p: Panda, next: nat, request: Request, rounds: seq<Round>)
    requires Honest(p) && Drawn(p, next) && Verdict(Never, rounds, request.maxLength).Some?
    ensures Call(p, next, request, rounds).result == Verdict(Never, rounds, request.maxLength).value
  {
    Forgotten(p, next, next);
    MoreDrawn(p, next, next + 1);
    VerdictIsReturned(p, next, next + 1, request, Never, rounds);
  }

  /** However often a call is refused, goes unheard or is sent again after others were served: once an answer to it gets
      through cleanly it returns the bytes the panda decided when the request last arrived as new. */
  lemma CallDelivers(p: Panda, next: nat, request: Request, rounds: seq<Round>)
    requires Honest(p) && Drawn(p, next) && Delivered(Never, rounds, request.maxLength).Some?
    ensures Call(p, next, request, rounds).result == Data(Delivered(Never, rounds, request.maxLength).value)
  {
    hide Honest, Drawn, Verdict, Call;
    CallReturns(p, next, request, rounds);
  }

  // ---- Bulk transfers ----

  // the script of a bulk transfer gives the rounds of each call; calls beyond it find nothing
  function Front(plan: seq<seq<Round>>): seq<Round> {
    if plan == [] then [] else plan[0]
  }

  function Rest(plan: seq<seq<Round>>): seq<seq<Round>> {
    if plan == [] then [] else plan[1..]
  }

  function Cut(n: nat, length: nat): nat {
    if n < length then n else length
  }

  datatype Bulk = Bulk(panda: Panda, next: nat, ok: bool, bytes: seq<nat>)

  // one call for each piece of the data, until one fails
  function WriteOf(p: Panda, next: nat, endpoint: nat, data: seq<nat>, chunk: nat, plan: seq<seq<Round>>): Bulk
    requires chunk > 0
    decreases |data|
  {
    if data == [] then Bulk(p, next, true, [])
    else
      var n := Cut(chunk, |data|);
      var c := Call(p, next, Request(endpoint, data[..n], 0), Front(plan));
      if !c.result.Data? then Bulk(c.panda, c.next, false, [])
      else WriteOf(c.panda, c.next, endpoint, data[n..], chunk, Rest(plan))
  }

  lemma WriteStep(p: Panda, next: nat, endpoint: nat, data: seq<nat>, pos: nat, chunk: nat, plan: seq<seq<Round>>)
    requires chunk > 0 && pos < |data|
    ensures var n := Cut(chunk, |data| - pos);
      var c := Call(p, next, Request(endpoint, data[pos..pos + n], 0), Front(plan));
      WriteOf(p, next, endpoint, data[Cut(pos, |data|)..], chunk, plan) ==
        if !c.result.Data? then Bulk(c.panda, c.next, false, [])
        else WriteOf(c.panda, c.next, endpoint, data[Cut(pos + chunk, |data|)..], chunk, Rest(plan))
  {
    hide Call;
    var n := Cut(chunk, |data| - pos);
    assert data[pos..][..n] == data[pos..pos + n] && data[pos..][n..] == data[Cut(pos + chunk, |data|)..];
  }

  // calls for so many bytes, the first of its own size, until one fails or comes back short
  function ReadOf(
    p: Panda, next: nat, endpoint: nat, length: nat, first: nat, chunk: nat, plan: seq<seq<Round>>): Bulk
    requires first > 0 && chunk > 0
    decreases length
  {
    if length == 0 then Bulk(p, next, true, [])
    else
      var n := Cut(first, length);
      var c := Call(p, next, Request(endpoint, [], n), Front(plan));
      if !c.result.Data? then Bulk(c.panda, c.next, false, [])
      else if |c.result.bytes| < n then Bulk(c.panda, c.next, true, c.result.bytes)
      else
        var rest := ReadOf(c.panda, c.next, endpoint, length - n, chunk, chunk, Rest(plan));
        rest.(bytes := c.result.bytes + rest.bytes)
  }

  // a bulk read of which these bytes were read before
  function After(bytes: seq<nat>, b: Bulk): Bulk {
    b.(bytes := bytes + b.bytes)
  }

  lemma ReadStep(bytes: seq<nat>, p: Panda, next: nat, endpoint: nat, length: nat, first: nat, chunk: nat,
                 plan: seq<seq<Round>>)
    requires first > 0 && chunk > 0 && length > 0
    ensures var n := Cut(first, length);
      var c := Call(p, next, Request(endpoint, [], n), Front(plan));
      After(bytes, ReadOf(p, next, endpoint, length, first, chunk, plan)) ==
        if !c.result.Data? then Bulk(c.panda, c.next, false, bytes)
        else if |c.result.bytes| < n then Bulk(c.panda, c.next, true, bytes + c.result.bytes)
        else After(bytes + c.result.bytes, ReadOf(c.panda, c.next, endpoint, length - n, chunk, chunk, Rest(plan)))
  {
    hide Call;
    var n := Cut(first, length);
    var c := Call(p, next, Request(endpoint, [], n), Front(plan));
    if c.result.Data? && |c.result.bytes| >= n {
      var rest := ReadOf(c.panda, c.next, endpoint, length - n, chunk, chunk, Rest(plan));
      assert bytes + (c.result.bytes + rest.bytes) == (bytes + c.result.bytes) + rest.bytes;
    }
  }

  lemma WriteNothing(p: Panda, next: nat, endpoint: nat, chunk: nat, plan: seq<seq<Round>>)
    requires chunk > 0
    ensures WriteOf(p, next, endpoint, [], chunk, plan) == Bulk(p, next, true, [])
  {
  }

  lemma ReadNothing(p: Panda, next: nat, endpoint: nat, first: nat, chunk: nat, plan: seq<seq<Round>>)
    requires first > 0 && chunk > 0
    ensures ReadOf(p, next, endpoint, 0, first, chunk, plan) == Bulk(p, next, true, [])
  {
  }

  // a call that was made, and the bytes it returned
  datatype Piece = Piece(request: Request, bytes: seq<nat>)

  function WritePieces(endpoint: nat, data: seq<nat>, chunk: nat): seq<Piece>
    requires chunk > 0
    decreases |data|
  {
    if data == [] then []
    else
      var n := Cut(chunk, |data|);
      [Piece(Request(endpoint, data[..n], 0), [])] + WritePieces(endpoint, data[n..], chunk)
  }

  function ReadPieces(endpoint: nat, length: nat, first: nat, chunk: nat, bytes: seq<nat>): seq<Piece>
    requires first > 0 && chunk > 0
    decreases length
  {
    if length == 0 then []
    else
      var n := Cut(first, length);
      if |bytes| < n then [Piece(Request(endpoint, [], n), bytes)]
      else
        [Piece(Request(endpoint, [], n), bytes[..n])] + ReadPieces(endpoint, length - n, chunk, chunk, bytes[n..])
  }

  lemma OneChunkMore(chunk: nat, i: nat)
    requires i > 0
    ensures chunk * (i - 1) >= 0 && chunk + chunk * (i - 1) == chunk * i
  {
  }

  /** The calls of a bulk write cut its data into chunks, full but for the last. */
  lemma {:induction false} WriteSizes(endpoint: nat, data: seq<nat>, chunk: nat, i: nat)
    requires chunk > 0 && i < |WritePieces(endpoint, data, chunk)|
    ensures var at := chunk * i;
      && 0 <= at < |data| && (i == |WritePieces(endpoint, data, chunk)| - 1 <==> at + chunk >= |data|)
      && WritePieces(endpoint, data, chunk)[i].request == Request(endpoint, data[at..Cut(at + chunk, |data|)], 0)
    decreases i
  {
    var n := Cut(chunk, |data|);
    var rest := data[n..];
    if i > 0 {
      WriteSizes(endpoint, rest, chunk, i - 1);
      OneChunkMore(chunk, i);
      var at := chunk * (i - 1);
      assert rest[at..Cut(at + chunk, |rest|)] == data[n + at..Cut(n + at + chunk, |data|)];
    } else if rest == [] {
      assert WritePieces(endpoint, rest, chunk) == [];
    }
  }

  /** The calls of a bulk read ask for one first size, then for chunks, and at the end for what is left. */
  lemma {:induction false} ReadSizes(endpoint: nat, length: nat, first: nat, chunk: nat, bytes: seq<nat>, i: nat)
    requires first > 0 && chunk > 0 && i < |ReadPieces(endpoint, length, first, chunk, bytes)|
    ensures var done := if i == 0 then 0 else first + chunk * (i - 1);
      && 0 <= done < length
      && ReadPieces(endpoint, length, first, chunk, bytes)[i].request ==
           Request(endpoint, [], Cut(if i == 0 then first else chunk, length - done))
    decreases i
  {
    var n := Cut(first, length);
    if i > 0 {
      ReadSizes(endpoint, length - n, chunk, chunk, bytes[n..], i - 1);
      if i > 1 { OneChunkMore(chunk, i - 1); }
    }
  }

  // these runs are those of one successful call
  ghost predicate RunsOf(runs: seq<Decision>, piece: Piece, rounds: seq<Round>) {
    && 1 <= |runs| <= 1 + Interruptions(rounds) && (forall d | d in runs :: d.request == piece.request)
    && exists d | d in runs :: d.data == piece.bytes
  }

  // the runs of each piece follow those of the one before
  ghost predicate RunThrough(runs: seq<Decision>, pieces: seq<Piece>, plan: seq<seq<Round>>)
    decreases |pieces|
  {
    if pieces == [] then runs == []
    else exists k | 0 <= k <= |runs| ::
      RunsOf(runs[..k], pieces[0], Front(plan)) && RunThrough(runs[k..], pieces[1..], Rest(plan))
  }

  // so they did up to a piece whose call failed
  ghost predicate GivenUp(runs: seq<Decision>, pieces: seq<Piece>, plan: seq<seq<Round>>)
    decreases |pieces|
  {
    && pieces != []
    && ((|runs| <= 1 + Interruptions(Front(plan)) && forall d | d in runs :: d.request == pieces[0].request)
        || exists k | 0 <= k <= |runs| ::
             RunsOf(runs[..k], pieces[0], Front(plan)) && GivenUp(runs[k..], pieces[1..], Rest(plan)))
  }

  ghost predicate Carried(runs: seq<Decision>, pieces: seq<Piece>, plan: seq<seq<Round>>, ok: bool) {
    if ok then RunThrough(runs, pieces, plan) else GivenUp(runs, pieces, plan)
  }

  lemma OneMore(
    runs: seq<Decision>, more: seq<Decision>, piece: Piece, pieces: seq<Piece>, plan: seq<seq<Round>>, ok: bool)
    requires RunsOf(runs, piece, Front(plan)) && Carried(more, pieces, Rest(plan), ok)
    ensures Carried(runs + more, [piece] + pieces, plan, ok)
  {
    hide RunsOf;
    var k := |runs|;
    assert (runs + more)[..k] == runs && (runs + more)[k..] == more && ([piece] + pieces)[1..] == pieces;
  }

  // the runs of one call
  lemma CallIsPiece(p: Panda, next: nat, request: Request, rounds: seq<Round>)
    requires Honest(p) && Drawn(p, next)
    ensures var c := Call(p, next, request, rounds);
      && Honest(c.panda) && Drawn(c.panda, c.next) && c.next > next && p.log <= c.panda.log
      && (c.result.Data? ==>
            && RunsOf(Runs(Since(p, c.panda)), Piece(request, c.result.bytes), rounds)
            && |c.result.bytes| <= request.maxLength)
      && |Runs(Since(p, c.panda))| <= 1 + Interruptions(rounds)
      && forall d | d in Runs(Since(p, c.panda)) :: d.request == request
  {
    hide CallOf, Honest, Drawn, Runs;
    RunsBounded(p, next, request, rounds);
    NextGrows(p, next, next + 1, request, rounds);
    RunsMember(Since(p, Call(p, next, request, rounds).panda));
  }

  lemma {:induction false} NextGrows(p: Panda, id: nat, next: nat, request: Request, rounds: seq<Round>)
    ensures CallOf(p, id, next, request, rounds).next >= next
    decreases |rounds|
  {
    hide TransferOf, OthersOf;
    if rounds != [] {
      var t := TransferOf(p, id, request, rounds[0].attempts);
      var next' := NextFree(next, t.result, rounds[0]);
      var s := OthersOf(t.panda, next', rounds[0].others);
      OthersGrow(t.panda, next', rounds[0].others);
      NextGrows(s.panda, NextId(id, next, t.result, rounds[0]), s.next, request, rounds[1..]);
    }
  }

  lemma {:induction false} OthersGrow(p: Panda, next: nat, others: seq<Other>)
    ensures OthersOf(p, next, others).next >= next
    decreases |others|
  {
    if others != [] {
      var o := others[0];
      OthersGrow(Handle(p, Arrival(Them, next + o.skip, o.request, o.busy, o.data)), next + o.skip + 1, others[1..]);
    }
  }

  lemma SinceConcat(p: Panda, q: Panda, r: Panda)
    requires p.log <= q.log <= r.log
    ensures Runs(Since(p, r)) == Runs(Since(p, q)) + Runs(Since(q, r))
  {
    RunsConcat(Since(p, q), Since(q, r));
    assert Since(p, r) == Since(p, q) + Since(q, r);
  }

  /** A bulk write's runs are those of its pieces, one piece after the other, up to a failed one if any. */
  lemma {:induction false} WriteRunsThrough(
    p: Panda, next: nat, endpoint: nat, data: seq<nat>, chunk: nat, plan: seq<seq<Round>>)
    requires Honest(p) && Drawn(p, next) && chunk > 0
    ensures var b := WriteOf(p, next, endpoint, data, chunk, plan);
      && Honest(b.panda) && Drawn(b.panda, b.next) && b.next >= next && p.log <= b.panda.log
      && Carried(Runs(Since(p, b.panda)), WritePieces(endpoint, data, chunk), plan, b.ok)
    decreases |data|
  {
    hide Call, Honest, Drawn, Runs, RunsOf;
    if data == [] {
      TheirsAreNotOurs([]);
      assert Since(p, p) == [];
    } else {
      var n := Cut(chunk, |data|);
      var request := Request(endpoint, data[..n], 0);
      var c := Call(p, next, request, Front(plan));
      CallIsPiece(p, next, request, Front(plan));
      if c.result.Data? {
        assert c.result.bytes == [];
        var b := WriteOf(c.panda, c.next, endpoint, data[n..], chunk, Rest(plan));
        WriteRunsThrough(c.panda, c.next, endpoint, data[n..], chunk, Rest(plan));
        SinceConcat(p, c.panda, b.panda);
        OneMore(Runs(Since(p, c.panda)), Runs(Since(c.panda, b.panda)), Piece(request, []),
                WritePieces(endpoint, data[n..], chunk), plan, b.ok);
      }
    }
  }

  /** A bulk read's runs are those of the pieces it was put together from, one after the other, up to a failed one if
      any; each piece is what one of its runs produced. */
  lemma {:induction false} ReadRunsThrough(
    p: Panda, next: nat, endpoint: nat, length: nat, first: nat, chunk: nat, plan: seq<seq<Round>>)
    requires Honest(p) && Drawn(p, next) && first > 0 && chunk > 0
    ensures var b := ReadOf(p, next, endpoint, length, first, chunk, plan);
      && Honest(b.panda) && Drawn(b.panda, b.next) && b.next >= next && p.log <= b.panda.log && |b.bytes| <= length
      && Carried(Runs(Since(p, b.panda)), ReadPieces(endpoint, length, first, chunk, b.bytes), plan, b.ok)
    decreases length
  {
    hide Call, Honest, Drawn, Runs, RunsOf;
    if length == 0 {
      TheirsAreNotOurs([]);
      assert Since(p, p) == [];
    } else {
      var n := Cut(first, length);
      var request := Request(endpoint, [], n);
      var c := Call(p, next, request, Front(plan));
      CallIsPiece(p, next, request, Front(plan));
      if c.result.Data? && |c.result.bytes| < n {
        var runs := Runs(Since(p, c.panda));
        assert Carried([], [], Rest(plan), true);
        OneMore(runs, [], Piece(request, c.result.bytes), [], plan, true);
        assert [Piece(request, c.result.bytes)] + [] == [Piece(request, c.result.bytes)];
        assert runs + [] == runs;
      } else if c.result.Data? {
        var b := ReadOf(c.panda, c.next, endpoint, length - n, chunk, chunk, Rest(plan));
        ReadRunsThrough(c.panda, c.next, endpoint, length - n, chunk, chunk, Rest(plan));
        SinceConcat(p, c.panda, b.panda);
        var all := c.result.bytes + b.bytes;
        assert all[..n] == c.result.bytes && all[n..] == b.bytes;
        OneMore(Runs(Since(p, c.panda)), Runs(Since(c.panda, b.panda)), Piece(request, c.result.bytes),
                ReadPieces(endpoint, length - n, chunk, chunk, b.bytes), plan, b.ok);
      }
    }
  }

  // how often the bus was shared during the first n calls
  function Shares(plan: seq<seq<Round>>, n: nat): nat {
    if n == 0 then 0 else Interruptions(Front(plan)) + Shares(Rest(plan), n - 1)
  }

  lemma GroupSize(runs: seq<Decision>, k: nat, piece: Piece, rounds: seq<Round>)
    requires k <= |runs| && RunsOf(runs[..k], piece, rounds)
    ensures 1 <= k <= 1 + Interruptions(rounds)
  {
  }

  /** A bulk transfer runs at most one request for each piece, and one more for each time the bus was shared. */
  lemma {:induction false} RunsOfBulk(runs: seq<Decision>, pieces: seq<Piece>, plan: seq<seq<Round>>, ok: bool)
    requires Carried(runs, pieces, plan, ok)
    ensures (ok ==> |pieces| <= |runs|) && |runs| <= |pieces| + Shares(plan, |pieces|)
    decreases |pieces|
  {
    hide RunsOf, Interruptions;
    if pieces != [] && (ok || !(|runs| <= 1 + Interruptions(Front(plan)))) {
      var k :| 0 <= k <= |runs|
        && RunsOf(runs[..k], pieces[0], Front(plan)) && Carried(runs[k..], pieces[1..], Rest(plan), ok);
      GroupSize(runs, k, pieces[0], Front(plan));
      RunsOfBulk(runs[k..], pieces[1..], Rest(plan), ok);
    }
  }

  ghost predicate AllUndisturbed(plan: seq<seq<Round>>) {
    forall rounds | rounds in plan :: Undisturbed(rounds)
  }

  // one run for each piece, in order, with its request and its bytes
  ghost predicate OneEach(runs: seq<Decision>, pieces: seq<Piece>) {
    && |runs| == |pieces|
    && forall i | 0 <= i < |runs| :: runs[i].request == pieces[i].request && runs[i].data == pieces[i].bytes
  }

  lemma UndisturbedFront(plan: seq<seq<Round>>)
    requires AllUndisturbed(plan)
    ensures Interruptions(Front(plan)) == 0 && AllUndisturbed(Rest(plan))
  {
    if plan != [] { assert plan[0] in plan; }
    NoInterruptions(Front(plan));
  }

  lemma OnlyRun(runs: seq<Decision>, k: nat, piece: Piece, rounds: seq<Round>)
    requires k <= |runs| && RunsOf(runs[..k], piece, rounds) && Interruptions(rounds) == 0
    ensures k == 1 && runs[0].request == piece.request && runs[0].data == piece.bytes
  {
    assert runs[..k][0] in runs[..k];
  }

  lemma {:induction false} UndisturbedRuns(runs: seq<Decision>, pieces: seq<Piece>, plan: seq<seq<Round>>)
    requires AllUndisturbed(plan) && RunThrough(runs, pieces, plan)
    ensures OneEach(runs, pieces)
    decreases |pieces|
  {
    hide RunsOf, AllUndisturbed, Interruptions;
    if pieces != [] {
      UndisturbedFront(plan);
      var k :| 0 <= k <= |runs|
        && RunsOf(runs[..k], pieces[0], Front(plan)) && RunThrough(runs[k..], pieces[1..], Rest(plan));
      OnlyRun(runs, k, pieces[0], Front(plan));
      UndisturbedRuns(runs[1..], pieces[1..], Rest(plan));
      forall i | 1 <= i < |runs| ensures runs[i].request == pieces[i].request && runs[i].data == pieces[i].bytes {
        assert runs[i] == runs[1..][i - 1] && pieces[i] == pieces[1..][i - 1];
      }
    }
  }

  // these runs are, one by one, of the first pieces
  ghost predicate OfPieces(runs: seq<Decision>, pieces: seq<Piece>) {
    |runs| <= |pieces| && forall i | 0 <= i < |runs| :: runs[i].request == pieces[i].request
  }

  lemma OfPiecesCons(runs: seq<Decision>, pieces: seq<Piece>)
    requires runs != [] && pieces != [] && runs[0].request == pieces[0].request && OfPieces(runs[1..], pieces[1..])
    ensures OfPieces(runs, pieces)
  {
    forall i | 1 <= i < |runs| ensures runs[i].request == pieces[i].request {
      assert runs[i] == runs[1..][i - 1] && pieces[i] == pieces[1..][i - 1];
    }
  }

  // given up, the piece that failed may still have been run, without the host learning of it
  lemma {:induction false} UndisturbedGivenUp(runs: seq<Decision>, pieces: seq<Piece>, plan: seq<seq<Round>>)
    requires AllUndisturbed(plan) && GivenUp(runs, pieces, plan)
    ensures OfPieces(runs, pieces)
    decreases |pieces|
  {
    hide RunsOf, AllUndisturbed, Interruptions, OfPieces;
    UndisturbedFront(plan);
    if |runs| <= 1 + Interruptions(Front(plan)) && forall d | d in runs :: d.request == pieces[0].request {
      assert OfPieces(runs, pieces) by { FewOfPieces(runs, pieces); }
    } else {
      var k :| 0 <= k <= |runs|
        && RunsOf(runs[..k], pieces[0], Front(plan)) && GivenUp(runs[k..], pieces[1..], Rest(plan));
      OnlyRun(runs, k, pieces[0], Front(plan));
      UndisturbedGivenUp(runs[1..], pieces[1..], Rest(plan));
      OfPiecesCons(runs, pieces);
    }
  }

  lemma FewOfPieces(runs: seq<Decision>, pieces: seq<Piece>)
    requires pieces != [] && |runs| <= 1 && forall d | d in runs :: d.request == pieces[0].request
    ensures OfPieces(runs, pieces)
  {
    if runs != [] { assert runs[0] in runs; }
  }

  // the bytes the panda was given by these runs, and those it gave back
  function Written(runs: seq<Decision>): seq<nat> {
    if runs == [] then [] else runs[0].request.data + Written(runs[1..])
  }

  function Produced(runs: seq<Decision>): seq<nat> {
    if runs == [] then [] else runs[0].data + Produced(runs[1..])
  }

  lemma {:induction false} PiecesWritten(runs: seq<Decision>, endpoint: nat, data: seq<nat>, chunk: nat)
    requires chunk > 0 && OfPieces(runs, WritePieces(endpoint, data, chunk))
    ensures Written(runs) <= data && (|runs| == |WritePieces(endpoint, data, chunk)| ==> Written(runs) == data)
    decreases |data|
  {
    if runs != [] {
      var n := Cut(chunk, |data|);
      var pieces := WritePieces(endpoint, data, chunk);
      forall i | 0 <= i < |runs| - 1 ensures runs[1..][i].request == pieces[1..][i].request {
        assert runs[1..][i] == runs[i + 1] && pieces[1..][i] == pieces[i + 1];
      }
      PiecesWritten(runs[1..], endpoint, data[n..], chunk);
      assert data == data[..n] + data[n..];
    }
  }

  /** With nobody else on the bus, the panda is given the data of a bulk write once, in order, up to where it failed. */
  lemma WriteOnce(p: Panda, next: nat, endpoint: nat, data: seq<nat>, chunk: nat, plan: seq<seq<Round>>)
    requires Honest(p) && Drawn(p, next) && chunk > 0 && AllUndisturbed(plan)
    ensures var b := WriteOf(p, next, endpoint, data, chunk, plan);
      && p.log <= b.panda.log && Written(Runs(Since(p, b.panda))) <= data
      && (b.ok ==> Written(Runs(Since(p, b.panda))) == data)
  {
    hide WriteOf, Honest, Drawn, Runs, WritePieces, Written;
    WriteRunsThrough(p, next, endpoint, data, chunk, plan);
    var b := WriteOf(p, next, endpoint, data, chunk, plan);
    var runs, pieces := Runs(Since(p, b.panda)), WritePieces(endpoint, data, chunk);
    if b.ok { UndisturbedRuns(runs, pieces, plan); } else { UndisturbedGivenUp(runs, pieces, plan); }
    PiecesWritten(runs, endpoint, data, chunk);
  }

  lemma {:induction false} PiecesProduced(
    runs: seq<Decision>, endpoint: nat, length: nat, first: nat, chunk: nat, bytes: seq<nat>)
    requires first > 0 && chunk > 0 && |bytes| <= length
    requires OneEach(runs, ReadPieces(endpoint, length, first, chunk, bytes))
    ensures Produced(runs) == bytes
    decreases length
  {
    if length > 0 {
      var n, pieces := Cut(first, length), ReadPieces(endpoint, length, first, chunk, bytes);
      if |bytes| < n {
        assert runs[1..] == [];
        assert runs[0].data == pieces[0].bytes;
      } else {
        forall i | 0 <= i < |runs| - 1
          ensures runs[1..][i].request == pieces[1..][i].request && runs[1..][i].data == pieces[1..][i].bytes
        {
          assert runs[1..][i] == runs[i + 1] && pieces[1..][i] == pieces[i + 1];
        }
        PiecesProduced(runs[1..], endpoint, length - n, chunk, chunk, bytes[n..]);
        assert runs[0].data == pieces[0].bytes;
        assert bytes == bytes[..n] + bytes[n..];
      }
    }
  }

  /** With nobody else on the bus, a bulk read that succeeds returns what its runs produced, each once and in order. */
  lemma ReadOnce(p: Panda, next: nat, endpoint: nat, length: nat, first: nat, chunk: nat, plan: seq<seq<Round>>)
    requires Honest(p) && Drawn(p, next) && first > 0 && chunk > 0 && AllUndisturbed(plan)
    ensures var b := ReadOf(p, next, endpoint, length, first, chunk, plan);
      && p.log <= b.panda.log && |b.bytes| <= length
      && (b.ok ==> Produced(Runs(Since(p, b.panda))) == b.bytes)
  {
    hide ReadOf, Honest, Drawn, Runs, ReadPieces, Produced, OneEach;
    ReadRunsThrough(p, next, endpoint, length, first, chunk, plan);
    var b := ReadOf(p, next, endpoint, length, first, chunk, plan);
    var runs, pieces := Runs(Since(p, b.panda)), ReadPieces(endpoint, length, first, chunk, b.bytes);
    if b.ok {
      UndisturbedRuns(runs, pieces, plan);
      PiecesProduced(runs, endpoint, length, first, chunk, b.bytes);
    }
  }

  // ---- When a bulk transfer succeeds ----

  predicate DeliversAll(data: seq<nat>, chunk: nat, plan: seq<seq<Round>>)
    requires chunk > 0
    decreases |data|
  {
    data == []
    || (Delivered(Never, Front(plan), 0).Some? && DeliversAll(data[Cut(chunk, |data|)..], chunk, Rest(plan)))
  }

  /** A bulk write succeeds if an answer to each of its calls gets through. */
  lemma {:induction false} WriteSucceeds(
    p: Panda, next: nat, endpoint: nat, data: seq<nat>, chunk: nat, plan: seq<seq<Round>>)
    requires Honest(p) && Drawn(p, next) && chunk > 0 && DeliversAll(data, chunk, plan)
    ensures WriteOf(p, next, endpoint, data, chunk, plan).ok
    decreases |data|
  {
    hide Call, Honest, Drawn, RunsOf, Delivered;
    if data != [] {
      var n := Cut(chunk, |data|);
      var request := Request(endpoint, data[..n], 0);
      CallIsPiece(p, next, request, Front(plan));
      CallDelivers(p, next, request, Front(plan));
      var c := Call(p, next, request, Front(plan));
      WriteSucceeds(c.panda, c.next, endpoint, data[n..], chunk, Rest(plan));
    }
  }

  // what the calls of a bulk read are certain to return, put together
  function DeliveredBulk(length: nat, first: nat, chunk: nat, plan: seq<seq<Round>>): Option<seq<nat>>
    requires first > 0 && chunk > 0
    decreases length
  {
    if length == 0 then Some([])
    else
      var n := Cut(first, length);
      match Delivered(Never, Front(plan), n)
      case None => None
      case Some(bytes) =>
        if |bytes| < n then Some(bytes)
        else
          match DeliveredBulk(length - n, chunk, chunk, Rest(plan))
          case None => None
          case Some(rest) => Some(bytes + rest)
  }

  /** A bulk read returns the bytes its calls are certain to return, up to the first short one. */
  lemma {:induction false} ReadSucceeds(
    p: Panda, next: nat, endpoint: nat, length: nat, first: nat, chunk: nat, plan: seq<seq<Round>>)
    requires Honest(p) && Drawn(p, next) && first > 0 && chunk > 0
    requires DeliveredBulk(length, first, chunk, plan).Some?
    ensures var b := ReadOf(p, next, endpoint, length, first, chunk, plan);
      b.ok && b.bytes == DeliveredBulk(length, first, chunk, plan).value
    decreases length
  {
    hide Call, Honest, Drawn, RunsOf, Delivered;
    if length > 0 {
      var n := Cut(first, length);
      var request := Request(endpoint, [], n);
      CallIsPiece(p, next, request, Front(plan));
      CallDelivers(p, next, request, Front(plan));
      var c := Call(p, next, request, Front(plan));
      if |c.result.bytes| >= n { ReadSucceeds(c.panda, c.next, endpoint, length - n, chunk, chunk, Rest(plan)); }
    }
  }

  // ---- The host ----

  /** A host and the panda it talks to. Ids count up, so the next is one nobody has drawn before. */
  class Host {
    var panda: Panda
    var commsHealthy: bool
    var nextId: nat
    const chunkSize: nat
    const firstReadSize: nat

    ghost predicate Valid()
      reads this
    {
      Honest(panda) && Drawn(panda, nextId) && chunkSize > 0 && firstReadSize > 0
    }

    // A random id is one nobody has drawn before, and the panda does not remember it.
    method RandomId(skip: nat) returns (id: nat)
      requires Valid()
      modifies `nextId
      ensures Valid() && id == old(nextId) + skip && nextId == id + 1 && !Remembers(panda, id)
    {
      id := nextId + skip;
      nextId := id + 1;
    }

    // Polls until an answer to this request, a sign that the panda is ready for another, or the end of the wait.
    method ReadUntilResponse(id: nat, maxLength: nat, polls: seq<Poll>) returns (r: TransferResult)
      ensures r == Response(panda, id, maxLength, polls)
    {
      for k := 0 to |polls|
        invariant Response(panda, id, maxLength, polls) == Response(panda, id, maxLength, polls[k..])
      {
        assert polls[k..][0] == polls[k] && polls[k..][1..] == polls[k + 1..];
        match polls[k]
        case FailedPoll => return Unfinished;
        case ReadyPoll => return Unfinished;
        case Junk =>
        case Heard(back) =>
          if back < |panda.sent| && |panda.sent[|panda.sent| - 1 - back].data| <= maxLength {
            var answer := panda.sent[|panda.sent| - 1 - back];
            if answer.id != id {
              return Unfinished;
            }
            return if answer.ack then Data(answer.data) else Nack;
          }
      }
      return Unfinished;
    }

    // Sends the request once, and reads until a response if the panda was ready for it.
    method Exchange(id: nat, request: Request, a: Attempt) returns (r: TransferResult)
      modifies `panda
      ensures panda == Sent(old(panda), id, request, a) && r == Exchanged(old(panda), id, request, a)
    {
      if a.delivered {
        panda := Handle(panda, Arrival(Us, id, request, a.busy, a.data));
      }
      r := Unfinished;
      if a.ready {
        r := ReadUntilResponse(id, request.maxLength, a.polls);
      }
    }

    // One request under one id, sent until there is an answer or a deadline passes. Bytes or a refusal are what the
    // panda decided about this very id.
    method Transfer(id: nat, request: Request, attempts: seq<Attempt>) returns (r: TransferResult)
      requires Valid() && id < nextId
      modifies `panda
      ensures Valid() && Transferred(panda, r) == TransferOf(old(panda), id, request, attempts)
      ensures Backed(panda, id, request.maxLength, r)
    {
      hide Sent, Exchanged, Honest, Drawn;
      TransferHonest(panda, id, nextId, request, attempts);
      TransferBacked(panda, id, request, attempts);
      for k := 0 to |attempts|
        invariant TransferOf(old(panda), id, request, attempts) == TransferOf(panda, id, request, attempts[k..])
      {
        assert attempts[k..][0] == attempts[k] && attempts[k..][1..] == attempts[k + 1..];
        r := Exchange(id, request, attempts[k]);
        if r.Data? || r.Nack? { return; }
        if attempts[k].late { return AckTimeout; }
        if attempts[k].silent { return Silent; }
      }
      r := Unfinished;
    }

    // With the bus released, other clients' requests may be accepted.
    method Others(others: seq<Other>)
      requires Valid()
      modifies `panda, `nextId
      ensures Valid() && Shared(panda, nextId) == OthersOf(old(panda), old(nextId), others)
      ensures others != [] ==> forall id: nat | id < old(nextId) :: !Remembers(panda, id)
    {
      hide Handle, Honest, Drawn, Remembers;
      OthersDisplace(panda, nextId, others);
      for n := 0 to |others|
        invariant Valid() && OthersOf(old(panda), old(nextId), others) == OthersOf(panda, nextId, others[n..])
      {
        assert others[n..][0] == others[n] && others[n..][1..] == others[n + 1..];
        var o := others[n];
        var id := RandomId(o.skip);
        HandleHonest(panda, Arrival(Them, id, o.request, o.busy, o.data));
        HandleDrawn(panda, Arrival(Them, id, o.request, o.busy, o.data), nextId);
        panda := Handle(panda, Arrival(Them, id, o.request, o.busy, o.data));
      }
    }

    // Resends until an answer, a lost connection or the deadline, under the same id until it is refused.
    method TransferRetry(request: Request, rounds: seq<Round>) returns (r: TransferResult)
      requires Valid()
      modifies `panda, `nextId
      ensures Valid() && Called(panda, nextId, r) == Call(old(panda), old(nextId), request, rounds)
      ensures Bounded(old(panda).log, Called(panda, nextId, r), request, 1 + Interruptions(rounds))
      ensures Undisturbed(rounds) ==> |Runs(Since(old(panda), panda))| <= 1
      ensures Undisturbed(rounds) && r.Data? ==>
                |Runs(Since(old(panda), panda))| == 1 && Runs(Since(old(panda), panda))[0].data == r.bytes
      ensures Verdict(Never, rounds, request.maxLength).Some? ==> r == Verdict(Never, rounds, request.maxLength).value
    {
      hide TransferOf, OthersOf, Honest, Drawn, Bounded, Runs, Remembers, Verdict, Interruptions, Undisturbed, Backed;
      ghost var p, next := panda, nextId;
      RunsBounded(p, next, request, rounds);
      if Undisturbed(rounds) { RunsOnce(p, next, request, rounds); }
      if Verdict(Never, rounds, request.maxLength).Some? { CallReturns(p, next, request, rounds); }
      var id: nat := RandomId(0);
      r := Unfinished;
      for k := 0 to |rounds|
        invariant Valid() && id < nextId
        invariant Call(p, next, request, rounds) == CallOf(panda, id, nextId, request, rounds[k..])
      {
        assert rounds[k..][0] == rounds[k] && rounds[k..][1..] == rounds[k + 1..];
        var round := rounds[k];
        r := Transfer(id, request, round.attempts);
        if r.Data? || !round.connected || r.Unfinished? { return; }
        if r.Nack? {
          id := RandomId(round.skip);
        } else if r.AckTimeout? {
          if round.late { return; }
        }
        OthersDisplace(panda, nextId, round.others);
        Others(round.others);
      }
      r := Unfinished;
    }

    // Writes in chunks, until one fails.
    method BulkWrite(endpoint: nat, data: seq<nat>, plan: seq<seq<Round>>) returns (ok: bool)
      requires Valid()
      modifies this
      ensures Valid() && old(panda).log <= panda.log
      ensures Bulk(panda, nextId, ok, []) == WriteOf(old(panda), old(nextId), endpoint, data, chunkSize, plan)
      ensures AllUndisturbed(plan) ==>
                && Written(Runs(Since(old(panda), panda))) <= data
                && (ok ==> Written(Runs(Since(old(panda), panda))) == data)
      ensures DeliversAll(data, chunkSize, plan) ==> ok
      ensures commsHealthy == (old(commsHealthy) && ok)
    {
      hide Call, Honest, Drawn, Bounded, Runs, RunsOf, Written, Delivered, Undisturbed, Carried, WritePieces, WriteOf;
      hide Verdict, AllUndisturbed, DeliversAll;
      ghost var p, next := panda, nextId;
      WriteRunsThrough(p, next, endpoint, data, chunkSize, plan);
      if AllUndisturbed(plan) { WriteOnce(p, next, endpoint, data, chunkSize, plan); }
      if DeliversAll(data, chunkSize, plan) { WriteSucceeds(p, next, endpoint, data, chunkSize, plan); }
      var pos, left := 0, plan;
      while pos < |data|
        invariant Valid() && commsHealthy == old(commsHealthy)
        invariant WriteOf(p, next, endpoint, data, chunkSize, plan)
               == WriteOf(panda, nextId, endpoint, data[Cut(pos, |data|)..], chunkSize, left)
        decreases |data| - pos
      {
        var n := Cut(chunkSize, |data| - pos);
        WriteStep(panda, nextId, endpoint, data, pos, chunkSize, left);
        var r := TransferRetry(Request(endpoint, data[pos..pos + n], 0), Front(left));
        if !r.Data? {
          commsHealthy := false;
          return false;
        }
        pos, left := pos + chunkSize, Rest(left);
      }
      ok := true;
      assert data[|data|..] == [];
      WriteNothing(panda, nextId, endpoint, chunkSize, left);
    }

    // Reads in chunks until one fails or comes back short.
    method BulkRead(endpoint: nat, length: nat, plan: seq<seq<Round>>) returns (ok: bool, bytes: seq<nat>)
      requires Valid()
      modifies this
      ensures Valid() && old(panda).log <= panda.log && |bytes| <= length
      ensures Bulk(panda, nextId, ok, bytes)
           == ReadOf(old(panda), old(nextId), endpoint, length, firstReadSize, chunkSize, plan)
      ensures AllUndisturbed(plan) && ok ==> bytes == Produced(Runs(Since(old(panda), panda)))
      ensures DeliveredBulk(length, firstReadSize, chunkSize, plan).Some? ==>
                ok && bytes == DeliveredBulk(length, firstReadSize, chunkSize, plan).value
      ensures commsHealthy == (old(commsHealthy) && ok)
    {
      hide Call, Honest, Drawn, Bounded, Runs, RunsOf, Produced, DeliveredBulk, Undisturbed, ReadOf, Carried;
      hide Verdict, AllUndisturbed;
      ghost var p, next := panda, nextId;
      ghost var all := ReadOf(p, next, endpoint, length, firstReadSize, chunkSize, plan);
      assert After([], all) == all;
      ReadRunsThrough(p, next, endpoint, length, firstReadSize, chunkSize, plan);
      if AllUndisturbed(plan) { ReadOnce(p, next, endpoint, length, firstReadSize, chunkSize, plan); }
      if DeliveredBulk(length, firstReadSize, chunkSize, plan).Some? {
        ReadSucceeds(p, next, endpoint, length, firstReadSize, chunkSize, plan);
      }
      bytes := [];
      var left := plan;
      ghost var size := firstReadSize;
      while |bytes| < length
        invariant Valid() && commsHealthy == old(commsHealthy) && |bytes| <= length
        invariant size == if bytes == [] then firstReadSize else chunkSize
        invariant all == After(bytes, ReadOf(panda, nextId, endpoint, length - |bytes|, size, chunkSize, left))
        decreases length - |bytes|
      {
        var n := Cut(if bytes == [] then firstReadSize else chunkSize, length - |bytes|);
        CallIsPiece(panda, nextId, Request(endpoint, [], n), Front(left));
        ReadStep(bytes, panda, nextId, endpoint, length - |bytes|, size, chunkSize, left);
        var r := TransferRetry(Request(endpoint, [], n), Front(left));
        if !r.Data? {
          commsHealthy := false;
          return false, bytes;
        }
        bytes := bytes + r.bytes;
        if |r.bytes| < n { return true, bytes; }
        left, size := Rest(left), chunkSize;
      }
      ReadNothing(panda, nextId, endpoint, size, chunkSize, left);
      ok := true;
    }
  }
}
