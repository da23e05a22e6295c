/** The panda's side of the SPI protocol: what it remembers, what it decides, and what it puts on the bus. */
module Panda {

  datatype Request = Request(endpoint: nat, data: seq<nat>, maxLength: nat)

  // Who sent a request. The panda does not look at it; it says whose runs are whose.
  datatype Client = Us | Them

  // a request that reached the panda, and what it would decide about it
  datatype Arrival = Arrival(client: Client, id: nat, request: Request, busy: bool, data: seq<nat>)

  // what the panda decided when it handled a request it did not remember
  datatype Decision = Decision(client: Client, id: nat, request: Request, ack: bool, data: seq<nat>)

  datatype Answer = Answer(id: nat, ack: bool, data: seq<nat>)

  datatype Memory = Nothing | Last(answer: Answer)

  // The panda remembers its last answer. sent holds every answer it ever put on the bus, log every fresh decision.
  datatype Panda = Panda(memory: Memory, sent: seq<Answer>, log: seq<Decision>)

  predicate Remembers(p: Panda, id: nat) {
    p.memory.Last? && p.memory.answer.id == id
  }

  function DecisionOn(x: Arrival): Decision {
    Decision(x.client, x.id, x.request, !x.busy, if x.busy then [] else x.data)
  }

  function AnswerTo(x: Arrival): Answer {
    Answer(x.id, !x.busy, if x.busy then [] else x.data)
  }

  // A remembered request is answered from memory; any other is run, or refused while the panda is busy.
  function Handle(p: Panda, x: Arrival): Panda {
    if Remembers(p, x.id) then p.(sent := p.sent + [p.memory.answer])
    else Panda(Last(AnswerTo(x)), p.sent + [AnswerTo(x)], p.log + [DecisionOn(x)])
  }

  ghost predicate Decided(log: seq<Decision>, a: Answer) {
    exists d | d in log :: d.id == a.id && d.ack == a.ack && d.data == a.data
  }

  // Every answer on the bus states a decision.
  ghost predicate Honest(p: Panda) {
    (p.memory.Last? ==> p.memory.answer in p.sent) && forall a | a in p.sent :: Decided(p.log, a)
  }

  // all ids the panda has seen are below next
  ghost predicate Drawn(p: Panda, next: nat) {
    (forall d | d in p.log :: d.id < next) && (p.memory.Last? ==> p.memory.answer.id < next)
  }

  // ids not yet drawn are not remembered
  lemma Forgotten(p: Panda, next: nat, id: nat)
    requires Drawn(p, next) && id >= next
    ensures !Remembers(p, id)
  {
  }

  lemma HandleDrawn(p: Panda, x: Arrival, next: nat)
    requires Drawn(p, next) && x.id < next
    ensures Drawn(Handle(p, x), next) && Remembers(Handle(p, x), x.id)
  {
  }

  lemma HandleHonest(p: Panda, x: Arrival)
    requires Honest(p)
    ensures Honest(Handle(p, x)) && p.log <= Handle(p, x).log
  {
    var q := Handle(p, x);
    forall a | a in q.sent ensures Decided(q.log, a) {
      if a in p.sent {
        var d :| d in p.log && d.id == a.id && d.ack == a.ack && d.data == a.data;
        assert d in q.log;
      } else {
        assert q.log[|q.log| - 1] in q.log;
      }
    }
  }

  // ---- Whose runs are whose ----

  // the requests of this host that were run, in order
  function Runs(log: seq<Decision>): seq<Decision> {
    if log == [] then []
    else
      var last := log[|log| - 1];
      Runs(log[..|log| - 1]) + if last.client.Us? && last.ack then [last] else []
  }

  // how often an id was refused
  function Refusals(log: seq<Decision>, id: nat): nat {
    if log == [] then 0
    else Refusals(log[..|log| - 1], id) + if log[|log| - 1].id == id && !log[|log| - 1].ack then 1 else 0
  }

  lemma RunsSnoc(log: seq<Decision>, d: Decision)
    ensures Runs(log + [d]) == Runs(log) + if d.client.Us? && d.ack then [d] else []
  {
    assert (log + [d])[..|log|] == log;
  }

  lemma RefusalsSnoc(log: seq<Decision>, d: Decision, id: nat)
    ensures Refusals(log + [d], id) == Refusals(log, id) + if d.id == id && !d.ack then 1 else 0
  {
    assert (log + [d])[..|log|] == log;
  }

  lemma {:induction false} RunsConcat(a: seq<Decision>, b: seq<Decision>)
    ensures Runs(a + b) == Runs(a) + Runs(b)
  {
    if b == [] {
      assert a + b == a;
    } else {
      var n := |b| - 1;
      RunsConcat(a, b[..n]);
      assert a + b == (a + b[..n]) + [b[n]];
      RunsSnoc(a + b[..n], b[n]);
    }
  }

  lemma {:induction false} RunsMember(log: seq<Decision>)
    ensures forall d :: d in Runs(log) <==> d in log && d.client.Us? && d.ack
  {
    if log != [] {
      RunsMember(log[..|log| - 1]);
      assert log == log[..|log| - 1] + [log[|log| - 1]];
    }
  }

  lemma {:induction false} NeverRefused(log: seq<Decision>, id: nat)
    requires forall d | d in log :: d.id != id
    ensures Refusals(log, id) == 0
  {
    if log != [] { NeverRefused(log[..|log| - 1], id); }
  }

  lemma {:induction false} WasRefused(log: seq<Decision>, id: nat, d: Decision)
    requires d in log && d.id == id && !d.ack
    ensures Refusals(log, id) >= 1
  {
    if d != log[|log| - 1] {
      assert log == log[..|log| - 1] + [log[|log| - 1]];
      WasRefused(log[..|log| - 1], id, d);
    }
  }

  // ---- When one id is decided twice ----

  function HandleAll(p: Panda, arrivals: seq<Arrival>): Panda {
    if arrivals == [] then p else Handle(HandleAll(p, arrivals[..|arrivals| - 1]), arrivals[|arrivals| - 1])
  }

  function DecisionsOn(log: seq<Decision>, id: nat): nat {
    if log == [] then 0 else DecisionsOn(log[..|log| - 1], id) + if log[|log| - 1].id == id then 1 else 0
  }

  lemma DecisionsSnoc(log: seq<Decision>, d: Decision, id: nat)
    ensures DecisionsOn(log + [d], id) == DecisionsOn(log, id) + if d.id == id then 1 else 0
  {
    assert (log + [d])[..|log|] == log;
  }

  ghost predicate Arrives(arrivals: seq<Arrival>, id: nat) {
    exists i | 0 <= i < |arrivals| :: arrivals[i].id == id
  }

  // all arrivals of the id are next to each other
  ghost predicate Uninterrupted(arrivals: seq<Arrival>, id: nat) {
    forall i, j, k | 0 <= i < j < k < |arrivals| && arrivals[i].id == id && arrivals[k].id == id :: arrivals[j].id == id
  }

  lemma UninterruptedSnoc(init: seq<Arrival>, last: Arrival, id: nat)
    ensures Uninterrupted(init + [last], id) <==>
      Uninterrupted(init, id) && (last.id != id || !Arrives(init, id) || init[|init| - 1].id == id)
  {
    var all, n := init + [last], |init|;
    if Uninterrupted(all, id) {
      forall i, j, k | 0 <= i < j < k < n && init[i].id == id && init[k].id == id ensures init[j].id == id {
        assert all[i].id == id && all[k].id == id && all[j] == init[j];
      }
      if last.id == id && Arrives(init, id) {
        var i :| 0 <= i < n && init[i].id == id;
        assert all[i].id == id && all[n].id == id && all[n - 1] == init[n - 1];
      }
    }
    if Uninterrupted(init, id) && (last.id != id || !Arrives(init, id) || init[n - 1].id == id) {
      forall i, j, k | 0 <= i < j < k < |all| && all[i].id == id && all[k].id == id ensures all[j].id == id {
        if k == n && j < n - 1 { assert init[i].id == id && init[n - 1].id == id && init[j].id == id; }
      }
    }
  }

  lemma ArrivesSnoc(init: seq<Arrival>, last: Arrival, id: nat)
    ensures Arrives(init + [last], id) <==> Arrives(init, id) || last.id == id
  {
    var all := init + [last];
    if Arrives(init, id) {
      var i :| 0 <= i < |init| && init[i].id == id;
      assert all[i].id == id;
    }
    if last.id == id { assert all[|init|].id == id; }
  }

  lemma {:induction false} HandledFacts(p: Panda, arrivals: seq<Arrival>, id: nat)
    requires !Remembers(p, id) && DecisionsOn(p.log, id) == 0
    ensures var q := HandleAll(p, arrivals);
      && (Remembers(q, id) <==> arrivals != [] && arrivals[|arrivals| - 1].id == id)
      && (DecisionsOn(q.log, id) > 0 <==> Arrives(arrivals, id))
      && (DecisionsOn(q.log, id) <= 1 <==> Uninterrupted(arrivals, id))
  {
    if arrivals == [] {
    } else {
      hide Uninterrupted, Arrives, DecisionsOn;
      var n := |arrivals| - 1;
      var init, last := arrivals[..n], arrivals[n];
      HandledFacts(p, init, id);
      var q := HandleAll(p, init);
      if !Remembers(q, last.id) { DecisionsSnoc(q.log, DecisionOn(last), id); }
      assert arrivals == init + [last];
      ArrivesSnoc(init, last, id);
      UninterruptedSnoc(init, last, id);
    }
  }

  /** Whatever it is told of its load, the panda decides an id that arrives exactly once if and only if nothing else
      arrives between its copies. */
  lemma DecidedOnceIffUninterrupted(p: Panda, arrivals: seq<Arrival>, id: nat)
    requires !Remembers(p, id) && DecisionsOn(p.log, id) == 0 && Arrives(arrivals, id)
    ensures DecisionsOn(HandleAll(p, arrivals).log, id) == 1 <==> Uninterrupted(arrivals, id)
  {
    HandledFacts(p, arrivals, id);
  }
}
