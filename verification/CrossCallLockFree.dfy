// The call queue's pushes are lock free: a compare-and-swap fails only because somebody else got on.
module CrossCallLockFree {
  import opened CrossCall

  // Sender q's compare-and-swap succeeds, or the target swaps a list out.
  predicate Publishes(s: State, e: Event, q: nat)
    requires Shape(s)
  {
    e == Send(q) && q < |s.senders| && s.senders[q].Chained? && s.first == s.senders[q].head && Node(s, s.senders[q].n)
  }

  predicate SwapsOut(s: State, e: Event) { e == Receive && s.target.Cleared? && s.first != 0 }

  lemma {:induction false} ExecSnoc(s: State, es: seq<Event>)
    requires Shape(s) && es != []
    ensures Shape(Exec(s, es[..|es| - 1])) && Exec(s, es) == Step(Exec(s, es[..|es| - 1]), es[|es| - 1])
    decreases |es|
  {
    StepShape(s, es[0]);
    if |es| > 1 {
      ExecSnoc(Step(s, es[0]), es[1..]);
      assert es[1..][..|es| - 2] == es[..|es| - 1][1..] && es[1..][|es| - 2] == es[|es| - 1];
    } else {
      assert es[1..] == [] && es[..0] == [];
    }
  }

  // After the head load of event i, sender p has kept the head it loaded.
  ghost predicate LoadedAt(s: State, es: seq<Event>, p: nat, i: nat)
    requires Shape(s)
  {
    var t := Exec(s, es);
    && i < |es| && es[i] == Send(p) && p < |t.senders| && Holding(t.senders[p])
    && var before := Exec(s, es[..i]);
       p < |before.senders| && before.senders[p].Locked? && before.first == t.senders[p].head
  }

  predicate Holding(x: Sender) { x.Loaded? || x.Chained? }

  // The list head has changed hands between the load of event i and the end of the run, by a
  // publication of another sender or by the target.
  ghost predicate Overtaken(s: State, es: seq<Event>, p: nat, i: nat, k: nat)
    requires Shape(s)
  {
    && i < k < |es| && Shape(Exec(s, es[..k]))
    && (SwapsOut(Exec(s, es[..k]), es[k]) || exists q: nat :: q != p && Publishes(Exec(s, es[..k]), es[k], q))
  }

  // One step neither forgets the head sender p holds nor changes the list head unseen.
  lemma HoldStep(s: State, e: Event, p: nat)
    requires Shape(s) && p < |s.senders| && p < |Step(s, e).senders| && Holding(Step(s, e).senders[p])
    ensures var x, y := s.senders[p], Step(s, e).senders[p];
            if Holding(x) then y.head == x.head
            else x.Locked? && e == Send(p) && y.head == s.first == Step(s, e).first
    ensures Step(s, e).first != s.first ==> SwapsOut(s, e) || exists q: nat :: q != p && Publishes(s, e, q)
  {
    if e.Send? && Step(s, e).first != s.first { assert Publishes(s, e, e.p); }
  }

  // A sender that holds a head loaded it at some event, and if the list head is another one now,
  // somebody else has made progress since.
  lemma {:induction false} HeadHeld(s: State, es: seq<Event>, p: nat) returns (i: nat, k: nat)
    requires Shape(s) && p < |s.senders| && !Holding(s.senders[p])
    requires Shape(Exec(s, es)) && p < |Exec(s, es).senders| && Holding(Exec(s, es).senders[p])
    ensures LoadedAt(s, es, p, i)
    ensures Exec(s, es).first != Exec(s, es).senders[p].head ==> Overtaken(s, es, p, i, k)
    decreases |es|
  {
    assert es != [];
    var n := |es| - 1;
    var init, e := es[..n], es[n];
    ExecSnoc(s, es);
    ExecSenders(s, init);
    var u := Exec(s, init);
    HoldStep(u, e, p);
    if Holding(u.senders[p]) {
      i, k := HeadHeld(s, init, p);
      assert init[..i] == es[..i];
      if u.first != u.senders[p].head { assert init[..k] == es[..k]; } else { k := n; }
    } else {
      i, k := n, n;
    }
  }

  lemma {:induction false} ExecSenders(s: State, es: seq<Event>)
    requires Shape(s)
    ensures |Exec(s, es).senders| == |s.senders|
    decreases |es|
  {
    if es != [] { StepShape(s, es[0]); ExecSenders(Step(s, es[0]), es[1..]); }
  }

  // Lock freedom: in every run, a compare-and-swap that is about to fail has been overtaken, since its
  // own head load, by another sender's publication or by the target taking the list.
  lemma FailedSwap(senders: nat, owner: seq<nat>, es: seq<Event>, p: nat)
    ensures var start := Init(senders, owner);
            var s := Exec(start, es);
            p < |s.senders| && s.senders[p].Chained? && s.first != s.senders[p].head ==>
              exists i: nat, k: nat :: LoadedAt(start, es, p, i) && Overtaken(start, es, p, i, k)
  {
    var start := Init(senders, owner);
    var s := Exec(start, es);
    ExecSize(start, es);
    ExecSenders(start, es);
    if p < |s.senders| && s.senders[p].Chained? && s.first != s.senders[p].head {
      var i, k := HeadHeld(start, es, p);
      assert LoadedAt(start, es, p, i) && Overtaken(start, es, p, i, k);
    }
  }
}
