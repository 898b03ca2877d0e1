// Counts over every run of the call queue from its start.
module CrossCallCounts {
  import opened CrossCall

  lemma {:induction false} TotalZero(n: nat)
    ensures Total(seq(n, _ => 0)) == 0
  {
    if n > 0 {
      TotalZero(n - 1);
      var zeros, fewer: seq<nat> := seq(n, _ => 0), seq(n - 1, _ => 0);
      assert zeros[1..] == fewer;
    }
  }

  // Over every run `served` is the number of releases, less the one whose increment is next.
  lemma ServedCount(senders: nat, owner: seq<nat>, es: seq<Event>)
    ensures var s := Exec(Init(senders, owner), es);
            s.served == Total(s.releases) - if s.target.Counting? then 1 else 0
  {
    TotalZero(|owner|);
    ExecServed(Init(senders, owner), es);
  }

  // Until a sender acts nothing is taken, released or counted: there is no trap without a ring.
  lemma {:induction false} NoRingNoTrap(senders: nat, owner: seq<nat>, k: nat)
    ensures Exec(Init(senders, owner), Receives(k)) == Init(senders, owner)
  {
    if k > 0 {
      assert Receives(k)[1..] == Receives(k - 1);
      NoRingNoTrap(senders, owner, k - 1);
    }
  }
}
