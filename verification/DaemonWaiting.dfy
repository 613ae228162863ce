/** What every run of the connection keeps about waiting for events. */
module DaemonWaiting {
  import opened Daemon

  /** No live waiter wants a stored event, and each answered wait got the earliest it asked for. */
  ghost predicate Waiting(
    events: seq<Record>, waiters: seq<Waiter>, asked: seq<Record -> bool>, found: map<nat, Record>)
  {
    && DistinctTokens(waiters)
    && (forall k :: 0 <= k < |waiters| ==> Asking(waiters[k], asked) && !Wanted(events, waiters[k].wants))
    && (forall t :: t in found ==> t < |asked| && IsEarliest(events, asked[t], found[t]))
  }

  ghost predicate Asking(waiter: Waiter, asked: seq<Record -> bool>)
  {
    waiter.token < |asked| && waiter.wants == asked[waiter.token]
  }

  /** Every wait is exactly one of live, answered and timed out. */
  ghost predicate Accounted(n: nat, live: set<nat>, found: set<nat>, expired: set<nat>)
  {
    && live !! found && live !! expired && found !! expired
    && forall t: nat :: t < n <==> t in live || t in found || t in expired
  }

  /** A waiter that leaves is answered, or times out. */
  lemma {:induction false} AccountedAfterLeaving(
    n: nat, live: set<nat>, found: set<nat>, expired: set<nat>, live': set<nat>, found': set<nat>, expired': set<nat>)
    requires Accounted(n, live, found, expired)
    requires live' <= live && found <= found' && expired <= expired'
    requires found' + expired' == found + expired + (live - live') && found' !! expired'
    requires live' !! found' && live' !! expired'
    ensures Accounted(n, live', found', expired')
  {
    forall t: nat ensures t < n <==> t in live' || t in found' || t in expired' {
      assert t in found' + expired' <==> t in found + expired + (live - live');
    }
  }

  ghost predicate WaitingIn(w: World)
  {
    && w.nextToken == |w.asked|
    && Waiting(w.events, w.waiters, w.asked, w.found)
    && Accounted(w.nextToken, Live(w.waiters), w.found.Keys, w.expired)
  }

  ghost predicate IsEarliest(events: seq<Record>, wants: Record -> bool, event: Record)
  {
    exists i :: 0 <= i < |events| && events[i] == event && wants(events[i])
             && forall j :: 0 <= j < i ==> !wants(events[j])
  }

  lemma {:induction false} EarliestIsEarliest(events: seq<Record>, wants: Record -> bool)
    requires Wanted(events, wants)
    ensures IsEarliest(events, wants, Earliest(events, wants))
  {
    if wants(events[0]) {
      assert events[0] == Earliest(events, wants);
    } else {
      var i :| 0 <= i < |events| && wants(events[i]);
      assert events[1..][i - 1] == events[i];
      EarliestIsEarliest(events[1..], wants);
      var k :| 0 <= k < |events[1..]| && events[1..][k] == Earliest(events, wants) && wants(events[1..][k])
            && forall j :: 0 <= j < k ==> !wants(events[1..][j]);
      assert events[k + 1] == Earliest(events, wants);
      forall j | 0 <= j < k + 1 ensures !wants(events[j]) {
        if j > 0 { assert events[j] == events[1..][j - 1]; }
      }
    }
  }

  lemma {:induction false} StillEarliest(events: seq<Record>, wants: Record -> bool, event: Record, more: Record)
    requires IsEarliest(events, wants, event)
    ensures IsEarliest(events + [more], wants, event)
  {
    var i :| 0 <= i < |events| && events[i] == event && wants(events[i])
          && forall j :: 0 <= j < i ==> !wants(events[j]);
    var longer := events + [more];
    assert longer[i] == event;
    forall j | 0 <= j < i ensures !wants(longer[j]) { assert longer[j] == events[j]; }
  }

  ghost predicate DistinctTokens(waiters: seq<Waiter>)
  {
    forall k, l :: 0 <= k < l < |waiters| ==> waiters[k].token != waiters[l].token
  }

  /** The waiters that stay are exactly those that want no stored event. */
  lemma {:induction false} RemainingKeeps(waiters: seq<Waiter>, events: seq<Record>, rest: seq<Waiter>)
    requires DistinctTokens(waiters) && rest == Remaining(waiters, events)
    ensures DistinctTokens(rest)
    ensures forall x :: x in rest <==> x in waiters && !Wanted(events, x.wants)
  {
    if waiters != [] {
      var n := |waiters| - 1;
      var front := Remaining(waiters[..n], events);
      RemainingKeeps(waiters[..n], events, front);
      assert forall x :: x in waiters <==> x in waiters[..n] || x == waiters[n];
      forall k | 0 <= k < |front| ensures front[k].token != waiters[n].token {
        assert front[k] in waiters[..n];
      }
    }
  }

  /** A wait of this token is let go now. */
  ghost predicate GotOne(waiters: seq<Waiter>, events: seq<Record>, t: nat)
  {
    exists k :: 0 <= k < |waiters| && waiters[k].token == t && Wanted(events, waiters[k].wants)
  }

  lemma {:induction false} GotOneMore(waiters: seq<Waiter>, events: seq<Record>, n: nat, t: nat)
    requires |waiters| == n + 1
    ensures GotOne(waiters, events, t) <==>
      GotOne(waiters[..n], events, t) || (t == waiters[n].token && Wanted(events, waiters[n].wants))
  {
    if GotOne(waiters[..n], events, t) {
      var k :| 0 <= k < n && waiters[..n][k].token == t && Wanted(events, waiters[..n][k].wants);
      assert waiters[k].token == t;
    }
    if GotOne(waiters, events, t) {
      var k :| 0 <= k <= n && waiters[k].token == t && Wanted(events, waiters[k].wants);
      if k < n { assert waiters[..n][k] == waiters[k]; }
    }
  }

  lemma {:induction false} SatisfiedKeeps(
    waiters: seq<Waiter>, events: seq<Record>, asked: seq<Record -> bool>, found: map<nat, Record>, got: map<nat, Record>)
    requires got == Satisfied(waiters, events, found)
    requires forall k :: 0 <= k < |waiters| ==> Asking(waiters[k], asked)
    requires forall t :: t in found ==> t < |asked| && IsEarliest(events, asked[t], found[t])
    ensures forall t :: t in got <==> t in found || GotOne(waiters, events, t)
    ensures forall t :: t in got ==> t < |asked| && IsEarliest(events, asked[t], got[t])
  {
    if waiters != [] {
      var n := |waiters| - 1;
      SatisfiedKeeps(waiters[..n], events, asked, found, Satisfied(waiters[..n], events, found));
      assert Asking(waiters[n], asked);
      if Wanted(events, waiters[n].wants) { EarliestIsEarliest(events, waiters[n].wants); }
      forall t | true
        ensures GotOne(waiters, events, t) <==>
          GotOne(waiters[..n], events, t) || (t == waiters[n].token && Wanted(events, waiters[n].wants))
      {
        GotOneMore(waiters, events, n, t);
      }
    }
  }

  /** A waiter stays or is let go. */
  lemma {:induction false} StaysOrGoes(waiters: seq<Waiter>, events: seq<Record>, rest: seq<Waiter>, t: nat)
    requires DistinctTokens(waiters) && rest == Remaining(waiters, events)
    ensures t in Live(waiters) <==> t in Live(rest) || GotOne(waiters, events, t)
    ensures !(t in Live(rest) && GotOne(waiters, events, t))
  {
    RemainingKeeps(waiters, events, rest);
    if t in Live(waiters) {
      var k :| 0 <= k < |waiters| && waiters[k].token == t;
      if !Wanted(events, waiters[k].wants) {
        assert waiters[k] in rest;
      }
    }
    if t in Live(rest) {
      var k :| 0 <= k < |rest| && rest[k].token == t;
      assert rest[k] in waiters;
      var i :| 0 <= i < |waiters| && waiters[i] == rest[k];
    }
  }

  /** What letting go of satisfied waiters does. */
  lemma {:induction false} ReleaseKeeps(w: World, next: World)
    requires next == Release(w) && w.nextToken == |w.asked| && DistinctTokens(w.waiters)
    requires forall k :: 0 <= k < |w.waiters| ==> Asking(w.waiters[k], w.asked)
    requires forall t :: t in w.found ==> t < |w.asked| && IsEarliest(w.events, w.asked[t], w.found[t])
    requires Accounted(w.nextToken, Live(w.waiters), w.found.Keys, w.expired)
    ensures WaitingIn(next)
    ensures forall x :: x in next.waiters <==> x in w.waiters && !Wanted(w.events, x.wants)
  {
    RemainingKeeps(w.waiters, w.events, next.waiters);
    SatisfiedKeeps(w.waiters, w.events, w.asked, w.found, next.found);
    forall k | 0 <= k < |next.waiters|
      ensures Asking(next.waiters[k], next.asked) && !Wanted(next.events, next.waiters[k].wants)
    {
      assert next.waiters[k] in w.waiters;
    }
    ReleaseAccounts(w, next.waiters, next.found);
  }

  lemma {:induction false} ReleaseAccounts(w: World, rest: seq<Waiter>, got: map<nat, Record>)
    requires DistinctTokens(w.waiters) && Accounted(w.nextToken, Live(w.waiters), w.found.Keys, w.expired)
    requires rest == Remaining(w.waiters, w.events)
    requires forall t :: t in got <==> t in w.found || GotOne(w.waiters, w.events, t)
    ensures Accounted(w.nextToken, Live(rest), got.Keys, w.expired)
  {
    forall t: nat
      ensures t in Live(w.waiters) <==> t in Live(rest) || GotOne(w.waiters, w.events, t)
      ensures !(t in Live(rest) && GotOne(w.waiters, w.events, t))
    {
      StaysOrGoes(w.waiters, w.events, rest, t);
    }
    AccountedAfterLeaving(w.nextToken, Live(w.waiters), w.found.Keys, w.expired, Live(rest), got.Keys, w.expired);
  }

  /** An event lets go exactly the waiters that want a stored one. */
  lemma {:induction false} WaitingAfterEvent(w: World, record: Record, next: World)
    requires WaitingIn(w) && next == Release(w.(events := w.events + [record]))
    ensures WaitingIn(next)
    ensures forall x :: x in next.waiters <==> x in w.waiters && !Wanted(next.events, x.wants)
  {
    forall t | t in w.found ensures IsEarliest(next.events, w.asked[t], w.found[t]) {
      StillEarliest(w.events, w.asked[t], w.found[t], record);
    }
    ReleaseKeeps(w.(events := w.events + [record]), next);
  }

  lemma {:induction false} OneMoreWaiter(waiters: seq<Waiter>, waiter: Waiter)
    ensures Live(waiters + [waiter]) == Live(waiters) + {waiter.token}
  {
    var longer := waiters + [waiter];
    assert longer[|waiters|] == waiter;
    forall t | t in Live(waiters) ensures t in Live(longer) {
      var k :| 0 <= k < |waiters| && waiters[k].token == t;
      assert longer[k].token == t;
    }
  }

  lemma {:induction false} AskedOneMore(w: World, wants: Record -> bool, asked: seq<Record -> bool>)
    requires Waiting(w.events, w.waiters, w.asked, w.found) && asked == w.asked + [wants]
    ensures Waiting(w.events, w.waiters, asked, w.found)
  {
    forall k | 0 <= k < |w.waiters| ensures Asking(w.waiters[k], asked) {
      assert Asking(w.waiters[k], w.asked);
    }
    forall t | t in w.found ensures IsEarliest(w.events, asked[t], w.found[t]) {
      assert asked[t] == w.asked[t];
    }
  }

  /** One more wait, which is answered at once or becomes a waiter. */
  lemma {:induction false} AccountedOneMore(n: nat, live: set<nat>, found: set<nat>, expired: set<nat>)
    requires Accounted(n, live, found, expired)
    ensures n !in live
    ensures Accounted(n + 1, live + {n}, found, expired)
    ensures Accounted(n + 1, live, found + {n}, expired)
  {
    assert n !in live && n !in found && n !in expired;
  }

  lemma {:induction false} WaitAnswered(
    events: seq<Record>, waiters: seq<Waiter>, asked: seq<Record -> bool>, found: map<nat, Record>, n: nat)
    requires Waiting(events, waiters, asked, found) && n < |asked| && Wanted(events, asked[n])
    ensures Waiting(events, waiters, asked, found[n := Earliest(events, asked[n])])
  {
    EarliestIsEarliest(events, asked[n]);
  }

  lemma {:induction false} WaiterAdded(
    events: seq<Record>, waiters: seq<Waiter>, asked: seq<Record -> bool>, found: map<nat, Record>, n: nat)
    requires Waiting(events, waiters, asked, found) && n < |asked| && !Wanted(events, asked[n]) && n !in Live(waiters)
    ensures Waiting(events, waiters + [Waiter(n, asked[n])], asked, found)
  {
    forall k | 0 <= k < |waiters| ensures waiters[k].token != n {
      assert waiters[k].token in Live(waiters);
    }
  }

  lemma {:induction false} WaitingAfterWait(w: World, wants: Record -> bool, next: World)
    requires WaitingIn(w) && next == Wait(w, wants)
    ensures WaitingIn(next)
  {
    AskedOneMore(w, wants, next.asked);
    if Wanted(w.events, wants) {
      AnsweredAtOnce(w, wants, next);
    } else {
      BecomesWaiter(w, wants, next);
    }
  }

  lemma {:induction false} AnsweredAtOnce(w: World, wants: Record -> bool, next: World)
    requires WaitingIn(w) && next == Wait(w, wants) && Wanted(w.events, wants)
    requires Waiting(w.events, w.waiters, next.asked, w.found)
    ensures WaitingIn(next)
  {
    var n := w.nextToken;
    AccountedOneMore(n, Live(w.waiters), w.found.Keys, w.expired);
    WaitAnswered(w.events, w.waiters, next.asked, w.found, n);
    assert next.found.Keys == w.found.Keys + {n};
  }

  lemma {:induction false} BecomesWaiter(w: World, wants: Record -> bool, next: World)
    requires WaitingIn(w) && next == Wait(w, wants) && !Wanted(w.events, wants)
    requires Waiting(w.events, w.waiters, next.asked, w.found)
    ensures WaitingIn(next)
  {
    var n := w.nextToken;
    AccountedOneMore(n, Live(w.waiters), w.found.Keys, w.expired);
    WaiterAdded(w.events, w.waiters, next.asked, w.found, n);
    OneMoreWaiter(w.waiters, Waiter(n, wants));
  }

  /** What is left of the waiters when one of them leaves: all but that one. */
  ghost predicate OnlyLeaves(waiters: seq<Waiter>, token: nat, rest: seq<Waiter>)
  {
    forall x :: x in rest <==> x in waiters && x.token != token
  }

  lemma {:induction false} WithoutKeeps(waiters: seq<Waiter>, token: nat, rest: seq<Waiter>)
    requires rest == Without(waiters, token)
    ensures OnlyLeaves(waiters, token, rest)
    ensures DistinctTokens(waiters) ==> DistinctTokens(rest)
  {
    if waiters != [] {
      var n := |waiters| - 1;
      var front := Without(waiters[..n], token);
      WithoutKeeps(waiters[..n], token, front);
      assert forall x :: x in waiters <==> x in waiters[..n] || x == waiters[n];
      if DistinctTokens(waiters) {
        forall k | 0 <= k < |front| ensures front[k].token != waiters[n].token {
          assert front[k] in waiters[..n];
        }
      }
    }
  }

  lemma {:induction false} NothingToRemove(waiters: seq<Waiter>, token: nat)
    requires token !in Live(waiters)
    ensures Without(waiters, token) == waiters
  {
    if waiters != [] {
      var n := |waiters| - 1;
      assert waiters[n].token in Live(waiters);
      forall t | t in Live(waiters[..n]) ensures t in Live(waiters) {
        var k :| 0 <= k < n && waiters[..n][k].token == t;
        assert waiters[k].token == t;
      }
      NothingToRemove(waiters[..n], token);
      assert waiters == waiters[..n] + [waiters[n]];
    }
  }

  lemma {:induction false} LiveWithout(waiters: seq<Waiter>, token: nat, rest: seq<Waiter>)
    requires rest == Without(waiters, token)
    ensures Live(rest) == Live(waiters) - {token}
  {
    WithoutKeeps(waiters, token, rest);
    forall t ensures t in Live(rest) <==> t in Live(waiters) && t != token {
      if t in Live(rest) {
        var k :| 0 <= k < |rest| && rest[k].token == t;
        assert rest[k] in waiters;
      }
      if t in Live(waiters) && t != token {
        var k :| 0 <= k < |waiters| && waiters[k].token == t;
        assert waiters[k] in rest;
      }
    }
  }

  lemma {:induction false} TimeoutRemoves(w: World, token: nat, next: World)
    requires next == Timeout(w, token)
    ensures next.waiters == Without(w.waiters, token)
    ensures next == w.(waiters := next.waiters, expired := next.expired)
    ensures token in Live(w.waiters) ==> token in next.expired
  {
    if token !in Live(w.waiters) {
      NothingToRemove(w.waiters, token);
    }
  }

  /** A timeout removes the waiter of that token and no other. */
  lemma {:induction false} WaitingAfterTimeout(w: World, token: nat, next: World)
    requires WaitingIn(w) && next == Timeout(w, token)
    ensures WaitingIn(next)
    ensures OnlyLeaves(w.waiters, token, next.waiters)
  {
    if token in Live(w.waiters) {
      var rest := next.waiters;
      WithoutKeeps(w.waiters, token, rest);
      LiveWithout(w.waiters, token, rest);
      forall k | 0 <= k < |rest| ensures Asking(rest[k], w.asked) && !Wanted(w.events, rest[k].wants) {
        assert rest[k] in w.waiters;
      }
      AccountedAfterLeaving(w.nextToken, Live(w.waiters), w.found.Keys, w.expired,
                            Live(rest), w.found.Keys, next.expired);
    }
  }
}
