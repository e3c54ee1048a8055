/** The in-memory leases of app/core/concurrency.py. */
module Concurrency {
  import opened Prelude

  datatype State = State(current: int, maximum: int)

  function CurrentOf(states: map<string, State>, key: string): int {
    if key in states then states[key].current else 0
  }

  predicate Refuses(states: map<string, State>, key: string, maximum: int) {
    maximum > 0 && CurrentOf(states, key) >= maximum
  }

  /** try_acquire: a non-positive maximum is never counted; a refusal still records the new maximum. */
  function AfterAcquire(states: map<string, State>, key: string, maximum: int): map<string, State> {
    if maximum <= 0 then states
    else if Refuses(states, key, maximum) then states[key := State(CurrentOf(states, key), maximum)]
    else states[key := State(CurrentOf(states, key) + 1, maximum)]
  }

  function AfterRelease(states: map<string, State>, key: string): map<string, State> {
    if key in states then states[key := State(Max(states[key].current - 1, 0), states[key].maximum)] else states
  }

  class Lease {
    const manager: ConcurrencyManager?  // null when the lease was handed out uncounted
    const key: string
    var released: bool

    constructor (manager: ConcurrencyManager?, key: string)
      ensures this.manager == manager && this.key == key && !released
    {
      this.manager, this.key, this.released := manager, key, false;
    }

    /** The manager counts this lease exactly while it has not been released. */
    ghost predicate Valid()
      reads this, manager, if manager == null then {} else manager.outstanding
    {
      manager != null ==> manager.Valid() && (this in manager.outstanding <==> !released)
    }

    /** Only the first release gives the slot back, and it gives back exactly one. */
    method Release()
      requires Valid()
      modifies this, manager
      ensures Valid() && released
      ensures manager != null && old(released) ==>
                manager.states == old(manager.states) && manager.outstanding == old(manager.outstanding)
      ensures manager != null && !old(released) ==>
                && manager.states == AfterRelease(old(manager.states), key)
                && CurrentOf(manager.states, key) == CurrentOf(old(manager.states), key) - 1
                && manager.outstanding == old(manager.outstanding) - {this}
    {
      if released {
        return;
      }
      released := true;
      if manager != null {
        manager.Forget(this);
      }
    }
  }

  class ConcurrencyManager {
    var states: map<string, State>
    ghost var outstanding: set<Lease>  // counted leases not yet released

    ghost predicate Valid()
      reads this, outstanding
    {
      && (forall l :: l in outstanding ==> l.manager == this)
      && (forall k :: CurrentOf(states, k) == |HoldersOf(outstanding, k)|)
    }

    constructor ()
      ensures Valid() && states == map[] && outstanding == {}
    {
      states, outstanding := map[], {};
      new;
      forall k ensures CurrentOf(states, k) == |HoldersOf(outstanding, k)| {
        assert HoldersOf(outstanding, k) == {};
      }
    }

    method TryAcquire(key: string, maximum: int) returns (lease: Lease?)
      requires Valid()
      modifies this
      ensures Valid() && states == AfterAcquire(old(states), key, maximum)
      ensures lease == null <==> maximum > 0 && |HoldersOf(old(outstanding), key)| >= maximum
      ensures lease != null ==>
                && fresh(lease) && lease.Valid() && !lease.released && lease.key == key
                && lease.manager == (if maximum > 0 then this else null)
      ensures outstanding == if lease != null && maximum > 0 then old(outstanding) + {lease} else old(outstanding)
    {
      if maximum <= 0 {
        lease := new Lease(null, key);
        return;
      }
      if key !in states {
        states := states[key := State(0, maximum)];
      }
      states := states[key := states[key].(maximum := maximum)];
      assert CurrentOf(states, key) == CurrentOf(old(states), key) == |HoldersOf(outstanding, key)|;
      if states[key].current >= states[key].maximum {
        return null;
      }
      states := states[key := states[key].(current := states[key].current + 1)];
      lease := new Lease(this, key);
      OneMore(outstanding, lease);
      outstanding := outstanding + {lease};
    }

    /** _release: the count of the lease's key goes down by one; the clamp at zero is never reached. */
    method Forget(lease: Lease)
      requires Valid() && lease in outstanding
      modifies this
      ensures Valid() && states == AfterRelease(old(states), lease.key)
      ensures CurrentOf(states, lease.key) == CurrentOf(old(states), lease.key) - 1
      ensures outstanding == old(outstanding) - {lease}
    {
      OneLess(outstanding, lease);
      assert |HoldersOf(outstanding, lease.key)| >= 1;
      if lease.key in states {
        var state := states[lease.key];
        states := states[lease.key := state.(current := Max(state.current - 1, 0))];
      }
      outstanding := outstanding - {lease};
    }

    method Current(key: string) returns (n: int)
      requires Valid()
      ensures n == |HoldersOf(outstanding, key)|
    {
      n := if key in states then states[key].current else 0;
    }
  }

  ghost function HoldersOf(leases: set<Lease>, key: string): set<Lease> {
    set l | l in leases && l.key == key
  }

  lemma OneMore(leases: set<Lease>, lease: Lease)
    requires lease !in leases
    ensures forall k :: |HoldersOf(leases + {lease}, k)| == |HoldersOf(leases, k)| + (if k == lease.key then 1 else 0)
  {
    forall k ensures |HoldersOf(leases + {lease}, k)| == |HoldersOf(leases, k)| + (if k == lease.key then 1 else 0) {
      if k == lease.key {
        assert HoldersOf(leases + {lease}, k) == HoldersOf(leases, k) + {lease};
      } else {
        assert HoldersOf(leases + {lease}, k) == HoldersOf(leases, k);
      }
    }
  }

  lemma OneLess(leases: set<Lease>, lease: Lease)
    requires lease in leases
    ensures forall k :: |HoldersOf(leases - {lease}, k)| == |HoldersOf(leases, k)| - (if k == lease.key then 1 else 0)
  {
    OneMore(leases - {lease}, lease);
    assert leases - {lease} + {lease} == leases;
  }

  // ---------------------------------------------------------------- histories

  datatype Event =
    | Acquire(key: string, maximum: int)
    | Release(ticket: nat)  // the lease returned by the acquire of that number, any number of times

  datatype Ticket =
    | Refused
    | Uncounted
    | Counted(key: string, released: bool)

  datatype Ledger = Ledger(states: map<string, State>, tickets: seq<Ticket>)

  function Next(g: Ledger, e: Event): Ledger {
    match e
    case Acquire(key, maximum) =>
      var ticket := if maximum <= 0 then Uncounted
                    else if Refuses(g.states, key, maximum) then Refused
                    else Counted(key, false);
      Ledger(AfterAcquire(g.states, key, maximum), g.tickets + [ticket])
    case Release(i) =>
      if i < |g.tickets| && g.tickets[i].Counted? && !g.tickets[i].released
      then Ledger(AfterRelease(g.states, g.tickets[i].key), g.tickets[i := g.tickets[i].(released := true)])
      else g
  }

  function Run(g: Ledger, events: seq<Event>): Ledger
    decreases |events|
  {
    if events == [] then g else Run(Next(g, events[0]), events[1..])
  }

  /** Counted leases on `key` that were handed out and not released. */
  function Held(tickets: seq<Ticket>, key: string): nat {
    if tickets == [] then 0
    else
      var last := tickets[|tickets| - 1];
      Held(tickets[..|tickets| - 1], key) + (if last.Counted? && last.key == key && !last.released then 1 else 0)
  }

  ghost predicate Balanced(g: Ledger) {
    forall k :: CurrentOf(g.states, k) == Held(g.tickets, k)
  }

  lemma {:induction false} HeldAfterRelease(tickets: seq<Ticket>, i: nat, key: string)
    requires i < |tickets| && tickets[i].Counted? && !tickets[i].released
    ensures Held(tickets[i := tickets[i].(released := true)], key)
            == Held(tickets, key) - (if tickets[i].key == key then 1 else 0)
  {
    var n := |tickets| - 1;
    var done := tickets[i := tickets[i].(released := true)];
    if i == n {
      assert done[..n] == tickets[..n];
    } else {
      assert done[..n] == tickets[..n][i := tickets[i].(released := true)];
      HeldAfterRelease(tickets[..n], i, key);
    }
  }

  lemma BalancedStep(g: Ledger, e: Event)
    requires Balanced(g)
    ensures Balanced(Next(g, e))
    ensures e.Release? && Next(g, e) != g ==> CurrentOf(g.states, g.tickets[e.ticket].key) >= 1
  {
    var g' := Next(g, e);
    forall k ensures CurrentOf(g'.states, k) == Held(g'.tickets, k) {
      if e.Acquire? {
        assert g'.tickets[..|g.tickets|] == g.tickets;
      } else if g' != g {
        HeldAfterRelease(g.tickets, e.ticket, k);
        HeldAfterRelease(g.tickets, e.ticket, g.tickets[e.ticket].key);
      }
    }
    if e.Release? && g' != g {
      HeldAfterRelease(g.tickets, e.ticket, g.tickets[e.ticket].key);
    }
  }

  /** Over every history of acquires, with any maxima, and repeated releases, the count of each key is the
      number of its leases not yet released; an acquire is refused exactly when that number fills its maximum. */
  lemma {:induction false} CountIsOutstanding(events: seq<Event>, key: string, maximum: int)
    ensures var g := Run(Ledger(map[], []), events);
            && CurrentOf(g.states, key) == Held(g.tickets, key)
            && (Next(g, Acquire(key, maximum)).tickets[|g.tickets|] == Refused
                <==> maximum > 0 && Held(g.tickets, key) >= maximum)
  {
    BalancedRun(Ledger(map[], []), events);
  }

  lemma {:induction false} BalancedRun(g: Ledger, events: seq<Event>)
    requires Balanced(g)
    ensures Balanced(Run(g, events))
    decreases |events|
  {
    if events != [] {
      BalancedStep(g, events[0]);
      BalancedRun(Next(g, events[0]), events[1..]);
    }
  }
}
