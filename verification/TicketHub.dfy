/**
 The replica-local hub of single-use session tickets: a map with eager garbage collection that must
 answer every claim as the history of mints and claims says it should.
 */
module TicketHub {
  import opened Common

  /** Thirty seconds, in nanoseconds. */
  const TICKET_TTL: int := 30_000_000_000

  /** The waiter handed to whoever claims the ticket, and when the ticket was inserted. */
  datatype Pending = Pending(waiter: nat, inserted: int)

  datatype Event =
    | Minted(ticket: string, waiter: nat, at: int)
    | Claimed(ticket: string, at: int, result: Option<nat>)
    | Collected(at: int)

  // ---------------------------------------------------------------- what history promises

  /** The latest mint of a ticket, unless a claim has succeeded since. */
  function Outstanding(h: seq<Event>, ticket: string): Option<Pending> {
    if h == [] then None
    else match h[|h| - 1]
      case Minted(t, w, at) => if t == ticket then Some(Pending(w, at)) else Outstanding(h[..|h| - 1], ticket)
      case Claimed(t, _, Some(_)) => if t == ticket then None else Outstanding(h[..|h| - 1], ticket)
      case _ => Outstanding(h[..|h| - 1], ticket)
  }

  /** A claim gets the waiter of the outstanding mint while that mint is under thirty seconds old. */
  function Promise(h: seq<Event>, ticket: string, now: int): Option<nat> {
    var p := Outstanding(h, ticket);
    if p.Some? && now < p.value.inserted + 30 * 1_000_000_000 then Some(p.value.waiter) else None
  }

  predicate Touches(e: Event, ticket: string) {
    (e.Minted? && e.ticket == ticket) || (e.Claimed? && e.ticket == ticket && e.result.Some?)
  }

  /** Nothing after position `k` minted the ticket or claimed it successfully. */
  predicate Untouched(h: seq<Event>, k: int, ticket: string) {
    forall j :: 0 <= j < |h| && k < j ==> !Touches(h[j], ticket)
  }

  /** The same promise, read straight off the history. */
  lemma {:induction false} OutstandingMeaning(h: seq<Event>, ticket: string, w: nat, at: int)
    ensures Outstanding(h, ticket) == Some(Pending(w, at)) <==>
            exists k :: 0 <= k < |h| && h[k] == Minted(ticket, w, at) && Untouched(h, k, ticket)
  {
    if h != [] {
      var init, last := h[..|h| - 1], h[|h| - 1];
      OutstandingMeaning(init, ticket, w, at);
      assert forall k :: 0 <= k < |init| ==>
               init[k] == h[k] && (Untouched(h, k, ticket) <==> Untouched(init, k, ticket) && !Touches(last, ticket));
    }
  }

  // ---------------------------------------------------------------- the map

  type Map = map<string, Pending>

  function Gc(m: Map, now: int): Map {
    map t | t in m && now - m[t].inserted < TICKET_TTL :: m[t]
  }

  /** The map holds every outstanding ticket that may still be claimed at `clock` or later. */
  ghost predicate Agrees(m: Map, h: seq<Event>, clock: int) {
    && (forall t :: t in m ==> Outstanding(h, t) == Some(m[t]))
    && (forall t :: t !in m && Outstanding(h, t).Some? ==> clock - Outstanding(h, t).value.inserted >= TICKET_TTL)
  }

  lemma GcAgrees(m: Map, h: seq<Event>, clock: int, now: int)
    requires Agrees(m, h, clock) && clock <= now
    ensures Agrees(Gc(m, now), h, now)
  {}

  /** What a collected map still holds is exactly what history promises. */
  lemma CollectedAnswers(m: Map, h: seq<Event>, clock: int, now: int, ticket: string)
    requires Agrees(m, h, clock) && clock <= now
    ensures Promise(h, ticket, now) ==
            if ticket in Gc(m, now) then Some(Gc(m, now)[ticket].waiter) else None
  {}

  lemma OutstandingPush(h: seq<Event>, e: Event, ticket: string)
    ensures Outstanding(h + [e], ticket) ==
            if e.Minted? && e.ticket == ticket then Some(Pending(e.waiter, e.at))
            else if e.Claimed? && e.ticket == ticket && e.result.Some? then None
            else Outstanding(h, ticket)
  {
    assert (h + [e])[..|h|] == h;
  }

  lemma MintAgrees(m: Map, h: seq<Event>, clock: int, ticket: string, waiter: nat, at: int)
    requires Agrees(m, h, clock) && clock <= at
    ensures Agrees(m[ticket := Pending(waiter, at)], h + [Minted(ticket, waiter, at)], at)
  {
    hide Outstanding;
    forall t ensures Outstanding(h + [Minted(ticket, waiter, at)], t) ==
                     if t == ticket then Some(Pending(waiter, at)) else Outstanding(h, t) {
      OutstandingPush(h, Minted(ticket, waiter, at), t);
    }
  }

  lemma ClaimAgrees(m: Map, h: seq<Event>, clock: int, ticket: string, at: int)
    requires Agrees(m, h, clock) && clock <= at
    ensures var g := Gc(m, at);
            var result := if ticket in g then Some(g[ticket].waiter) else None;
            Agrees(g - {ticket}, h + [Claimed(ticket, at, result)], at)
  {
    hide Outstanding;
    GcAgrees(m, h, clock, at);
    var g := Gc(m, at);
    var result := if ticket in g then Some(g[ticket].waiter) else None;
    forall t ensures Outstanding(h + [Claimed(ticket, at, result)], t) ==
                     if t == ticket && result.Some? then None else Outstanding(h, t) {
      OutstandingPush(h, Claimed(ticket, at, result), t);
    }
  }

  /** The hub itself. `history` and `clock` record what has happened to it. */
  class IrohSessionHub {
    var pending: Map
    ghost var history: seq<Event>
    ghost var clock: int

    ghost predicate Valid()
      reads this
    {
      Agrees(pending, history, clock)
    }

    constructor (ghost now: int)
      ensures Valid() && history == [] && clock == now && pending == map[]
      ensures Hub(pending, history) == After([])
    {
      pending := map[];
      history := [];
      clock := now;
    }

    /** Mint a ticket: collect, then insert, replacing a colliding ticket. The two clock readings of
        the source are `gcNow` and `now`. */
    method Mint(ticket: string, waiter: nat, gcNow: int, now: int)
      requires Valid() && clock <= gcNow <= now
      modifies this
      ensures Valid() && clock == now
      ensures history == old(history) + [Minted(ticket, waiter, now)]
      ensures Hub(pending, history) == Apply(Hub(old(pending), old(history)), Op.Mint(ticket, waiter, gcNow, now))
    {
      GcAgrees(pending, history, clock, gcNow);
      GcLocked(gcNow);
      assert pending == Gc(old(pending), gcNow);
      MintAgrees(pending, history, gcNow, ticket, waiter, now);
      pending := pending[ticket := Pending(waiter, now)];
      history := history + [Minted(ticket, waiter, now)];
      clock := now;
    }

    /** Claim a ticket: the answer is what history promises, and the promise is spent. */
    method Claim(ticket: string, now: int) returns (waiter: Option<nat>)
      requires Valid() && clock <= now
      modifies this
      ensures waiter == Promise(old(history), ticket, now)
      ensures Valid() && clock == now
      ensures history == old(history) + [Claimed(ticket, now, waiter)]
      ensures Hub(pending, history) == Apply(Hub(old(pending), old(history)), Op.Claim(ticket, now))
    {
      CollectedAnswers(pending, history, clock, now, ticket);
      ClaimAgrees(pending, history, clock, ticket, now);
      GcLocked(now);
      assert pending == Gc(old(pending), now);
      if ticket in pending {
        waiter := Some(pending[ticket].waiter);
        pending := pending - {ticket};
      } else {
        waiter := None;
      }
      assert pending == Gc(old(pending), now) - {ticket};
      history := history + [Claimed(ticket, now, waiter)];
      clock := now;
    }

    /** Collection keeps exactly the tickets under thirty seconds old, with their waiters, and so
        loses nothing that could still be claimed. */
    method GcLocked(now: int)
      modifies this`pending
      ensures forall t :: t in pending <==> t in old(pending) && now < old(pending)[t].inserted + 30 * 1_000_000_000
      ensures forall t :: t in pending ==> pending[t] == old(pending)[t]
      ensures old(Valid()) && clock <= now ==> Agrees(pending, history, now)
    {
      pending := map t | t in pending && now - pending[t].inserted < TICKET_TTL :: pending[t];
      if old(Valid()) && clock <= now {
        GcAgrees(old(pending), history, clock, now);
        assert pending == Gc(old(pending), now);
      }
    }
  }

  // ---------------------------------------------------------------- whole runs

  datatype Op =
    | Mint(ticket: string, waiter: nat, gcAt: int, at: int)
    | Claim(ticket: string, at: int)
    | Collect(at: int)

  datatype Hub = Hub(pending: Map, history: seq<Event>)

  function Apply(s: Hub, op: Op): Hub {
    match op
    case Mint(t, w, gcAt, at) => Hub(Gc(s.pending, gcAt)[t := Pending(w, at)], s.history + [Minted(t, w, at)])
    case Claim(t, at) =>
      var g := Gc(s.pending, at);
      Hub(g - {t}, s.history + [Claimed(t, at, if t in g then Some(g[t].waiter) else None)])
    case Collect(at) => Hub(Gc(s.pending, at), s.history + [Collected(at)])
  }

  function After(ops: seq<Op>): Hub {
    if ops == [] then Hub(map[], []) else Apply(After(ops[..|ops| - 1]), ops[|ops| - 1])
  }

  /** The clock never runs backwards, within an operation or between two. */
  predicate Ordered(ops: seq<Op>) {
    && (forall i :: 0 <= i < |ops| && ops[i].Mint? ==> ops[i].gcAt <= ops[i].at)
    && (forall i, j :: 0 <= i < j < |ops| ==> ops[i].at <= if ops[j].Mint? then ops[j].gcAt else ops[j].at)
  }

  function Clock(ops: seq<Op>, start: int): int { if ops == [] then start else ops[|ops| - 1].at }

  lemma {:induction false} RunAgrees(ops: seq<Op>, start: int)
    requires Ordered(ops)
    ensures Agrees(After(ops).pending, After(ops).history, Clock(ops, start))
  {
    if ops != [] {
      hide Outstanding;
      var init, op := ops[..|ops| - 1], ops[|ops| - 1];
      var from := if op.Mint? then op.gcAt else op.at;
      var clock := Clock(init, from);
      assert clock <= from;
      RunAgrees(init, from);
      var s := After(init);
      GcAgrees(s.pending, s.history, clock, from);
      match op
      case Mint(t, w, gcAt, at) => MintAgrees(Gc(s.pending, gcAt), s.history, gcAt, t, w, at);
      case Claim(t, at) => ClaimAgrees(s.pending, s.history, clock, t, at);
      case Collect(at) =>
        forall t ensures Outstanding(s.history + [Collected(at)], t) == Outstanding(s.history, t) {
          OutstandingPush(s.history, Collected(at), t);
        }
    }
  }

  /** Refinement: after every ordered run, however collections interleaved, the next claim answers
      what history promises. */
  lemma ClaimRefinesHistory(ops: seq<Op>, ticket: string, at: int)
    requires Ordered(ops + [Claim(ticket, at)])
    ensures var before, after := After(ops).history, After(ops + [Claim(ticket, at)]).history;
            after == before + [Claimed(ticket, at, Promise(before, ticket, at))]
  {
    hide Outstanding;
    var all := ops + [Claim(ticket, at)];
    assert all[..|ops|] == ops && all[|ops|] == Claim(ticket, at);
    forall i | 0 <= i < |ops| ensures ops[i] == all[i] {}
    RunAgrees(ops, at);
    CollectedAnswers(After(ops).pending, After(ops).history, Clock(ops, at), at, ticket);
  }

  function Mints(h: seq<Event>, ticket: string): nat {
    if h == [] then 0
    else Mints(h[..|h| - 1], ticket) + var e := h[|h| - 1]; if e.Minted? && e.ticket == ticket then 1 else 0
  }

  function Wins(h: seq<Event>, ticket: string): nat {
    if h == [] then 0
    else
      var e := h[|h| - 1];
      Wins(h[..|h| - 1], ticket) + if e.Claimed? && e.ticket == ticket && e.result.Some? then 1 else 0
  }

  function Open(h: seq<Event>, ticket: string): nat { if Outstanding(h, ticket).Some? then 1 else 0 }

  lemma CountsStep(h: seq<Event>, e: Event, ticket: string)
    requires Wins(h, ticket) + Open(h, ticket) <= Mints(h, ticket)
    requires e.Claimed? && e.result.Some? ==> Outstanding(h, e.ticket).Some?
    ensures Wins(h + [e], ticket) + Open(h + [e], ticket) <= Mints(h + [e], ticket)
  {
    hide Outstanding;
    assert (h + [e])[..|h|] == h;
    OutstandingPush(h, e, ticket);
  }

  /** Successful claims of a ticket never exceed its mints, also when tickets collide. */
  lemma {:induction false} ClaimsNeverExceedMints(ops: seq<Op>, ticket: string)
    requires Ordered(ops)
    ensures Wins(After(ops).history, ticket) + Open(After(ops).history, ticket) <= Mints(After(ops).history, ticket)
  {
    hide Outstanding, Wins, Mints, Open;
    if ops != [] {
      var init, op := ops[..|ops| - 1], ops[|ops| - 1];
      ClaimsNeverExceedMints(init, ticket);
      var before := After(init).history;
      var e := After(ops).history[|before|];
      assert After(ops).history == before + [e];
      if op.Claim? {
        assert ops == init + [Claim(op.ticket, op.at)];
        ClaimRefinesHistory(init, op.ticket, op.at);
      }
      CountsStep(before, e, ticket);
    } else {
      NoEvents(ticket);
    }
  }

  lemma NoEvents(ticket: string)
    ensures Wins([], ticket) == Mints([], ticket) == Open([], ticket) == 0
  {}

  /** Distinct mints hand out distinct waiters, and no waiter is ever claimed twice. */
  lemma {:induction false} WaitersAreSingleUse(ops: seq<Op>, i: nat, j: nat)
    requires Ordered(ops)
    requires forall a, b :: 0 <= a < b < |ops| && ops[a].Mint? && ops[b].Mint? ==> ops[a].waiter != ops[b].waiter
    requires i < j < |After(ops).history|
    requires After(ops).history[i].Claimed? && After(ops).history[j].Claimed?
    requires After(ops).history[i].result.Some? && After(ops).history[j].result.Some?
    ensures After(ops).history[i].result != After(ops).history[j].result
  {
    var h := After(ops).history;
    HistoryPrefix(ops, 0);
    var a := WinnerHasMint(ops, i);
    var b := WinnerHasMint(ops, j);
    HistoryTracksOps(ops, a);
    HistoryTracksOps(ops, b);
    if h[i].result == h[j].result {
      assert a == b;
      assert h[a].ticket == h[i].ticket == h[j].ticket;
      assert Touches(h[i], h[j].ticket);
    }
  }

  lemma {:induction false} HistoryTracksOps(ops: seq<Op>, k: nat)
    requires k < |ops|
    ensures |After(ops).history| == |ops|
    ensures var e := After(ops).history[k];
            match ops[k]
            case Mint(t, w, _, at) => e == Minted(t, w, at)
            case Claim(t, at) => e.Claimed? && e.ticket == t && e.at == at
            case Collect(at) => e == Collected(at)
  {
    var n := |ops| - 1;
    if n > 0 { HistoryTracksOps(ops[..n], if k < n then k else 0); }
  }

  lemma {:induction false} HistoryPrefix(ops: seq<Op>, n: nat)
    requires n <= |ops|
    ensures |After(ops).history| == |ops| && After(ops).history[..n] == After(ops[..n]).history
    decreases |ops|
  {
    if ops == [] {
    } else {
      var init := ops[..|ops| - 1];
      if n == |ops| {
        HistoryPrefix(init, 0);
        assert ops[..n] == ops;
      } else {
        HistoryPrefix(init, n);
        assert ops[..n] == init[..n];
        var h := After(ops).history;
        assert h[..|init|] == After(init).history;
        assert h[..n] == h[..|init|][..n];
      }
    }
  }

  lemma WinnerKeepsPromise(ops: seq<Op>, i: nat)
    requires Ordered(ops) && i < |After(ops).history| && After(ops).history[i].Claimed?
    ensures var h := After(ops).history; h[i].result == Promise(h[..i], h[i].ticket, h[i].at)
  {
    hide Outstanding, Apply, After, Promise;
    var h := After(ops).history;
    HistoryPrefix(ops, 0);
    HistoryPrefix(ops, i);
    HistoryPrefix(ops, i + 1);
    HistoryTracksOps(ops, i);
    var e, upTo := h[i], ops[..i + 1];
    assert upTo == ops[..i] + [Claim(e.ticket, e.at)];
    assert Ordered(upTo);
    ClaimRefinesHistory(ops[..i], e.ticket, e.at);
    assert h[..i + 1] == h[..i] + [e];
  }

  /** A winning claim was preceded by the mint it answers, with nothing in between. */
  lemma WinnerHasMint(ops: seq<Op>, i: nat) returns (k: nat)
    requires Ordered(ops) && i < |After(ops).history|
    requires After(ops).history[i].Claimed? && After(ops).history[i].result.Some?
    ensures var h := After(ops).history;
            && k < i && h[k].Minted? && h[k].ticket == h[i].ticket && Some(h[k].waiter) == h[i].result
            && forall m :: k < m < i ==> !Touches(h[m], h[i].ticket)
  {
    hide Outstanding;
    var h := After(ops).history;
    var e, before := h[i], h[..i];
    WinnerKeepsPromise(ops, i);
    var p := Outstanding(before, e.ticket).value;
    OutstandingMeaning(before, e.ticket, p.waiter, p.inserted);
    k :| 0 <= k < |before| && before[k] == Minted(e.ticket, p.waiter, p.inserted) && Untouched(before, k, e.ticket);
    forall m | k < m < i ensures !Touches(h[m], e.ticket) { assert before[m] == h[m]; }
  }
}
