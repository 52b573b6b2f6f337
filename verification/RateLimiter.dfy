/**
 * `BoundedRateLimiter`: a sliding window per client that keeps only the stamps
 * it may still need, against a reference that remembers every call.
 */
module RateLimiter {
  datatype Call = Call(client: string, at: real, allowed: bool)

  datatype Bounds = Bounds(limit: int, window: real, maxClients: int)

  predicate Positive(b: Bounds) {
    b.limit > 0 && b.window > 0.0 && b.maxClients > 0
  }

  // ----- the reference: decide from the whole history -----

  function Known(history: seq<Call>): set<string> {
    set i | 0 <= i < |history| && history[i].allowed :: history[i].client
  }

  /** Allowed calls of the client from `start` on, with an end that is not included. */
  function CountBetween(history: seq<Call>, client: string, start: real, end: real): nat {
    if history == [] then 0
    else
      var c := history[|history| - 1];
      CountBetween(history[..|history| - 1], client, start, end)
      + (if c.allowed && c.client == client && start <= c.at < end then 1 else 0)
  }

  /** Allowed calls of the client less than a window before `now`. */
  function CountRecent(history: seq<Call>, client: string, now: real, window: real): nat {
    if history == [] then 0
    else
      var c := history[|history| - 1];
      CountRecent(history[..|history| - 1], client, now, window)
      + (if c.allowed && c.client == client && now - c.at < window then 1 else 0)
  }

  predicate Decide(b: Bounds, history: seq<Call>, client: string, now: real) {
    && (client in Known(history) || |Known(history)| < b.maxClients)
    && CountRecent(history, client, now, b.window) < b.limit
  }

  ghost predicate ClockForward(history: seq<Call>) {
    forall i, j | 0 <= i < j < |history| :: history[i].at <= history[j].at
  }

  /** Every call was answered from the history before it. */
  ghost predicate Answered(b: Bounds, history: seq<Call>) {
    history != [] ==>
      var n := |history| - 1;
      && Answered(b, history[..n])
      && history[n].allowed == Decide(b, history[..n], history[n].client, history[n].at)
  }

  lemma {:induction false} WindowIsRecent(history: seq<Call>, client: string, start: real, now: real, window: real)
    requires start <= now < start + window
    requires forall i | 0 <= i < |history| :: history[i].at <= now
    ensures CountBetween(history, client, start, start + window) <= CountRecent(history, client, now, window)
  {
    if history != [] {
      WindowIsRecent(history[..|history| - 1], client, start, now, window);
    }
  }

  /** In any stretch of time one window long, at most `limit` calls of a client are allowed. */
  lemma {:induction false} WindowBound(b: Bounds, history: seq<Call>, client: string, start: real)
    requires Positive(b) && ClockForward(history) && Answered(b, history)
    ensures CountBetween(history, client, start, start + b.window) <= b.limit
  {
    if history != [] {
      var n := |history| - 1;
      var c := history[n];
      WindowBound(b, history[..n], client, start);
      if c.allowed && c.client == client && start <= c.at < start + b.window {
        WindowIsRecent(history[..n], client, start, c.at, b.window);
      }
    }
  }

  lemma KnownGrows(history: seq<Call>, more: seq<Call>)
    ensures Known(history) <= Known(history + more)
  {
    forall client | client in Known(history) ensures client in Known(history + more) {
      var i :| 0 <= i < |history| && history[i].allowed && history[i].client == client;
      assert (history + more)[i] == history[i];
    }
  }

  lemma {:induction false} KnownBounded(b: Bounds, history: seq<Call>)
    requires Positive(b) && Answered(b, history)
    ensures |Known(history)| <= b.maxClients
  {
    if history == [] {
      assert Known(history) == {};
    } else {
      var n := |history| - 1;
      KnownBounded(b, history[..n]);
      KnownStep(history[..n], history[n]);
      assert history == history[..n] + [history[n]];
    }
  }

  lemma KnownStep(history: seq<Call>, c: Call)
    ensures Known(history + [c]) == Known(history) + (if c.allowed then {c.client} else {})
    ensures c.client !in Known(history) ==> |Known(history) + {c.client}| == |Known(history)| + 1
    ensures c.client in Known(history) ==> Known(history) + {c.client} == Known(history)
  {
    KnownGrows(history, [c]);
    assert (history + [c])[|history|] == c;
    forall client | client in Known(history + [c])
      ensures client in Known(history) + (if c.allowed then {c.client} else {})
    {
      var i :| 0 <= i < |history + [c]| && (history + [c])[i].allowed && (history + [c])[i].client == client;
      if i < |history| {
        assert history[i] == (history + [c])[i];
      }
    }
  }

  /** Clients are never evicted: once the table is full, a newcomer is refused for good. */
  lemma {:induction false} FullTableRefusesNewcomers(b: Bounds, history: seq<Call>, more: seq<Call>, client: string, now: real)
    requires Positive(b) && Answered(b, history + more)
    requires |Known(history)| == b.maxClients && client !in Known(history)
    ensures client !in Known(history + more) && !Decide(b, history + more, client, now)
  {
    var all := history + more;
    KnownGrows(history, more);
    KnownBounded(b, all);
    if Known(history) != Known(all) {
      var x :| x in Known(all) && x !in Known(history);
      Smaller(Known(history) + {x}, Known(all));
    }
  }

  lemma {:induction false} Smaller<T>(a: set<T>, c: set<T>)
    requires a <= c
    ensures |a| <= |c|
  {
    if a != {} {
      var x :| x in a;
      Smaller(a - {x}, c - {x});
    }
  }

  // ----- the limiter -----

  /** The stamps of a client's allowed calls, oldest first. */
  function Stamps(history: seq<Call>, client: string): seq<real> {
    if history == [] then []
    else
      var c := history[|history| - 1];
      Stamps(history[..|history| - 1], client) + (if c.allowed && c.client == client then [c.at] else [])
  }

  /** What is kept is what is left after dropping some stamps a window old or older. */
  ghost predicate Pruned(kept: seq<real>, stamps: seq<real>, now: real, window: real) {
    exists dropped: seq<real> :: stamps == dropped + kept && AllOld(dropped, now, window)
  }

  ghost predicate AllOld(stamps: seq<real>, now: real, window: real) {
    forall i | 0 <= i < |stamps| :: now - stamps[i] >= window
  }

  ghost predicate Ascending(stamps: seq<real>) {
    forall i, j | 0 <= i < j < |stamps| :: stamps[i] <= stamps[j]
  }

  function Recent(stamps: seq<real>, now: real, window: real): seq<real> {
    if stamps == [] then []
    else
      var n := |stamps| - 1;
      Recent(stamps[..n], now, window) + (if now - stamps[n] < window then [stamps[n]] else [])
  }

  lemma {:induction false} RecentCounts(history: seq<Call>, client: string, now: real, window: real)
    ensures |Recent(Stamps(history, client), now, window)| == CountRecent(history, client, now, window)
  {
    if history != [] {
      var c := history[|history| - 1];
      var before := Stamps(history[..|history| - 1], client);
      RecentCounts(history[..|history| - 1], client, now, window);
      if c.allowed && c.client == client {
        assert Stamps(history, client) == before + [c.at];
        RecentSnoc(before, c.at, now, window);
      } else {
        assert Stamps(history, client) == before;
      }
    }
  }

  lemma RecentSnoc(stamps: seq<real>, stamp: real, now: real, window: real)
    ensures Recent(stamps + [stamp], now, window) ==
            Recent(stamps, now, window) + (if now - stamp < window then [stamp] else [])
  {
    assert (stamps + [stamp])[..|stamps|] == stamps;
  }

  /** Old stamps never count. */
  lemma {:induction false} OldDoesNotCount(dropped: seq<real>, kept: seq<real>, now: real, window: real)
    requires AllOld(dropped, now, window)
    ensures Recent(dropped + kept, now, window) == Recent(kept, now, window)
    decreases |kept|
  {
    if kept == [] {
      assert dropped + kept == dropped;
      RecentOfOld(dropped, now, window);
    } else {
      var n := |kept| - 1;
      OldDoesNotCount(dropped, kept[..n], now, window);
      assert dropped + kept == (dropped + kept[..n]) + [kept[n]];
      RecentSnoc(dropped + kept[..n], kept[n], now, window);
    }
  }

  lemma {:induction false} StampsBounded(history: seq<Call>, client: string, now: real)
    requires ClockForward(history) && forall i | 0 <= i < |history| :: history[i].at <= now
    ensures Ascending(Stamps(history, client))
    ensures forall i | 0 <= i < |Stamps(history, client)| :: Stamps(history, client)[i] <= now
  {
    if history != [] {
      var n := |history| - 1;
      StampsBounded(history[..n], client, history[n].at);
    }
  }

  /** In ascending stamps the recent ones come last, so pruning drops a front part. */
  lemma {:induction false} RecentIsPruned(stamps: seq<real>, now: real, window: real)
    requires Ascending(stamps)
    ensures Pruned(Recent(stamps, now, window), stamps, now, window)
  {
    if stamps == [] {
      assert stamps == [] + Recent(stamps, now, window) && AllOld([], now, window);
    } else {
      var n := |stamps| - 1;
      RecentIsPruned(stamps[..n], now, window);
      assert stamps == stamps[..n] + [stamps[n]];
      if now - stamps[n] < window {
        var dropped: seq<real> :| stamps[..n] == dropped + Recent(stamps[..n], now, window) && AllOld(dropped, now, window);
        assert stamps == dropped + Recent(stamps, now, window);
      } else {
        assert AllOld(stamps, now, window);
        RecentOfOld(stamps, now, window);
        assert stamps == stamps + Recent(stamps, now, window);
      }
    }
  }

  lemma {:induction false} RecentOfOld(stamps: seq<real>, now: real, window: real)
    requires AllOld(stamps, now, window)
    ensures Recent(stamps, now, window) == []
  {
    if stamps != [] {
      RecentOfOld(stamps[..|stamps| - 1], now, window);
    }
  }

  lemma PruningTwice(dropped: seq<real>, stamps: seq<real>, kept: seq<real>, now: real, window: real)
    requires AllOld(dropped, now, window) && Pruned(kept, stamps, now, window)
    ensures Pruned(kept, dropped + stamps, now, window)
  {
    var more: seq<real> :| stamps == more + kept && AllOld(more, now, window);
    assert dropped + stamps == (dropped + more) + kept;
  }

  /** Pruned stamps stay pruned as time passes and stamps are added. */
  lemma PrunedStays(kept: seq<real>, stamps: seq<real>, earlier: real, now: real, window: real, added: seq<real>)
    requires Pruned(kept, stamps, earlier, window) && earlier <= now
    ensures Pruned(kept + added, stamps + added, now, window)
  {
    var dropped: seq<real> :| stamps == dropped + kept && AllOld(dropped, earlier, window);
    assert AllOld(dropped, now, window);
    assert stamps + added == dropped + (kept + added);
  }

  lemma AscendingTail(dropped: seq<real>, kept: seq<real>)
    requires Ascending(dropped + kept)
    ensures Ascending(kept)
  {
    forall i, j | 0 <= i < j < |kept| ensures kept[i] <= kept[j] {
      assert kept[i] == (dropped + kept)[|dropped| + i] && kept[j] == (dropped + kept)[|dropped| + j];
    }
  }

  lemma StampsSnoc(history: seq<Call>, c: Call, client: string)
    ensures Stamps(history + [c], client) ==
            Stamps(history, client) + (if c.allowed && c.client == client then [c.at] else [])
  {
    assert (history + [c])[..|history|] == history;
  }

  lemma {:induction false} UnknownHasNoStamps(history: seq<Call>, client: string)
    requires client !in Known(history)
    ensures Stamps(history, client) == []
  {
    if history != [] {
      var n := |history| - 1;
      assert history == history[..n] + [history[n]];
      KnownStep(history[..n], history[n]);
      UnknownHasNoStamps(history[..n], client);
    }
  }

  /** The table holds exactly the known clients, each with stamps that lost only old ones. */
  ghost predicate TableFits(b: Bounds, hits: map<string, seq<real>>, history: seq<Call>, now: real) {
    && hits.Keys == Known(history)
    && forall client | client in hits :: Pruned(hits[client], Stamps(history, client), now, b.window)
  }

  /** What pruning the table's stamps gives is what the whole history counts. */
  lemma PrunedDecides(b: Bounds, kept: seq<real>, history: seq<Call>, client: string, earlier: real, now: real)
    requires Pruned(kept, Stamps(history, client), earlier, b.window) && earlier <= now
    requires ClockForward(history) && forall i | 0 <= i < |history| :: history[i].at <= now
    ensures |Recent(kept, now, b.window)| == CountRecent(history, client, now, b.window)
    ensures Pruned(Recent(kept, now, b.window), Stamps(history, client), now, b.window)
  {
    var dropped: seq<real> :| Stamps(history, client) == dropped + kept && AllOld(dropped, earlier, b.window);
    assert AllOld(dropped, now, b.window);
    OldDoesNotCount(dropped, kept, now, b.window);
    RecentCounts(history, client, now, b.window);
    StampsBounded(history, client, now);
    AscendingTail(dropped, kept);
    RecentIsPruned(kept, now, b.window);
    PruningTwice(dropped, kept, Recent(kept, now, b.window), now, b.window);
  }

  /** A client the call is not about keeps its stamps. */
  lemma BystanderPruned(
    kept: seq<real>, history: seq<Call>, c: Call, other: string, earlier: real, window: real)
    requires Pruned(kept, Stamps(history, other), earlier, window) && earlier <= c.at
    requires other != c.client || !c.allowed
    ensures Pruned(kept, Stamps(history + [c], other), c.at, window)
  {
    StampsSnoc(history, c, other);
    PrunedStays(kept, Stamps(history, other), earlier, c.at, window, []);
    assert kept + [] == kept && Stamps(history, other) + [] == Stamps(history, other);
  }

  /** The calling client keeps its pruned stamps and the new one, if it was allowed. */
  lemma CallerPruned(kept: seq<real>, history: seq<Call>, c: Call, window: real)
    requires Pruned(kept, Stamps(history, c.client), c.at, window)
    ensures Pruned(kept + (if c.allowed then [c.at] else []), Stamps(history + [c], c.client), c.at, window)
  {
    StampsSnoc(history, c, c.client);
    PrunedStays(kept, Stamps(history, c.client), c.at, c.at, window, if c.allowed then [c.at] else []);
  }

  lemma TableStays(
    b: Bounds, hits: map<string, seq<real>>, history: seq<Call>, earlier: real, c: Call, kept: seq<real>)
    requires TableFits(b, hits, history, earlier) && earlier <= c.at
    requires c.allowed || c.client in hits
    requires Pruned(kept, Stamps(history, c.client), c.at, b.window)
    ensures TableFits(
      b, hits[c.client := kept + (if c.allowed then [c.at] else [])], history + [c], c.at)
  {
    var hits' := hits[c.client := kept + (if c.allowed then [c.at] else [])];
    TableKeys(hits, history, c);
    forall other | other in hits' ensures Pruned(hits'[other], Stamps(history + [c], other), c.at, b.window) {
      if other == c.client {
        CallerPruned(kept, history, c, b.window);
      } else {
        BystanderPruned(hits[other], history, c, other, earlier, b.window);
      }
    }
  }

  lemma TableKeys(hits: map<string, seq<real>>, history: seq<Call>, c: Call)
    requires hits.Keys == Known(history) && (c.allowed || c.client in hits)
    ensures hits.Keys + {c.client} == Known(history + [c])
  {
    KnownStep(history, c);
  }

  lemma RefusalStays(b: Bounds, hits: map<string, seq<real>>, history: seq<Call>, earlier: real, c: Call)
    requires TableFits(b, hits, history, earlier) && earlier <= c.at && !c.allowed
    ensures TableFits(b, hits, history + [c], c.at)
  {
    KnownStep(history, c);
    forall other | other in hits ensures Pruned(hits[other], Stamps(history + [c], other), c.at, b.window) {
      BystanderPruned(hits[other], history, c, other, earlier, b.window);
    }
  }

  lemma AnsweredStep(b: Bounds, history: seq<Call>, c: Call)
    requires Answered(b, history) && c.allowed == Decide(b, history, c.client, c.at)
    ensures Answered(b, history + [c])
  {
    assert (history + [c])[..|history|] == history;
  }

  lemma ClockStep(history: seq<Call>, c: Call)
    requires ClockForward(history) && forall i | 0 <= i < |history| :: history[i].at <= c.at
    ensures ClockForward(history + [c])
    ensures forall i | 0 <= i < |history + [c]| :: (history + [c])[i].at <= c.at
  {}

  lemma TableBounded(b: Bounds, hits: map<string, seq<real>>, history: seq<Call>, now: real)
    requires Positive(b) && Answered(b, history) && TableFits(b, hits, history, now)
    ensures |hits| <= b.maxClients
  {
    KnownBounded(b, history);
    assert |hits| == |hits.Keys|;
  }

  class BoundedRateLimiter {
    const bounds: Bounds
    var hits: map<string, seq<real>>
    /** every call so far, and the time of the last one, or of a moment before the first */
    ghost var history: seq<Call>
    ghost var last: real

    ghost predicate Valid()
      reads this
    {
      && Positive(bounds) && ClockForward(history) && Answered(bounds, history)
      && (forall i | 0 <= i < |history| :: history[i].at <= last)
      && TableFits(bounds, hits, history, last)
    }

    /** `start` is any time not after the first call. */
    constructor (bounds: Bounds, ghost start: real)
      requires Positive(bounds)
      ensures Valid() && this.bounds == bounds && history == [] && last == start
    {
      this.bounds, hits, history, last := bounds, map[], [], start;
      new;
      assert Known([]) == {};
    }

    /** The list comprehension: the stamps less than a window old. */
    method Prune(stamps: seq<real>, now: real) returns (kept: seq<real>)
      ensures kept == Recent(stamps, now, bounds.window)
    {
      kept := [];
      for i := 0 to |stamps|
        invariant kept == Recent(stamps[..i], now, bounds.window)
      {
        RecentSnoc(stamps[..i], stamps[i], now, bounds.window);
        assert stamps[..i + 1] == stamps[..i] + [stamps[i]];
        if now - stamps[i] < bounds.window {
          kept := kept + [stamps[i]];
        }
      }
      assert stamps[..|stamps|] == stamps;
    }

    /** Answers as the reference does, and never lets the table outgrow its bound. */
    method Allow(client: string, now: real) returns (allowed: bool)
      requires Valid() && last <= now
      modifies this
      ensures Valid() && last == now
      ensures allowed == Decide(bounds, old(history), client, now)
      ensures history == old(history) + [Call(client, now, allowed)]
      ensures |hits| <= bounds.maxClients
    {
      allowed := Admit(client, now);
      Remember(Call(client, now, allowed));
    }

    /** The answer, and the table as the call leaves it. */
    method Admit(client: string, now: real) returns (allowed: bool)
      requires Valid() && last <= now
      modifies this`hits
      ensures allowed == Decide(bounds, history, client, now)
      ensures TableFits(bounds, hits, history + [Call(client, now, allowed)], now)
    {
      assert |hits| == |hits.Keys|;
      if client !in hits && |hits| >= bounds.maxClients {
        allowed := false;
        RefusalStays(bounds, hits, history, last, Call(client, now, false));
      } else {
        var stamps := if client in hits then hits[client] else [];
        var kept := Prune(stamps, now);
        ClientStamps(client, stamps);
        PrunedDecides(bounds, stamps, history, client, last, now);
        allowed := |kept| < bounds.limit;
        TableStays(bounds, hits, history, last, Call(client, now, allowed), kept);
        hits := hits[client := kept + (if allowed then [now] else [])];
      }
    }

    /** Note the call in the ghost history. */
    ghost method Remember(c: Call)
      requires Positive(bounds) && ClockForward(history) && Answered(bounds, history)
      requires (forall i | 0 <= i < |history| :: history[i].at <= c.at)
      requires c.allowed == Decide(bounds, history, c.client, c.at)
      requires TableFits(bounds, hits, history + [c], c.at)
      modifies this`history, this`last
      ensures Valid() && last == c.at && history == old(history) + [c] && |hits| <= bounds.maxClients
    {
      AnsweredStep(bounds, history, c);
      ClockStep(history, c);
      TableBounded(bounds, hits, history + [c], c.at);
      history := history + [c];
      last := c.at;
    }

    lemma ClientStamps(client: string, stamps: seq<real>)
      requires Valid() && stamps == if client in hits then hits[client] else []
      ensures Pruned(stamps, Stamps(history, client), last, bounds.window)
    {
      if client !in hits {
        UnknownHasNoStamps(history, client);
        assert Stamps(history, client) == [] + stamps && AllOld([], last, bounds.window);
      }
    }
  }
}
