/**
 * middlewares/flood_control.py: a per-user sliding-window rate limiter in front of every
 * message handler. Time is an integer number of seconds passed in by the caller.
 */
module FloodControl {
  import opened Wrappers

  /** What the middleware does with one message. */
  datatype Decision =
    | Pass        // the handler is awaited
    | DropSilent  // ignored without a reply (the sender is blocked)
    | DropWarn    // ignored, the sender is blocked and told so once

  /** `[t for t in ts if now - t <= period]`: the timestamps still inside the window, in order. */
  function Prune(ts: seq<int>, now: int, period: int): (r: seq<int>)
    ensures |r| <= |ts|
    ensures forall i :: 0 <= i < |r| ==> now - r[i] <= period
    ensures forall t :: t in r <==> t in ts && now - t <= period
  {
    if ts == [] then []
    else (if now - ts[0] <= period then [ts[0]] else []) + Prune(ts[1..], now, period)
  }

  /** A window whose every timestamp is recent is kept as it is. */
  lemma {:induction false} PruneKeepsRecent(ts: seq<int>, now: int, period: int)
    requires forall i :: 0 <= i < |ts| ==> now - ts[i] <= period
    ensures Prune(ts, now, period) == ts
  {
    if ts != [] {
      PruneKeepsRecent(ts[1..], now, period);
    }
  }

  /** Pruning at an earlier time and then at a later one is the same as pruning at the later one. */
  lemma {:induction false} PruneLater(ts: seq<int>, earlier: int, later: int, period: int)
    requires earlier <= later
    ensures Prune(Prune(ts, earlier, period), later, period) == Prune(ts, later, period)
  {
    if ts != [] {
      PruneLater(ts[1..], earlier, later, period);
      var rest := Prune(ts[1..], earlier, period);
      if earlier - ts[0] <= period {
        assert Prune(ts, earlier, period) == [ts[0]] + rest;
        assert ([ts[0]] + rest)[1..] == rest;
      } else {
        assert Prune(ts, earlier, period) == rest;
      }
    }
  }

  class FloodControlMiddleware {
    const limit: int
    const period: int
    const blockTime: int
    const adminIds: set<int>
    /** `user_messages`: the recent timestamps of each user (a missing user has none). */
    var userMessages: map<int, seq<int>>
    /** `blocked_until`: the time each blocked user's block ends. */
    var blockedUntil: map<int, int>

    /** `__init__`: empty tables; `admin_ids` given as `None` or an empty list means no admins. */
    constructor(limit: int, period: int, blockTime: int, adminIds: Option<seq<int>>)
      ensures this.limit == limit && this.period == period && this.blockTime == blockTime
      ensures this.adminIds == if adminIds.Some? then set a | a in adminIds.value else {}
      ensures userMessages == map[] && blockedUntil == map[]
    {
      this.limit := limit;
      this.period := period;
      this.blockTime := blockTime;
      this.adminIds := if adminIds.Some? then set a | a in adminIds.value else {};
      userMessages := map[];
      blockedUntil := map[];
    }

    /** `self.user_messages[u]` of the `defaultdict`: the empty list for a user never seen. */
    function Window(u: int): seq<int>
      reads this
    {
      if u in userMessages then userMessages[u] else []
    }

    /** The sender is blocked at `now`. */
    predicate Blocked(u: int, now: int)
      reads this
    {
      u in blockedUntil && now < blockedUntil[u]
    }

    /** `__call__` for a message from `u` at time `now`. */
    method Call(u: int, now: int) returns (d: Decision)
      modifies this
      ensures u in adminIds ==> d == Pass && userMessages == old(userMessages) && blockedUntil == old(blockedUntil)
      ensures u !in adminIds && old(Blocked(u, now)) ==>
        d == DropSilent && userMessages == old(userMessages) && blockedUntil == old(blockedUntil)
      ensures u !in adminIds && !old(Blocked(u, now)) ==>
        var w := Prune(old(Window(u)), now, period) + [now];
        && userMessages == old(userMessages)[u := w]
        && (|w| > limit ==> d == DropWarn && blockedUntil == old(blockedUntil)[u := now + blockTime])
        && (|w| <= limit ==> d == Pass && blockedUntil == old(blockedUntil))
      ensures d != DropSilent ==> u in adminIds || !old(Blocked(u, now))
    {
      if u in adminIds {
        return Pass;
      }
      if u in blockedUntil && now < blockedUntil[u] {
        return DropSilent;
      }
      var timestamps := Prune(Window(u), now, period);
      timestamps := timestamps + [now];
      userMessages := userMessages[u := timestamps];
      if |timestamps| > limit {
        blockedUntil := blockedUntil[u := now + blockTime];
        return DropWarn;
      }
      return Pass;
    }
  }

  /**
   * With the default settings, six messages at one instant from a new user: five pass,
   * the sixth is dropped with a warning, and a seventh before the block ends is dropped silently.
   */
  method BurstScenario(start: int) returns (ds: seq<Decision>)
    ensures ds == [Pass, Pass, Pass, Pass, Pass, DropWarn, DropSilent]
  {
    var gate := new FloodControlMiddleware(5, 10, 15, None);
    ds := [];
    var i := 0;
    while i < 6
      invariant 0 <= i <= 6
      invariant gate.limit == 5 && gate.period == 10 && gate.blockTime == 15 && gate.adminIds == {}
      invariant gate.Window(7) == seq(i, _ => start)
      invariant gate.blockedUntil == if i == 6 then map[7 := start + 15] else map[]
      invariant ds == seq(i, k => if k < 5 then Pass else DropWarn)
    {
      PruneKeepsRecent(gate.Window(7), start, 10);
      var d := gate.Call(7, start);
      ds := ds + [d];
      i := i + 1;
    }
    var d := gate.Call(7, start + 14);
    ds := ds + [d];
  }
}
