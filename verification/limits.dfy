/** How many stamps of a log fall in any window. */
module Windows {

  predicate Ordered(log: seq<nat>)
  {
    forall i, j :: 0 <= i < j < |log| ==> log[i] <= log[j]
  }

  /** Stamps from `from` on and before `to`. */
  function CountIn(log: seq<nat>, from: int, to: int): nat
  {
    if log == [] then 0
    else CountIn(log[..|log| - 1], from, to) + if from <= log[|log| - 1] < to then 1 else 0
  }

  /** Any `most` + 1 in a row span the window. */
  ghost predicate Spread(log: seq<nat>, span: nat, most: nat)
  {
    forall i, j :: 0 <= i && j == i + most && j < |log| ==> log[j] - log[i] >= span
  }

  /** What a window counts is one stretch of an ordered log. */
  lemma {:induction false} CountIsStretch(log: seq<nat>, from: int, to: int) returns (lo: nat, hi: nat)
    requires Ordered(log)
    ensures lo <= hi <= |log| && CountIn(log, from, to) == hi - lo
    ensures forall i :: 0 <= i < |log| ==> (lo <= i < hi <==> from <= log[i] < to)
  {
    if log == [] {
      lo, hi := 0, 0;
    } else {
      var front, last := log[..|log| - 1], |log| - 1;
      lo, hi := CountIsStretch(front, from, to);
      if from <= log[last] < to {
        if lo == hi { lo := last; }
        hi := |log|;
        forall i | lo <= i < |log| ensures from <= log[i] < to {
          if i < last { assert front[i] == log[i] && log[lo] <= log[i] <= log[last]; }
        }
        forall i | 0 <= i < lo ensures !(from <= log[i] < to) {
          assert front[i] == log[i];
        }
      } else {
        forall i | 0 <= i < last ensures lo <= i < hi <==> from <= log[i] < to { assert front[i] == log[i]; }
        if hi == |front| && lo < hi { assert front[lo] == log[lo]; }
      }
    }
  }

  lemma SpreadAt(log: seq<nat>, span: nat, most: nat, i: nat)
    requires Spread(log, span, most) && i + most < |log|
    ensures log[i + most] - log[i] >= span
  {
  }

  /** Spread out, no half-open window of that length holds more than `most`. */
  lemma SpreadMeansFew(log: seq<nat>, span: nat, most: nat, from: int)
    requires Ordered(log) && Spread(log, span, most)
    ensures CountIn(log, from, from + span) <= most
  {
    var lo, hi := CountIsStretch(log, from, from + span);
    if hi - lo > most { SpreadAt(log, span, most, lo); }
  }

  /** A new stamp keeps the log spread when fewer than `most` are closer than the window. */
  lemma SpreadOn(log: seq<nat>, span: nat, most: nat, now: nat)
    requires Ordered(log + [now]) && Spread(log, span, most)
    requires 0 < most && (|log| >= most ==> now - log[|log| - most] >= span)
    ensures Spread(log + [now], span, most)
  {
    var longer := log + [now];
    forall i, j | 0 <= i && j == i + most && j < |longer| ensures longer[j] - longer[i] >= span {
      if j < |log| { assert longer[j] == log[j] && longer[i] == log[i]; }
    }
  }
}

/** src/archivist/ratelimit.ts and session.ts: check, then bump. */
module SessionLimit {
  import opened Optional
  import opened Windows

  datatype Session = Session(count: nat, last: Option<nat>)

  /** `window` in seconds, stamps in milliseconds. */
  datatype Policy = Policy(quota: int, window: nat)

  datatype Decision = Allowed | Limited(retryAfter: int)

  /** checkSessionLimit; a stamp of 0 counts as none. */
  function Check(p: Policy, s: Session, now: nat): Decision
  {
    if s.last.None? || s.last.value == 0 then Allowed
    else
      var age := (now - s.last.value) / 1000;
      if age >= p.window then Allowed
      else if s.count < p.quota then Allowed
      else Limited(p.window - age)
  }

  /** bumpSession */
  function Bump(p: Policy, s: Session, now: nat): Session
  {
    Session(if s.last.None? || s.last.value < now - p.window * 1000 then 1 else s.count + 1, Some(now))
  }

  class SessionTable {
    const policy: Policy
    var rows: map<string, Session>

    constructor (policy: Policy)
      ensures this.policy == policy && rows == map[]
    {
      this.policy := policy;
      rows := map[];
    }

    method BumpSession(id: string, now: nat)
      modifies this
      ensures rows == if id in old(rows) then old(rows)[id := Bump(policy, old(rows)[id], now)] else old(rows)
    {
      if id in rows {
        var cutoff := now - policy.window * 1000;
        var row := rows[id];
        var count := if row.last.None? || row.last.value < cutoff then 1 else row.count + 1;
        rows := rows[id := Session(count, Some(now))];
      }
    }
  }

  /** Checked at one time, recorded at another once the reply is done. */
  datatype Message = Message(asked: nat, done: nat)

  function Step(p: Policy, s: Session, m: Message): (Session, bool)
  {
    if Check(p, s, m.asked).Allowed? then (Bump(p, s, m.done), true) else (s, false)
  }

  /** The accepted messages' stamps, behind those in `log`. */
  function Accepted(p: Policy, s: Session, log: seq<nat>, messages: seq<Message>): seq<nat>
    decreases messages
  {
    if messages == [] then log
    else
      var (t, ok) := Step(p, s, messages[0]);
      Accepted(p, t, if ok then log + [messages[0].done] else log, messages[1..])
  }

  /** One after the other, the clock never going back. */
  predicate InTurn(from: nat, messages: seq<Message>)
    decreases messages
  {
    messages == [] || (from <= messages[0].asked <= messages[0].done && InTurn(messages[0].done, messages[1..]))
  }

  function Most(p: Policy): nat
  {
    if p.quota < 1 then 1 else p.quota
  }

  /** The stored count is at least the number of accepted messages each within a window of the one before. */
  ghost predicate Counts(p: Policy, s: Session, log: seq<nat>)
  {
    && Ordered(log) && Spread(log, p.window * 1000, Most(p))
    && (log == [] <==> s.last.None?)
    && (log != [] ==> s.last == Some(log[|log| - 1]) && log[|log| - 1] > 0)
    && (forall i :: 0 <= i < |log| && log[|log| - 1] - log[i] < p.window * 1000 ==> |log| - i <= s.count)
  }

  /** An accepted message is a window away from the one `Most` before it. */
  lemma FarFromMost(p: Policy, s: Session, log: seq<nat>, m: Message)
    requires Counts(p, s, log) && Check(p, s, m.asked).Allowed? && m.asked <= m.done
    requires log != [] && log[|log| - 1] <= m.asked && |log| >= Most(p)
    ensures m.done - log[|log| - Most(p)] >= p.window * 1000
  {
    var n, far := |log|, log[|log| - Most(p)];
    assert far <= log[n - 1];
    if (m.asked - log[n - 1]) / 1000 < p.window {
      assert s.count < p.quota;
      assert log[n - 1] - far >= p.window * 1000;
    }
  }

  lemma StepCounts(p: Policy, s: Session, log: seq<nat>, m: Message)
    requires Counts(p, s, log) && 0 < m.asked <= m.done && (log != [] ==> log[|log| - 1] <= m.asked)
    requires Check(p, s, m.asked).Allowed?
    ensures Counts(p, Bump(p, s, m.done), log + [m.done])
  {
    var n, wide, t, longer := |log|, p.window * 1000, Bump(p, s, m.done), log + [m.done];
    if log != [] && n >= Most(p) { FarFromMost(p, s, log, m); }
    SpreadOn(log, wide, Most(p), m.done);
    forall i | 0 <= i < |longer| && m.done - longer[i] < wide ensures |longer| - i <= t.count {
      if i < n { assert longer[i] == log[i] && log[i] <= log[n - 1]; }
    }
  }

  ghost predicate WithinQuota(p: Policy, log: seq<nat>)
  {
    Ordered(log) && Spread(log, p.window * 1000, Most(p))
  }

  lemma {:induction false} RunCounts(p: Policy, s: Session, log: seq<nat>, from: nat, messages: seq<Message>)
    requires Counts(p, s, log) && InTurn(from, messages) && 0 < from && (log != [] ==> log[|log| - 1] <= from)
    ensures WithinQuota(p, Accepted(p, s, log, messages))
    decreases messages
  {
    if messages != [] {
      var m := messages[0];
      if Check(p, s, m.asked).Allowed? {
        StepCounts(p, s, log, m);
        RunCounts(p, Bump(p, s, m.done), log + [m.done], m.done, messages[1..]);
      } else {
        RunCounts(p, s, log, m.done, messages[1..]);
      }
    }
  }

  lemma NothingCounts(p: Policy)
    ensures Counts(p, Session(0, None), [])
  {
  }

  /** No half-open window of the policy's length ever holds more accepted messages than the quota (at least one). */
  lemma WindowHoldsQuota(p: Policy, messages: seq<Message>, start: nat, from: int)
    requires InTurn(start, messages) && 0 < start
    ensures CountIn(Accepted(p, Session(0, None), [], messages), from, from + p.window * 1000) <= Most(p)
  {
    NothingCounts(p);
    RunCounts(p, Session(0, None), [], start, messages);
    SpreadMeansFew(Accepted(p, Session(0, None), [], messages), p.window * 1000, Most(p), from);
  }

  /** After a refusal, waiting `retry_after_s` is enough, and one second less is not. */
  lemma RetryAfterIsExact(p: Policy, s: Session, now: nat, wait: nat)
    requires Check(p, s, now).Limited?
    ensures Check(p, s, now + wait * 1000).Allowed? <==> wait >= Check(p, s, now).retryAfter
    ensures s.last.value <= now ==> 1 <= Check(p, s, now).retryAfter <= p.window
  {
    var age := (now - s.last.value) / 1000;
    assert (now + wait * 1000 - s.last.value) / 1000 == age + wait;
  }

  // ---- when a message is refused ---------------------------------------------------------

  /** The session once these messages were dealt with. */
  function Left(p: Policy, s: Session, messages: seq<Message>): Session
    decreases messages
  {
    if messages == [] then s else Left(p, Step(p, s, messages[0]).0, messages[1..])
  }

  /** How many stamps at the end of the log are each at most `wide` after the one before. */
  function Chain(log: seq<nat>, wide: nat): nat
  {
    if |log| <= 1 then |log|
    else if log[|log| - 1] - log[|log| - 2] <= wide then 1 + Chain(log[..|log| - 1], wide)
    else 1
  }

  /** The session stores exactly the chain at the end of its log. */
  predicate Stores(p: Policy, s: Session, log: seq<nat>)
  {
    if log == [] then s.last.None? else s == Session(Chain(log, p.window * 1000), Some(log[|log| - 1])) && log[|log| - 1] > 0
  }

  lemma BumpStores(p: Policy, s: Session, log: seq<nat>, done: nat)
    requires Stores(p, s, log) && 0 < done && (log != [] ==> log[|log| - 1] <= done)
    ensures Stores(p, Bump(p, s, done), log + [done])
  {
    assert (log + [done])[..|log|] == log;
  }

  lemma {:induction false} RunStores(p: Policy, s: Session, log: seq<nat>, from: nat, messages: seq<Message>)
    requires Stores(p, s, log) && InTurn(from, messages) && 0 < from && (log != [] ==> log[|log| - 1] <= from)
    ensures Stores(p, Left(p, s, messages), Accepted(p, s, log, messages))
    decreases messages
  {
    if messages != [] {
      var m := messages[0];
      if Check(p, s, m.asked).Allowed? {
        BumpStores(p, s, log, m.done);
        RunStores(p, Bump(p, s, m.done), log + [m.done], m.done, messages[1..]);
      } else {
        RunStores(p, s, log, m.done, messages[1..]);
      }
    }
  }

  lemma {:induction false} ChainMeans(log: seq<nat>, wide: nat, n: nat)
    requires 1 <= n
    ensures Chain(log, wide) >= n <==> |log| >= n && forall i :: |log| - n < i < |log| && 0 < i ==> log[i] - log[i - 1] <= wide
  {
    if |log| >= 2 && n >= 2 {
      var front := log[..|log| - 1];
      ChainMeans(front, wide, n - 1);
      assert forall i :: 0 <= i < |front| ==> front[i] == log[i];
      if Chain(log, wide) >= n {
        forall i | |log| - n < i < |log| && 0 < i ensures log[i] - log[i - 1] <= wide {
          if i < |front| { assert front[i] - front[i - 1] <= wide; }
        }
      }
      if forall i :: |log| - n < i < |log| && 0 < i ==> log[i] - log[i - 1] <= wide {
        assert log[|log| - 1] - log[|log| - 2] <= wide;
      }
    }
  }

  /**
   * A message is refused exactly when the quota is used up: the last accepted one is less than a window ago, and so many were
   * accepted in a row, each within a window of the one before.
   */
  lemma RefusedExactly(p: Policy, messages: seq<Message>, start: nat, now: nat)
    requires InTurn(start, messages) && 0 < start && 1 <= p.quota
    ensures var log := Accepted(p, Session(0, None), [], messages);
      var wide := p.window * 1000;
      Check(p, Left(p, Session(0, None), messages), now).Limited?
      <==> |log| >= p.quota && now - log[|log| - 1] < wide
           && forall i :: |log| - p.quota < i < |log| && 0 < i ==> log[i] - log[i - 1] <= wide
  {
    var log := Accepted(p, Session(0, None), [], messages);
    RunStores(p, Session(0, None), [], start, messages);
    ChainMeans(log, p.window * 1000, p.quota);
  }

  /** The stored count passes the quota exactly when a full window is answered on its very edge: read as over, written as within. */
  lemma CountPassesQuota(p: Policy, s: Session, m: Message)
    requires 1 <= p.quota && s.last.Some? && 0 < s.last.value <= m.asked <= m.done
    ensures var (t, ok) := Step(p, s, m);
      ok ==> (t.count > p.quota <==> s.count >= p.quota && m.asked == m.done == s.last.value + p.window * 1000)
  {
  }
}

/** src/intake/auth.ts: at most 5 sign-in mails an hour per address and 30 per network address. */
module LoginLimit {
  import opened Windows

  type Hits = map<string, seq<nat>>

  const HOUR := 3600000
  const PER_EMAIL := 5
  const PER_IP := 30

  function Recent(stamps: seq<nat>, window: nat, now: nat): seq<nat>
  {
    if stamps == [] then []
    else
      var last := stamps[|stamps| - 1];
      Recent(stamps[..|stamps| - 1], window, now) + if now - last < window then [last] else []
  }

  function At(hits: Hits, key: string): seq<nat>
  {
    if key in hits then hits[key] else []
  }

  function Hit(hits: Hits, key: string, limit: nat, window: nat, now: nat): (bool, Hits)
  {
    var recent := Recent(At(hits, key), window, now);
    if |recent| >= limit then (false, hits[key := recent]) else (true, hits[key := recent + [now]])
  }

  /** An attempt with no known network address has `ip` empty. */
  datatype Attempt = Attempt(email: string, ip: string, now: nat)

  function EmailKey(a: Attempt): string
  {
    "e:" + a.email
  }

  function IpKey(a: Attempt): string
  {
    "ip:" + a.ip
  }

  /** loginRateOk: both limits are charged, whatever the other says. */
  function LoginRateOk(hits: Hits, a: Attempt): (bool, Hits)
  {
    var (okEmail, charged) := Hit(hits, EmailKey(a), PER_EMAIL, HOUR, a.now);
    if a.ip == "" then (okEmail, charged)
    else
      var (okIp, both) := Hit(charged, IpKey(a), PER_IP, HOUR, a.now);
      (okEmail && okIp, both)
  }

  class Limiter {
    var loginHits: Hits

    constructor ()
      ensures loginHits == map[]
    {
      loginHits := map[];
    }

    method TryHit(key: string, limit: nat, window: nat, now: nat) returns (ok: bool)
      modifies this
      ensures (ok, loginHits) == Hit(old(loginHits), key, limit, window, now)
    {
      var stamps := if key in loginHits then loginHits[key] else [];
      var recent: seq<nat> := [];
      for i := 0 to |stamps|
        invariant recent == Recent(stamps[..i], window, now) && loginHits == old(loginHits)
      {
        assert stamps[..i + 1][..i] == stamps[..i];
        if now - stamps[i] < window { recent := recent + [stamps[i]]; }
      }
      assert stamps[..|stamps|] == stamps;
      if |recent| >= limit {
        loginHits := loginHits[key := recent];
        return false;
      }
      loginHits := loginHits[key := recent + [now]];
      ok := true;
    }

    method LoginOk(a: Attempt) returns (ok: bool)
      modifies this
      ensures (ok, loginHits) == LoginRateOk(old(loginHits), a)
    {
      var okEmail := TryHit(EmailKey(a), PER_EMAIL, HOUR, a.now);
      var okIp := true;
      if a.ip != "" { okIp := TryHit(IpKey(a), PER_IP, HOUR, a.now); }
      ok := okEmail && okIp;
    }
  }

  // ---- runs --------------------------------------------------------------------------------

  datatype Call = Call(key: string, now: nat)

  /** One key's accepted stamps, behind those in `log`, over a run of calls on any keys, each key with one limit. */
  function Taken(hits: Hits, log: seq<nat>, calls: seq<Call>, limits: string -> nat, window: nat, key: string): seq<nat>
    decreases calls
  {
    if calls == [] then log
    else
      var c := calls[0];
      var (ok, next) := Hit(hits, c.key, limits(c.key), window, c.now);
      Taken(next, if ok && c.key == key then log + [c.now] else log, calls[1..], limits, window, key)
  }

  predicate Forward(from: nat, calls: seq<Call>)
    decreases calls
  {
    calls == [] || (from <= calls[0].now && Forward(calls[0].now, calls[1..]))
  }

  ghost predicate WithinLimit(log: seq<nat>, limit: nat, window: nat)
  {
    Ordered(log) && (if limit > 0 then Spread(log, window, limit) else log == [])
  }

  /** What is kept of a key's log is its end, from `cut` on; what was dropped is out of the window for good. */
  ghost predicate Keeps(stamps: seq<nat>, log: seq<nat>, cut: nat, window: nat, from: nat)
  {
    && cut <= |log| && stamps == log[cut..]
    && (forall i :: 0 <= i < |log| ==> log[i] <= from)
    && (forall i :: 0 <= i < cut ==> from - log[i] >= window)
  }

  /** Of an ordered log the recent stamps are a suffix. */
  lemma {:induction false} RecentIsSuffix(stamps: seq<nat>, window: nat, now: nat) returns (cut: nat)
    requires Ordered(stamps)
    ensures cut <= |stamps| && Recent(stamps, window, now) == stamps[cut..]
    ensures forall i :: 0 <= i < |stamps| ==> (i < cut <==> now - stamps[i] >= window)
  {
    if stamps == [] {
      cut := 0;
    } else {
      var front, last := stamps[..|stamps| - 1], stamps[|stamps| - 1];
      cut := RecentIsSuffix(front, window, now);
      forall i | 0 <= i < |front| ensures i < cut <==> now - stamps[i] >= window { assert front[i] == stamps[i]; }
      var first := if cut < |front| then front[cut] else last;
      if now - last >= window {
        cut := |stamps|;
      } else {
        assert stamps[cut..] == front[cut..] + [last];
      }
    }
  }

  /** Pruning at a call keeps what is recent at that call. */
  lemma PruneKeeps(stamps: seq<nat>, log: seq<nat>, was: nat, window: nat, from: nat, now: nat) returns (cut: nat)
    requires Ordered(log) && Keeps(stamps, log, was, window, from) && from <= now
    ensures Keeps(Recent(stamps, window, now), log, cut, window, now)
    ensures forall i :: 0 <= i < |log| ==> (i < cut <==> now - log[i] >= window)
  {
    var k := RecentIsSuffix(stamps, window, now);
    cut := was + k;
    assert stamps[k..] == log[cut..];
    forall i | 0 <= i < |log| ensures i < cut ==> now - log[i] >= window {
      if i >= was { assert stamps[i - was] == log[i]; }
    }
    forall i | cut <= i < |log| ensures now - log[i] < window { assert stamps[i - was] == log[i]; }
  }

  lemma AcceptKeeps(recent: seq<nat>, log: seq<nat>, cut: nat, window: nat, now: nat, limit: nat)
    requires WithinLimit(log, limit, window) && Keeps(recent, log, cut, window, now) && |recent| < limit
    ensures WithinLimit(log + [now], limit, window) && Keeps(recent + [now], log + [now], cut, window, now)
  {
    assert Ordered(log + [now]);
    assert |log| >= limit ==> |log| - limit < cut;
    SpreadOn(log, window, limit, now);
    assert (log + [now])[cut..] == recent + [now];
  }

  lemma {:induction false} RunKeeps(
      hits: Hits, calls: seq<Call>, limits: string -> nat, window: nat, key: string, log: seq<nat>, was: nat, from: nat)
    requires WithinLimit(log, limits(key), window) && Keeps(At(hits, key), log, was, window, from) && Forward(from, calls)
    ensures WithinLimit(Taken(hits, log, calls, limits, window, key), limits(key), window)
    decreases calls
  {
    if calls != [] {
      var c := calls[0];
      var (ok, next) := Hit(hits, c.key, limits(c.key), window, c.now);
      if c.key == key {
        var cut := PruneKeeps(At(hits, key), log, was, window, from, c.now);
        if ok { AcceptKeeps(Recent(At(hits, key), window, c.now), log, cut, window, c.now, limits(key)); }
        RunKeeps(next, calls[1..], limits, window, key, if ok then log + [c.now] else log, cut, c.now);
      } else {
        assert At(next, key) == At(hits, key);
        RunKeeps(next, calls[1..], limits, window, key, log, was, c.now);
      }
    }
  }

  /** Pruning loses nothing: no window ever holds more accepted hits of a key than its limit. */
  lemma WindowHoldsLimit(calls: seq<Call>, limits: string -> nat, window: nat, key: string, start: nat, from: int)
    requires Forward(start, calls)
    ensures CountIn(Taken(map[], [], calls, limits, window, key), from, from + window) <= limits(key)
  {
    RunKeeps(map[], calls, limits, window, key, [], 0, start);
    if limits(key) > 0 { SpreadMeansFew(Taken(map[], [], calls, limits, window, key), window, limits(key), from); }
  }

  lemma {:induction false} RecentCounts(log: seq<nat>, window: nat, now: nat)
    requires forall i :: 0 <= i < |log| ==> log[i] <= now
    ensures |Recent(log, window, now)| == CountIn(log, now - window + 1, now + 1)
  {
    if log != [] { RecentCounts(log[..|log| - 1], window, now); }
  }

  lemma SameCut(log: seq<nat>, window: nat, now: nat, a: nat, b: nat)
    requires a <= |log| && b <= |log|
    requires forall i :: 0 <= i < |log| ==> (i < a <==> now - log[i] >= window)
    requires forall i :: 0 <= i < |log| ==> (i < b <==> now - log[i] >= window)
    ensures a == b
  {
    var x, y := if a < |log| then log[a] else 0, if b < |log| then log[b] else 0;
  }

  /** The pruned list decides as the whole log of accepted hits would: refused exactly when the limit is used up. */
  lemma PrunedDecidesAsWhole(hits: Hits, key: string, log: seq<nat>, was: nat, limit: nat, window: nat, from: nat, now: nat)
    requires Ordered(log) && Keeps(At(hits, key), log, was, window, from) && from <= now
    ensures Hit(hits, key, limit, window, now).0 <==> CountIn(log, now - window + 1, now + 1) < limit
  {
    var cut := PruneKeeps(At(hits, key), log, was, window, from, now);
    var whole := RecentIsSuffix(log, window, now);
    SameCut(log, window, now, cut, whole);
    RecentCounts(log, window, now);
  }

  // ---- sign-ins ----------------------------------------------------------------------------

  predicate Charges(a: Attempt, key: string)
  {
    key == EmailKey(a) || (a.ip != "" && key == IpKey(a))
  }

  function LimitOf(key: string): nat
  {
    if key != "" && key[0] == 'e' then PER_EMAIL else PER_IP
  }

  /** Both keys are charged, even when the other refuses; the attempt passes when neither does. */
  lemma LoginChargesBoth(hits: Hits, a: Attempt, key: string)
    ensures var (ok, next) := LoginRateOk(hits, a); var (mine, charged) := Hit(hits, key, LimitOf(key), HOUR, a.now);
      if Charges(a, key) then At(next, key) == At(charged, key) && (ok ==> mine) else At(next, key) == At(hits, key)
    ensures LoginRateOk(hits, a).0 <==>
      forall k :: Charges(a, k) ==> Hit(hits, k, LimitOf(k), HOUR, a.now).0
  {
    assert EmailKey(a)[0] == 'e' && IpKey(a)[0] == 'i';
    assert Charges(a, EmailKey(a)) && (a.ip != "" ==> Charges(a, IpKey(a)));
  }

  /** The stamps of the attempts on a key that passed, and of those that were charged to it. */
  function Passed(hits: Hits, log: seq<nat>, attempts: seq<Attempt>, key: string): seq<nat>
    decreases attempts
  {
    if attempts == [] then log
    else
      var (ok, next) := LoginRateOk(hits, attempts[0]);
      Passed(next, if ok && Charges(attempts[0], key) then log + [attempts[0].now] else log, attempts[1..], key)
  }

  predicate InOrder(from: nat, attempts: seq<Attempt>)
    decreases attempts
  {
    attempts == [] || (from <= attempts[0].now && InOrder(attempts[0].now, attempts[1..]))
  }

  ghost predicate Thinner(a: seq<nat>, b: seq<nat>)
  {
    forall from, to :: CountIn(a, from, to) <= CountIn(b, from, to)
  }

  lemma ThinnerOn(a: seq<nat>, b: seq<nat>, now: nat, both: bool)
    requires Thinner(a, b)
    ensures Thinner(if both then a + [now] else a, b + [now])
  {
    assert (a + [now])[..|a|] == a && (b + [now])[..|b|] == b;
    forall from, to ensures CountIn(if both then a + [now] else a, from, to) <= CountIn(b + [now], from, to) {
      assert CountIn(a, from, to) <= CountIn(b, from, to);
    }
  }

  lemma {:induction false} PassedWithin(hits: Hits, attempts: seq<Attempt>, key: string, log: seq<nat>, charged: seq<nat>, was: nat, from: nat)
    requires WithinLimit(charged, LimitOf(key), HOUR) && Keeps(At(hits, key), charged, was, HOUR, from)
    requires Thinner(log, charged) && InOrder(from, attempts)
    ensures forall x, y :: y == x + HOUR ==> CountIn(Passed(hits, log, attempts, key), x, y) <= LimitOf(key)
    decreases attempts
  {
    if attempts == [] {
      forall x, y | y == x + HOUR ensures CountIn(log, x, y) <= LimitOf(key) {
        SpreadMeansFew(charged, HOUR, LimitOf(key), x);
        assert CountIn(log, x, y) <= CountIn(charged, x, y);
      }
    } else {
      var a := attempts[0];
      var (ok, next) := LoginRateOk(hits, a);
      LoginChargesBoth(hits, a, key);
      if Charges(a, key) {
        var cut := PruneKeeps(At(hits, key), charged, was, HOUR, from, a.now);
        if Hit(hits, key, LimitOf(key), HOUR, a.now).0 {
          AcceptKeeps(Recent(At(hits, key), HOUR, a.now), charged, cut, HOUR, a.now, LimitOf(key));
          ThinnerOn(log, charged, a.now, ok);
          PassedWithin(next, attempts[1..], key, if ok then log + [a.now] else log, charged + [a.now], cut, a.now);
        } else {
          PassedWithin(next, attempts[1..], key, log, charged, cut, a.now);
        }
      } else {
        PassedWithin(next, attempts[1..], key, log, charged, was, a.now);
      }
    }
  }

  /** In no hour do more than 5 sign-ins pass for one mail address, or 30 for one network address. */
  lemma HourHoldsLimit(attempts: seq<Attempt>, key: string, start: nat, from: int)
    requires InOrder(start, attempts)
    ensures CountIn(Passed(map[], [], attempts, key), from, from + 3600000) <= if "e:" <= key then 5 else 30
  {
    PassedWithin(map[], attempts, key, [], [], 0, start);
  }

  /** The hit lists after these attempts, and what each key was charged with. */
  function HitsLeft(hits: Hits, attempts: seq<Attempt>): Hits
    decreases attempts
  {
    if attempts == [] then hits else HitsLeft(LoginRateOk(hits, attempts[0]).1, attempts[1..])
  }

  /** The log of a key's charges after one more attempt. */
  function LogAfter(hits: Hits, log: seq<nat>, a: Attempt, key: string): seq<nat>
  {
    if Charges(a, key) && Hit(hits, key, LimitOf(key), HOUR, a.now).0 then log + [a.now] else log
  }

  function Charged(hits: Hits, log: seq<nat>, attempts: seq<Attempt>, key: string): seq<nat>
    decreases attempts
  {
    if attempts == [] then log
    else
      Charged(LoginRateOk(hits, attempts[0]).1, LogAfter(hits, log, attempts[0], key), attempts[1..], key)
  }

  lemma ChargeKept(hits: Hits, a: Attempt, key: string, log: seq<nat>, was: nat, from: nat) returns (cut: nat)
    requires WithinLimit(log, LimitOf(key), HOUR) && Keeps(At(hits, key), log, was, HOUR, from) && from <= a.now
    ensures var longer := LogAfter(hits, log, a, key);
      WithinLimit(longer, LimitOf(key), HOUR) && Keeps(At(LoginRateOk(hits, a).1, key), longer, cut, HOUR, a.now)
  {
    LoginChargesBoth(hits, a, key);
    cut := was;
    if Charges(a, key) {
      cut := PruneKeeps(At(hits, key), log, was, HOUR, from, a.now);
      if Hit(hits, key, LimitOf(key), HOUR, a.now).0 {
        AcceptKeeps(Recent(At(hits, key), HOUR, a.now), log, cut, HOUR, a.now, LimitOf(key));
      }
    }
  }

  lemma {:induction false} ChargedKept(hits: Hits, attempts: seq<Attempt>, key: string, log: seq<nat>, was: nat, from: nat)
    returns (cut: nat, last: nat)
    requires WithinLimit(log, LimitOf(key), HOUR) && Keeps(At(hits, key), log, was, HOUR, from) && InOrder(from, attempts)
    ensures Ordered(Charged(hits, log, attempts, key))
    ensures Keeps(At(HitsLeft(hits, attempts), key), Charged(hits, log, attempts, key), cut, HOUR, last)
    ensures last == if attempts == [] then from else attempts[|attempts| - 1].now
    decreases attempts
  {
    if attempts == [] {
      cut, last := was, from;
    } else {
      var a := attempts[0];
      cut := ChargeKept(hits, a, key, log, was, from);
      cut, last := ChargedKept(LoginRateOk(hits, a).1, attempts[1..], key, LogAfter(hits, log, a, key), cut, a.now);
    }
  }

  /** How often a key was charged in the hour up to now. */
  function InLastHour(attempts: seq<Attempt>, key: string, now: nat): nat
  {
    CountIn(Charged(map[], [], attempts, key), now - 3600000 + 1, now + 1)
  }

  lemma KeptSoFar(attempts: seq<Attempt>, key: string) returns (cut: nat, last: nat)
    requires InOrder(0, attempts)
    ensures Ordered(Charged(map[], [], attempts, key))
    ensures Keeps(At(HitsLeft(map[], attempts), key), Charged(map[], [], attempts, key), cut, HOUR, last)
    ensures last == if attempts == [] then 0 else attempts[|attempts| - 1].now
  {
    cut, last := ChargedKept(map[], attempts, key, [], 0, 0);
  }

  lemma HitExactly(attempts: seq<Attempt>, key: string, now: nat)
    requires InOrder(0, attempts) && (attempts != [] ==> attempts[|attempts| - 1].now <= now)
    ensures Hit(HitsLeft(map[], attempts), key, LimitOf(key), HOUR, now).0 <==> InLastHour(attempts, key, now) < LimitOf(key)
  {
    var cut, last := KeptSoFar(attempts, key);
    DecidesAsCharged(HitsLeft(map[], attempts), key, Charged(map[], [], attempts, key), cut, last, now);
  }

  lemma DecidesAsCharged(hits: Hits, key: string, log: seq<nat>, was: nat, from: nat, now: nat)
    requires Ordered(log) && Keeps(At(hits, key), log, was, HOUR, from) && from <= now
    ensures Hit(hits, key, LimitOf(key), HOUR, now).0 <==> CountIn(log, now - 3600000 + 1, now + 1) < LimitOf(key)
  {
    PrunedDecidesAsWhole(hits, key, log, was, LimitOf(key), HOUR, from, now);
  }

  lemma PassesBoth(hits: Hits, a: Attempt)
    ensures LimitOf(EmailKey(a)) == 5 && LimitOf(IpKey(a)) == 30
    ensures LoginRateOk(hits, a).0 <==> Hit(hits, EmailKey(a), 5, HOUR, a.now).0 && (a.ip == "" || Hit(hits, IpKey(a), 30, HOUR, a.now).0)
  {
    assert EmailKey(a)[0] == 'e' && IpKey(a)[0] == 'i';
    var charged := Hit(hits, EmailKey(a), 5, HOUR, a.now).1;
    assert At(charged, IpKey(a)) == At(hits, IpKey(a));
  }

  /** A sign-in passes exactly while, in the hour up to now, its mail address was charged less than 5 times and its network address,
      when known, less than 30. */
  lemma SignInPassesExactly(attempts: seq<Attempt>, a: Attempt)
    requires InOrder(0, attempts) && (attempts != [] ==> attempts[|attempts| - 1].now <= a.now)
    ensures LoginRateOk(HitsLeft(map[], attempts), a).0
      <==> InLastHour(attempts, "e:" + a.email, a.now) < 5 && (a.ip == "" || InLastHour(attempts, "ip:" + a.ip, a.now) < 30)
  {
    HitExactly(attempts, EmailKey(a), a.now);
    HitExactly(attempts, IpKey(a), a.now);
    PassesBoth(HitsLeft(map[], attempts), a);
  }
}
