/**
  The in-memory store of the rate limiter: it prunes its windows in place and, as long as times do not
  decrease, decides exactly as the full log would.  What it does when they do is stated as well: two
  threads can read the clock in one order and enter the store in the other.
 */
module RateLimitStore {
  import opened Options
  import opened RateLimit

  /** ts is what is left of the full log when everything pruned was before the cutoff. */
  ghost predicate Remains(ts: seq<real>, full: seq<real>, cutoff: real) {
    && |ts| <= |full| && ts == full[|full| - |ts|..]
    && forall i :: 0 <= i < |full| - |ts| ==> full[i] < cutoff
  }

  /** The windows hold every logged hit that can still matter. */
  ghost predicate Mirrors(windows: Hits, log: Hits, rules: map<string, Rule>, clock: real) {
    && HitsOk(log, rules, clock)
    && (forall k :: k in windows ==> k in log && windows[k] != [])
    && forall k :: k in log ==> Remains(Of(windows, k), log[k], Cutoff(rules[k.rule], clock))
  }

  predicate Concerned(k: Key, ruleKey: Option<string>) { ruleKey.None? || k.rule == ruleKey.value }

  ghost predicate PrunedFrom(windows': Hits, windows: Hits, cutoff: real, ruleKey: Option<string>) {
    && (forall k: Key :: Of(windows', k) == if Concerned(k, ruleKey) then Recent(Of(windows, k), cutoff) else Of(windows, k))
    && (forall k :: k in windows' ==> k in windows && (Concerned(k, ruleKey) ==> windows'[k] != []))
  }

  lemma {:induction false} RemainsRecent(ts: seq<real>, full: seq<real>, cutoff: real, later: real)
    requires Sorted(full) && Remains(ts, full, cutoff) && cutoff <= later
    ensures Recent(ts, later) == Recent(full, later) && Remains(Recent(full, later), full, later)
  {
    RecentIsSuffix(full, later);
    var m, dropped := |full| - |Recent(full, later)|, |full| - |ts|;
    var atM := if m < |full| then full[m] else later;
    assert dropped <= m;
    assert ts[m - dropped..] == full[m..];
    RecentIs(ts, later, m - dropped);
  }

  lemma RemainsLater(ts: seq<real>, full: seq<real>, cutoff: real, later: real)
    requires Remains(ts, full, cutoff) && cutoff <= later
    ensures Remains(ts, full, later)
  {
  }

  /** Pruning one rule key keeps the mirror, and leaves exactly what is recent for that key. */
  lemma PruneMirrors(windows: Hits, windows': Hits, log: Hits, rules: map<string, Rule>, clock: real, now: real, ruleKey: string)
    requires Mirrors(windows, log, rules, clock) && clock <= now && ruleKey in rules
    requires PrunedFrom(windows', windows, Cutoff(rules[ruleKey], now), Some(ruleKey))
    ensures Mirrors(windows', log, rules, now)
    ensures forall k: Key :: k.rule == ruleKey ==> Of(windows', k) == Recent(Of(log, k), Cutoff(rules[ruleKey], now))
  {
    hide Recent, Remains, Spaced;
    forall k | k in log
      ensures Remains(Of(windows', k), log[k], Cutoff(rules[k.rule], now))
      ensures k.rule == ruleKey ==> Of(windows', k) == Recent(log[k], Cutoff(rules[ruleKey], now))
    {
      if k.rule == ruleKey {
        RemainsRecent(Of(windows, k), log[k], Cutoff(rules[ruleKey], clock), Cutoff(rules[ruleKey], now));
      } else {
        RemainsLater(Of(windows, k), log[k], Cutoff(rules[k.rule], clock), Cutoff(rules[k.rule], now));
      }
    }
    NothingRemains(Cutoff(rules[ruleKey], now));
  }

  /** Sorting a sorted list with one more entry at its end. */
  function Insert(ts: seq<real>, t: real): (r: seq<real>) {
    if ts == [] || ts[|ts| - 1] <= t then ts + [t]
    else Insert(ts[..|ts| - 1], t) + [ts[|ts| - 1]]
  }

  lemma {:induction false} InsertKeepsEntries(ts: seq<real>, t: real)
    ensures multiset(Insert(ts, t)) == multiset(ts + [t])
  {
    if ts != [] && ts[|ts| - 1] > t {
      var front, last := ts[..|ts| - 1], ts[|ts| - 1];
      InsertKeepsEntries(front, t);
      assert ts == front + [last];
    }
  }

  lemma {:induction false} InsertSorts(ts: seq<real>, t: real)
    requires Sorted(ts)
    ensures Sorted(Insert(ts, t))
  {
    if ts != [] && ts[|ts| - 1] > t {
      var front, last := ts[..|ts| - 1], ts[|ts| - 1];
      InsertSorts(front, t);
      InsertKeepsEntries(front, t);
      var shorter := Insert(front, t);
      forall i | 0 <= i < |shorter| ensures shorter[i] <= last {
        assert shorter[i] in multiset(front + [t]);
      }
    }
  }

  /** On a monotone clock the new hit goes to the end. */
  lemma {:induction false} InsertLatest(ts: seq<real>, full: seq<real>, now: real, cutoff: real)
    requires Remains(ts, full, cutoff) && forall i :: 0 <= i < |full| ==> full[i] <= now
    ensures Insert(ts, now) == ts + [now]
  {
    assert ts != [] ==> ts[|ts| - 1] == full[|full| - 1];
  }

  /** Recording an admitted hit in a pruned window. */
  lemma {:induction false} RecordMirrors(windows: Hits, log: Hits, rules: map<string, Rule>, now: real, k: Key)
    requires ValidRules(rules) && k.rule in rules && Mirrors(windows, log, rules, now)
    requires Admits(Of(log, k), rules[k.rule], now)
    ensures Insert(Of(windows, k), now) == Of(windows, k) + [now]
    ensures Mirrors(windows[k := Of(windows, k) + [now]], Record(log, k, now), rules, now)
  {
    hide Recent, Spaced, Insert, Remains, Admits, Sorted;
    var full, ts, cutoff := Of(log, k), Of(windows, k), Cutoff(rules[k.rule], now);
    assert LogOk(full, rules[k.rule], now) by { NoHits(rules[k.rule], now); }
    assert Remains(ts, full, cutoff) by { NothingRemains(cutoff); }
    RecordOk(full, rules[k.rule], now);
    InsertLatest(ts, full, now, cutoff);
    RemainsAppend(ts, full, now, cutoff);
  }

  lemma NoHits(rule: Rule, now: real)
    ensures LogOk([], rule, now)
  {
  }

  lemma {:induction false} NothingRemains(cutoff: real)
    ensures Remains([], [], cutoff) && Recent([], cutoff) == []
  {
  }

  lemma {:induction false} RecentAppend(ts: seq<real>, t: real, cutoff: real)
    ensures Recent(ts + [t], cutoff) == Recent(ts, cutoff) + if t >= cutoff then [t] else []
  {
    assert (ts + [t])[..|ts|] == ts;
  }

  lemma RemainsAppend(ts: seq<real>, full: seq<real>, t: real, cutoff: real)
    requires Remains(ts, full, cutoff)
    ensures Remains(ts + [t], full + [t], cutoff)
  {
  }

  // ----- one request on the stored windows, at any time -----

  /** Drop the hits before the cutoff, of one rule key or of all, and the windows that are left empty. */
  function Pruned(windows: Hits, cutoff: real, ruleKey: Option<string>): Hits {
    map k | k in windows && (Concerned(k, ruleKey) ==> Recent(windows[k], cutoff) != []) ::
      if Concerned(k, ruleKey) then Recent(windows[k], cutoff) else windows[k]
  }

  lemma PrunedIs(windows: Hits, cutoff: real, ruleKey: Option<string>)
    ensures PrunedFrom(Pruned(windows, cutoff, ruleKey), windows, cutoff, ruleKey)
  {
    NothingRemains(cutoff);
  }

  function AllowIn(windows: Hits, ruleKey: string, client: string, rule: Rule, now: real): (Hits, bool) {
    var key, pruned := Key(ruleKey, client), Pruned(windows, Cutoff(rule, now), Some(ruleKey));
    var ts := Recent(Of(pruned, key), Cutoff(rule, now));
    if |ts| >= rule.threshold then (pruned[key := ts], false) else (pruned[key := Insert(ts, now)], true)
  }

  function CheckIn(windows: Hits, ruleKey: string, clients: seq<string>, rule: Rule, now: real): (Hits, bool)
    decreases |clients|
  {
    if clients == [] then (windows, true)
    else
      var (after, ok) := AllowIn(windows, ruleKey, clients[0], rule, now);
      if ok then CheckIn(after, ruleKey, clients[1..], rule, now) else (after, false)
  }

  /** The longest wait over the windows as they are stored. */
  function LongestStored(windows: Hits, ruleKey: string, clients: seq<string>, rule: Rule, now: real): Option<real> {
    if clients == [] then None
    else
      var n := |clients| - 1;
      var rest := LongestStored(windows, ruleKey, clients[..n], rule, now);
      var ts := Of(windows, Key(ruleKey, clients[n]));
      if |ts| >= rule.threshold && |ts| > 0 then Larger(rest, ts[0] + rule.window as real - now) else rest
  }

  function RetryStored(windows: Hits, ruleKey: string, clients: seq<string>, rule: Rule, now: real): int {
    var longest := LongestStored(windows, ruleKey, clients, rule, now);
    var wait := Ceiling(if longest.Some? then longest.value else rule.window as real);
    if wait >= 1 then wait else 1
  }

  // ----- agreement with the full log, while times do not decrease -----

  /** The stored windows of a rule key are what is recent in the log. */
  ghost predicate Current(windows: Hits, log: Hits, ruleKey: string, rule: Rule, now: real) {
    forall k: Key :: k.rule == ruleKey ==> Of(windows, k) == Recent(Of(log, k), Cutoff(rule, now))
  }

  lemma {:induction false} AllowMirrors(windows: Hits, log: Hits, rules: map<string, Rule>, clock: real, ruleKey: string, client: string, now: real)
    requires ValidRules(rules) && ruleKey in rules && Mirrors(windows, log, rules, clock) && clock <= now
    ensures var k := Key(ruleKey, client);
      var (after, ok) := AllowIn(windows, ruleKey, client, rules[ruleKey], now);
      var log' := if ok then Record(log, k, now) else log;
      && ok == Admits(Of(log, k), rules[ruleKey], now)
      && Mirrors(after, log', rules, now) && Current(after, log', ruleKey, rules[ruleKey], now)
  {
    hide Recent, Mirrors, Spaced, Pruned, Current;
    var rule, key := rules[ruleKey], Key(ruleKey, client);
    var cutoff := Cutoff(rule, now);
    var pruned := Pruned(windows, cutoff, Some(ruleKey));
    PrunedIs(windows, cutoff, Some(ruleKey));
    PruneMirrors(windows, pruned, log, rules, clock, now, ruleKey);
    var ts := Of(pruned, key);
    assert Recent(ts, cutoff) == ts by { RecentTwice(Of(log, key), cutoff); }
    if |ts| >= rule.threshold {
      assert key in pruned && pruned[key := ts] == pruned;
      assert Current(pruned, log, ruleKey, rule, now) by { CurrentIs(pruned, log, ruleKey, rule, now); }
    } else {
      RecordMirrors(pruned, log, rules, now, key);
      RecordCurrent(pruned, log, key, rule, now);
    }
  }

  lemma CurrentIs(windows: Hits, log: Hits, ruleKey: string, rule: Rule, now: real)
    requires forall k: Key :: k.rule == ruleKey ==> Of(windows, k) == Recent(Of(log, k), Cutoff(rule, now))
    ensures Current(windows, log, ruleKey, rule, now)
  {
  }

  lemma RecordCurrent(windows: Hits, log: Hits, key: Key, rule: Rule, now: real)
    requires forall k: Key :: k.rule == key.rule ==> Of(windows, k) == Recent(Of(log, k), Cutoff(rule, now))
    ensures Current(windows[key := Of(windows, key) + [now]], Record(log, key, now), key.rule, rule, now)
  {
    hide Recent;
    RecentAppend(Of(log, key), now, Cutoff(rule, now));
  }

  /** Pruned store and full log decide alike and stay in step. */
  lemma {:induction false} CheckMirrors(windows: Hits, log: Hits, rules: map<string, Rule>, clock: real, ruleKey: string, clients: seq<string>, now: real)
    requires ValidRules(rules) && ruleKey in rules && Mirrors(windows, log, rules, clock) && clock <= now
    ensures var (after, allowed) := CheckIn(windows, ruleKey, clients, rules[ruleKey], now);
      var (log', admitted) := CheckLog(log, ruleKey, clients, rules[ruleKey], now);
      && allowed == admitted && Mirrors(after, log', rules, now)
      && (!allowed ==> Current(after, log', ruleKey, rules[ruleKey], now))
    decreases |clients|
  {
    hide Mirrors, Current, AllowIn, Admits;
    if clients == [] {
      LaterMirrors(windows, log, rules, clock, now);
    } else {
      AllowMirrors(windows, log, rules, clock, ruleKey, clients[0], now);
      var (after, ok) := AllowIn(windows, ruleKey, clients[0], rules[ruleKey], now);
      if ok { CheckMirrors(after, Record(log, Key(ruleKey, clients[0]), now), rules, now, ruleKey, clients[1..], now); }
    }
  }

  lemma {:induction false} RetryMirrors(windows: Hits, log: Hits, ruleKey: string, clients: seq<string>, rule: Rule, now: real)
    requires Current(windows, log, ruleKey, rule, now)
    ensures LongestStored(windows, ruleKey, clients, rule, now) == LongestWait(log, ruleKey, clients, rule, now)
    ensures RetryStored(windows, ruleKey, clients, rule, now) == RetryAfter(log, ruleKey, clients, rule, now)
  {
    hide Recent, Ceiling, Larger;
    if clients != [] {
      RetryMirrors(windows, log, ruleKey, clients[..|clients| - 1], rule, now);
      assert Of(windows, Key(ruleKey, clients[|clients| - 1])) == Recent(Of(log, Key(ruleKey, clients[|clients| - 1])), Cutoff(rule, now));
    }
  }

  // ----- what survives when times decrease -----

  /** No window is ever out of order or longer than its threshold, whatever the times. */
  ghost predicate Bounded(windows: Hits, rules: map<string, Rule>) {
    forall k :: k in windows && k.rule in rules ==> Sorted(windows[k]) && |windows[k]| <= rules[k.rule].threshold
  }

  lemma {:induction false} RecentKeeps(ts: seq<real>, cutoff: real)
    ensures |Recent(ts, cutoff)| <= |ts| && (forall x :: x in Recent(ts, cutoff) ==> x in ts)
    ensures Sorted(ts) ==> Sorted(Recent(ts, cutoff))
  {
    if ts != [] {
      var front, last := ts[..|ts| - 1], ts[|ts| - 1];
      RecentKeeps(front, cutoff);
      if Sorted(ts) {
        assert Sorted(front);
        forall i | 0 <= i < |Recent(front, cutoff)| ensures Recent(front, cutoff)[i] <= last {
          assert Recent(front, cutoff)[i] in Recent(front, cutoff);
          var j :| 0 <= j < |front| && front[j] == Recent(front, cutoff)[i];
          assert ts[j] == front[j];
        }
      }
    }
  }

  lemma {:induction false} InsertCount(ts: seq<real>, t: real)
    ensures |Insert(ts, t)| == |ts| + 1
  {
    if ts != [] && ts[|ts| - 1] > t { InsertCount(ts[..|ts| - 1], t); }
  }

  lemma AllowKeepsBounded(windows: Hits, rules: map<string, Rule>, ruleKey: string, client: string, now: real)
    requires Bounded(windows, rules) && ruleKey in rules
    ensures Bounded(AllowIn(windows, ruleKey, client, rules[ruleKey], now).0, rules)
  {
    hide Recent, Insert, Sorted;
    var rule, key := rules[ruleKey], Key(ruleKey, client);
    var cutoff := Cutoff(rule, now);
    var pruned := Pruned(windows, cutoff, Some(ruleKey));
    forall k | k in pruned && k.rule in rules ensures Sorted(pruned[k]) && |pruned[k]| <= rules[k.rule].threshold {
      RecentKeeps(windows[k], cutoff);
    }
    EmptySorted();
    RecentKeeps(Of(pruned, key), cutoff);
    InsertSorts(Recent(Of(pruned, key), cutoff), now);
    InsertCount(Recent(Of(pruned, key), cutoff), now);
  }

  lemma EmptySorted()
    ensures Sorted([])
  {
  }

  /** Whatever the time, a request leaves every window sorted and within its threshold. */
  lemma {:induction false} CheckKeepsBounded(windows: Hits, rules: map<string, Rule>, ruleKey: string, clients: seq<string>, now: real)
    requires Bounded(windows, rules) && ruleKey in rules
    ensures Bounded(CheckIn(windows, ruleKey, clients, rules[ruleKey], now).0, rules)
    decreases |clients|
  {
    hide Bounded, AllowIn;
    if clients != [] {
      AllowKeepsBounded(windows, rules, ruleKey, clients[0], now);
      var (after, ok) := AllowIn(windows, ruleKey, clients[0], rules[ruleKey], now);
      if ok { CheckKeepsBounded(after, rules, ruleKey, clients[1..], now); }
    }
  }

  /**
    The bound on accepted requests does not survive: a hit at 0, a request of another client just
    after its window, which drops that hit, and then a late one at the end of the window is accepted,
    although the closed window up to it holds two hits with a limit of one.
   */
  lemma LateRequestExceeds(ruleKey: string, client: string, other: string, window: nat, delay: real)
    requires window >= 1 && client != other && delay > 0.0
    ensures var rule, w := Rule(1, window), window as real;
      var (first, ok1) := CheckIn(map[], ruleKey, [client], rule, 0.0);
      var (second, ok2) := CheckIn(first, ruleKey, [other], rule, w + delay);
      ok1 && ok2 && CheckIn(second, ruleKey, [client], rule, w).1
      && |Within([0.0, w], 0.0, w)| == 2
  {
    var rule, w := Rule(1, window), window as real;
    hide AllowIn;
    OneClient(map[], ruleKey, client, rule, 0.0);
    OnEmptyStore(ruleKey, client, rule, 0.0);
    var first: Hits := map[Key(ruleKey, client) := [0.0]];
    OneClient(first, ruleKey, other, rule, w + delay);
    AfterWindow(ruleKey, client, other, rule, 0.0, w + delay);
    var second: Hits := map[Key(ruleKey, other) := [w + delay]];
    OneClient(second, ruleKey, client, rule, w);
    BesideLater(ruleKey, client, other, rule, w, w + delay);
    assert [0.0, w][..1] == [0.0];
    assert Within([0.0], 0.0, w) == [0.0];
  }

  lemma {:induction false} RecentOne(t: real, cutoff: real)
    ensures Recent([t], cutoff) == if t >= cutoff then [t] else []
  {
    assert [t][..0] == [];
    assert Recent([], cutoff) == [];
  }

  lemma OnEmptyStore(ruleKey: string, client: string, rule: Rule, now: real)
    requires rule.threshold >= 1
    ensures AllowIn(map[], ruleKey, client, rule, now) == (map[Key(ruleKey, client) := [now]], true)
  {
    var none: seq<real> := [];
    assert none + [now] == [now] && Recent(none, Cutoff(rule, now)) == none;
    assert Pruned(map[], Cutoff(rule, now), Some(ruleKey)) == map[];
  }

  lemma AfterWindow(ruleKey: string, client: string, other: string, rule: Rule, t: real, now: real)
    requires rule.threshold >= 1 && t < Cutoff(rule, now)
    ensures AllowIn(map[Key(ruleKey, client) := [t]], ruleKey, other, rule, now) == (map[Key(ruleKey, other) := [now]], true)
  {
    var none: seq<real> := [];
    var windows: Hits := map[Key(ruleKey, client) := [t]];
    RecentOne(t, Cutoff(rule, now));
    assert Pruned(windows, Cutoff(rule, now), Some(ruleKey)) == map[];
    assert none + [now] == [now] && Recent(none, Cutoff(rule, now)) == none;
  }

  lemma BesideLater(ruleKey: string, client: string, other: string, rule: Rule, now: real, later: real)
    requires rule.threshold >= 1 && client != other && now <= later
    ensures AllowIn(map[Key(ruleKey, other) := [later]], ruleKey, client, rule, now).1
  {
    var none: seq<real> := [];
    var windows: Hits := map[Key(ruleKey, other) := [later]];
    RecentOne(later, Cutoff(rule, now));
    assert Pruned(windows, Cutoff(rule, now), Some(ruleKey)) == windows;
    assert Recent(none, Cutoff(rule, now)) == none;
  }

  lemma {:induction false} OneClient(windows: Hits, ruleKey: string, client: string, rule: Rule, now: real)
    ensures CheckIn(windows, ruleKey, [client], rule, now) == AllowIn(windows, ruleKey, client, rule, now)
  {
    assert [client][1..] == [];
  }

  // ----- the store -----

  datatype Decision = Decision(allowed: bool, retryAfter: int)

  class InMemoryStore {
    var windows: Hits
    ghost var log: Hits
    ghost var clock: real
    ghost var history: seq<Request>
    ghost const rules: map<string, Rule>

    /** The store is in step with the full log. */
    ghost predicate Valid()
      reads this
    {
      Consistent(windows, log, rules, clock, history)
    }

    constructor (rules: map<string, Rule>, now: real)
      ensures log == map[] && history == [] && clock == now && this.rules == rules
      ensures Bounded(windows, rules) && (ValidRules(rules) ==> Valid())
    {
      windows, log, clock, history, this.rules := map[], map[], now, [], rules;
    }

    /** Drop the hits before the window, of one rule key or of all. */
    method Prune(now: real, window: nat, ruleKey: Option<string>)
      modifies `windows
      ensures PrunedFrom(windows, old(windows), now - window as real, ruleKey)
      ensures windows == Pruned(old(windows), now - window as real, ruleKey)
    {
      hide Recent;
      NothingRemains(now - window as real);
      var cutoff := now - window as real;
      ghost var was := windows;
      var todo := windows.Keys;
      while todo != {}
        invariant todo <= windows.Keys <= was.Keys
        invariant forall k :: k in was && (k in todo || !Concerned(k, ruleKey)) ==> k in windows && windows[k] == was[k]
        invariant forall k :: k in was && k !in todo && Concerned(k, ruleKey) ==>
          if Recent(was[k], cutoff) == [] then k !in windows else k in windows && windows[k] == Recent(was[k], cutoff)
        decreases |todo|
      {
        var k :| k in todo;
        todo := todo - {k};
        if Concerned(k, ruleKey) {
          var active := Recent(windows[k], cutoff);
          if active != [] { windows := windows[k := active]; } else { windows := windows - {k}; }
        }
      }
      assert windows == Pruned(was, cutoff, ruleKey);
      PrunedIs(was, cutoff, ruleKey);
    }

    /** One key: record the hit, or refuse it; as the full log would, if that is in step and the time not earlier. */
    method Allow(ruleKey: string, client: string, rule: Rule, now: real) returns (ok: bool)
      modifies `windows
      ensures (windows, ok) == AllowIn(old(windows), ruleKey, client, rule, now)
      ensures forall log, rules, clock :: ValidRules(rules) && ruleKey in rules && rules[ruleKey] == rule && clock <= now
                                          && Mirrors(old(windows), log, rules, clock) ==>
        && ok == Admits(Of(log, Key(ruleKey, client)), rule, now)
        && Mirrors(windows, if ok then Record(log, Key(ruleKey, client), now) else log, rules, now)
      ensures forall k: Key :: k.rule != ruleKey ==> Of(windows, k) == Of(old(windows), k)
    {
      hide Recent, Mirrors, Admits, Insert;
      ghost var was := windows;
      Prune(now, rule.window, Some(ruleKey));
      var key := Key(ruleKey, client);
      var ts := Recent(Of(windows, key), now - rule.window as real);
      ok := |ts| < rule.threshold;
      windows := windows[key := if ok then Insert(ts, now) else ts];
      forall log, rules, clock | ValidRules(rules) && ruleKey in rules && rules[ruleKey] == rule && clock <= now
                                 && Mirrors(was, log, rules, clock)
        ensures ok == Admits(Of(log, Key(ruleKey, client)), rule, now)
        ensures Mirrors(windows, if ok then Record(log, Key(ruleKey, client), now) else log, rules, now)
      {
        AllowMirrors(was, log, rules, clock, ruleKey, client, now);
      }
    }

    /** The longest wait over the stored windows of the listed keys; that of the full log when they are current. */
    method RetryIn(ruleKey: string, clients: seq<string>, rule: Rule, now: real) returns (wait: int)
      requires ValidRule(rule)
      ensures wait == RetryStored(windows, ruleKey, clients, rule, now)
      ensures forall log :: Current(windows, log, ruleKey, rule, now) ==> wait == RetryAfter(log, ruleKey, clients, rule, now)
    {
      hide Current, RetryAfter;
      var longest: Option<real> := None;
      for i := 0 to |clients|
        invariant longest == LongestStored(windows, ruleKey, clients[..i], rule, now)
      {
        assert clients[..i + 1][..i] == clients[..i];
        var timestamps := Of(windows, Key(ruleKey, clients[i]));
        if |timestamps| >= rule.threshold {
          longest := Larger(longest, timestamps[0] + rule.window as real - now);
        }
      }
      assert clients[..|clients|] == clients;
      wait := Ceiling(if longest.Some? then longest.value else rule.window as real);
      if wait < 1 { wait := 1; }
      forall log | Current(windows, log, ruleKey, rule, now) ensures wait == RetryAfter(log, ruleKey, clients, rule, now) {
        RetryMirrors(windows, log, ruleKey, clients, rule, now);
      }
    }

    /**
      One request, at any time.  If times have not decreased so far, the decision, and what is recorded,
      are those of the full log, and a denial says when to come back.  In any case windows stay within
      their thresholds, and other rule keys are untouched.
     */
    method Check(ruleKey: string, clients: seq<string>, rule: Rule, now: real) returns (decision: Decision)
      requires ValidRule(rule) && ruleKey in rules && rule == rules[ruleKey]
      modifies this
      ensures (windows, decision.allowed) == CheckIn(old(windows), ruleKey, clients, rule, now)
      ensures decision.retryAfter == if decision.allowed then 0 else RetryStored(windows, ruleKey, clients, rule, now)
      ensures old(Bounded(windows, rules)) ==> Bounded(windows, rules)
      ensures forall k: Key :: k.rule != ruleKey ==> Of(windows, k) == Of(old(windows), k)
      ensures old(Valid()) && old(clock) <= now ==>
        && Valid() && clock == now && history == old(history) + [Request(ruleKey, clients, now)]
        && (log, decision.allowed) == CheckLog(old(log), ruleKey, clients, rule, now)
        && (!decision.allowed ==>
              decision.retryAfter == RetryAfter(log, ruleKey, clients, rule, now) && 1 <= decision.retryAfter <= rule.window)
    {
      hide Bounded, AllowIn, Consistent;
      var allowed, i := true, 0;
      while allowed && i < |clients|
        modifies `windows
        invariant 0 <= i <= |clients|
        invariant CheckIn(old(windows), ruleKey, clients, rule, now) ==
          if allowed then CheckIn(windows, ruleKey, clients[i..], rule, now) else (windows, false)
        invariant forall k: Key :: k.rule != ruleKey ==> Of(windows, k) == Of(old(windows), k)
      {
        assert clients[i..][1..] == clients[i + 1..];
        allowed := Allow(ruleKey, clients[i], rule, now);
        if allowed { i := i + 1; }
      }
      assert clients[|clients|..] == [];
      var retry := 0;
      if !allowed { retry := RetryIn(ruleKey, clients, rule, now); }
      decision := Decision(allowed, retry);
      if old(Bounded(windows, rules)) { CheckKeepsBounded(old(windows), rules, ruleKey, clients, now); }
      InStep(old(windows), old(log), rules, old(clock), old(history), Request(ruleKey, clients, now));
      log := CheckLog(log, ruleKey, clients, rule, now).0;
      clock, history := now, history + [Request(ruleKey, clients, now)];
    }
  }

  ghost predicate Consistent(windows: Hits, log: Hits, rules: map<string, Rule>, clock: real, history: seq<Request>) {
    && ValidRules(rules) && Mirrors(windows, log, rules, clock)
    && log == RunLog(rules, history) && Monotone(history)
    && forall i :: 0 <= i < |history| ==> history[i].now <= clock && history[i].ruleKey in rules
  }

  /** A request that is not earlier than the last keeps the store in step, and its denial is that of the full log. */
  lemma {:induction false} InStep(windows: Hits, log: Hits, rules: map<string, Rule>, clock: real, history: seq<Request>, q: Request)
    requires q.ruleKey in rules
    ensures Consistent(windows, log, rules, clock, history) && clock <= q.now ==>
      var (after, allowed) := CheckIn(windows, q.ruleKey, q.clients, rules[q.ruleKey], q.now);
      var (log', admitted) := CheckLog(log, q.ruleKey, q.clients, rules[q.ruleKey], q.now);
      && allowed == admitted && Consistent(after, log', rules, q.now, history + [q])
      && (!allowed ==>
            var retry := RetryStored(after, q.ruleKey, q.clients, rules[q.ruleKey], q.now);
            retry == RetryAfter(log', q.ruleKey, q.clients, rules[q.ruleKey], q.now) && 1 <= retry <= rules[q.ruleKey].window)
  {
    hide Mirrors, Current, CheckIn, CheckLog, RunLog, RetryStored, RetryAfter;
    if Consistent(windows, log, rules, clock, history) && clock <= q.now {
      CheckMirrors(windows, log, rules, clock, q.ruleKey, q.clients, q.now);
      RunLogNext(rules, history, q);
      var (after, allowed) := CheckIn(windows, q.ruleKey, q.clients, rules[q.ruleKey], q.now);
      var log' := CheckLog(log, q.ruleKey, q.clients, rules[q.ruleKey], q.now).0;
      if !allowed {
        RetryMirrors(after, log', q.ruleKey, q.clients, rules[q.ruleKey], q.now);
        LaterMirrors(after, log', rules, q.now, q.now);
        RetryInWindow(log', rules, q.ruleKey, q.clients, q.now);
      }
    }
  }

  lemma {:induction false} RunLogNext(rules: map<string, Rule>, history: seq<Request>, request: Request)
    requires request.ruleKey in rules && Monotone(history)
    requires forall i :: 0 <= i < |history| ==> history[i].now <= request.now
    ensures RunLog(rules, history + [request]) ==
      CheckLog(RunLog(rules, history), request.ruleKey, request.clients, rules[request.ruleKey], request.now).0
    ensures Monotone(history + [request])
  {
    assert (history + [request])[..|history|] == history;
  }

  lemma LaterMirrors(windows: Hits, log: Hits, rules: map<string, Rule>, clock: real, now: real)
    requires Mirrors(windows, log, rules, clock) && clock <= now
    ensures Mirrors(windows, log, rules, now) && HitsOk(log, rules, now)
  {
  }

  lemma {:induction false} RecentTwice(ts: seq<real>, cutoff: real)
    ensures Recent(Recent(ts, cutoff), cutoff) == Recent(ts, cutoff)
  {
    if ts != [] {
      var n := |ts| - 1;
      RecentTwice(ts[..n], cutoff);
      RecentAppend(Recent(ts[..n], cutoff), ts[n], cutoff);
      assert ts == ts[..n] + [ts[n]];
      RecentAppend(ts[..n], ts[n], cutoff);
      assert Recent(ts[..n], cutoff) + [] == Recent(ts[..n], cutoff);
    }
  }
}
