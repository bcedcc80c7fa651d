/**
  The sliding window over the full log of recorded hits, and what it promises.
 */
module RateLimit {
  import opened Options

  datatype Rule = Rule(threshold: nat, window: nat)

  datatype Key = Key(rule: string, client: string)

  type Hits = map<Key, seq<real>>

  predicate ValidRule(rule: Rule) { rule.threshold >= 1 && rule.window >= 1 }

  function Of(hits: Hits, k: Key): seq<real> { if k in hits then hits[k] else [] }

  /** The hits that are not before the cutoff; one exactly at the cutoff stays. */
  function Recent(ts: seq<real>, cutoff: real): seq<real> {
    if ts == [] then []
    else Recent(ts[..|ts| - 1], cutoff) + if ts[|ts| - 1] >= cutoff then [ts[|ts| - 1]] else []
  }

  function Cutoff(rule: Rule, now: real): real { now - rule.window as real }

  predicate Admits(ts: seq<real>, rule: Rule, now: real) { |Recent(ts, Cutoff(rule, now))| < rule.threshold }

  function Record(log: Hits, k: Key, now: real): Hits { log[k := Of(log, k) + [now]] }

  /** One request: its keys are tried in order and recorded until one of them is full. */
  function CheckLog(log: Hits, ruleKey: string, clients: seq<string>, rule: Rule, now: real): (Hits, bool)
    decreases |clients|
  {
    if clients == [] then (log, true)
    else
      var k := Key(ruleKey, clients[0]);
      if Admits(Of(log, k), rule, now) then CheckLog(Record(log, k, now), ruleKey, clients[1..], rule, now)
      else (log, false)
  }

  function Larger(x: Option<real>, y: real): Option<real> {
    if x.Some? && x.value >= y then x else Some(y)
  }

  /** The longest wait until a full key loses its oldest hit. */
  function LongestWait(log: Hits, ruleKey: string, clients: seq<string>, rule: Rule, now: real): Option<real> {
    if clients == [] then None
    else
      var n := |clients| - 1;
      var rest := LongestWait(log, ruleKey, clients[..n], rule, now);
      var ts := Recent(Of(log, Key(ruleKey, clients[n])), Cutoff(rule, now));
      if |ts| >= rule.threshold && |ts| > 0 then Larger(rest, ts[0] + rule.window as real - now) else rest
  }

  function Ceiling(x: real): int { -(-x).Floor }

  function RetryAfter(log: Hits, ruleKey: string, clients: seq<string>, rule: Rule, now: real): int {
    var longest := LongestWait(log, ruleKey, clients, rule, now);
    var wait := Ceiling(if longest.Some? then longest.value else rule.window as real);
    if wait >= 1 then wait else 1
  }

  // ----- sorted logs -----

  ghost predicate Sorted(ts: seq<real>) { forall i, j :: 0 <= i < j < |ts| ==> ts[i] <= ts[j] }

  /** More than threshold hits never fit into one window. */
  ghost predicate Spaced(ts: seq<real>, rule: Rule) {
    forall i, j :: 0 <= i && i + rule.threshold <= j < |ts| ==> ts[i] + rule.window as real < ts[j]
  }

  ghost predicate LogOk(ts: seq<real>, rule: Rule, clock: real) {
    Sorted(ts) && Spaced(ts, rule) && forall i :: 0 <= i < |ts| ==> ts[i] <= clock
  }

  /** What is recent in a sorted log is a suffix of it. */
  lemma {:induction false} RecentIsSuffix(ts: seq<real>, cutoff: real)
    requires Sorted(ts)
    ensures |Recent(ts, cutoff)| <= |ts| && Recent(ts, cutoff) == ts[|ts| - |Recent(ts, cutoff)|..]
    ensures forall i :: 0 <= i < |ts| - |Recent(ts, cutoff)| ==> ts[i] < cutoff
    ensures forall i :: |ts| - |Recent(ts, cutoff)| <= i < |ts| ==> ts[i] >= cutoff
  {
    if ts != [] {
      var n := |ts| - 1;
      RecentIsSuffix(ts[..n], cutoff);
      var m := n - |Recent(ts[..n], cutoff)|;
      if ts[n] >= cutoff {
        SuffixGrows(ts, m);
      } else {
        SortedBelow(ts, cutoff);
        assert m == n;
      }
    }
  }

  lemma SuffixGrows(ts: seq<real>, m: nat)
    requires m < |ts|
    ensures ts[..|ts| - 1][m..] + [ts[|ts| - 1]] == ts[m..]
  {
  }

  lemma SortedBelow(ts: seq<real>, cutoff: real)
    requires Sorted(ts) && ts != [] && ts[|ts| - 1] < cutoff
    ensures forall i :: 0 <= i < |ts| - 1 ==> ts[..|ts| - 1][i] == ts[i] < cutoff
  {
  }

  /** A suffix split at the cutoff is what is recent. */
  lemma {:induction false} RecentIs(ts: seq<real>, cutoff: real, m: nat)
    requires Sorted(ts) && m <= |ts|
    requires forall i :: 0 <= i < m ==> ts[i] < cutoff
    requires forall i :: m <= i < |ts| ==> ts[i] >= cutoff
    ensures Recent(ts, cutoff) == ts[m..]
  {
    RecentIsSuffix(ts, cutoff);
    var k := |ts| - |Recent(ts, cutoff)|;
    var atM, atK := if m < |ts| then ts[m] else cutoff, if k < |ts| then ts[k] else cutoff;
  }

  /** Recording an admitted hit keeps the log sorted and spaced. */
  lemma RecordOk(ts: seq<real>, rule: Rule, now: real)
    requires LogOk(ts, rule, now) && Admits(ts, rule, now) && rule.threshold >= 1
    ensures LogOk(ts + [now], rule, now)
  {
    var cutoff := Cutoff(rule, now);
    RecentIsSuffix(ts, cutoff);
    var longer := ts + [now];
    forall i, j | 0 <= i && i + rule.threshold <= j < |longer| ensures longer[i] + rule.window as real < longer[j] {
      if j == |ts| { assert ts[i] < cutoff; }
    }
  }

  // ----- whole runs -----

  datatype Request = Request(ruleKey: string, clients: seq<string>, now: real)

  /** All that was recorded by a run of requests, each rule key with its own fixed rule. */
  function RunLog(rules: map<string, Rule>, requests: seq<Request>): Hits {
    if requests == [] then map[]
    else
      var last := requests[|requests| - 1];
      var log := RunLog(rules, requests[..|requests| - 1]);
      if last.ruleKey in rules then CheckLog(log, last.ruleKey, last.clients, rules[last.ruleKey], last.now).0 else log
  }

  ghost predicate ValidRules(rules: map<string, Rule>) { forall r :: r in rules ==> ValidRule(rules[r]) }

  ghost predicate Monotone(requests: seq<Request>) {
    forall i, j :: 0 <= i < j < |requests| ==> requests[i].now <= requests[j].now
  }

  ghost predicate HitsOk(hits: Hits, rules: map<string, Rule>, clock: real) {
    forall k :: k in hits ==> k.rule in rules && LogOk(hits[k], rules[k.rule], clock)
  }

  lemma {:induction false} CheckOk(log: Hits, rules: map<string, Rule>, ruleKey: string, clients: seq<string>, now: real)
    requires ValidRules(rules) && ruleKey in rules && HitsOk(log, rules, now)
    ensures HitsOk(CheckLog(log, ruleKey, clients, rules[ruleKey], now).0, rules, now)
    decreases |clients|
  {
    if clients != [] {
      var k := Key(ruleKey, clients[0]);
      if Admits(Of(log, k), rules[ruleKey], now) {
        RecordOk(Of(log, k), rules[ruleKey], now);
        CheckOk(Record(log, k, now), rules, ruleKey, clients[1..], now);
      }
    }
  }

  lemma {:induction false} RunOk(rules: map<string, Rule>, requests: seq<Request>, clock: real)
    requires ValidRules(rules) && Monotone(requests)
    requires forall i :: 0 <= i < |requests| ==> requests[i].now <= clock
    ensures HitsOk(RunLog(rules, requests), rules, clock)
  {
    if requests != [] {
      var last := requests[|requests| - 1];
      RunOk(rules, requests[..|requests| - 1], last.now);
      if last.ruleKey in rules {
        CheckOk(RunLog(rules, requests[..|requests| - 1]), rules, last.ruleKey, last.clients, last.now);
      }
    }
  }

  /** The hits in a closed interval. */
  function Within(ts: seq<real>, from: real, to: real): seq<real> {
    if ts == [] then []
    else Within(ts[..|ts| - 1], from, to) + if from <= ts[|ts| - 1] <= to then [ts[|ts| - 1]] else []
  }

  lemma {:induction false} WithinCount(ts: seq<real>, from: real, to: real, m: nat)
    requires m <= |ts| && forall i :: 0 <= i < m ==> ts[i] < from
    ensures |Within(ts, from, to)| <= |ts| - m
  {
    if |ts| > m {
      WithinCount(ts[..|ts| - 1], from, to, m);
    } else if ts != [] {
      WithinCount(ts[..|ts| - 1], from, to, m - 1);
    }
  }

  lemma {:induction false} WindowIsBounded(ts: seq<real>, rule: Rule, from: real)
    requires Spaced(ts, rule)
    ensures |Within(ts, from, from + rule.window as real)| <= rule.threshold
  {
    if ts != [] {
      var n := |ts| - 1;
      WindowIsBounded(ts[..n], rule, from);
      if from <= ts[n] <= from + rule.window as real && n >= rule.threshold {
        forall i | 0 <= i < n + 1 - rule.threshold ensures ts[i] < from { }
        WithinCount(ts, from, from + rule.window as real, n + 1 - rule.threshold);
      } else if n < rule.threshold {
        WithinCount(ts, from, from + rule.window as real, 0);
      }
    }
  }

  /** On every run no key has more than threshold recorded hits in any closed interval of length window. */
  lemma NeverOverThreshold(rules: map<string, Rule>, requests: seq<Request>, k: Key, from: real)
    requires ValidRules(rules) && Monotone(requests) && k.rule in rules
    ensures |Within(Of(RunLog(rules, requests), k), from, from + rules[k.rule].window as real)| <= rules[k.rule].threshold
  {
    var clock := if requests == [] then 0.0 else requests[|requests| - 1].now;
    RunOk(rules, requests, clock);
    WindowIsBounded(Of(RunLog(rules, requests), k), rules[k.rule], from);
  }

  // ----- which keys a request records -----

  ghost predicate Distinct(clients: seq<string>) {
    forall i, j :: 0 <= i < j < |clients| ==> clients[i] != clients[j]
  }

  /** now is recorded for exactly the first n of the keys. */
  ghost predicate RecordsFirst(log: Hits, log': Hits, ruleKey: string, clients: seq<string>, n: nat, now: real) {
    n <= |clients|
    && (forall i :: 0 <= i < n ==> Of(log', Key(ruleKey, clients[i])) == Of(log, Key(ruleKey, clients[i])) + [now])
    && (forall k: Key :: k.rule != ruleKey || k.client !in clients[..n] ==> Of(log', k) == Of(log, k))
  }

  /** The keys of a request that admit it, up to the first that does not. */
  function AdmittedPrefix(log: Hits, ruleKey: string, clients: seq<string>, rule: Rule, now: real): (n: nat)
    ensures n <= |clients|
    ensures forall i :: 0 <= i < n ==> Admits(Of(log, Key(ruleKey, clients[i])), rule, now)
    ensures n < |clients| ==> !Admits(Of(log, Key(ruleKey, clients[n])), rule, now)
  {
    if clients == [] || !Admits(Of(log, Key(ruleKey, clients[0])), rule, now) then 0
    else
      assert clients[1..][..] == clients[1..];
      1 + AdmittedPrefix(log, ruleKey, clients[1..], rule, now)
  }

  lemma {:induction false} PrefixElsewhere(log: Hits, log': Hits, ruleKey: string, clients: seq<string>, rule: Rule, now: real)
    requires forall i :: 0 <= i < |clients| ==> Of(log', Key(ruleKey, clients[i])) == Of(log, Key(ruleKey, clients[i]))
    ensures AdmittedPrefix(log', ruleKey, clients, rule, now) == AdmittedPrefix(log, ruleKey, clients, rule, now)
  {
    if clients != [] && Admits(Of(log, Key(ruleKey, clients[0])), rule, now) {
      forall i | 0 <= i < |clients| - 1
        ensures Of(log', Key(ruleKey, clients[1..][i])) == Of(log, Key(ruleKey, clients[1..][i]))
      {
        assert clients[1..][i] == clients[i + 1];
      }
      PrefixElsewhere(log, log', ruleKey, clients[1..], rule, now);
    }
  }

  /**
    With distinct keys a request is accepted exactly when each of them is below its threshold; a
    denied one is recorded for the keys before the first full one, and nothing else changes.
   */
  lemma {:induction false} RecordsPrefix(log: Hits, ruleKey: string, clients: seq<string>, rule: Rule, now: real)
    requires Distinct(clients)
    ensures var n := AdmittedPrefix(log, ruleKey, clients, rule, now);
      var (log', allowed) := CheckLog(log, ruleKey, clients, rule, now);
      RecordsFirst(log, log', ruleKey, clients, n, now) && (allowed <==> n == |clients|)
    decreases |clients|
  {
    if clients != [] && Admits(Of(log, Key(ruleKey, clients[0])), rule, now) {
      var k := Key(ruleKey, clients[0]);
      var rest := clients[1..];
      var mid := Record(log, k, now);
      forall i | 0 <= i < |rest| ensures Of(mid, Key(ruleKey, rest[i])) == Of(log, Key(ruleKey, rest[i])) {
        assert rest[i] == clients[i + 1];
      }
      PrefixElsewhere(log, mid, ruleKey, rest, rule, now);
      RecordsPrefix(mid, ruleKey, rest, rule, now);
      var n := AdmittedPrefix(log, ruleKey, rest, rule, now);
      RecordsOneMore(log, mid, CheckLog(mid, ruleKey, rest, rule, now).0, ruleKey, clients, n, now);
    }
  }

  lemma RecordsOneMore(log: Hits, mid: Hits, log': Hits, ruleKey: string, clients: seq<string>, n: nat, now: real)
    requires clients != [] && Distinct(clients) && mid == Record(log, Key(ruleKey, clients[0]), now)
    requires RecordsFirst(mid, log', ruleKey, clients[1..], n, now)
    ensures RecordsFirst(log, log', ruleKey, clients, n + 1, now)
  {
    var rest := clients[1..];
    forall i | 0 <= i < n + 1 ensures Of(log', Key(ruleKey, clients[i])) == Of(log, Key(ruleKey, clients[i])) + [now] {
      if i == 0 {
        assert clients[0] !in rest[..n];
      } else {
        assert clients[i] == rest[i - 1];
      }
    }
    forall k: Key | k.rule != ruleKey || k.client !in clients[..n + 1] ensures Of(log', k) == Of(log, k) {
      if k.rule == ruleKey {
        assert clients[0] in clients[..n + 1];
        assert forall i :: 0 <= i < n ==> rest[..n][i] == clients[..n + 1][i + 1];
      }
    }
  }

  // ----- when to come back -----

  /** A log that is full at now has exactly threshold recent hits, and admits again once the oldest is out. */
  lemma {:induction false} AdmitsLater(ts: seq<real>, rule: Rule, now: real, later: real)
    requires LogOk(ts, rule, now) && ValidRule(rule) && now <= later
    ensures var recent := Recent(ts, Cutoff(rule, now));
      && |recent| <= rule.threshold
      && (Admits(ts, rule, later) <==> |recent| < rule.threshold || recent[0] < Cutoff(rule, later))
      && forall i :: 0 <= i < |recent| ==> Cutoff(rule, now) <= recent[i] <= now
  {
    RecentIsSuffix(ts, Cutoff(rule, now));
    RecentIsSuffix(ts, Cutoff(rule, later));
    var m := |ts| - |Recent(ts, Cutoff(rule, now))|;
    var k := |ts| - |Recent(ts, Cutoff(rule, later))|;
    var atCutoff, atLater := if m < |ts| then ts[m] else now, if k < |ts| then ts[k] else later;
    var latest := if ts == [] then now else ts[|ts| - 1];
  }

  /** The wait of key i, when it is full. */
  predicate Full(log: Hits, k: Key, rule: Rule, now: real) { |Recent(Of(log, k), Cutoff(rule, now))| >= rule.threshold }

  function Wait(log: Hits, k: Key, rule: Rule, now: real): real
    requires Full(log, k, rule, now) && ValidRule(rule)
  {
    Recent(Of(log, k), Cutoff(rule, now))[0] + rule.window as real - now
  }

  /** The longest wait is the wait of a full key, and no full key waits longer. */
  lemma {:induction false} LongestWaitIs(log: Hits, ruleKey: string, clients: seq<string>, rule: Rule, now: real)
    requires ValidRule(rule)
    ensures var longest := LongestWait(log, ruleKey, clients, rule, now);
      && (forall i :: 0 <= i < |clients| && Full(log, Key(ruleKey, clients[i]), rule, now) ==>
            longest.Some? && Wait(log, Key(ruleKey, clients[i]), rule, now) <= longest.value)
      && (longest.Some? ==> exists i :: 0 <= i < |clients| && Full(log, Key(ruleKey, clients[i]), rule, now)
                                        && Wait(log, Key(ruleKey, clients[i]), rule, now) == longest.value)
  {
    if clients != [] {
      var n := |clients| - 1;
      LongestWaitIs(log, ruleKey, clients[..n], rule, now);
      assert forall i :: 0 <= i < n ==> clients[..n][i] == clients[i];
      if Full(log, Key(ruleKey, clients[n]), rule, now) {
        var own := Wait(log, Key(ruleKey, clients[n]), rule, now);
      }
    }
  }

  lemma CeilingIs(x: real)
    ensures x <= Ceiling(x) as real < x + 1.0
  {
  }

  /** The Retry-After of a denial is between one second and the window, and covers every full key. */
  lemma RetryInWindow(log: Hits, rules: map<string, Rule>, ruleKey: string, clients: seq<string>, now: real)
    requires ValidRules(rules) && ruleKey in rules && HitsOk(log, rules, now)
    ensures var rule := rules[ruleKey];
      var retry := RetryAfter(log, ruleKey, clients, rule, now);
      && 1 <= retry <= rule.window
      && forall i :: 0 <= i < |clients| && Full(log, Key(ruleKey, clients[i]), rule, now) ==>
           Wait(log, Key(ruleKey, clients[i]), rule, now) <= retry as real
  {
    var rule := rules[ruleKey];
    LongestWaitIs(log, ruleKey, clients, rule, now);
    var longest := LongestWait(log, ruleKey, clients, rule, now);
    if longest.Some? {
      var i :| 0 <= i < |clients| && Full(log, Key(ruleKey, clients[i]), rule, now)
               && Wait(log, Key(ruleKey, clients[i]), rule, now) == longest.value;
      AdmitsLater(Of(log, Key(ruleKey, clients[i])), rule, now, now);
      CeilingIs(longest.value);
    }
  }

  /** No smaller number of whole seconds covers every full key, and without a full key Retry-After is the window. */
  lemma RetryIsLeast(log: Hits, ruleKey: string, clients: seq<string>, rule: Rule, now: real)
    requires ValidRule(rule)
    ensures var retry := RetryAfter(log, ruleKey, clients, rule, now);
      || retry == 1
      || (exists i :: 0 <= i < |clients| && Full(log, Key(ruleKey, clients[i]), rule, now)
                      && Wait(log, Key(ruleKey, clients[i]), rule, now) > (retry - 1) as real)
      || (retry == rule.window && forall i :: 0 <= i < |clients| ==> !Full(log, Key(ruleKey, clients[i]), rule, now))
  {
    hide LongestWait;
    LongestWaitIs(log, ruleKey, clients, rule, now);
    var longest := LongestWait(log, ruleKey, clients, rule, now);
    CeilingIs(if longest.Some? then longest.value else rule.window as real);
  }

  /**
    With no request in between, a retry strictly later than now + retry finds every key below its
    threshold and is accepted.
   */
  lemma {:induction false} RetryIsAccepted(log: Hits, rules: map<string, Rule>, ruleKey: string, clients: seq<string>, now: real, later: real)
    requires ValidRules(rules) && ruleKey in rules && HitsOk(log, rules, now) && Distinct(clients)
    requires later > now + RetryAfter(log, ruleKey, clients, rules[ruleKey], now) as real
    ensures CheckLog(log, ruleKey, clients, rules[ruleKey], later).1
  {
    var rule := rules[ruleKey];
    RetryInWindow(log, rules, ruleKey, clients, now);
    forall i | 0 <= i < |clients| ensures Admits(Of(log, Key(ruleKey, clients[i])), rule, later) {
      var k := Key(ruleKey, clients[i]);
      AdmitsLater(Of(log, k), rule, now, later);
      assert Full(log, k, rule, now) ==> Wait(log, k, rule, now) <= RetryAfter(log, ruleKey, clients, rule, now) as real;
    }
    RecordsPrefix(log, ruleKey, clients, rule, later);
  }

  /**
    A retry at exactly now + retry is still denied precisely when the longest wait is a whole number
    of seconds: the oldest hit then sits on the closed end of the window.
   */
  lemma {:induction false} RetryOnTheDot(log: Hits, rules: map<string, Rule>, ruleKey: string, clients: seq<string>, now: real)
    requires ValidRules(rules) && ruleKey in rules && HitsOk(log, rules, now) && Distinct(clients)
    ensures var retry := RetryAfter(log, ruleKey, clients, rules[ruleKey], now);
      CheckLog(log, ruleKey, clients, rules[ruleKey], now + retry as real).1 <==>
      LongestWait(log, ruleKey, clients, rules[ruleKey], now) != Some(retry as real)
  {
    var rule := rules[ruleKey];
    var retry := RetryAfter(log, ruleKey, clients, rule, now);
    var later := now + retry as real;
    RetryInWindow(log, rules, ruleKey, clients, now);
    LongestWaitIs(log, ruleKey, clients, rule, now);
    var longest := LongestWait(log, ruleKey, clients, rule, now);
    forall i | 0 <= i < |clients|
      ensures var k := Key(ruleKey, clients[i]);
        Admits(Of(log, k), rule, later) <==> !(Full(log, k, rule, now) && Wait(log, k, rule, now) == retry as real)
    {
      var k := Key(ruleKey, clients[i]);
      AdmitsLater(Of(log, k), rule, now, later);
      assert Full(log, k, rule, now) ==> Wait(log, k, rule, now) <= retry as real;
    }
    RecordsPrefix(log, ruleKey, clients, rule, later);
    if longest == Some(retry as real) {
      var i :| 0 <= i < |clients| && Full(log, Key(ruleKey, clients[i]), rule, now)
               && Wait(log, Key(ruleKey, clients[i]), rule, now) == longest.value;
      assert !Admits(Of(log, Key(ruleKey, clients[i])), rule, later);
    } else {
      forall i | 0 <= i < |clients| ensures Admits(Of(log, Key(ruleKey, clients[i])), rule, later) {
        var k := Key(ruleKey, clients[i]);
        if Full(log, k, rule, now) {
          assert Wait(log, k, rule, now) <= longest.value;
          CeilingIs(longest.value);
        }
      }
    }
  }

  /**
    An input for it: a limit of one, whatever the window.  A first request at 0 is accepted, a second
    one is told to come back after the whole window, and when it does exactly then it is denied again.
   */
  lemma {:induction false} ComingBackOnTheDot(ruleKey: string, client: string, window: nat)
    requires window >= 1
    ensures var rule, w := Rule(1, window), window as real;
      var first := CheckLog(map[], ruleKey, [client], rule, 0.0);
      && first.1 && !CheckLog(first.0, ruleKey, [client], rule, 0.0).1
      && RetryAfter(first.0, ruleKey, [client], rule, 0.0) == window
      && !CheckLog(first.0, ruleKey, [client], rule, w).1
  {
    var rule, k := Rule(1, window), Key(ruleKey, client);
    var log := Record(map[], k, 0.0);
    assert [client][1..] == [] && [client][..0] == [];
    assert Of(log, k) == [0.0] && [0.0][..0] == [];
    assert Recent([0.0], Cutoff(rule, 0.0)) == [0.0] && Recent([0.0], Cutoff(rule, window as real)) == [0.0];
    assert Recent(Of(map[], k), Cutoff(rule, 0.0)) == [];
    assert CheckLog(map[], ruleKey, [client], rule, 0.0) == (log, true);
    assert LongestWait(log, ruleKey, [], rule, 0.0) == None;
    assert LongestWait(log, ruleKey, [client], rule, 0.0) == Some(window as real);
  }
}
