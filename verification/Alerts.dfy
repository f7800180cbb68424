/** The alert queue of the screen manager: a rate limit per type and round, a bounded queue, one alert on
    the screen at a time. Time is the millisecond clock, which does not run backwards. */
module Alerts {
  import opened Bytes

  datatype AlertType = Info | Warn | Error

  datatype Alert = Alert(kind: AlertType, title: string, durationMs: nat)

  datatype Rule = Rule(maxPerTypePerRound: uint8, roundMs: nat, maxQueue: uint8)

  /** An alert that was let in, with the time and the number of the round. */
  datatype Entry = Entry(alert: Alert, time: nat, round: nat)

  /** What became of an alert that has left the queue. */
  datatype Fate = Shown | DroppedOldest | Cleared

  // ---- the rate limit ----------------------------------------------------------------------

  function InRound(log: seq<Entry>, kind: AlertType, round: int): nat {
    if log == [] then 0
    else InRound(log[..|log| - 1], kind, round)
         + (if log[|log| - 1].alert.kind == kind && log[|log| - 1].round == round then 1 else 0)
  }

  /** Accepted alerts of a type with a time in [from, to]. */
  function InWindow(log: seq<Entry>, kind: AlertType, from: int, to: int): nat {
    if log == [] then 0
    else InWindow(log[..|log| - 1], kind, from, to)
         + (if log[|log| - 1].alert.kind == kind && from <= log[|log| - 1].time <= to then 1 else 0)
  }

  /** Rounds start more than roundMs apart, and every alert was accepted within roundMs of its round's start. */
  ghost predicate Rounds(log: seq<Entry>, starts: seq<nat>, roundMs: nat) {
    && (forall i, j :: 0 <= i < j < |starts| ==> starts[i] + roundMs < starts[j])
    && (forall k :: 0 <= k < |log| ==>
          log[k].round < |starts| && starts[log[k].round] <= log[k].time <= starts[log[k].round] + roundMs)
  }

  ghost predicate Limited(log: seq<Entry>, limit: nat) {
    forall kind, round :: InRound(log, kind, round) <= limit
  }

  lemma {:induction false} WindowInTwoRounds(log: seq<Entry>, kind: AlertType, from: int, to: int, round: int)
    requires forall k :: 0 <= k < |log| && from <= log[k].time <= to ==>
             log[k].round == round || log[k].round == round + 1
    ensures InWindow(log, kind, from, to) <= InRound(log, kind, round) + InRound(log, kind, round + 1)
  {
    if log != [] {
      WindowInTwoRounds(log[..|log| - 1], kind, from, to, round);
    }
  }

  lemma RoundsApart(starts: seq<nat>, roundMs: nat, i: int, j: int)
    requires forall a, b :: 0 <= a < b < |starts| ==> starts[a] + roundMs < starts[b]
    ensures 0 <= i && i + 1 < j < |starts| ==> starts[i] + 2 * roundMs < starts[j]
  {
    if 0 <= i && i + 1 < j < |starts| {
      assert starts[i] + roundMs < starts[i + 1] && starts[i + 1] + roundMs < starts[j];
    }
  }

  /** The first round that a window meets; it can only meet the next one besides. */
  lemma {:induction false} FirstRound(log: seq<Entry>, starts: seq<nat>, roundMs: nat, from: int) returns (round: int)
    requires Rounds(log, starts, roundMs)
    ensures forall k :: 0 <= k < |log| && from <= log[k].time <= from + roundMs ==>
              log[k].round == round || log[k].round == round + 1
  {
    // the first round that is not over before the window begins
    round := 0;
    while round < |starts| && starts[round] + roundMs < from
      invariant 0 <= round <= |starts|
      invariant forall i :: 0 <= i < round ==> starts[i] + roundMs < from
    {
      round := round + 1;
    }
    forall k | 0 <= k < |log| && from <= log[k].time <= from + roundMs
      ensures log[k].round == round || log[k].round == round + 1
    {
      RoundsApart(starts, roundMs, round, log[k].round);
    }
  }

  /** No window as long as a round, wherever it begins, sees more than twice the limit of one type. */
  lemma WindowLimit(log: seq<Entry>, starts: seq<nat>, rule: Rule, kind: AlertType, from: int)
    requires Rounds(log, starts, rule.roundMs) && Limited(log, rule.maxPerTypePerRound)
    ensures InWindow(log, kind, from, from + rule.roundMs) <= 2 * rule.maxPerTypePerRound
  {
    var round := FirstRound(log, starts, rule.roundMs, from);
    WindowInTwoRounds(log, kind, from, from + rule.roundMs, round);
    assert InRound(log, kind, round) <= rule.maxPerTypePerRound;
    assert InRound(log, kind, round + 1) <= rule.maxPerTypePerRound;
  }

  function AlertsOf(log: seq<Entry>): (s: seq<Alert>)
    ensures |s| == |log|
  {
    seq(|log|, i requires 0 <= i < |log| => log[i].alert)
  }

  function Gone(out: seq<(Alert, Fate)>): (s: seq<Alert>)
    ensures |s| == |out|
  {
    seq(|out|, i requires 0 <= i < |out| => out[i].0)
  }

  /** A new round has no alerts yet; a new alert counts for its own type and round only. */
  lemma {:induction false} FreshRound(log: seq<Entry>, kind: AlertType, round: int)
    requires forall k :: 0 <= k < |log| ==> log[k].round < round
    ensures InRound(log, kind, round) == 0
  {
    if log != [] {
      FreshRound(log[..|log| - 1], kind, round);
    }
  }

  lemma OneMore(log: seq<Entry>, e: Entry, kind: AlertType, round: int)
    ensures InRound(log + [e], kind, round)
         == InRound(log, kind, round) + if e.alert.kind == kind && e.round == round then 1 else 0
  {
    assert (log + [e])[..|log|] == log;
  }

  function Index(kind: AlertType): nat {
    match kind
    case Info => 0
    case Warn => 1
    case Error => 2
  }

  /** The counters of the current round. */
  ghost predicate Counted(used: seq<uint8>, log: seq<Entry>, round: int) {
    |used| == 8 && forall kind :: used[Index(kind)] == InRound(log, kind, round)
  }

  lemma CountMore(used: seq<uint8>, log: seq<Entry>, e: Entry, limit: uint8)
    requires Counted(used, log, e.round) && Limited(log, limit) && used[Index(e.alert.kind)] < limit
    ensures Counted(used[Index(e.alert.kind) := used[Index(e.alert.kind)] + 1], log + [e], e.round)
    ensures Limited(log + [e], limit)
  {
    forall kind, round
      ensures InRound(log + [e], kind, round)
           == InRound(log, kind, round) + if kind == e.alert.kind && round == e.round then 1 else 0
    {
      OneMore(log, e, kind, round);
    }
  }

  lemma CountNone(used: seq<uint8>, log: seq<Entry>, round: int)
    requires |used| == 8 && forall i :: 0 <= i < 8 ==> used[i] == 0
    requires forall k :: 0 <= k < |log| ==> log[k].round < round
    ensures Counted(used, log, round)
  {
    forall kind ensures InRound(log, kind, round) == 0 {
      FreshRound(log, kind, round);
    }
  }

  function Clearing(q: seq<Alert>): (s: seq<(Alert, Fate)>)
    ensures |s| == |q|
  {
    seq(|q|, i requires 0 <= i < |q| => (q[i], Cleared))
  }

  class ScreenManager {
    const alertRule: Rule
    var q: seq<Alert>
    var roundStart: nat
    var usedPerType: seq<uint8>
    var showing: bool
    var until: nat
    var cur: Alert
    ghost var now: nat                    // the latest time seen
    ghost var log: seq<Entry>             // every accepted alert
    ghost var starts: seq<nat>            // the start of every round
    ghost var out: seq<(Alert, Fate)>     // every alert that has left the queue, in order

    /** Accepted alerts leave in order: those that have left, then those that wait, are all there were. */
    ghost predicate Valid()
      reads this
    {
      && alertRule.maxQueue >= 1 && |q| <= alertRule.maxQueue
      && AlertsOf(log) == Gone(out) + q
      && |starts| > 0 && starts[|starts| - 1] == roundStart <= now
      && Rounds(log, starts, alertRule.roundMs) && Limited(log, alertRule.maxPerTypePerRound)
      && (forall k :: 0 <= k < |log| ==> log[k].time <= now)
      && Counted(usedPerType, log, |starts| - 1)
    }

    constructor (rule: Rule)
      requires rule.maxQueue >= 1
      ensures Valid() && alertRule == rule && q == [] && log == [] && !showing
    {
      alertRule := rule;
      q, roundStart, showing, until := [], 0, false, 0;
      cur := Alert(Info, "", 8000);
      usedPerType := [0, 0, 0, 0, 0, 0, 0, 0];
      now, log, starts, out := 0, [], [0], [];
    }

    method NewRound(millis: nat)
      requires Valid() && now == millis && millis - roundStart > alertRule.roundMs
      modifies this`roundStart, this`usedPerType, this`starts
      ensures Valid() && starts == old(starts) + [millis] && roundStart == millis
    {
      hide Counted, Limited;
      roundStart := millis;
      usedPerType := [0, 0, 0, 0, 0, 0, 0, 0];
      starts := starts + [millis];
      CountNone(usedPerType, log, |starts| - 1);
    }

    /** Accept an alert unless its type has used up the round; a full queue loses its oldest alert. */
    method PushAlert(a: Alert, millis: nat) returns (accepted: bool)
      requires Valid() && now <= millis
      modifies this
      ensures Valid() && now == millis
      ensures accepted <==> InRound(old(log), a.kind, |starts| - 1) < alertRule.maxPerTypePerRound
      ensures starts == if millis - old(roundStart) > alertRule.roundMs then old(starts) + [millis] else old(starts)
      ensures if accepted then log == old(log) + [Entry(a, millis, |starts| - 1)] else log == old(log)
      ensures if !accepted then q == old(q) && out == old(out)
              else if |old(q)| >= alertRule.maxQueue then
                q == old(q)[1..] + [a] && out == old(out) + [(old(q)[0], DroppedOldest)]
              else q == old(q) + [a] && out == old(out)
      ensures showing == old(showing) && until == old(until) && cur == old(cur)
    {
      hide Limited, Counted, Rounds, AlertsOf, Gone;
      now := millis;
      if millis - roundStart > alertRule.roundMs {
        NewRound(millis);
      }
      CountedSize(usedPerType, log, |starts| - 1, a.kind);
      var t := Index(a.kind);
      if usedPerType[t] >= alertRule.maxPerTypePerRound {
        return false;
      }
      Enqueue(a);
      return true;
    }

    method DropOldest()
      requires Valid() && |q| >= alertRule.maxQueue
      modifies this`q, this`out
      ensures Valid() && q == old(q)[1..] && out == old(out) + [(old(q)[0], DroppedOldest)]
    {
      hide Limited, Counted, Gone, Rounds;
      Retire(out, q, DroppedOldest);
      out := out + [(q[0], DroppedOldest)];
      q := q[1..];
    }

    method Enqueue(a: Alert)
      requires Valid() && now - roundStart <= alertRule.roundMs
      requires usedPerType[Index(a.kind)] < alertRule.maxPerTypePerRound
      modifies this`q, this`usedPerType, this`log, this`out
      ensures Valid() && log == old(log) + [Entry(a, now, |starts| - 1)]
      ensures if |old(q)| >= alertRule.maxQueue then
                q == old(q)[1..] + [a] && out == old(out) + [(old(q)[0], DroppedOldest)]
              else q == old(q) + [a] && out == old(out)
    {
      hide Limited, Counted, Gone, Rounds;
      if |q| >= alertRule.maxQueue {
        DropOldest();
      }
      StillInRounds(log, starts, alertRule.roundMs, a, now);
      ghost var e := Entry(a, now, |starts| - 1);
      CountMore(usedPerType, log, e, alertRule.maxPerTypePerRound);
      CountedSize(usedPerType, log, |starts| - 1, a.kind);
      usedPerType := usedPerType[Index(a.kind) := usedPerType[Index(a.kind)] + 1];
      q := q + [a];
      assert AlertsOf(log + [e]) == AlertsOf(log) + [a];
      log := log + [e];
    }

    method ClearAlerts()
      requires Valid()
      modifies this`q, this`out
      ensures Valid() && q == [] && out == old(out) + Clearing(old(q))
    {
      hide Limited, Counted;
      assert Gone(out + Clearing(q)) + [] == Gone(out) + q;
      out := out + Clearing(q);
      q := [];
    }

    /** An alert on the screen stays until its time is up; then the oldest waiting one takes its place. */
    method DrawAlert(millis: nat)
      requires Valid() && now <= millis
      modifies this
      ensures Valid() && log == old(log) && starts == old(starts)
      ensures if old(showing) && millis < old(until) then
                q == old(q) && out == old(out) && showing && cur == old(cur) && until == old(until)
              else if old(q) != [] then
                && q == old(q)[1..] && out == old(out) + [(old(q)[0], Shown)]
                && showing && cur == old(q)[0] && until == millis + cur.durationMs
              else q == old(q) && out == old(out) && !showing
    {
      hide Limited, Counted, Rounds, AlertsOf, Gone;
      now := millis;
      if showing && millis < until {
        return;
      }
      if q != [] {
        Retire(out, q, Shown);
        cur := q[0];
        out := out + [(q[0], Shown)];
        q := q[1..];
        showing := true;
        until := millis + cur.durationMs;
      } else {
        showing := false;
      }
    }
  }

  lemma StillInRounds(log: seq<Entry>, starts: seq<nat>, roundMs: nat, a: Alert, now: nat)
    requires Rounds(log, starts, roundMs) && |starts| > 0
             && starts[|starts| - 1] <= now <= starts[|starts| - 1] + roundMs
    ensures Rounds(log + [Entry(a, now, |starts| - 1)], starts, roundMs)
  {
  }

  lemma Retire(out: seq<(Alert, Fate)>, q: seq<Alert>, fate: Fate)
    requires q != []
    ensures Gone(out + [(q[0], fate)]) + q[1..] == Gone(out) + q
  {
    assert Gone(out + [(q[0], fate)]) == Gone(out) + [q[0]];
  }

  lemma CountedSize(used: seq<uint8>, log: seq<Entry>, round: int, kind: AlertType)
    requires Counted(used, log, round)
    ensures |used| == 8 && used[Index(kind)] == InRound(log, kind, round)
  {
  }
}
