/**
 The loop that watches the two trigger files. Each pass looks at the modification time of `update`,
 then at that of `reload`, and loads the data when a time is newer than the last one it acted on.
 */
module ReloadPolling {
  import opened Wrappers

  /** A trigger file as a pass finds it: when it was touched, and whether the load it asks for works. */
  datatype Seen = Seen(modified: int, loads: bool)

  datatype Poll = Poll(update: Option<Seen>, reload: Option<Seen>)

  /** A load: truncating for `reload`, on top of the old data for `update`. */
  datatype Served = Served(truncate: bool, time: int)

  /** A failing load ends the loop for good. */
  datatype State = State(lastTime: int, running: bool, loads: seq<Served>)

  function React(s: State, seen: Option<Seen>, truncate: bool): State {
    if s.running && seen.Some? && seen.value.modified > s.lastTime
    then State(seen.value.modified, seen.value.loads, s.loads + [Served(truncate, seen.value.modified)])
    else s
  }

  function Step(s: State, p: Poll): State {
    React(React(s, p.update, false), p.reload, true)
  }

  function Run(s: State, polls: seq<Poll>): State {
    if polls == [] then s else Step(Run(s, polls[..|polls| - 1]), polls[|polls| - 1])
  }

  // ---- the program ------------------------------------------------------------------------

  /** `reload_data`; the loads it starts are recorded in order. */
  class Reloader {
    var lastTime: int
    var running: bool
    var loads: seq<Served>

    function Value(): State
      reads this
    {
      State(lastTime, running, loads)
    }

    constructor (now: int)
      ensures Value() == State(now, true, [])
    {
      lastTime := now;
      running := true;
      loads := [];
    }

    /** One pass of the loop. */
    method Pass(p: Poll)
      modifies this
      ensures Value() == Step(old(Value()), p)
    {
      if !running {
        return;
      }
      if p.update.Some? {
        var modified := p.update.value.modified;
        if modified > lastTime {
          lastTime := modified;
          loads := loads + [Served(false, modified)];
          if !p.update.value.loads {
            running := false;
            return;
          }
        }
      }
      if p.reload.Some? {
        var modified := p.reload.value.modified;
        if modified > lastTime {
          lastTime := modified;
          loads := loads + [Served(true, modified)];
          if !p.reload.value.loads {
            running := false;
          }
        }
      }
    }

    /** The loop, for as long as it has been running. */
    method Loop(polls: seq<Poll>)
      modifies this
      ensures Value() == Run(old(Value()), polls)
    {
      for i := 0 to |polls|
        invariant Value() == Run(old(Value()), polls[..i])
      {
        Pass(polls[i]);
        assert polls[..i + 1][..i] == polls[..i];
      }
      assert polls[..|polls|] == polls;
    }
  }

  /** After any passes a loop that is still running serves an update touched later than all it has acted on. */
  lemma NewTouchIsServed(s: State, polls: seq<Poll>, p: Poll)
    requires Run(s, polls).running && p.update.Some? && p.update.value.modified > Run(s, polls).lastTime
    ensures Run(s, []) == s
    ensures Run(s, polls).loads <= Run(s, polls + [p]).loads
    ensures |Run(s, polls + [p]).loads| > |Run(s, polls).loads|
    ensures Run(s, polls + [p]).loads[|Run(s, polls).loads|] == Served(false, p.update.value.modified)
  {
    assert (polls + [p])[..|polls|] == polls;
    var before := Run(s, polls);
    var updated := React(before, p.update, false);
    assert updated.loads == before.loads + [Served(false, p.update.value.modified)];
    assert Run(s, polls + [p]) == React(updated, p.reload, true);
    ReactAdvances(updated, p.reload, true);
    assert updated.loads[|before.loads|] == React(updated, p.reload, true).loads[|before.loads|];
  }

  // ---- every run --------------------------------------------------------------------------

  /** What a state has gained over an earlier one: loads with ever newer times, the last being `lastTime`. */
  ghost predicate Advances(s: State, t: State) {
    && s.loads <= t.loads
    && s.lastTime <= t.lastTime
    && (t.loads == s.loads ==> t.lastTime == s.lastTime)
    && (forall i :: |s.loads| <= i < |t.loads| ==> s.lastTime < t.loads[i].time <= t.lastTime)
    && (forall i, j :: |s.loads| <= i < j < |t.loads| ==> t.loads[i].time < t.loads[j].time)
  }

  lemma AdvancesTransitive(s: State, t: State, u: State)
    requires Advances(s, t) && Advances(t, u)
    ensures Advances(s, u)
  {
    forall i | |s.loads| <= i < |u.loads|
      ensures s.lastTime < u.loads[i].time <= u.lastTime
    {
      if i < |t.loads| {
        assert u.loads[i] == t.loads[i];
      }
    }
    forall i, j | |s.loads| <= i < j < |u.loads|
      ensures u.loads[i].time < u.loads[j].time
    {
      if i < |t.loads| {
        assert u.loads[i] == t.loads[i];
      }
      if j < |t.loads| {
        assert u.loads[j] == t.loads[j];
      }
    }
  }

  lemma ReactAdvances(s: State, seen: Option<Seen>, truncate: bool)
    ensures Advances(s, React(s, seen, truncate))
  {
  }

  /**
   In every run `lastTime` never decreases, and the loads are triggered by strictly increasing
   modification times, all newer than the start; so no touch is served twice.
   */
  lemma {:induction false} RunAdvances(s: State, polls: seq<Poll>)
    ensures Advances(s, Run(s, polls))
  {
    if polls != [] {
      var before, p := Run(s, polls[..|polls| - 1]), polls[|polls| - 1];
      RunAdvances(s, polls[..|polls| - 1]);
      ReactAdvances(before, p.update, false);
      ReactAdvances(React(before, p.update, false), p.reload, true);
      AdvancesTransitive(s, before, React(before, p.update, false));
      AdvancesTransitive(s, React(before, p.update, false), Step(before, p));
    }
  }

  ghost predicate Newer(seen: Option<Seen>, time: int) {
    seen.Some? && seen.value.modified > time
  }

  /** No trigger is newer than what the loop last acted on. */
  ghost predicate Quiet(s: State, p: Poll) {
    !Newer(p.update, s.lastTime) && !Newer(p.reload, s.lastTime)
  }

  /** The latest time the pass may act on before it looks at `reload`. */
  function TimeBeforeReload(s: State, p: Poll): int {
    if p.update.Some? && p.update.value.modified > s.lastTime then p.update.value.modified else s.lastTime
  }

  /**
   What one pass of a running loop serves: the update if and only if it is newer than `lastTime`, and
   the reload if and only if it is newer than what `lastTime` has become by then, unless the update
   failed.
   */
  lemma PassServesExactly(s: State, p: Poll)
    requires s.running
    ensures var t := Step(s, p);
      && (Served(false, TimeBeforeReload(s, p)) in t.loads[|s.loads|..] <==> Newer(p.update, s.lastTime))
      && ((exists x :: x in t.loads[|s.loads|..] && x.truncate)
          <==> Newer(p.reload, TimeBeforeReload(s, p)) && (Newer(p.update, s.lastTime) ==> p.update.value.loads))
      && (t.loads == s.loads <==> Quiet(s, p))
      && s.loads <= t.loads
  {
    var t := Step(s, p);
    var updated := if Newer(p.update, s.lastTime) then [Served(false, p.update.value.modified)] else [];
    var reloads := Newer(p.reload, TimeBeforeReload(s, p)) && (Newer(p.update, s.lastTime) ==> p.update.value.loads);
    var reloaded := if reloads then [Served(true, p.reload.value.modified)] else [];
    assert t.loads == s.loads + updated + reloaded;
    assert t.loads[|s.loads|..] == updated + reloaded;
    if reloads {
      assert (updated + reloaded)[|updated|] == Served(true, p.reload.value.modified);
    }
    if Newer(p.update, s.lastTime) {
      assert (updated + reloaded)[0] == Served(false, p.update.value.modified);
    }
  }

  /** After a pass the loop has caught up with every trigger it saw, so the same triggers are quiet. */
  lemma PassCatchesUp(s: State, p: Poll)
    requires Step(s, p).running
    ensures Quiet(Step(s, p), p)
    ensures Step(Step(s, p), p) == Step(s, p)
  {
  }

  /** Passes that find no trigger touched since an earlier pass load nothing, however many they are. */
  lemma {:induction false} NoTouchNoLoad(s: State, p: Poll, n: nat)
    requires Step(s, p).running
    ensures Run(Step(s, p), seq(n, _ => p)) == Step(s, p)
  {
    if n > 0 {
      var passes := seq(n, _ => p);
      assert passes[..n - 1] == seq(n - 1, _ => p);
      NoTouchNoLoad(s, p, n - 1);
      PassCatchesUp(s, p);
    }
  }

  /** A touch that is not newer than `lastTime` is never served, whatever happens later. */
  lemma PassedOverForGood(s: State, later: seq<Poll>, time: int)
    requires time <= s.lastTime
    ensures forall i :: |s.loads| <= i < |Run(s, later).loads| ==> Run(s, later).loads[i].time != time
  {
    RunAdvances(s, later);
  }

  /**
   A reload touched no later than an update that is served in the same pass is lost: neither that
   pass nor any later one serves it.
   */
  lemma ReloadBeforeUpdateIsLost(s: State, p: Poll, later: seq<Poll>)
    requires s.running && Newer(p.update, s.lastTime) && Newer(p.reload, s.lastTime)
    requires p.reload.value.modified <= p.update.value.modified
    ensures var final := Run(Step(s, p), later);
      && s.loads <= final.loads
      && forall i :: |s.loads| <= i < |final.loads| ==> final.loads[i] != Served(true, p.reload.value.modified)
  {
    var t := Step(s, p);
    assert t.loads == s.loads + [Served(false, p.update.value.modified)];
    RunAdvances(t, later);
    PassedOverForGood(t, later, p.reload.value.modified);
    assert Run(t, later).loads[|s.loads|] == t.loads[|s.loads|];
  }
}
