/** Paths of the machine from any state on. */
module Runs {
  import opened Bytes
  import opened Wal
  import opened DataFile
  import opened Engine
  import opened EngineInvariant
  import opened CrashSafety

  /** The events `es`, one after another, take `s` to `t`. */
  ghost predicate Leads(s: State, es: seq<Event>, t: State)
    decreases |es|
  {
    if es == [] then s == t
    else |s.files| > 0 && ValidLog(s.log) && Enabled(s, es[0]) && Leads(Do(s, es[0]), es[1..], t)
  }

  lemma {:induction false} LeadsOn(s: State, es: seq<Event>, t: State, more: seq<Event>, u: State)
    requires Leads(s, es, t) && Leads(t, more, u)
    ensures Leads(s, es + more, u)
    decreases |es|
  {
    hide Enabled, Do, ValidLog;
    if es == [] {
      assert es + more == more;
    } else {
      LeadsOn(Do(s, es[0]), es[1..], t, more, u);
      assert (es + more)[1..] == es[1..] + more;
    }
  }

  lemma LeadsNowhere(s: State)
    ensures Leads(s, [], s)
  {
  }

  lemma LeadsStep(s: State, e: Event, t: State)
    requires Step(s, e, t)
    ensures Leads(s, [e], t)
  {
    hide Enabled, Do, ValidLog;
    assert [e][1..] == [];
  }

  /** The states such a path leads through. */
  lemma {:induction false} LeadsThrough(s: State, es: seq<Event>, t: State) returns (ss: seq<State>)
    requires Leads(s, es, t)
    ensures |ss| == |es| + 1 && ss[0] == s && ss[|es|] == t
    ensures forall i :: 0 <= i < |es| ==> Step(ss[i], es[i], ss[i + 1])
    decreases |es|
  {
    hide Enabled, Do, ValidLog;
    if es == [] {
      ss := [s];
    } else {
      var u := Do(s, es[0]);
      var rest := LeadsThrough(u, es[1..], t);
      ss := [s] + rest;
      forall i | 0 <= i < |es|
        ensures Step(ss[i], es[i], ss[i + 1])
      {
        if i > 0 {
          assert Step(rest[i - 1], es[1..][i - 1], rest[i - 1 + 1]);
        }
      }
    }
  }

  /** Such a path from a fresh database is a run. */
  lemma LeadsIsRun(es: seq<Event>, t: State) returns (ss: seq<State>)
    requires Leads(Initial(), es, t)
    ensures IsRun(ss, es) && ss[|es|] == t
  {
    hide Leads, Step, Initial;
    ss := LeadsThrough(Initial(), es, t);
  }

  /** As `Leads`, with every event safe where it happens. */
  ghost predicate SafeLeads(s: State, es: seq<Event>, t: State)
    decreases |es|
  {
    if es == [] then s == t
    else
      && |s.files| > 0 && ValidLog(s.log) && Enabled(s, es[0]) && Safe(s, es[0])
      && SafeLeads(Do(s, es[0]), es[1..], t)
  }

  lemma {:induction false} SafeLeadsOn(s: State, es: seq<Event>, t: State, more: seq<Event>, u: State)
    requires SafeLeads(s, es, t) && SafeLeads(t, more, u)
    ensures SafeLeads(s, es + more, u)
    decreases |es|
  {
    hide Enabled, Do, ValidLog, Safe;
    if es == [] {
      assert es + more == more;
    } else {
      SafeLeadsOn(Do(s, es[0]), es[1..], t, more, u);
      assert (es + more)[1..] == es[1..] + more;
    }
  }

  lemma {:induction false} SafeLeadsKeeps(s: State, es: seq<Event>, t: State)
    requires Inv(s) && SafeLeads(s, es, t)
    ensures Inv(t)
    decreases |es|
  {
    hide Inv, Enabled, Do, ValidLog, Safe;
    if es != [] {
      StepKeeps(s, es[0], Do(s, es[0]));
      SafeLeadsKeeps(Do(s, es[0]), es[1..], t);
    }
  }

  /** Only locking for a checkpoint and losing power are ever unsafe. */
  predicate Harmful(e: Event) { e.CheckpointLock? || (e.World? && e.world.PowerLoss?) }

  ghost predicate AllHarmless(es: seq<Event>) {
    forall i :: 0 <= i < |es| ==> !Harmful(es[i])
  }

  lemma HarmlessConcat(a: seq<Event>, b: seq<Event>)
    requires AllHarmless(a) && AllHarmless(b)
    ensures AllHarmless(a + b)
  {
  }

  lemma {:induction false} HarmlessLeads(s: State, es: seq<Event>, t: State)
    requires Leads(s, es, t) && AllHarmless(es)
    ensures SafeLeads(s, es, t)
    decreases |es|
  {
    hide Enabled, Do, ValidLog;
    if es != [] {
      assert !Harmful(es[0]);
      forall i | 0 <= i < |es[1..]|
        ensures !Harmful(es[1..][i])
      {
        assert es[1..][i] == es[i + 1];
      }
      HarmlessLeads(Do(s, es[0]), es[1..], t);
    }
  }

  /** Power is lost in state `t`, and `c` and `w` are left. */
  ghost predicate Crashes(t: State, c: File, w: seq<Byte>) {
    |t.files| > 0 && ValidLog(t.log) && Torn(c, t.files) && Survives(w, t.log)
  }
}
