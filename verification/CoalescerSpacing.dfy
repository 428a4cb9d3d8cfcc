/** Before a flush, a key's commits are a window apart, however much is offered to it. */
module CoalescerSpacing {
  import opened Types
  import opened Coalescer
  import opened Spacing
  import Keys = CoalescerKeys

  function TimesOf(commits: seq<Commit>, key: Key): seq<Time> {
    if commits == [] then []
    else if commits[0].key == key then [commits[0].at] + TimesOf(commits[1..], key)
    else TimesOf(commits[1..], key)
  }

  lemma {:induction false} TimesOfJoined(a: seq<Commit>, b: seq<Commit>, key: Key)
    ensures TimesOf(a + b, key) == TimesOf(a, key) + TimesOf(b, key)
  {
    if a == [] {
      assert a + b == b;
    } else {
      assert (a + b)[1..] == a[1..] + b;
      TimesOfJoined(a[1..], b, key);
    }
  }

  /** The earliest instant at which a key's next commit could come. */
  function Earliest(s: State, key: Key): Time {
    if key in s.slots && s.slots[key].stop in s.timers then
      var due := s.timers[s.slots[key].stop].due;
      if due > s.clock then due else s.clock
    else s.clock
  }

  /** A timer that has fired was due. */
  ghost predicate FiredWhenDue(s: State) {
    forall t :: t in s.timers && s.timers[t].fired ==> s.timers[t].due <= s.clock
  }

  lemma StepSpacing(s: State, e: Event, key: Key)
    requires Paired(s) && FiredWhenDue(s) && !s.closed && 0.0 <= s.window
    requires Enabled(s, e) && !e.Flush?
    ensures FiredWhenDue(Next(s, e)) && Next(s, e).window == s.window && !Next(s, e).closed
    ensures Earliest(s, key) <= Earliest(Next(s, e), key)
    ensures var times := TimesOf(Out(s, e), key);
      times == [] || (times == [s.clock] && Earliest(s, key) <= s.clock
                      && s.clock + s.window <= Earliest(Next(s, e), key))
  {
    var out := Out(s, e);
    if out != [] {
      assert out[1..] == [];
    }
    PairedStep(s, e);
  }

  lemma {:induction false} CommitsSpacedFrom(s: State, es: seq<Event>, key: Key)
    requires Paired(s) && FiredWhenDue(s) && !s.closed && 0.0 <= s.window
    requires Possible(s, es) && Keys.BeforeFlush(es)
    ensures var times := TimesOf(Commits(s, es), key);
      Spaced(times, s.window) && forall i :: 0 <= i < |times| ==> Earliest(s, key) <= times[i]
    decreases |es|
  {
    hide Next, Out, Enabled, Earliest, Paired, FiredWhenDue;
    if es != [] {
      var e, s1, rest := es[0], Next(s, es[0]), es[1..];
      assert !e.Flush?;
      assert forall i :: 0 <= i < |rest| ==> rest[i] == es[i + 1];
      StepSpacing(s, e, key);
      PairedStep(s, e);
      CommitsSpacedFrom(s1, rest, key);
      TimesOfJoined(Out(s, e), Commits(s1, rest), key);
      var times, later := TimesOf(Commits(s, es), key), TimesOf(Commits(s1, rest), key);
      if TimesOf(Out(s, e), key) == [] {
        assert times == later;
      } else {
        assert times == [s.clock] + later;
      }
    }
  }

  /**
   In any run before a flush, two commits under one key are at least a window apart, so a span
   holds at most one more of them than the whole windows that fit in it.
   */
  lemma AtMostOnePerWindow(window: Time, clock: Time, es: seq<Event>, key: Key)
    requires 0.0 < window
    requires Possible(Init(window, clock), es) && Keys.BeforeFlush(es)
    ensures var times := TimesOf(Commits(Init(window, clock), es), key);
      Spaced(times, window) && AtMostOnePer(times, window)
  {
    CommitsSpacedFrom(Init(window, clock), es, key);
    SpacedIsSparse(TimesOf(Commits(Init(window, clock), es), key), window);
  }
}
