/**
 * One polling cycle of the window watcher. The watcher remembers the last
 * show state it saw for every visible top-level window (`states`, keyed by
 * window handle). Each cycle it takes the visible windows in enumeration
 * order, reads each one's show state, reports a window that became minimized
 * and a window that came back from minimized to normal or maximized, records
 * the new state, and then forgets every window that is no longer visible.
 * The window system is a parameter: `cur` is the enumeration (handle and
 * title, in the order the windows were seen) and `showCmd` is the show state
 * that `GetWindowPlacement` reports for a handle.
 */
module WindowWatch {
  import opened Wrappers
  import opened Events

  type Handle = int

  /** The `showCmd` values of the Win32 API that the watcher compares against. */
  const SW_SHOWNORMAL := 1
  const SW_SHOWMINIMIZED := 2
  const SW_SHOWMAXIMIZED := 3

  /** What one window contributes to a cycle, given the state remembered for it (`prev`,
      absent at its first sighting) and the state read now. */
  function Transition(prev: Option<int>, st: int, title: string): (r: Option<Notice>)
    ensures prev.None? ==> r.None?
    ensures r == Some(WindowMinimized(title)) <==>
              prev.Some? && prev.value != SW_SHOWMINIMIZED && st == SW_SHOWMINIMIZED
    ensures r == Some(WindowRestored(title)) <==>
              prev == Some(SW_SHOWMINIMIZED) && (st == SW_SHOWNORMAL || st == SW_SHOWMAXIMIZED)
    ensures r.Some? ==> r == Some(WindowMinimized(title)) || r == Some(WindowRestored(title))
  {
    match prev
    case None => None
    case Some(p) =>
      if st == p then None
      else if st == SW_SHOWMINIMIZED then Some(WindowMinimized(title))
      else if p == SW_SHOWMINIMIZED && (st == SW_SHOWNORMAL || st == SW_SHOWMAXIMIZED) then Some(WindowRestored(title))
      else None
  }

  /** `dict.get`. */
  function Get(states: map<Handle, int>, h: Handle): Option<int> {
    if h in states then Some(states[h]) else None
  }

  function SeqOf(o: Option<Notice>): seq<Notice> {
    if o.Some? then [o.value] else []
  }

  /** The handles of an enumeration. */
  function Handles(cur: seq<(Handle, string)>): set<Handle> {
    set i | 0 <= i < |cur| :: cur[i].0
  }

  /** The enumeration is a dictionary's items: no handle occurs twice. */
  predicate DistinctHandles(cur: seq<(Handle, string)>) {
    forall i, j | 0 <= i < j < |cur| :: cur[i].0 != cur[j].0
  }

  /** The notice one enumerated window contributes. */
  function EntryNotices(states: map<Handle, int>, entry: (Handle, string), showCmd: Handle -> int): seq<Notice> {
    SeqOf(Transition(Get(states, entry.0), showCmd(entry.0), entry.1))
  }

  /** The notices of a whole cycle, window by window in enumeration order, each window
      judged against the state remembered before the cycle. */
  function CycleNotices(states: map<Handle, int>, cur: seq<(Handle, string)>, showCmd: Handle -> int): seq<Notice>
    decreases |cur|
  {
    if cur == [] then []
    else CycleNotices(states, cur[..|cur| - 1], showCmd) + EntryNotices(states, cur[|cur| - 1], showCmd)
  }

  /** The states remembered after a cycle: exactly the visible windows, each with the
      state read in that cycle. */
  function Tracked(cur: seq<(Handle, string)>, showCmd: Handle -> int): map<Handle, int> {
    map h | h in Handles(cur) :: showCmd(h)
  }

  class WindowWatcher {
    var states: map<Handle, int>

    constructor()
      ensures states == map[]
    {
      states := map[];
    }

    /** One iteration of the polling loop. */
    method Poll(cur: seq<(Handle, string)>, showCmd: Handle -> int, now: DateTime) returns (events: seq<string>)
      requires DistinctHandles(cur)
      modifies this
      ensures events == RenderAll(CycleNotices(old(states), cur, showCmd), now)
      ensures states == Tracked(cur, showCmd)
    {
      ghost var before := states;
      events := [];
      var i := 0;
      OverlayNothing(before, cur, showCmd);
      while i < |cur|
        invariant 0 <= i <= |cur|
        invariant events == RenderAll(CycleNotices(before, cur[..i], showCmd), now)
        invariant states == Overlay(before, cur[..i], showCmd)
      {
        CycleStep(before, cur, i, showCmd);
        OverlayStep(before, cur, i, showCmd);
        var notices := Observe(cur[i].0, cur[i].1, showCmd(cur[i].0));
        RenderAllConcat(CycleNotices(before, cur[..i], showCmd), notices, now);
        events := events + RenderAll(notices, now);
        i := i + 1;
      }
      assert cur[..i] == cur;
      Forget(Handles(cur));
      OverlayRestricted(before, cur, showCmd);
    }

    /** The body of the loop over the enumeration: compare the state read now with the
        remembered one, report a minimize or a restore, and remember the new state. */
    method Observe(h: Handle, title: string, st: int) returns (notices: seq<Notice>)
      modifies this
      ensures notices == SeqOf(Transition(Get(old(states), h), st, title))
      ensures states == old(states)[h := st]
    {
      var prev := Get(states, h);
      notices := [];
      if prev.None? {
        states := states[h := st];
      } else if st != prev.value {
        if st == SW_SHOWMINIMIZED {
          notices := [WindowMinimized(title)];
        } else if prev.value == SW_SHOWMINIMIZED && (st == SW_SHOWNORMAL || st == SW_SHOWMAXIMIZED) {
          notices := [WindowRestored(title)];
        }
        states := states[h := st];
      } else {
        assert states[h := st] == states;
      }
    }

    /** Drop every remembered window that is not among `visible`. */
    method Forget(visible: set<Handle>)
      modifies this
      ensures states == Restrict(old(states), visible)
    {
      var stale := states.Keys - visible;
      RestrictAll(states, visible);
      while stale != {}
        invariant stale * visible == {}
        invariant states == Restrict(old(states), stale + visible)
        decreases |stale|
      {
        NonEmptyHasElement(stale);
        var gone :| gone in stale;
        RestrictRemove(old(states), stale + visible, gone);
        assert stale + visible - {gone} == (stale - {gone}) + visible;
        states := states - {gone};
        stale := stale - {gone};
      }
    }
  }

  /** The entries of `m` whose key is in `keep`. */
  function Restrict(m: map<Handle, int>, keep: set<Handle>): map<Handle, int> {
    map h | h in m && h in keep :: m[h]
  }

  lemma RestrictAll(m: map<Handle, int>, keep: set<Handle>)
    ensures Restrict(m, (m.Keys - keep) + keep) == m
  {
  }

  lemma RestrictRemove(m: map<Handle, int>, keep: set<Handle>, h: Handle)
    ensures Restrict(m, keep) - {h} == Restrict(m, keep - {h})
  {
  }

  /** The states part-way through the loop: the windows visited so far with their new
      states, over the states remembered before the cycle. */
  function Overlay(before: map<Handle, int>, visited: seq<(Handle, string)>, showCmd: Handle -> int): map<Handle, int> {
    map h | h in before.Keys + Handles(visited) :: if h in Handles(visited) then showCmd(h) else before[h]
  }

  lemma OverlayNothing(before: map<Handle, int>, cur: seq<(Handle, string)>, showCmd: Handle -> int)
    ensures Overlay(before, cur[..0], showCmd) == before
  {
    assert Handles(cur[..0]) == {};
  }

  /** Visiting the next window: its remembered state is still the one from before the cycle,
      and the overlay grows by its new state. */
  lemma OverlayStep(before: map<Handle, int>, cur: seq<(Handle, string)>, i: int, showCmd: Handle -> int)
    requires DistinctHandles(cur) && 0 <= i < |cur|
    ensures Get(Overlay(before, cur[..i], showCmd), cur[i].0) == Get(before, cur[i].0)
    ensures Overlay(before, cur[..i + 1], showCmd) == Overlay(before, cur[..i], showCmd)[cur[i].0 := showCmd(cur[i].0)]
  {
    CycleStep(before, cur, i, showCmd);
  }

  /** Forgetting the windows that are not visible leaves exactly the visible ones with their
      new states. */
  lemma OverlayRestricted(before: map<Handle, int>, cur: seq<(Handle, string)>, showCmd: Handle -> int)
    ensures Restrict(Overlay(before, cur, showCmd), Handles(cur)) == Tracked(cur, showCmd)
  {
  }

  /** One more window of the enumeration: its notice follows the earlier ones, its handle
      is new to the cycle, and the handles seen grow by it. */
  lemma CycleStep(states: map<Handle, int>, cur: seq<(Handle, string)>, i: int, showCmd: Handle -> int)
    requires DistinctHandles(cur) && 0 <= i < |cur|
    ensures CycleNotices(states, cur[..i + 1], showCmd) ==
              CycleNotices(states, cur[..i], showCmd) + EntryNotices(states, cur[i], showCmd)
    ensures cur[i].0 !in Handles(cur[..i])
    ensures Handles(cur[..i + 1]) == Handles(cur[..i]) + {cur[i].0}
  {
    assert cur[..i + 1][..i] == cur[..i];
    assert cur[..i + 1] == cur[..i] + [cur[i]];
  }

  /** Each window's notice lands at its own place in the cycle: what comes before it is
      the earlier windows' notices, what comes after it the later windows'. */
  lemma {:induction false} CycleSplit(states: map<Handle, int>, a: seq<(Handle, string)>, b: seq<(Handle, string)>, showCmd: Handle -> int)
    ensures CycleNotices(states, a + b, showCmd) == CycleNotices(states, a, showCmd) + CycleNotices(states, b, showCmd)
    decreases |b|
  {
    if b == [] {
      assert a + b == a;
    } else {
      var b' := b[..|b| - 1];
      assert (a + b)[..|a + b| - 1] == a + b';
      CycleSplit(states, a, b', showCmd);
    }
  }

  /** A window contributes at most one notice, so a cycle emits at most one per window. */
  lemma {:induction false} CycleAtMostOnePerWindow(states: map<Handle, int>, cur: seq<(Handle, string)>, showCmd: Handle -> int)
    ensures |CycleNotices(states, cur, showCmd)| <= |cur|
    decreases |cur|
  {
    if cur != [] {
      CycleAtMostOnePerWindow(states, cur[..|cur| - 1], showCmd);
    }
  }

  /** The cycle is the windows' own notices, in enumeration order. */
  lemma WindowReportedInPlace(states: map<Handle, int>, cur: seq<(Handle, string)>, showCmd: Handle -> int, i: int)
    requires 0 <= i < |cur|
    ensures CycleNotices(states, cur, showCmd) ==
              CycleNotices(states, cur[..i], showCmd) + EntryNotices(states, cur[i], showCmd)
                + CycleNotices(states, cur[i + 1..], showCmd)
  {
    assert cur == cur[..i] + ([cur[i]] + cur[i + 1..]);
    CycleSplit(states, cur[..i], [cur[i]] + cur[i + 1..], showCmd);
    CycleSplit(states, [cur[i]], cur[i + 1..], showCmd);
    assert CycleNotices(states, [cur[i]], showCmd) == EntryNotices(states, cur[i], showCmd) by {
      assert [cur[i]][..0] == [];
    }
  }

  /** A notice is in the cycle exactly when some enumerated window produced it. */
  lemma {:induction false} CycleNoticeSources(states: map<Handle, int>, cur: seq<(Handle, string)>, showCmd: Handle -> int, n: Notice)
    ensures n in CycleNotices(states, cur, showCmd) <==>
              exists i | 0 <= i < |cur| :: Transition(Get(states, cur[i].0), showCmd(cur[i].0), cur[i].1) == Some(n)
    decreases |cur|
  {
    if cur != [] {
      var pre := cur[..|cur| - 1];
      CycleNoticeSources(states, pre, showCmd, n);
      if n in CycleNotices(states, cur, showCmd) && n !in CycleNotices(states, pre, showCmd) {
        var k := |cur| - 1;
        assert Transition(Get(states, cur[k].0), showCmd(cur[k].0), cur[k].1) == Some(n);
      }
      if exists i | 0 <= i < |cur| :: Transition(Get(states, cur[i].0), showCmd(cur[i].0), cur[i].1) == Some(n) {
        var i :| 0 <= i < |cur| && Transition(Get(states, cur[i].0), showCmd(cur[i].0), cur[i].1) == Some(n);
        if i < |pre| {
          assert pre[i] == cur[i];
        }
      }
    }
  }

  /** No window changed in a way the watcher reports: the cycle is silent. */
  lemma {:induction false} QuietCycle(states: map<Handle, int>, cur: seq<(Handle, string)>, showCmd: Handle -> int)
    requires forall i | 0 <= i < |cur| :: Transition(Get(states, cur[i].0), showCmd(cur[i].0), cur[i].1).None?
    ensures CycleNotices(states, cur, showCmd) == []
    decreases |cur|
  {
    if cur != [] {
      var pre := cur[..|cur| - 1];
      assert forall i | 0 <= i < |pre| :: pre[i] == cur[i];
      QuietCycle(states, pre, showCmd);
    }
  }

  /** Windows seen for the first time are only recorded: a cycle over windows the watcher
      has never seen (the first cycle in particular) emits nothing. */
  lemma FirstSightingSilent(states: map<Handle, int>, cur: seq<(Handle, string)>, showCmd: Handle -> int)
    requires forall i | 0 <= i < |cur| :: cur[i].0 !in states
    ensures CycleNotices(states, cur, showCmd) == []
  {
    QuietCycle(states, cur, showCmd);
  }

  /** Polling again while no window changed emits nothing. */
  lemma SteadyCycleSilent(cur: seq<(Handle, string)>, showCmd: Handle -> int)
    ensures CycleNotices(Tracked(cur, showCmd), cur, showCmd) == []
  {
    var states := Tracked(cur, showCmd);
    forall i | 0 <= i < |cur|
      ensures Transition(Get(states, cur[i].0), showCmd(cur[i].0), cur[i].1).None?
    {
      assert cur[i].0 in Handles(cur);
    }
    QuietCycle(states, cur, showCmd);
  }

  /** A window that was known and not minimized, and is minimized now, is reported as
      minimized, once, at its place in the cycle. */
  lemma MinimizeReported(states: map<Handle, int>, cur: seq<(Handle, string)>, showCmd: Handle -> int, i: int)
    requires 0 <= i < |cur|
    requires cur[i].0 in states && states[cur[i].0] != SW_SHOWMINIMIZED
    requires showCmd(cur[i].0) == SW_SHOWMINIMIZED
    ensures EntryNotices(states, cur[i], showCmd) == [WindowMinimized(cur[i].1)]
    ensures WindowMinimized(cur[i].1) in CycleNotices(states, cur, showCmd)
  {
    CycleNoticeSources(states, cur, showCmd, WindowMinimized(cur[i].1));
  }

  /** A window that was minimized and is now shown normally or maximized is reported as
      restored, once, at its place in the cycle. */
  lemma RestoreReported(states: map<Handle, int>, cur: seq<(Handle, string)>, showCmd: Handle -> int, i: int)
    requires 0 <= i < |cur|
    requires cur[i].0 in states && states[cur[i].0] == SW_SHOWMINIMIZED
    requires showCmd(cur[i].0) == SW_SHOWNORMAL || showCmd(cur[i].0) == SW_SHOWMAXIMIZED
    ensures EntryNotices(states, cur[i], showCmd) == [WindowRestored(cur[i].1)]
    ensures WindowRestored(cur[i].1) in CycleNotices(states, cur, showCmd)
  {
    CycleNoticeSources(states, cur, showCmd, WindowRestored(cur[i].1));
  }
}
